# nmi-chess-engine search core in Dafny

This project models `MyBot`, the chess bot of NotManyIdeas' entry to the Tiny
Chess Bot Challenge, and proves properties of it. Each `Think` runs one
negamax alpha-beta search of depth 6 from the side to move. The search uses
a transposition table of `TTSize + 1 = 0x700000` slots indexed by
`ZobristKey & 0x6FFFFF`. Each node:

- probes its slot;
- returns 0 on a draw;
- scores a leaf as a mate score or as the static evaluation;
- otherwise orders its moves by a tiered score (hash move, promotion,
  capture, quiet), searches them, and stores the result back into the slot.

The root move is whatever the depth-6 node last wrote into `moveToPlay`.

The static evaluation sums, per side, a material value and a
piece-square bonus for every piece. The bonuses are signed bytes packed
eight to a 64-bit word, one word per (piece type, rank).

Layout, following the program's structure:

- `constants.dfy` (`BotConstants`): `infinity`, `botDepth`, the mate base
  `9999999`, `Math.Max`/`Math.Min`.
- `chess_api.dfy` (`ChessApi`): the part of the board API the bot consumes.
  A position is a node of a finite game tree whose successors are the
  positions reached by its legal moves, so `MakeMove` followed by `UndoMove`
  is a step to a child and back.
- `transposition_table.dfy` (`Transpositions`): `TTFlags`, `Transposition`,
  the slot index, the probe, the flag choice and the store.
- `move_ordering.dfy` (`MoveOrdering`): `GetMoveScore`, and `OrderMoves` as
  the function `Ordered` (scores, a sort by score, a reverse).
- `piece_square_tables.dfy` (`PieceSquareTables`): the packed table,
  `BitConverter.GetBytes`, the `(sbyte)` cast and `GetPSTValue`, with a
  proof that the encoding gives back every bonus it packs.
- `evaluation.dfy` (`Evaluation`): the per-side sums and the evaluation.
- `search_model.dfy` (`SearchModel`): `Search` as a function `SearchNode`
  of the state it reads and writes (the table and `moveToPlay`).
- `my_bot.dfy` (`Bot`): the class `MyBot`.
  - `TTable` is an `array<Transposition>`, `moveToPlay` a mutable field and
    `compressedMGPSTs` a constant field holding the packed tables.
  - `Think`, `Search`, `CheckMaterialAndPosition`, `Evaluate` and
    `OrderMoves` are methods with the source's loops.
  - Each method is proved equal to the specification function beside it.

Behaviour modelled as the code has it, where it departs from what one would
expect of such an engine:

- A node that fails low (score at most the alpha it was called with) is
  stored as `CUT_NODE`, and a node that fails high as `ALL_NODE`. The probe
  treats `CUT_NODE` as a lower bound (raising alpha) and `ALL_NODE` as an
  upper bound (lowering beta).
- The store writes the bound against the beta the probe may have narrowed.
  It writes `moveToPlay`, not the node's own best move.
- No store ever writes the `zobristKey` field, so every slot keeps key 0, and
  a probe can only hit for a position whose key is 0
  (`Transpositions.HitNeedsZeroKey`).
- The capture score `1000 - 10 * victim - attacker` puts captures of cheaper
  victims first (`MoveOrdering.CheaperVictimScoresHigher`).
- The score loop starts at index 1, so the first legal move keeps score 0 and
  is searched after every move that scores above zero
  (`MoveOrdering.FirstMoveOrderedAsQuiet`).

The bot has no iterative deepening, quiescence search, killer or history
tables, tapered evaluation, ply-relative mate scores or stalemate test of its
own, and neither has the model.

## Model

| member | source | states |
|---|---|---|
| ChessApi.MakeMoveIsSuccessor | MyBot.cs:109-111 | making a legal move leads to the position recorded for that move, and undoing it restores the node |
| ChessApi.MakeMoveKeepsChessBound | MyBot.cs:109 | making any move keeps the game inside chess-bounded positions (at most 32 pieces, fewer than 100000 plies) |
| ChessApi.MakeMoveKeepsBound | MyBot.cs:100-110 | the bound of fewer than 256 legal moves that the byte loop counter needs holds in every position the search reaches |
| Transpositions.Slot | MyBot.cs:78 | the index `key & 0x6FFFFF` is below the table length `TTSize + 1` |
| Transpositions.SlotSkipsBit20 | MyBot.cs:40-41 | bit 20 of every slot index is clear, so half of the slots below 0x600000 are never used |
| Transpositions.IsHit | MyBot.cs:79 | the probe's guard (flag not INVALID, key equal, stored depth at least the requested one) never holds for the default entry every slot starts with |
| Transpositions.ProbeEntry | MyBot.cs:78-95 | the probe cuts off exactly on a valid, key-matching, deep-enough entry that is PV_NODE, or CUT_NODE at or above beta, or ALL_NODE at or below alpha, and then returns the stored score; otherwise it only narrows the window, raising alpha to a CUT_NODE score or lowering beta to an ALL_NODE score |
| Transpositions.NodeFlag | MyBot.cs:128-133 | CUT_NODE if and only if the score is at most the original alpha, ALL_NODE if and only if it is above that and at least beta, PV_NODE if and only if it is strictly between |
| Transpositions.Stored | MyBot.cs:124-133 | the store sets evaluation, move, the depth as a byte and the flag, and leaves the key field as it was |
| Transpositions.HitNeedsZeroKey | MyBot.cs:124-133 | since no store writes a key, a probe into a table of unset keys can only hit for key 0 |
| MoveOrdering.GetMoveScore | MyBot.cs:146-158 | scores lie in 0..infinity; the score is infinity exactly for the hash move and 0 exactly for a quiet move that is neither hash move, promotion nor capture |
| MoveOrdering.TiersAreStrictlyOrdered | MyBot.cs:150-157 | every hash move scores above every promotion, every promotion above every capture, every capture above every quiet move |
| MoveOrdering.CheaperVictimScoresHigher | MyBot.cs:154-155 | of two captures, the one taking the cheaper piece type scores higher |
| MoveOrdering.InsertByScorePermutes | MyBot.cs:142 | inserting into the sorted list adds exactly the inserted pair |
| MoveOrdering.InsertByScoreMoves | MyBot.cs:142 | inserting adds exactly the inserted pair's move to the moves |
| MoveOrdering.InsertByScoreAscending | MyBot.cs:142 | inserting into an ascending list keeps it ascending |
| MoveOrdering.SortByScoreAscending | MyBot.cs:142 | Array.Sort leaves the scores ascending |
| MoveOrdering.SortByScorePermutes | MyBot.cs:142 | Array.Sort rearranges the (score, move) pairs and nothing more |
| MoveOrdering.SortByScoreMoves | MyBot.cs:142 | Array.Sort rearranges the moves and nothing more |
| MoveOrdering.SortByScore | MyBot.cs:142 | Array.Sort keeps the number of (score, move) pairs; its order and permutation are the two lemmas below |
| MoveOrdering.Reversed | MyBot.cs:143 | Array.Reverse keeps the number of moves |
| MoveOrdering.ReversedPermutes | MyBot.cs:143 | Array.Reverse rearranges and nothing more |
| MoveOrdering.ScoredMoves | MyBot.cs:140-141 | the pairs the score loop builds carry the moves in their original order |
| MoveOrdering.Ordered | MyBot.cs:138-144 | ordering keeps the number of moves |
| MoveOrdering.OrderedIsPermutation | MyBot.cs:138-144 | the ordered moves are a permutation of the legal moves |
| MoveOrdering.OrderedMember | MyBot.cs:138-144 | every ordered move is a legal move |
| MoveOrdering.OrderedScoresDescend | MyBot.cs:140-143 | after the sort and the reverse the scores are non-increasing and the pairs are those the score loop produced |
| MoveOrdering.ScoredMoveIsAssigned | MyBot.cs:140-141 | each pair's score is the move's GetMoveScore, or 0 for the first move |
| MoveOrdering.OrderedByAssignedScore | MyBot.cs:138-144 | for distinct moves, the search sees them in non-increasing order of the score each was assigned |
| MoveOrdering.HashMoveOrderedFirst | MyBot.cs:138-158 | the hash move is searched first unless it is the first legal move |
| MoveOrdering.FirstMoveOrderedAsQuiet | MyBot.cs:141 | the first legal move, never scored, is searched after every move whose score is above zero |
| PieceSquareTables.CompressedMGPSTsIsPacked | MyBot.cs:27-34 | the table has six rows of eight words |
| PieceSquareTables.GetBytes | MyBot.cs:163 | a word has eight bytes |
| PieceSquareTables.Digits | MyBot.cs:163 | the n lowest base-256 digits are n bytes |
| PieceSquareTables.SignedByte | MyBot.cs:163 | the `(sbyte)` cast lies in -128..127 and is non-negative exactly for bytes below 128 |
| PieceSquareTables.GetPSTValue | MyBot.cs:160-164 | every bonus lies in -128..127 |
| PieceSquareTables.MirrorSquare | MyBot.cs:162 | the mirrored square has rank 7 - rank and the same file |
| PieceSquareTables.MirrorSquareInvolution | MyBot.cs:162 | mirroring twice gives the square back |
| PieceSquareTables.BlackReadsMirroredSquare | MyBot.cs:160-164 | black's bonus on a square is white's bonus on the rank-mirrored square |
| PieceSquareTables.ToByte | MyBot.cs:163 | the byte of a signed bonus reads back as that bonus through the `(sbyte)` cast |
| PieceSquareTables.FromDigits | MyBot.cs:163 | the number built from n base-256 digits is below 256^n |
| PieceSquareTables.DigitsOfFromDigits | MyBot.cs:163 | reading the digits of a number built from digits gives them back |
| PieceSquareTables.PackTable | MyBot.cs:27-34 | packing a 6 x 8 x 8 grid of signed bytes gives a table of the packed shape |
| PieceSquareTables.UnpackRow | MyBot.cs:163 | byte `7 - file` of a packed rank is the bonus of that file |
| PieceSquareTables.DecodesPackedGrid | MyBot.cs:160-164 | GetPSTValue on a packed grid returns the grid's bonus for the piece type, the rank as seen by that side, and the file |
| Evaluation.PieceWorth | MyBot.cs:59 | one piece adds its material value plus a bonus within -128..127 |
| Evaluation.ListWorthOfPrefix | MyBot.cs:58-59 | the sum over the first j squares of a piece list does not depend on what follows them |
| Evaluation.ListWorthOfLast | MyBot.cs:55-60 | one piece list's sum over n pieces is the sum over n - 1 plus the n-th piece when it is on that list |
| Evaluation.KindsWorthOfLast | MyBot.cs:55-60 | the sum over piece types 1..upTo of n pieces is that of n - 1 pieces plus the n-th piece's contribution |
| Evaluation.NoPiecesNoWorth | MyBot.cs:53-60 | with no pieces the sum is 0 |
| Evaluation.KindsWorthIsSideWorth | MyBot.cs:51-63 | summing piece type by piece type, as the loops do, counts every piece of the side exactly once: it equals the plain sum over the pieces in board order |
| Evaluation.SideWorth | MyBot.cs:51-63 | a side's plain sum over n pieces lies between -46 n and 32127 n, each piece adding at most a king with the highest bonus and taking away at most a pawn with the lowest |
| Evaluation.MgSideWorth | MyBot.cs:51-63 | one side's sum with the bot's tables lies within the same per-piece bounds |
| Evaluation.StaticEval | MyBot.cs:65-71 | the evaluation lies within 32173 per piece on the board, so it cannot overflow an int on a chess board |
| Evaluation.FlippedPieceWorth | MyBot.cs:160-164 | a piece on the mirrored square is worth for one side what it is worth on the square for the other side |
| Evaluation.FlipSwapsSides | MyBot.cs:51-63 | swapping colours and mirroring ranks swaps the two sides' sums |
| Evaluation.ColourFlipNegates | MyBot.cs:65-71 | the evaluation of the colour-flipped, rank-mirrored position is the negated evaluation |
| BotConstants.Max | MyBot.cs:86 | `Math.Max` is at least both arguments and equals one of them |
| BotConstants.Min | MyBot.cs:89 | `Math.Min` is at most both arguments and equals one of them |
| SearchModel.MateScore | MyBot.cs:101-102 | the checkmated side's score is negative for games under 100000 plies and stays above -infinity |
| SearchModel.LaterMateScoresHigher | MyBot.cs:102 | a mate at a higher ply count scores higher for the checkmated side |
| SearchModel.LeafBounded | MyBot.cs:101-102 | on a chess board every leaf score, mate or evaluation, lies within ±9999999 |
| SearchModel.MateBelowEvaluation | MyBot.cs:101-102 | a mate before ply 89000 scores below the evaluation of any unmated board with at most 32 pieces, from either side |
| SearchModel.LeafScore | MyBot.cs:101-102 | a checkmated leaf gets exactly the mate score `PlyCount * 100 - 9999999`, negative below 100000 plies and above -infinity; any other leaf gets the evaluation when `color` is 1 and its negation when `color` is -1 |
| SearchModel.AfterChild | MyBot.cs:110-120 | the loop body negates the child's score, raises the best score and alpha to it, keeps the child's table, and changes moveToPlay only at the bot's depth when the score beats the best so far |
| SearchModel.MaxOfBounds | MyBot.cs:113-115 | the running maximum is at least every element and equals one of them or the start |
| SearchModel.SearchNode | MyBot.cs:73-136 | Search keeps the table at TTSize + 1 slots |
| SearchModel.ExpandNode | MyBot.cs:104-135 | the expanding part of Search keeps the table at TTSize + 1 slots |
| SearchModel.LoopStep | MyBot.cs:109-120 | one pass of the loop body keeps the table at TTSize + 1 slots |
| SearchModel.MoveLoop | MyBot.cs:106-122 | the move loop keeps the table at TTSize + 1 slots |
| SearchModel.OrderedChildrenBounded | MyBot.cs:104-110 | every ordered move leads to a position whose legal moves stay below 256 |
| SearchModel.UnexpandedNodeScore | MyBot.cs:78-102 | a node that does not expand writes nothing; it returns the stored score on a probe cutoff, 0 on a draw, else the mate score or the side-relative evaluation |
| SearchModel.ExaminedLast | MyBot.cs:120-121 | a loop that breaks after one move returns the best score so far raised to that move's score, and it stopped because alpha reached beta |
| SearchModel.AlphaStaysBelowCons | MyBot.cs:113-121 | a first move that leaves the running alpha below beta, followed by moves that keep it below beta, keeps it below beta after every move |
| SearchModel.ExaminedCons | MyBot.cs:107-122 | a loop that goes on after its first move keeps the properties of the rest of the loop |
| SearchModel.MoveLoopExamination | MyBot.cs:106-122 | the loop's result is the best of the child scores it examined; it examines at least one move; it goes on while the running alpha stays below beta and stops exactly when it reaches it |
| SearchModel.ExpandedNodeScore | MyBot.cs:106-135 | an expanding node returns the best of at least one child score, starting from -infinity |
| SearchModel.ExpandedNodeStore | MyBot.cs:124-133 | after an expanding node its slot holds the returned score, the depth as a byte, moveToPlay and the flag chosen against the original alpha and the probe-narrowed beta |
| SearchModel.SearchFrame | MyBot.cs:73-136 | no search writes a key; below the bot's depth moveToPlay is unchanged; at the bot's depth it is unchanged or one of the node's legal moves (which one is SearchRootChoice) |
| SearchModel.MoveLoopFrame | MyBot.cs:107-122 | the move loop writes no key and sets moveToPlay only to one of its moves, and only at the bot's depth (which one is MoveLoopChoice) |
| SearchModel.SearchBounded | MyBot.cs:73-136 | on a chess board with a table of bounded scores, every search returns a score within ±9999999 and leaves every stored score within it |
| SearchModel.StepBounded | MyBot.cs:109-117 | one pass of the loop body on a chess board raises the best score to at least its old value and to a score within ±9999999, and stores only bounded scores |
| SearchModel.LoopBounded | MyBot.cs:105-122 | the move loop's best only rises from -infinity, lies within ±9999999 once a move is examined, and the loop stores only bounded scores |
| SearchModel.StepChoice | MyBot.cs:109-117 | one loop pass at the bot's depth sets moveToPlay to its move exactly when the child's score beats the best so far, and otherwise leaves it |
| SearchModel.MoveLoopChoice | MyBot.cs:107-122 | at the bot's depth, a loop that raises the best score leaves in moveToPlay the first examined move whose child score equals the loop's best, every move examined before it scoring strictly less; a loop that does not raise it leaves moveToPlay unchanged |
| SearchModel.SearchRootChoice | MyBot.cs:73-136 | a root node that does not expand leaves moveToPlay unchanged; one that expands leaves the first ordered move whose child score is the returned score, every earlier move scoring strictly less, or the previous move when no child scores above -infinity |
| SearchModel.RootPicksLegalMove | MyBot.cs:105-118 | on a chess board a root that expands leaves one of its legal moves in moveToPlay, since some child always beats -infinity |
| Bot.MyBot.constructor | MyBot.cs:27-43 | the table starts with TTSize + 1 default entries, all with key 0 and flag INVALID; the piece-square tables are the packed constants; every stored score is within ±9999999 |
| Bot.MyBot.Think | MyBot.cs:45-49 | Think leaves the state a depth-6 full-window search from the side to move leaves, with every key still 0; it returns moveToPlay. When the root expands, that is one of the board's legal moves: the first ordered root move whose child score is the root's score, every move searched before it scoring less. Otherwise it is the previous move. Every stored score stays within ±9999999 |
| Bot.MyBot.CheckMaterialAndPosition | MyBot.cs:51-63 | the loops over piece types 1..6 and their piece lists, reading the bot's `compressedMGPSTs`, add (white) or subtract (black) exactly the side's material-plus-bonus sum over its pieces in board order, each piece counted once |
| Bot.MyBot.Evaluate | MyBot.cs:65-71 | returns the model's evaluation: white's sum minus black's |
| Bot.MyBot.Search | MyBot.cs:73-136 | returns the score of the search model and leaves its table and moveToPlay |
| Bot.MyBot.Expand | MyBot.cs:104-135 | the ordering, the loop and the store leave the score and state of the model's expanding node |
| Bot.MyBot.SearchMoves | MyBot.cs:106-122 | the foreach leaves the best score and the state of the model's move loop |
| Bot.MyBot.SearchMove | MyBot.cs:109-120 | one pass of the foreach body gives the model's child score, best score, state and new alpha |
| MoveOrdering.Pairs | MyBot.cs:142 | the (key, move) pairs `Array.Sort` works on keep the moves in their order |
| MoveOrdering.OrderedFromScores | MyBot.cs:140-143 | score 0 for the first move and `GetMoveScore` for every other, sorted with the moves and reversed, gives the model's ordering |
| Bot.SortByKeys | MyBot.cs:142 | `Array.Sort(keys, items)` rearranges both arrays together into the sorted (key, move) pairs |
| Bot.Reverse | MyBot.cs:143 | `Array.Reverse` leaves the array's old contents in reverse order |
| Bot.MyBot.OrderMoves | MyBot.cs:138-144 | the move array ends up in the order of the model: scored, sorted ascending by score, reversed |

## Left out

- The board API (`ChessChallenge.API.Board`) is an external collaborator. It is modelled as a finite game-tree value giving the key, ply count, draw and checkmate flags, piece list and legal moves with their successor positions. Move generation, draw and mate detection and Zobrist hashing are not part of this model.
- `Think`'s `Timer` argument is never read by the bot, so it is not modelled.
- `BitConverter.GetBytes` is modelled as the eight little-endian base-256 digits of the word as an unbounded integer, as on a little-endian machine. The `ulong` words are integers in 0..2^64-1.
- MoveOrdering.SortByScore: `Array.Sort` is introsort and leaves the order of equal scores unspecified. The model sorts stably, which is one admissible tie order, and `Bot.SortByKeys` is `Array.Sort` with that order. The contracts of `Bot.MyBot.OrderMoves`, `Search`, `Expand`, `SearchMoves` and `Think` describe the run under this one tie order: with another, tied moves are searched in another order and may leave another `moveToPlay` and table. The search lemmas (`MoveLoopExamination`, `MoveLoopChoice`, `SearchFrame`, `ExpandedNodeStore`) hold for any order, because `MoveLoop` takes any sequence of moves.
- SearchFrame: at the bot's depth it says only that moveToPlay is unchanged or a legal move; which move it is, is stated by SearchRootChoice.
- MoveLoopFrame: at the bot's depth it says only that moveToPlay is unchanged or one of the loop's moves; which move it is, is stated by MoveLoopChoice.
- 32-bit `int` overflow is not modelled. The scores stay far inside the `int` range: `Evaluation.StaticEval` is within 32173 per piece, so within about 10^6 for 32 pieces; mate scores lie near -10^7; every search score is within ±9999999 (`SearchModel.SearchBounded`); and the bounds are ±99999999.
- Bot.MyBot.Think: it requires two facts the board API does not state. First, every position reachable from the board is a chess position: at most 32 pieces, fewer than 100000 plies (`ChessBounded`). Second, every stored score is within ±9999999; the constructor sets this up and every Think keeps it. Both are needed for the root to be sure to pick a legal move.
- Bot.MyBot.OrderMoves: it requires fewer than 256 moves. With 256 or more the `byte` counter would wrap to 0 and the loop would not end; chess positions have at most 218 legal moves.
- Transpositions.Slot: the bitwise AND with 0x6FFFFF is written as the equal arithmetic on the key's bits 0..19 and 21..22. The model contains no bit-vector form of it.
- `Search` is one method in the source. The model splits it into the methods `Search`, `Expand`, `SearchMoves` and `SearchMove` (probe and leaf, ordering and store, the foreach, one pass of its body), each proved against the matching function of the search model. `OrderMoves` calls `SortByKeys` and `Reverse` for `Array.Sort` and `Array.Reverse`.
- The `ref Transposition` alias into `TTable` is modelled by reading the slot again at store time. The store happens after the children's searches, as the alias makes it.
- Piece-square values are `compressedMGPSTs` as written; only the middlegame table exists in the code, so there is no tapering.
