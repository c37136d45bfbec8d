/** The part of the ChessChallenge.API board that the bot consumes, modelled as
    values: a position is a node of a finite game tree whose successors are the
    positions reached by each legal move. Making a move and undoing it is going
    down to a successor and coming back to the node itself. */
module ChessApi {

  /** PieceType as the API numbers it: None = 0, Pawn = 1, Knight = 2,
      Bishop = 3, Rook = 4, Queen = 5, King = 6. */
  type PieceType = k: int | 0 <= k <= 6

  const NoPiece: PieceType := 0
  const Pawn: PieceType := 1
  const Knight: PieceType := 2
  const Bishop: PieceType := 3
  const Rook: PieceType := 4
  const Queen: PieceType := 5
  const King: PieceType := 6

  /** An unsigned 64-bit value (`ulong`), such as a position's Zobrist key. */
  type ULong = k: int | 0 <= k < 0x1_0000_0000_0000_0000

  /** An unsigned 8-bit value (`byte`). */
  type Byte = x: int | 0 <= x < 256

  /** Square.Index: file = index % 8, rank = index / 8 (a1 = 0, h8 = 63). */
  type Square = i: int | 0 <= i < 64

  /** A move with the attributes the bot reads. `raw` stands for the API's
      16-bit move value. */
  datatype Move = Move(raw: nat, movePieceType: PieceType, capturePieceType: PieceType, isPromotion: bool)
  {
    predicate IsCapture() {
      capturePieceType != NoPiece
    }
  }

  /** The default value of the Move struct. */
  const NullMove := Move(0, NoPiece, NoPiece, false)

  datatype Piece = Piece(pieceType: PieceType, isWhite: bool, square: Square)

  datatype Successor = Successor(move: Move, position: Position)

  datatype Position = Position(
    zobristKey: ULong,
    plyCount: nat,
    isWhiteToMove: bool,
    isDraw: bool,
    isInCheckmate: bool,
    pieces: seq<Piece>,
    successors: seq<Successor>)

  /** Board.GetLegalMoves(), in the API's enumeration order. */
  function LegalMoves(p: Position): seq<Move> {
    seq(|p.successors|, k requires 0 <= k < |p.successors| => p.successors[k].move)
  }

  /** The position after Board.MakeMove(m); only ever asked for a legal move. */
  function MakeMove(p: Position, m: Move): Position {
    Follow(p.successors, m, p)
  }

  function Follow(successors: seq<Successor>, m: Move, otherwise: Position): Position {
    if successors == [] then otherwise
    else if successors[0].move == m then successors[0].position
    else Follow(successors[1..], m, otherwise)
  }

  /** Board.GetPieceList(pieceType, white): the squares of that side's pieces of that type. */
  function GetPieceList(p: Position, pieceType: PieceType, white: bool): seq<Square> {
    SquaresOf(p.pieces, |p.pieces|, pieceType, white)
  }

  /** The squares of that side's pieces of that type among the first n pieces. */
  function SquaresOf(pieces: seq<Piece>, n: nat, pieceType: PieceType, white: bool): seq<Square>
    requires n <= |pieces|
  {
    if n == 0 then []
    else
      var last := pieces[n - 1];
      SquaresOf(pieces, n - 1, pieceType, white) + (if last.pieceType == pieceType && last.isWhite == white then [last.square] else [])
  }

  /** No chess position has more than 218 legal moves; the bot's move-ordering
      loop counts with a byte and needs fewer than 256. */
  const MaxLegalMoves := 255

  ghost predicate BranchingBounded(p: Position)
    decreases p
  {
    && |p.successors| <= MaxLegalMoves
    && forall k :: 0 <= k < |p.successors| ==> BranchingBounded(p.successors[k].position)
  }

  /** No chess position has more than 32 pieces. */
  const MaxPieces := 32

  /** Every position of the tree is one a chess game can reach: at most 32
      pieces, and fewer than 100000 plies played (the 75-move rule ends every
      game long before that). */
  ghost predicate ChessBounded(p: Position)
    decreases p
  {
    && |p.pieces| <= MaxPieces && p.plyCount < 100000
    && forall k :: 0 <= k < |p.successors| ==> ChessBounded(p.successors[k].position)
  }

  /** Following a move leads to a successor or back to the node itself, so it
      stays inside a chess-bounded tree whether or not the move is legal. */
  lemma {:induction false} FollowKeepsChessBound(successors: seq<Successor>, m: Move, otherwise: Position)
    requires ChessBounded(otherwise)
    requires forall k :: 0 <= k < |successors| ==> ChessBounded(successors[k].position)
    ensures ChessBounded(Follow(successors, m, otherwise))
  {
    if successors != [] && successors[0].move != m {
      FollowKeepsChessBound(successors[1..], m, otherwise);
    }
  }

  lemma MakeMoveKeepsChessBound(p: Position, m: Move)
    requires ChessBounded(p)
    ensures ChessBounded(MakeMove(p, m))
  {
    FollowKeepsChessBound(p.successors, m, p);
  }

  /** Making a legal move leads to the successor recorded for that move. */
  lemma {:induction false} FollowFindsSuccessor(successors: seq<Successor>, m: Move, otherwise: Position)
    requires exists k :: 0 <= k < |successors| && successors[k].move == m
    ensures exists k :: 0 <= k < |successors| && successors[k] == Successor(m, Follow(successors, m, otherwise))
  {
    if successors[0].move != m {
      var k :| 0 <= k < |successors| && successors[k].move == m;
      assert successors[1..][k - 1].move == m;
      FollowFindsSuccessor(successors[1..], m, otherwise);
      var j :| 0 <= j < |successors[1..]| && successors[1..][j] == Successor(m, Follow(successors[1..], m, otherwise));
      assert successors[j + 1] == Successor(m, Follow(successors, m, otherwise));
    }
  }

  lemma MakeMoveIsSuccessor(p: Position, m: Move)
    requires m in LegalMoves(p)
    ensures exists k :: 0 <= k < |p.successors| && p.successors[k] == Successor(m, MakeMove(p, m))
  {
    var moves := LegalMoves(p);
    var k :| 0 <= k < |moves| && moves[k] == m;
    assert p.successors[k].move == m;
    FollowFindsSuccessor(p.successors, m, p);
  }

  /** The bound on the number of legal moves holds in every position below. */
  lemma MakeMoveKeepsBound(p: Position, m: Move)
    requires m in LegalMoves(p) && BranchingBounded(p)
    ensures BranchingBounded(MakeMove(p, m))
  {
    MakeMoveIsSuccessor(p, m);
  }
}
