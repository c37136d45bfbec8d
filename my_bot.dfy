/** The bot object: its transposition table and the move it will play are
    fields that the search updates in place. */
module Bot {
  import opened ChessApi
  import opened BotConstants
  import opened Transpositions
  import opened MoveOrdering
  import opened PieceSquareTables
  import opened Evaluation
  import opened SearchModel

  class MyBot {
    /** The packed middlegame piece-square tables the evaluation reads. */
    const compressedMGPSTs: seq<seq<ULong>>

    /** The table of TTSize + 1 entries, created once with the bot. */
    const TTable: array<Transposition>

    /** The best root move found by the last root-depth search. */
    var moveToPlay: Move

    /** The piece-square tables are the bot's constant ones, the table has
        its fixed size, and no key field has been written. */
    ghost predicate Valid()
      reads TTable
    {
      compressedMGPSTs == CompressedMGPSTs && TTable.Length == TableLength && KeysUnset(TTable[..])
    }

    /** The bot's state as the search model sees it. */
    ghost function Current(): State
      reads this, TTable
    {
      State(TTable[..], moveToPlay)
    }

    constructor ()
      ensures Valid() && fresh(TTable) && TableBounded(TTable[..])
      ensures forall k :: 0 <= k < TTable.Length ==> TTable[k] == EmptyEntry
      ensures moveToPlay == NullMove
    {
      compressedMGPSTs := CompressedMGPSTs;
      TTable := new Transposition[TableLength](_ => EmptyEntry);
      moveToPlay := NullMove;
    }

    /** Think: a search of the bot's depth with the full window, from the side
        to move; the move played is whatever moveToPlay then holds. When the
        root expands, that is one of the board's legal moves, the first of its
        ordered moves whose child score is the root's score, every move
        searched before it scoring less; when the root does not expand, it is
        the move the previous Think left. Every stored score stays within
        ±MateBase. */
    method Think(board: Position) returns (m: Move)
      requires Valid() && TableBounded(TTable[..]) && BranchingBounded(board) && ChessBounded(board)
      modifies this, TTable
      ensures Valid() && TableBounded(TTable[..])
      ensures Current() == SearchNode(old(Current()), board, BotDepth, -Infinity, Infinity, if board.isWhiteToMove then 1 else -1).state
      ensures m == moveToPlay
      ensures m == old(moveToPlay) || m in LegalMoves(board)
      ensures Expands(old(Current()), board, BotDepth, -Infinity, Infinity) ==> m in LegalMoves(board)
      ensures var s, color := old(Current()), if board.isWhiteToMove then 1 else -1;
        && (!Expands(s, board, BotDepth, -Infinity, Infinity) ==> m == old(moveToPlay))
        && (Expands(s, board, BotDepth, -Infinity, Infinity) ==>
              ChoseFirstBest(Ordered(s.table[Slot(board.zobristKey)], board.zobristKey, LegalMoves(board)), 0,
                             NodeLoop(s, board, BotDepth, -Infinity, Infinity, color).evaluations, -Infinity,
                             SearchNode(s, board, BotDepth, -Infinity, Infinity, color).score, old(moveToPlay), m))
    {
      var color := if board.isWhiteToMove then 1 else -1;
      var score := Search(board, BotDepth, -Infinity, Infinity, color);
      SearchFrame(old(Current()), board, BotDepth, -Infinity, Infinity, color);
      SearchRootChoice(old(Current()), board, -Infinity, Infinity, color);
      SearchBounded(old(Current()), board, BotDepth, -Infinity, Infinity, color);
      RootPicksLegalMove(old(Current()), board, -Infinity, Infinity, color);
      m := moveToPlay;
    }

    /** Adds (white) or subtracts (black) the side's material and positional
        sum, accumulated piece type by piece type, to `evaluation`. */
    method CheckMaterialAndPosition(board: Position, evaluation: int, white: bool) returns (result: int)
      requires IsPackedTable(compressedMGPSTs)
      ensures result == evaluation + SideWorth(compressedMGPSTs, board.pieces, |board.pieces|, white, King) * (if white then 1 else -1)
    {
      var sum := 0;
      var i := 1;
      while i < 7
        invariant 1 <= i <= 7
        invariant sum == KindsWorth(compressedMGPSTs, board.pieces, |board.pieces|, white, i - 1)
      {
        var pieceList := GetPieceList(board, i, white);
        var j := 0;
        while j < |pieceList|
          invariant 0 <= j <= |pieceList|
          invariant sum == KindsWorth(compressedMGPSTs, board.pieces, |board.pieces|, white, i - 1) + ListWorth(compressedMGPSTs, pieceList, j, i, white)
        {
          // The piece's material value plus its middlegame piece-square bonus.
          sum := sum + PieceWorth(compressedMGPSTs, i, pieceList[j], white);
          j := j + 1;
        }
        i := i + 1;
      }
      KindsWorthIsSideWorth(compressedMGPSTs, board.pieces, |board.pieces|, white, i - 1);
      result := evaluation + sum * (if white then 1 else -1);
    }

    /** White's sum minus black's. */
    method Evaluate(board: Position) returns (evaluation: int)
      requires Valid()
      ensures evaluation == StaticEval(board)
    {
      CompressedMGPSTsIsPacked();
      evaluation := 0;
      evaluation := CheckMaterialAndPosition(board, evaluation, true);
      evaluation := CheckMaterialAndPosition(board, evaluation, false);
    }

    /** Negamax alpha-beta with the transposition table: the score returned
        and the table and moveToPlay left behind are those of the model. */
    method Search(board: Position, depth: nat, alpha: int, beta: int, color: int) returns (r: int)
      requires Valid() && alpha < beta && BranchingBounded(board)
      modifies this, TTable
      ensures Valid()
      ensures var o := SearchNode(old(Current()), board, depth, alpha, beta, color); r == o.score && Current() == o.state
      decreases depth, 3
    {
      var originalAlpha := alpha;
      var a, b := alpha, beta;

      var slot := Slot(board.zobristKey);
      var transposition := TTable[slot];
      if transposition.flag != Invalid && transposition.zobristKey == board.zobristKey && transposition.depth >= depth {
        match transposition.flag {
          case PvNode => return transposition.evaluation;
          case CutNode => a := Max(a, transposition.evaluation);
          case AllNode => b := Min(b, transposition.evaluation);
          case Invalid =>
        }
        if a >= b {
          return transposition.evaluation;
        }
      }

      if board.isDraw {
        return 0;
      }

      var legal := LegalMoves(board);
      var moves := new Move[|legal|](k requires 0 <= k < |legal| => legal[k]);
      if depth == 0 || moves.Length == 0 {
        if board.isInCheckmate {
          return board.plyCount * 100 - MateBase;
        }
        var evaluation := Evaluate(board);
        return color * evaluation;
      }

      assert moves[..] == legal;
      r := Expand(board, moves, depth, originalAlpha, a, b, color);
    }

    /** The rest of Search once the node expands: order the moves, run the
        loop over them with the window (a, b) the probe left, and store the
        result in the slot, flagged against the alpha Search was called with. */
    method Expand(board: Position, moves: array<Move>, depth: nat, originalAlpha: int, a: int, b: int, color: int) returns (r: int)
      requires Valid() && a < b && 0 < depth && BranchingBounded(board)
      requires moves[..] == LegalMoves(board) && moves.Length > 0
      modifies this, TTable, moves
      ensures Valid()
      ensures Outcome(r, Current()) == ExpandNode(old(Current()), board, depth, originalAlpha, a, b, color)
      decreases depth, 2
    {
      ghost var start := Current();
      var slot := Slot(board.zobristKey);
      var transposition := TTable[slot];
      OrderMoves(board.zobristKey, moves);
      var maxEvaluation := SearchMoves(board, moves, depth, a, b, color, transposition);
      ghost var loop := MoveLoop(start, board, moves[..], 0, depth, a, b, color, -Infinity);
      assert Current() == loop.state && maxEvaluation == loop.best;

      var flag;
      if maxEvaluation <= originalAlpha {
        flag := CutNode;
      } else if maxEvaluation >= b {
        flag := AllNode;
      } else {
        flag := PvNode;
      }
      var entry := TTable[slot].(evaluation := maxEvaluation, move := moveToPlay, depth := depth % 256, flag := flag);
      assert entry == Stored(loop.state.table[slot], maxEvaluation, loop.state.moveToPlay, depth, originalAlpha, b);
      TTable[slot] := entry;
      assert TTable[..] == loop.state.table[slot := entry];
      r := maxEvaluation;
    }

    /** The foreach of Search over the ordered moves: each child is searched
        with the window negated and swapped, the best score is kept (and, at
        the bot's depth, its move as moveToPlay), and the loop breaks once
        alpha reaches beta. */
    method SearchMoves(board: Position, moves: array<Move>, depth: nat, alpha: int, beta: int, color: int, ghost entry: Transposition)
      returns (maxEvaluation: int)
      requires Valid() && alpha < beta && 0 < depth && BranchingBounded(board)
      requires moves[..] == Ordered(entry, board.zobristKey, LegalMoves(board))
      modifies this, TTable
      ensures Valid()
      ensures maxEvaluation == MoveLoop(old(Current()), board, moves[..], 0, depth, alpha, beta, color, -Infinity).best
      ensures Current() == MoveLoop(old(Current()), board, moves[..], 0, depth, alpha, beta, color, -Infinity).state
      decreases depth, 1
    {
      ghost var ordered := moves[..];
      OrderedChildrenBounded(entry, board);
      ghost var goal := MoveLoop(Current(), board, ordered, 0, depth, alpha, beta, color, -Infinity);
      var a := alpha;
      maxEvaluation := -Infinity;
      var i := 0;
      while i < moves.Length
        invariant 0 <= i <= moves.Length && moves[..] == ordered
        invariant Valid() && a < beta
        invariant forall k :: 0 <= k < |ordered| ==> BranchingBounded(MakeMove(board, ordered[k]))
        invariant MoveLoop(Current(), board, ordered, i, depth, a, beta, color, maxEvaluation).best == goal.best
        invariant MoveLoop(Current(), board, ordered, i, depth, a, beta, color, maxEvaluation).state == goal.state
      {
        ghost var before, alphaBefore, bestBefore := Current(), a, maxEvaluation;
        var evaluation;
        LoopStepIsAfterChild(before, board, ordered[i], depth, alphaBefore, beta, color, bestBefore);
        evaluation, maxEvaluation := SearchMove(board, moves[i], depth, a, beta, color, maxEvaluation);
        a := Max(a, evaluation);
        MoveLoopTurn(before, board, ordered, i, depth, alphaBefore, beta, color, bestBefore);
        if a >= beta {
          break;
        }
        i := i + 1;
      }
    }

    /** One pass of the foreach body: the child searched with the window
        negated and swapped, its score negated, and the best score (and, at
        the bot's depth, moveToPlay) raised when the score beats it. */
    method SearchMove(board: Position, move: Move, depth: nat, alpha: int, beta: int, color: int, best: int)
      returns (evaluation: int, maxEvaluation: int)
      requires Valid() && alpha < beta && 0 < depth && BranchingBounded(MakeMove(board, move))
      modifies this, TTable
      ensures Valid()
      ensures Step(evaluation, maxEvaluation, Current(), Max(alpha, evaluation))
           == AfterChild(SearchNode(old(Current()), MakeMove(board, move), depth - 1, -beta, -alpha, -color), move, depth, alpha, best)
      decreases depth, 0
    {
      evaluation := Search(MakeMove(board, move), depth - 1, -beta, -alpha, -color);
      AfterChildUpdates(SearchNode(old(Current()), MakeMove(board, move), depth - 1, -beta, -alpha, -color), move, depth, alpha, best);
      evaluation := -evaluation;
      maxEvaluation := best;
      if evaluation > maxEvaluation {
        maxEvaluation := evaluation;
        if depth == BotDepth {
          moveToPlay := move;
        }
      }
    }

    /** Scores every move but the first, sorts the moves by ascending score
        (Array.Sort with the scores as keys), then reverses them. */
    method OrderMoves(zobristKey: ULong, moves: array<Move>)
      requires TTable.Length == TableLength && moves.Length <= MaxLegalMoves
      modifies moves
      ensures moves[..] == Ordered(TTable[Slot(zobristKey)], zobristKey, old(moves[..]))
    {
      var n := moves.Length;
      var moveScores := new int[n](_ => 0);
      // The byte counter starts at 1; fewer than 256 moves keep it from wrapping.
      var m := 1;
      while m < n
        invariant 1 <= m && (n > 0 ==> m <= n)
        invariant moves[..] == old(moves[..])
        invariant forall k :: 0 <= k < n ==>
          moveScores[k] == if k == 0 || k >= m then 0 else GetMoveScore(TTable[Slot(zobristKey)], zobristKey, moves[k])
      {
        moveScores[m] := GetMoveScore(TTable[Slot(zobristKey)], zobristKey, moves[m]);
        m := m + 1;
      }
      OrderedFromScores(TTable[Slot(zobristKey)], zobristKey, moves[..], moveScores[..]);
      SortByKeys(moveScores, moves);
      Reverse(moves);
    }
  }

  /** Array.Sort(keys, items): both arrays rearranged together into ascending
      key order; the tie order is that of SortByScore. */
  method SortByKeys(keys: array<int>, items: array<Move>)
    requires keys.Length == items.Length
    modifies keys, items
    ensures var sorted := SortByScore(Pairs(old(keys[..]), old(items[..])));
      items[..] == MovesOf(sorted) && keys[..] == seq(|sorted|, k requires 0 <= k < |sorted| => sorted[k].score)
  {
    var sorted := SortByScore(Pairs(keys[..], items[..]));
    forall k | 0 <= k < keys.Length {
      keys[k] := sorted[k].score;
    }
    forall k | 0 <= k < items.Length {
      items[k] := sorted[k].move;
    }
  }

  /** Array.Reverse(items). */
  method Reverse<T>(items: array<T>)
    modifies items
    ensures items[..] == Reversed(old(items[..]))
  {
    var original := items[..];
    forall k | 0 <= k < items.Length {
      items[k] := original[items.Length - 1 - k];
    }
  }
}
