/** Move ordering: each move gets a tiered score (hash move, promotion,
    capture, quiet), the moves are sorted by ascending score and the move array
    is then reversed, so the search sees the highest scores first. */
module MoveOrdering {
  import opened ChessApi
  import opened Transpositions
  import opened BotConstants

  /** The move stored in the slot of this key, with the key matching. */
  predicate IsHashMove(entry: Transposition, zobristKey: ULong, move: Move) {
    entry.move == move && entry.zobristKey == zobristKey
  }

  /** GetMoveScore, given the slot `TTable[zobristKey & TTSize]` it reads. */
  function GetMoveScore(entry: Transposition, zobristKey: ULong, move: Move): (score: int)
    ensures 0 <= score <= Infinity
    ensures score == Infinity <==> IsHashMove(entry, zobristKey, move)
    ensures score == 0 <==> !IsHashMove(entry, zobristKey, move) && !move.isPromotion && !move.IsCapture()
  {
    if entry.move == move && entry.zobristKey == zobristKey then Infinity
    else if move.isPromotion then Infinity - 100
    else if move.IsCapture() then 1000 - 10 * move.capturePieceType - move.movePieceType
    else 0
  }

  /** The ordering tiers, highest first: 3 hash move, 2 promotion, 1 capture, 0 quiet. */
  function Tier(entry: Transposition, zobristKey: ULong, move: Move): nat {
    if IsHashMove(entry, zobristKey, move) then 3
    else if move.isPromotion then 2
    else if move.IsCapture() then 1
    else 0
  }

  /** Every move of a higher tier scores strictly above every move of a lower one. */
  lemma TiersAreStrictlyOrdered(entry: Transposition, zobristKey: ULong, a: Move, b: Move)
    requires Tier(entry, zobristKey, a) > Tier(entry, zobristKey, b)
    ensures GetMoveScore(entry, zobristKey, a) > GetMoveScore(entry, zobristKey, b)
  {
  }

  /** Among captures, the score falls as the captured piece gets more valuable:
      a pawn capture is tried before a queen capture. */
  lemma CheaperVictimScoresHigher(entry: Transposition, zobristKey: ULong, a: Move, b: Move)
    requires Tier(entry, zobristKey, a) == 1 && Tier(entry, zobristKey, b) == 1
    requires a.capturePieceType < b.capturePieceType
    ensures GetMoveScore(entry, zobristKey, a) > GetMoveScore(entry, zobristKey, b)
  {
  }

  // Array.Sort(moveScores, moves): the moves, keyed by their scores, in ascending key order.

  datatype ScoredMove = ScoredMove(score: int, move: Move)

  predicate Ascending(s: seq<ScoredMove>) {
    forall i, j :: 0 <= i < j < |s| ==> s[i].score <= s[j].score
  }

  predicate Descending(s: seq<ScoredMove>) {
    forall i, j :: 0 <= i < j < |s| ==> s[i].score >= s[j].score
  }

  function MovesOf(s: seq<ScoredMove>): (moves: seq<Move>)
    ensures |moves| == |s|
  {
    seq(|s|, i requires 0 <= i < |s| => s[i].move)
  }

  function InsertByScore(x: ScoredMove, s: seq<ScoredMove>): (r: seq<ScoredMove>)
    ensures |r| == |s| + 1
  {
    if s == [] || x.score <= s[0].score then [x] + s
    else [s[0]] + InsertByScore(x, s[1..])
  }

  /** Inserting adds exactly x. */
  lemma {:induction false} InsertByScorePermutes(x: ScoredMove, s: seq<ScoredMove>)
    ensures multiset(InsertByScore(x, s)) == multiset(s) + multiset{x}
  {
    if s != [] && x.score > s[0].score {
      InsertByScorePermutes(x, s[1..]);
      assert s == [s[0]] + s[1..];
    }
  }

  /** Inserting adds exactly x's move to the moves. */
  lemma {:induction false} InsertByScoreMoves(x: ScoredMove, s: seq<ScoredMove>)
    ensures multiset(MovesOf(InsertByScore(x, s))) == multiset(MovesOf(s)) + multiset{x.move}
  {
    if s == [] || x.score <= s[0].score {
      MovesOfCons(x, s);
    } else {
      InsertByScoreMoves(x, s[1..]);
      MovesOfCons(s[0], InsertByScore(x, s[1..]));
      MovesOfCons(s[0], s[1..]);
      assert s == [s[0]] + s[1..];
    }
  }

  /** Inserting into an ascending list keeps it ascending. */
  lemma {:induction false} InsertByScoreAscending(x: ScoredMove, s: seq<ScoredMove>)
    requires Ascending(s)
    ensures Ascending(InsertByScore(x, s))
  {
    if s != [] && x.score > s[0].score {
      var rest := InsertByScore(x, s[1..]);
      InsertByScoreAscending(x, s[1..]);
      InsertByScorePermutes(x, s[1..]);
      assert s == [s[0]] + s[1..];
      AscendingCons(s[0], rest, s[1..], x);
    }
  }

  lemma AscendingCons(head: ScoredMove, rest: seq<ScoredMove>, tail: seq<ScoredMove>, x: ScoredMove)
    requires Ascending(rest) && Ascending([head] + tail)
    requires head.score < x.score
    requires multiset(rest) == multiset(tail) + multiset{x}
    ensures Ascending([head] + rest)
  {
    forall k | 0 <= k < |rest|
      ensures head.score <= rest[k].score
    {
      assert rest[k] in multiset(rest);
      if rest[k] != x {
        assert rest[k] in multiset(tail);
        var t :| 0 <= t < |tail| && tail[t] == rest[k];
        assert ([head] + tail)[t + 1] == rest[k] && ([head] + tail)[0] == head;
      }
    }
  }

  lemma MovesOfCons(head: ScoredMove, tail: seq<ScoredMove>)
    ensures MovesOf([head] + tail) == [head.move] + MovesOf(tail)
    ensures multiset(MovesOf([head] + tail)) == multiset{head.move} + multiset(MovesOf(tail))
  {
    assert MovesOf([head] + tail) == [head.move] + MovesOf(tail);
  }

  /** A stable insertion sort by score, standing for Array.Sort. */
  function SortByScore(s: seq<ScoredMove>): (r: seq<ScoredMove>)
    ensures |r| == |s|
  {
    if s == [] then [] else InsertByScore(s[0], SortByScore(s[1..]))
  }

  /** The sort yields an ascending list. */
  lemma {:induction false} SortByScoreAscending(s: seq<ScoredMove>)
    ensures Ascending(SortByScore(s))
  {
    if s != [] {
      SortByScoreAscending(s[1..]);
      InsertByScoreAscending(s[0], SortByScore(s[1..]));
    }
  }

  /** The sort only rearranges its input. */
  lemma {:induction false} SortByScorePermutes(s: seq<ScoredMove>)
    ensures multiset(SortByScore(s)) == multiset(s)
  {
    if s != [] {
      SortByScorePermutes(s[1..]);
      InsertByScorePermutes(s[0], SortByScore(s[1..]));
      assert s == [s[0]] + s[1..];
    }
  }

  /** The sort only rearranges the moves of its input. */
  lemma {:induction false} SortByScoreMoves(s: seq<ScoredMove>)
    ensures multiset(MovesOf(SortByScore(s))) == multiset(MovesOf(s))
  {
    if s != [] {
      SortByScoreMoves(s[1..]);
      InsertByScoreMoves(s[0], SortByScore(s[1..]));
      assert s == [s[0]] + s[1..];
      MovesOfCons(s[0], s[1..]);
    }
  }

  /** Array.Reverse. */
  function Reversed<T>(s: seq<T>): (r: seq<T>)
    ensures |r| == |s|
  {
    seq(|s|, i requires 0 <= i < |s| => s[|s| - 1 - i])
  }

  lemma {:induction false} ReversedPermutes<T>(s: seq<T>)
    ensures multiset(Reversed(s)) == multiset(s)
  {
    if s != [] {
      var n := |s|;
      assert Reversed(s) == [s[n - 1]] + Reversed(s[..n - 1]);
      ReversedPermutes(s[..n - 1]);
      assert s == s[..n - 1] + [s[n - 1]];
    }
  }

  /** The scores the fill loop leaves in moveScores: the loop starts at index 1,
      so the first move keeps the array's initial 0. */
  function ScoredMoves(entry: Transposition, zobristKey: ULong, moves: seq<Move>): (s: seq<ScoredMove>)
    ensures MovesOf(s) == moves
  {
    var s := seq(|moves|, i requires 0 <= i < |moves| => ScoredMove(if i == 0 then 0 else GetMoveScore(entry, zobristKey, moves[i]), moves[i]));
    assert MovesOf(s) == moves;
    s
  }

  /** The (score, move) pairs in the order OrderMoves leaves the moves. */
  function OrderedScoredMoves(entry: Transposition, zobristKey: ULong, moves: seq<Move>): seq<ScoredMove> {
    Reversed(SortByScore(ScoredMoves(entry, zobristKey, moves)))
  }

  /** OrderMoves: sort by ascending score, then reverse. */
  function Ordered(entry: Transposition, zobristKey: ULong, moves: seq<Move>): (ordered: seq<Move>)
    ensures |ordered| == |moves|
  {
    Reversed(MovesOf(SortByScore(ScoredMoves(entry, zobristKey, moves))))
  }

  /** The (key, move) pairs Array.Sort sees: the i-th key with the i-th move. */
  function Pairs(keys: seq<int>, moves: seq<Move>): (s: seq<ScoredMove>)
    requires |keys| == |moves|
    ensures |s| == |moves| && MovesOf(s) == moves
  {
    var s := seq(|moves|, k requires 0 <= k < |moves| => ScoredMove(keys[k], moves[k]));
    assert MovesOf(s) == moves;
    s
  }

  /** Sorting and reversing the pairs the fill loop leaves (index 0 at 0,
      every later index at its move's score) gives the ordered moves. */
  lemma OrderedFromScores(entry: Transposition, zobristKey: ULong, moves: seq<Move>, keys: seq<int>)
    requires |keys| == |moves|
    requires forall k :: 0 <= k < |moves| ==> keys[k] == if k == 0 then 0 else GetMoveScore(entry, zobristKey, moves[k])
    ensures Reversed(MovesOf(SortByScore(Pairs(keys, moves)))) == Ordered(entry, zobristKey, moves)
  {
    assert Pairs(keys, moves) == ScoredMoves(entry, zobristKey, moves);
  }

  /** Ordering only rearranges the legal moves. */
  lemma OrderedIsPermutation(entry: Transposition, zobristKey: ULong, moves: seq<Move>)
    ensures multiset(Ordered(entry, zobristKey, moves)) == multiset(moves)
  {
    var sorted := MovesOf(SortByScore(ScoredMoves(entry, zobristKey, moves)));
    SortByScoreMoves(ScoredMoves(entry, zobristKey, moves));
    ReversedPermutes(sorted);
  }

  lemma OrderedMember(entry: Transposition, zobristKey: ULong, moves: seq<Move>, k: nat)
    requires k < |moves|
    ensures Ordered(entry, zobristKey, moves)[k] in moves
  {
    OrderedIsPermutation(entry, zobristKey, moves);
    assert Ordered(entry, zobristKey, moves)[k] in multiset(Ordered(entry, zobristKey, moves));
  }

  /** The ordered moves carry their scores in non-increasing order, and the
      (score, move) pairs are those the fill loop produced. */
  lemma OrderedScoresDescend(entry: Transposition, zobristKey: ULong, moves: seq<Move>)
    ensures Ordered(entry, zobristKey, moves) == MovesOf(OrderedScoredMoves(entry, zobristKey, moves))
    ensures Descending(OrderedScoredMoves(entry, zobristKey, moves))
    ensures multiset(OrderedScoredMoves(entry, zobristKey, moves)) == multiset(ScoredMoves(entry, zobristKey, moves))
  {
    var sorted := SortByScore(ScoredMoves(entry, zobristKey, moves));
    SortByScoreAscending(ScoredMoves(entry, zobristKey, moves));
    SortByScorePermutes(ScoredMoves(entry, zobristKey, moves));
    ReversedPermutes(sorted);
    assert Reversed(MovesOf(sorted)) == MovesOf(Reversed(sorted));
  }

  predicate Distinct(moves: seq<Move>) {
    forall i, j :: 0 <= i < j < |moves| ==> moves[i] != moves[j]
  }

  /** The score a move is sorted by: its GetMoveScore, except the first move
      handed in, whose score is never computed. */
  function AssignedScore(entry: Transposition, zobristKey: ULong, moves: seq<Move>, move: Move): int
    requires |moves| > 0
  {
    if move == moves[0] then 0 else GetMoveScore(entry, zobristKey, move)
  }

  lemma ScoredMoveIsAssigned(entry: Transposition, zobristKey: ULong, moves: seq<Move>, x: ScoredMove)
    requires Distinct(moves)
    requires x in multiset(ScoredMoves(entry, zobristKey, moves))
    ensures |moves| > 0 && x.score == AssignedScore(entry, zobristKey, moves, x.move)
  {
    var s := ScoredMoves(entry, zobristKey, moves);
    var t :| 0 <= t < |s| && s[t] == x;
    assert x.move == moves[t];
  }

  /** For distinct legal moves, the ordered moves are in non-increasing order
      of the score each was assigned. */
  lemma OrderedByAssignedScore(entry: Transposition, zobristKey: ULong, moves: seq<Move>)
    requires Distinct(moves) && |moves| > 0
    ensures forall i, j :: 0 <= i < j < |moves| ==>
      AssignedScore(entry, zobristKey, moves, Ordered(entry, zobristKey, moves)[i])
        >= AssignedScore(entry, zobristKey, moves, Ordered(entry, zobristKey, moves)[j])
  {
    OrderedScoresDescend(entry, zobristKey, moves);
    var d := OrderedScoredMoves(entry, zobristKey, moves);
    forall i | 0 <= i < |d|
      ensures d[i].score == AssignedScore(entry, zobristKey, moves, d[i].move)
    {
      assert d[i] in multiset(d);
      ScoredMoveIsAssigned(entry, zobristKey, moves, d[i]);
    }
  }

  /** The hash move is searched first unless it is the first move handed in. */
  lemma HashMoveOrderedFirst(entry: Transposition, zobristKey: ULong, moves: seq<Move>, t: nat)
    requires Distinct(moves) && 0 < t < |moves|
    requires IsHashMove(entry, zobristKey, moves[t])
    ensures Ordered(entry, zobristKey, moves)[0] == moves[t]
  {
    var r := Ordered(entry, zobristKey, moves);
    OrderedIsPermutation(entry, zobristKey, moves);
    OrderedByAssignedScore(entry, zobristKey, moves);
    assert moves[t] in multiset(r);
    var j :| 0 <= j < |r| && r[j] == moves[t];
    assert AssignedScore(entry, zobristKey, moves, r[j]) == Infinity;
    assert AssignedScore(entry, zobristKey, moves, r[0]) >= Infinity;
  }

  /** Because its score is never computed, the first move handed in is searched
      after every other move that scores above zero. */
  lemma FirstMoveOrderedAsQuiet(entry: Transposition, zobristKey: ULong, moves: seq<Move>, j: nat, k: nat)
    requires Distinct(moves) && |moves| > 0
    requires j < |moves| && k < |moves|
    requires Ordered(entry, zobristKey, moves)[j] == moves[0]
    requires Ordered(entry, zobristKey, moves)[k] != moves[0]
    requires GetMoveScore(entry, zobristKey, Ordered(entry, zobristKey, moves)[k]) > 0
    ensures k < j
  {
    OrderedByAssignedScore(entry, zobristKey, moves);
  }
}
