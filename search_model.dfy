/** The negamax alpha-beta search as a function of the state it reads and
    writes: the transposition table and the bot's `moveToPlay` field. */
module SearchModel {
  import opened ChessApi
  import opened Transpositions
  import opened MoveOrdering
  import opened Evaluation
  import opened BotConstants

  /** The part of the bot a search reads and writes. */
  datatype State = State(table: seq<Transposition>, moveToPlay: Move)

  datatype Outcome = Outcome(score: int, state: State)

  /** The move loop's best score, the state it leaves, and the score of each
      child it examined, in the order examined. */
  datatype LoopResult = LoopResult(best: int, state: State, evaluations: seq<int>)

  /** The score of the side to move when it is checkmated: below zero for any
      game shorter than 100000 plies, higher the later the mate comes, and
      always above the -Infinity a move loop starts from. */
  function MateScore(plyCount: nat): (m: int)
    ensures m < 0 <==> plyCount < 100000
    ensures -Infinity < m
  {
    plyCount * 100 - MateBase
  }

  /** A mate found further from the start of the game scores higher for the
      checkmated side, so its opponent prefers the sooner mate. */
  lemma LaterMateScoresHigher(plyCount: nat, later: nat)
    requires plyCount < later
    ensures MateScore(plyCount) < MateScore(later)
  {
  }

  /** The score of a node that is not expanded: the mate score when the side to
      move is checkmated, else the evaluation seen from the side to move. */
  function LeafScore(p: Position, color: int): (r: int)
    ensures p.isInCheckmate ==> r == MateScore(p.plyCount)
    ensures p.isInCheckmate ==> -Infinity < r && (r < 0 <==> p.plyCount < 100000)
    ensures !p.isInCheckmate && color == 1 ==> r == StaticEval(p)
    ensures !p.isInCheckmate && color == -1 ==> r == -StaticEval(p)
  {
    if p.isInCheckmate then MateScore(p.plyCount)
    else
      var evaluation := StaticEval(p);
      assert color == 1 || color == -1 ==> color * evaluation == if color == 1 then evaluation else -evaluation;
      color * evaluation
  }

  /** On a chess board every leaf score lies within ±MateBase: a mate score
      because fewer than 100000 plies are played, an evaluation because at
      most 32 pieces stand on the board. */
  lemma LeafBounded(p: Position, color: int)
    requires |p.pieces| <= MaxPieces && p.plyCount < 100000 && (color == 1 || color == -1)
    ensures -MateBase <= LeafScore(p, color) <= MateBase
  {
    if !p.isInCheckmate {
      assert (MaxPieceWorth + MinPieceWorth) * |p.pieces| <= (MaxPieceWorth + MinPieceWorth) * MaxPieces;
    }
  }

  /** A mate before ply 89000 scores below every evaluation of a board that is
      not mated, from either side: the search prefers any other outcome to
      being mated. */
  lemma MateBelowEvaluation(mated: Position, matedColor: int, other: Position, color: int)
    requires mated.isInCheckmate && mated.plyCount < 89000
    requires !other.isInCheckmate && |other.pieces| <= MaxPieces && (color == 1 || color == -1)
    ensures LeafScore(mated, matedColor) < LeafScore(other, color)
  {
    assert (MaxPieceWorth + MinPieceWorth) * |other.pieces| <= (MaxPieceWorth + MinPieceWorth) * MaxPieces;
  }

  /** The largest of x and the elements of s. */
  function MaxOf(x: int, s: seq<int>): int
    decreases |s|
  {
    if s == [] then x else MaxOf(Max(x, s[0]), s[1..])
  }

  /** The running maximum is at least the start and every element, and it is
      the start or one of the elements. */
  lemma {:induction false} MaxOfBounds(x: int, s: seq<int>)
    ensures MaxOf(x, s) >= x && forall k :: 0 <= k < |s| ==> MaxOf(x, s) >= s[k]
    ensures MaxOf(x, s) == x || exists k :: 0 <= k < |s| && MaxOf(x, s) == s[k]
    decreases |s|
  {
    if s != [] {
      var m := MaxOf(x, s);
      MaxOfBounds(Max(x, s[0]), s[1..]);
      forall k | 0 < k < |s|
        ensures m >= s[k]
      {
        assert s[k] == s[1..][k - 1];
      }
      if m != Max(x, s[0]) {
        var j :| 0 <= j < |s[1..]| && m == s[1..][j];
        assert m == s[j + 1];
      }
    }
  }

  /** Search(board, depth, alpha, beta, color). */
  function SearchNode(s: State, p: Position, depth: nat, alpha: int, beta: int, color: int): (r: Outcome)
    requires |s.table| == TableLength && alpha < beta
    ensures |r.state.table| == TableLength
    decreases depth, 2
  {
    var slot := Slot(p.zobristKey);
    match ProbeEntry(s.table[slot], p.zobristKey, depth, alpha, beta)
    case Cutoff(score) => Outcome(score, s)
    case Window(a, b) =>
      if p.isDraw then Outcome(0, s)
      else if depth == 0 || |LegalMoves(p)| == 0 then Outcome(LeafScore(p, color), s)
      else ExpandNode(s, p, depth, alpha, a, b, color)
  }

  /** The rest of Search for a node that expands, with the window (a, b) the
      probe left: order the moves, run the loop, store into the slot. */
  function ExpandNode(s: State, p: Position, depth: nat, alpha: int, a: int, b: int, color: int): (r: Outcome)
    requires |s.table| == TableLength && a < b && depth > 0
    ensures |r.state.table| == TableLength
    decreases depth, 1
  {
    var slot := Slot(p.zobristKey);
    var moves := Ordered(s.table[slot], p.zobristKey, LegalMoves(p));
    var loop := MoveLoop(s, p, moves, 0, depth, a, b, color, -Infinity);
    var entry := Stored(loop.state.table[slot], loop.best, loop.state.moveToPlay, depth, alpha, b);
    Outcome(loop.best, loop.state.(table := loop.state.table[slot := entry]))
  }

  /** One pass of the loop body: make the move, search the child with the
      window negated and swapped, keep the score if it beats the best so far
      (and, at the bot's depth, the move as moveToPlay), raise alpha. */
  datatype Step = Step(evaluation: int, best: int, state: State, alpha: int)

  function AfterChild(child: Outcome, move: Move, depth: nat, alpha: int, best: int): (st: Step)
    ensures st.evaluation == -child.score
    ensures st.best == Max(best, st.evaluation) && st.alpha == Max(alpha, st.evaluation)
    ensures st.state.table == child.state.table
    ensures st.state.moveToPlay == move || st.state.moveToPlay == child.state.moveToPlay
    ensures st.state.moveToPlay != child.state.moveToPlay ==> depth == BotDepth && st.evaluation > best
  {
    var evaluation := -child.score;
    var improved := evaluation > best;
    Step(evaluation,
         if improved then evaluation else best,
         if improved && depth == BotDepth then child.state.(moveToPlay := move) else child.state,
         Max(alpha, evaluation))
  }

  /** The body's updates written out: the negated score, the new best, and the
      move recorded only when the root improves. */
  lemma AfterChildUpdates(child: Outcome, move: Move, depth: nat, alpha: int, best: int)
    ensures AfterChild(child, move, depth, alpha, best)
         == Step(-child.score, Max(best, -child.score),
                 if -child.score > best && depth == BotDepth then child.state.(moveToPlay := move) else child.state,
                 Max(alpha, -child.score))
  {
  }

  /** The loop body for one move: its child searched at depth - 1 with the
      window negated and swapped. */
  function LoopStep(s: State, p: Position, move: Move, depth: nat, alpha: int, beta: int, color: int, best: int): (st: Step)
    requires |s.table| == TableLength && 0 < depth && alpha < beta
    ensures |st.state.table| == TableLength
    decreases depth, 0, 0
  {
    AfterChild(SearchNode(s, MakeMove(p, move), depth - 1, -beta, -alpha, -color), move, depth, alpha, best)
  }

  /** One loop pass is the child's search followed by the body's updates. */
  lemma LoopStepIsAfterChild(s: State, p: Position, move: Move, depth: nat, alpha: int, beta: int, color: int, best: int)
    requires |s.table| == TableLength && 0 < depth && alpha < beta
    ensures LoopStep(s, p, move, depth, alpha, beta, color, best)
         == AfterChild(SearchNode(s, MakeMove(p, move), depth - 1, -beta, -alpha, -color), move, depth, alpha, best)
  {
  }

  /** The foreach over the ordered moves, from move i on, with the running
      alpha and best score; it breaks once alpha reaches beta. */
  function MoveLoop(s: State, p: Position, moves: seq<Move>, i: nat, depth: nat, alpha: int, beta: int, color: int, best: int): (r: LoopResult)
    requires |s.table| == TableLength && i <= |moves| && 0 < depth && alpha < beta
    ensures |r.state.table| == TableLength
    decreases depth, 0, |moves| - i
  {
    if i == |moves| then LoopResult(best, s, [])
    else
      var st := LoopStep(s, p, moves[i], depth, alpha, beta, color, best);
      if st.alpha >= beta then LoopResult(st.best, st.state, [st.evaluation])
      else
        var rest := MoveLoop(st.state, p, moves, i + 1, depth, st.alpha, beta, color, st.best);
        LoopResult(rest.best, rest.state, [st.evaluation] + rest.evaluations)
  }

  /** One turn of the loop: it either breaks with the step's result or goes
      on from the next move with the step's state, alpha and best. */
  lemma MoveLoopTurn(s: State, p: Position, moves: seq<Move>, i: nat, depth: nat, alpha: int, beta: int, color: int, best: int)
    requires |s.table| == TableLength && i < |moves| && 0 < depth && alpha < beta
    ensures var st := LoopStep(s, p, moves[i], depth, alpha, beta, color, best);
      var r := MoveLoop(s, p, moves, i, depth, alpha, beta, color, best);
      if st.alpha >= beta then r.best == st.best && r.state == st.state
      else
        var rest := MoveLoop(st.state, p, moves, i + 1, depth, st.alpha, beta, color, st.best);
        r.best == rest.best && r.state == rest.state
  {
  }

  /** The running alpha after the first k examined moves. */
  function AlphaAfter(alpha: int, evaluations: seq<int>, k: nat): int
    requires k <= |evaluations|
  {
    MaxOf(alpha, evaluations[..k])
  }

  /** The window the node goes on with when its probe does not cut off. */
  function ProbedWindow(s: State, p: Position, depth: nat, alpha: int, beta: int): Probe
    requires |s.table| == TableLength && alpha < beta
  {
    ProbeEntry(s.table[Slot(p.zobristKey)], p.zobristKey, depth, alpha, beta)
  }

  /** The node gets past the probe and the draw test and has moves to search. */
  predicate Expands(s: State, p: Position, depth: nat, alpha: int, beta: int)
    requires |s.table| == TableLength && alpha < beta
  {
    ProbedWindow(s, p, depth, alpha, beta).Window? && !p.isDraw && depth > 0 && |LegalMoves(p)| > 0
  }

  /** The move loop an expanding node runs. */
  function NodeLoop(s: State, p: Position, depth: nat, alpha: int, beta: int, color: int): LoopResult
    requires |s.table| == TableLength && alpha < beta
    requires Expands(s, p, depth, alpha, beta)
  {
    var w := ProbedWindow(s, p, depth, alpha, beta);
    var moves := Ordered(s.table[Slot(p.zobristKey)], p.zobristKey, LegalMoves(p));
    MoveLoop(s, p, moves, 0, depth, w.alpha, w.beta, color, -Infinity)
  }

  /** An expanding node runs its move loop and then stores into its slot. */
  lemma ExpandedNodeOutcome(s: State, p: Position, depth: nat, alpha: int, beta: int, color: int)
    requires |s.table| == TableLength && alpha < beta
    requires Expands(s, p, depth, alpha, beta)
    ensures var loop := NodeLoop(s, p, depth, alpha, beta, color);
      var slot := Slot(p.zobristKey);
      var entry := Stored(loop.state.table[slot], loop.best, loop.state.moveToPlay, depth, alpha, ProbedWindow(s, p, depth, alpha, beta).beta);
      SearchNode(s, p, depth, alpha, beta, color) == Outcome(loop.best, loop.state.(table := loop.state.table[slot := entry]))
  {
  }

  /** Every move of the ordered list leads to a position with bounded branching. */
  lemma OrderedChildrenBounded(entry: Transposition, p: Position)
    requires BranchingBounded(p)
    ensures var moves := Ordered(entry, p.zobristKey, LegalMoves(p));
      forall k :: 0 <= k < |moves| ==> BranchingBounded(MakeMove(p, moves[k]))
  {
    var moves := Ordered(entry, p.zobristKey, LegalMoves(p));
    forall k | 0 <= k < |moves|
      ensures BranchingBounded(MakeMove(p, moves[k]))
    {
      OrderedMember(entry, p.zobristKey, LegalMoves(p), k);
      MakeMoveKeepsBound(p, moves[k]);
    }
  }

  /** A node that does not expand writes nothing: a probe cutoff returns the
      stored score, a draw returns 0, and a node at depth 0 or without legal
      moves returns its leaf score. */
  lemma UnexpandedNodeScore(s: State, p: Position, depth: nat, alpha: int, beta: int, color: int)
    requires |s.table| == TableLength && alpha < beta
    requires !Expands(s, p, depth, alpha, beta)
    ensures SearchNode(s, p, depth, alpha, beta, color).state == s
    ensures ProbedWindow(s, p, depth, alpha, beta).Cutoff?
            ==> SearchNode(s, p, depth, alpha, beta, color).score == s.table[Slot(p.zobristKey)].evaluation
    ensures ProbedWindow(s, p, depth, alpha, beta).Window? && p.isDraw
            ==> SearchNode(s, p, depth, alpha, beta, color).score == 0
    ensures ProbedWindow(s, p, depth, alpha, beta).Window? && !p.isDraw
            ==> SearchNode(s, p, depth, alpha, beta, color).score == LeafScore(p, color)
  {
  }

  lemma MaxOfCons(x: int, head: int, tail: seq<int>)
    ensures MaxOf(x, [head] + tail) == MaxOf(Max(x, head), tail)
  {
    assert ([head] + tail)[1..] == tail;
  }

  lemma AlphaAfterCons(alpha: int, head: int, tail: seq<int>, k: nat)
    requires k <= |tail|
    ensures AlphaAfter(alpha, [head] + tail, k + 1) == AlphaAfter(Max(alpha, head), tail, k)
  {
    assert ([head] + tail)[..k + 1] == [head] + tail[..k];
    MaxOfCons(alpha, head, tail[..k]);
  }

  /** What a loop over `remaining` moves that examined the child scores `e`
      and returned `result` must satisfy: the result is the best of the scores;
      at least one move is examined when there is one; the loop goes on while
      the running alpha stays below beta and stops early only once it reaches it. */
  predicate Examined(alpha: int, beta: int, best: int, e: seq<int>, result: int, remaining: nat) {
    && result == MaxOf(best, e)
    && (remaining > 0 ==> |e| >= 1)
    && |e| <= remaining
    && (forall k :: 0 < k < |e| ==> AlphaAfter(alpha, e, k) < beta)
    && (|e| < remaining ==> AlphaAfter(alpha, e, |e|) >= beta)
  }

  /** A loop that breaks after its first move. */
  lemma ExaminedLast(alpha: int, beta: int, best: int, evaluation: int, remaining: nat)
    requires remaining > 0 && Max(alpha, evaluation) >= beta
    ensures Examined(alpha, beta, best, [evaluation], Max(best, evaluation), remaining)
  {
    MaxOfCons(best, evaluation, []);
    assert [evaluation] + [] == [evaluation];
    assert MaxOf(Max(best, evaluation), []) == Max(best, evaluation);
    AlphaAfterCons(alpha, evaluation, [], 0);
  }

  /** A first move that leaves alpha below beta, in front of moves that keep it
      below beta, keeps it below beta throughout. */
  lemma AlphaStaysBelowCons(alpha: int, beta: int, evaluation: int, rest: seq<int>)
    requires Max(alpha, evaluation) < beta
    requires forall k :: 0 < k < |rest| ==> AlphaAfter(Max(alpha, evaluation), rest, k) < beta
    ensures forall k :: 0 < k < |rest| + 1 ==> AlphaAfter(alpha, [evaluation] + rest, k) < beta
  {
    forall k | 0 < k < |rest| + 1
      ensures AlphaAfter(alpha, [evaluation] + rest, k) < beta
    {
      AlphaAfterCons(alpha, evaluation, rest, k - 1);
      assert rest[..0] == [];
    }
  }

  /** A loop that goes on after its first move. */
  lemma ExaminedCons(alpha: int, beta: int, best: int, evaluation: int, rest: seq<int>, result: int, remaining: nat)
    requires remaining > 0 && Max(alpha, evaluation) < beta
    requires Examined(Max(alpha, evaluation), beta, Max(best, evaluation), rest, result, remaining - 1)
    ensures Examined(alpha, beta, best, [evaluation] + rest, result, remaining)
  {
    var e := [evaluation] + rest;
    MaxOfCons(best, evaluation, rest);
    AlphaStaysBelowCons(alpha, beta, evaluation, rest);
    AlphaAfterCons(alpha, evaluation, rest, |rest|);
    assert AlphaAfter(alpha, e, |e|) == AlphaAfter(Max(alpha, evaluation), rest, |rest|);
    if |e| < remaining {
      assert |rest| < remaining - 1;
    }
  }

  /** The move loop's result is the best of the child scores it examined; it
      examines at least one move, and it stops exactly at the first move after
      which the running alpha reaches beta. */
  lemma {:induction false} MoveLoopExamination(s: State, p: Position, moves: seq<Move>, i: nat, depth: nat, alpha: int, beta: int, color: int, best: int)
    requires |s.table| == TableLength && i <= |moves| && 0 < depth && alpha < beta
    ensures var r := MoveLoop(s, p, moves, i, depth, alpha, beta, color, best);
      Examined(alpha, beta, best, r.evaluations, r.best, |moves| - i)
    decreases |moves| - i
  {
    if i < |moves| {
      var st := LoopStep(s, p, moves[i], depth, alpha, beta, color, best);
      assert st.best == Max(best, st.evaluation) && st.alpha == Max(alpha, st.evaluation);
      if st.alpha >= beta {
        ExaminedLast(alpha, beta, best, st.evaluation, |moves| - i);
      } else {
        MoveLoopExamination(st.state, p, moves, i + 1, depth, st.alpha, beta, color, st.best);
        var rest := MoveLoop(st.state, p, moves, i + 1, depth, st.alpha, beta, color, st.best);
        ExaminedCons(alpha, beta, best, st.evaluation, rest.evaluations, rest.best, |moves| - i);
      }
    }
  }

  /** An expanding node returns the best score among the children its loop
      examined (at least one), each child searched at depth - 1 with the
      window negated and swapped. */
  lemma ExpandedNodeScore(s: State, p: Position, depth: nat, alpha: int, beta: int, color: int)
    requires |s.table| == TableLength && alpha < beta
    requires Expands(s, p, depth, alpha, beta)
    ensures var loop := NodeLoop(s, p, depth, alpha, beta, color);
      && |loop.evaluations| >= 1
      && SearchNode(s, p, depth, alpha, beta, color).score == MaxOf(-Infinity, loop.evaluations)
  {
    var w := ProbedWindow(s, p, depth, alpha, beta);
    var moves := Ordered(s.table[Slot(p.zobristKey)], p.zobristKey, LegalMoves(p));
    MoveLoopExamination(s, p, moves, 0, depth, w.alpha, w.beta, color, -Infinity);
  }

  /** After an expanding node, its slot holds the returned score, the depth as
      a byte, the bot's moveToPlay and a flag that is CUT_NODE when the score
      did not rise above the alpha the node was called with, ALL_NODE when it
      reached the (probe-narrowed) beta, PV_NODE otherwise. */
  lemma ExpandedNodeStore(s: State, p: Position, depth: nat, alpha: int, beta: int, color: int)
    requires |s.table| == TableLength && alpha < beta
    requires Expands(s, p, depth, alpha, beta)
    ensures var r := SearchNode(s, p, depth, alpha, beta, color);
      var e := r.state.table[Slot(p.zobristKey)];
      var b := ProbedWindow(s, p, depth, alpha, beta).beta;
      && e.evaluation == r.score
      && e.depth == depth % 256
      && e.move == r.state.moveToPlay
      && (e.flag == CutNode <==> r.score <= alpha)
      && (e.flag == AllNode <==> alpha < r.score && b <= r.score)
      && (e.flag == PvNode <==> alpha < r.score < b)
  {
  }

  /** No search writes a key field, and only a node at the bot's depth writes
      moveToPlay: below it moveToPlay is unchanged, and at it moveToPlay is
      either unchanged or one of the node's legal moves. */
  lemma {:induction false} SearchFrame(s: State, p: Position, depth: nat, alpha: int, beta: int, color: int)
    requires |s.table| == TableLength && alpha < beta
    ensures var r := SearchNode(s, p, depth, alpha, beta, color);
      && (forall k :: 0 <= k < TableLength ==> r.state.table[k].zobristKey == s.table[k].zobristKey)
      && (depth < BotDepth ==> r.state.moveToPlay == s.moveToPlay)
      && (depth == BotDepth ==> r.state.moveToPlay == s.moveToPlay || r.state.moveToPlay in LegalMoves(p))
    decreases depth, 1
  {
    if Expands(s, p, depth, alpha, beta) {
      var w := ProbedWindow(s, p, depth, alpha, beta);
      var moves := Ordered(s.table[Slot(p.zobristKey)], p.zobristKey, LegalMoves(p));
      MoveLoopFrame(s, p, moves, 0, depth, w.alpha, w.beta, color, -Infinity);
      OrderedIsPermutation(s.table[Slot(p.zobristKey)], p.zobristKey, LegalMoves(p));
      var loop := MoveLoop(s, p, moves, 0, depth, w.alpha, w.beta, color, -Infinity);
      if depth == BotDepth && loop.state.moveToPlay != s.moveToPlay {
        assert loop.state.moveToPlay in multiset(moves);
      }
    }
  }

  lemma {:induction false} MoveLoopFrame(s: State, p: Position, moves: seq<Move>, i: nat, depth: nat, alpha: int, beta: int, color: int, best: int)
    requires |s.table| == TableLength && i <= |moves| && 0 < depth && alpha < beta
    ensures var r := MoveLoop(s, p, moves, i, depth, alpha, beta, color, best);
      && (forall k :: 0 <= k < TableLength ==> r.state.table[k].zobristKey == s.table[k].zobristKey)
      && (depth < BotDepth ==> r.state.moveToPlay == s.moveToPlay)
      && (depth == BotDepth ==> r.state.moveToPlay == s.moveToPlay || r.state.moveToPlay in moves)
    decreases depth, 0, |moves| - i
  {
    if i < |moves| {
      SearchFrame(s, MakeMove(p, moves[i]), depth - 1, -beta, -alpha, -color);
      var st := LoopStep(s, p, moves[i], depth, alpha, beta, color, best);
      if st.alpha < beta {
        MoveLoopFrame(st.state, p, moves, i + 1, depth, st.alpha, beta, color, st.best);
      }
    }
  }

  /** Every slot of the table holds a score within ±MateBase. */
  ghost predicate TableBounded(table: seq<Transposition>) {
    forall k :: 0 <= k < |table| ==> -MateBase <= table[k].evaluation <= MateBase
  }

  /** On a chess board every search returns a score within ±MateBase and
      stores only such scores: leaves are bounded, a probe cutoff returns a
      stored score, and an expanding node returns the best of its negated
      children's scores. */
  lemma {:induction false} SearchBounded(s: State, p: Position, depth: nat, alpha: int, beta: int, color: int)
    requires |s.table| == TableLength && alpha < beta
    requires TableBounded(s.table) && ChessBounded(p) && (color == 1 || color == -1)
    ensures -MateBase <= SearchNode(s, p, depth, alpha, beta, color).score <= MateBase
    ensures TableBounded(SearchNode(s, p, depth, alpha, beta, color).state.table)
    decreases depth, 1
  {
    if Expands(s, p, depth, alpha, beta) {
      var w := ProbedWindow(s, p, depth, alpha, beta);
      var moves := Ordered(s.table[Slot(p.zobristKey)], p.zobristKey, LegalMoves(p));
      LoopBounded(s, p, moves, 0, depth, w.alpha, w.beta, color, -Infinity);
      ExpandedNodeOutcome(s, p, depth, alpha, beta, color);
    } else {
      UnexpandedNodeScore(s, p, depth, alpha, beta, color);
      if ProbedWindow(s, p, depth, alpha, beta).Window? && !p.isDraw {
        LeafBounded(p, color);
      }
    }
  }

  /** The body's updates keep a bounded child's score and table bounded. */
  lemma AfterChildBounded(child: Outcome, move: Move, depth: nat, alpha: int, best: int)
    requires -MateBase <= child.score <= MateBase && TableBounded(child.state.table) && best <= MateBase
    ensures var st := AfterChild(child, move, depth, alpha, best);
      best <= st.best && -MateBase <= st.best <= MateBase && TableBounded(st.state.table)
  {
  }

  /** One loop pass raises the best score to at least its old value and to a
      score within ±MateBase, and stores only bounded scores. */
  lemma {:induction false} StepBounded(s: State, p: Position, move: Move, depth: nat, alpha: int, beta: int, color: int, best: int)
    requires |s.table| == TableLength && 0 < depth && alpha < beta
    requires TableBounded(s.table) && ChessBounded(MakeMove(p, move)) && (color == 1 || color == -1) && best <= MateBase
    ensures var st := LoopStep(s, p, move, depth, alpha, beta, color, best);
      best <= st.best && -MateBase <= st.best <= MateBase && TableBounded(st.state.table)
    decreases depth, 0, 0
  {
    var child := SearchNode(s, MakeMove(p, move), depth - 1, -beta, -alpha, -color);
    SearchBounded(s, MakeMove(p, move), depth - 1, -beta, -alpha, -color);
    assert -MateBase <= child.score <= MateBase && TableBounded(child.state.table);
    assert LoopStep(s, p, move, depth, alpha, beta, color, best) == AfterChild(child, move, depth, alpha, best);
    AfterChildBounded(child, move, depth, alpha, best);
  }

  /** The move loop's best score only rises from where it starts, stays within
      ±MateBase once a move is examined, and the loop stores only such scores. */
  lemma {:induction false} LoopBounded(s: State, p: Position, moves: seq<Move>, i: nat, depth: nat, alpha: int, beta: int, color: int, best: int)
    requires |s.table| == TableLength && i <= |moves| && 0 < depth && alpha < beta
    requires TableBounded(s.table) && ChessBounded(p) && (color == 1 || color == -1) && best <= MateBase
    ensures var r := MoveLoop(s, p, moves, i, depth, alpha, beta, color, best);
      && best <= r.best <= MateBase && (i < |moves| ==> -MateBase <= r.best)
      && TableBounded(r.state.table)
    decreases depth, 0, |moves| - i
  {
    if i < |moves| {
      MakeMoveKeepsChessBound(p, moves[i]);
      StepBounded(s, p, moves[i], depth, alpha, beta, color, best);
      MoveLoopTurn(s, p, moves, i, depth, alpha, beta, color, best);
      var st := LoopStep(s, p, moves[i], depth, alpha, beta, color, best);
      if st.alpha < beta {
        LoopBounded(st.state, p, moves, i + 1, depth, st.alpha, beta, color, st.best);
      }
    }
  }

  /** Which move a loop at the bot's depth leaves in moveToPlay, given the
      child scores e it examined from move i on, the best score it started
      from and the one it returned: when no child beat the starting best,
      the move it started with; otherwise the first examined move whose
      score is the returned best, every move examined before it scoring
      strictly less. */
  predicate ChoseFirstBest(moves: seq<Move>, i: nat, e: seq<int>, start: int, best: int, before: Move, chosen: Move) {
    && best >= start
    && (best == start ==> chosen == before)
    && (best > start ==> exists k :: 0 <= k < |e| && i + k < |moves| && chosen == moves[i + k] && e[k] == best
                                    && forall j :: 0 <= j < k ==> e[j] < best)
  }

  /** One loop step at the bot's depth: the best score rises to the child's
      score when that beats it, and moveToPlay becomes the move exactly then. */
  lemma StepChoice(s: State, p: Position, move: Move, alpha: int, beta: int, color: int, best: int)
    requires |s.table| == TableLength && alpha < beta
    ensures var st := LoopStep(s, p, move, BotDepth, alpha, beta, color, best);
      && st.best == Max(best, st.evaluation)
      && st.state.moveToPlay == if st.evaluation > best then move else s.moveToPlay
  {
    var child := SearchNode(s, MakeMove(p, move), BotDepth - 1, -beta, -alpha, -color);
    SearchFrame(s, MakeMove(p, move), BotDepth - 1, -beta, -alpha, -color);
    assert child.state.moveToPlay == s.moveToPlay;
    assert LoopStep(s, p, move, BotDepth, alpha, beta, color, best) == AfterChild(child, move, BotDepth, alpha, best);
  }

  /** Putting one step in front of a loop's examination keeps the choice. */
  lemma ChoseFirstBestCons(moves: seq<Move>, i: nat, evaluation: int, rest: seq<int>, start: int, best: int, before: Move, chosen: Move)
    requires i < |moves|
    requires ChoseFirstBest(moves, i + 1, rest, Max(start, evaluation), best,
                            if evaluation > start then moves[i] else before, chosen)
    ensures ChoseFirstBest(moves, i, [evaluation] + rest, start, best, before, chosen)
  {
    var e := [evaluation] + rest;
    if best > Max(start, evaluation) {
      var k :| 0 <= k < |rest| && i + 1 + k < |moves| && chosen == moves[i + 1 + k] && rest[k] == best
               && forall j :: 0 <= j < k ==> rest[j] < best;
      assert e[k + 1] == best && i + (k + 1) == i + 1 + k;
      forall j | 0 <= j < k + 1
        ensures e[j] < best
      {
        if j > 0 {
          assert e[j] == rest[j - 1];
        }
      }
    } else if best > start {
      assert e[0] == best;
    }
  }

  /** At the bot's depth the loop keeps in moveToPlay the first move whose
      child score is strictly the best so far and is never beaten later; the
      children, searched below the bot's depth, leave moveToPlay alone. */
  lemma {:induction false} MoveLoopChoice(s: State, p: Position, moves: seq<Move>, i: nat, alpha: int, beta: int, color: int, best: int)
    requires |s.table| == TableLength && i <= |moves| && alpha < beta
    ensures var r := MoveLoop(s, p, moves, i, BotDepth, alpha, beta, color, best);
      ChoseFirstBest(moves, i, r.evaluations, best, r.best, s.moveToPlay, r.state.moveToPlay)
    decreases |moves| - i
  {
    if i < |moves| {
      StepChoice(s, p, moves[i], alpha, beta, color, best);
      var st := LoopStep(s, p, moves[i], BotDepth, alpha, beta, color, best);
      if st.alpha >= beta {
        ChoseFirstBestCons(moves, i, st.evaluation, [], best, st.best, s.moveToPlay, st.state.moveToPlay);
      } else {
        MoveLoopChoice(st.state, p, moves, i + 1, st.alpha, beta, color, st.best);
        var rest := MoveLoop(st.state, p, moves, i + 1, BotDepth, st.alpha, beta, color, st.best);
        ChoseFirstBestCons(moves, i, st.evaluation, rest.evaluations, best, rest.best, s.moveToPlay, rest.state.moveToPlay);
      }
    }
  }

  /** The root search of Think: a node that does not expand leaves moveToPlay
      as it was; one that expands leaves the first move of its ordered list
      whose child score is the score it returns, unless no child scored above
      -Infinity, in which case moveToPlay is again unchanged. */
  lemma SearchRootChoice(s: State, p: Position, alpha: int, beta: int, color: int)
    requires |s.table| == TableLength && alpha < beta
    ensures var r := SearchNode(s, p, BotDepth, alpha, beta, color);
      && (!Expands(s, p, BotDepth, alpha, beta) ==> r.state.moveToPlay == s.moveToPlay)
      && (Expands(s, p, BotDepth, alpha, beta) ==>
            ChoseFirstBest(Ordered(s.table[Slot(p.zobristKey)], p.zobristKey, LegalMoves(p)), 0,
                           NodeLoop(s, p, BotDepth, alpha, beta, color).evaluations, -Infinity, r.score, s.moveToPlay, r.state.moveToPlay))
  {
    if Expands(s, p, BotDepth, alpha, beta) {
      var w := ProbedWindow(s, p, BotDepth, alpha, beta);
      var moves := Ordered(s.table[Slot(p.zobristKey)], p.zobristKey, LegalMoves(p));
      MoveLoopChoice(s, p, moves, 0, w.alpha, w.beta, color, -Infinity);
      ExpandedNodeOutcome(s, p, BotDepth, alpha, beta, color);
    } else {
      UnexpandedNodeScore(s, p, BotDepth, alpha, beta, color);
    }
  }

  /** On a chess board a root that expands always leaves one of its legal
      moves in moveToPlay: its score lies within ±MateBase, so some child
      beats the -Infinity the loop starts from. */
  lemma RootPicksLegalMove(s: State, p: Position, alpha: int, beta: int, color: int)
    requires |s.table| == TableLength && alpha < beta
    requires TableBounded(s.table) && ChessBounded(p) && (color == 1 || color == -1)
    ensures Expands(s, p, BotDepth, alpha, beta)
            ==> SearchNode(s, p, BotDepth, alpha, beta, color).state.moveToPlay in LegalMoves(p)
  {
    if Expands(s, p, BotDepth, alpha, beta) {
      SearchRootChoice(s, p, alpha, beta, color);
      SearchBounded(s, p, BotDepth, alpha, beta, color);
      var moves := Ordered(s.table[Slot(p.zobristKey)], p.zobristKey, LegalMoves(p));
      var e := NodeLoop(s, p, BotDepth, alpha, beta, color).evaluations;
      var r := SearchNode(s, p, BotDepth, alpha, beta, color);
      var k :| 0 <= k < |e| && k < |moves| && r.state.moveToPlay == moves[k] && e[k] == r.score
               && forall j :: 0 <= j < k ==> e[j] < r.score;
      OrderedMember(s.table[Slot(p.zobristKey)], p.zobristKey, LegalMoves(p), k);
    }
  }
}
