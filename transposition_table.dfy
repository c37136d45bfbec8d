/** The transposition table's entries, the slot a position hashes to, what a
    probe does to the search window and what a store writes. */
module Transpositions {
  import opened ChessApi
  import opened BotConstants

  /** TTFlags, in declaration order INVALID, PV_NODE, CUT_NODE, ALL_NODE. */
  datatype TTFlags = Invalid | PvNode | CutNode | AllNode

  /** The Transposition struct. */
  datatype Transposition = Transposition(zobristKey: ULong, move: Move, evaluation: int, depth: Byte, flag: TTFlags)

  /** The default struct value every slot starts with. */
  const EmptyEntry := Transposition(0, NullMove, 0, 0, Invalid)

  const TTSize: ULong := 0x6FFFFF

  /** The number of slots, TTSize + 1. */
  const TableLength := 0x700000

  /** The slot `zobristKey & TTSize`. The mask 0x6FFFFF keeps bits 0..19 and
      bits 21..22 of the key and clears bit 20 and every bit above 22. */
  function Slot(zobristKey: ULong): (index: nat)
    ensures index < TableLength
  {
    zobristKey % 0x100000 + (zobristKey / 0x200000 % 4) * 0x200000
  }

  /** Bit 20 of a slot is always clear: the slots from 0x100000 to 0x1FFFFF,
      from 0x300000 to 0x3FFFFF and so on are never used, and only 2^22 of the
      0x700000 slots can be reached. */
  lemma SlotSkipsBit20(zobristKey: ULong)
    ensures Slot(zobristKey) / 0x100000 % 2 == 0
  {
  }

  /** The guard of the probe: a valid entry for this key searched at least as deep. */
  predicate IsHit(entry: Transposition, zobristKey: ULong, depth: int): (hit: bool)
    ensures hit ==> entry != EmptyEntry
  {
    entry.flag != Invalid && entry.zobristKey == zobristKey && entry.depth >= depth
  }

  /** What the probe decides: return the stored score, or go on with this window. */
  datatype Probe = Cutoff(score: int) | Window(alpha: int, beta: int)

  /** The probe at the top of Search. A PV_NODE hit returns the stored score; a
      CUT_NODE hit raises alpha to it, an ALL_NODE hit lowers beta to it, and
      the stored score is returned when that closes the window. */
  function ProbeEntry(entry: Transposition, zobristKey: ULong, depth: int, alpha: int, beta: int): (r: Probe)
    requires alpha < beta
    ensures !IsHit(entry, zobristKey, depth) ==> r == Window(alpha, beta)
    ensures r.Cutoff? <==> IsHit(entry, zobristKey, depth)
                           && (|| entry.flag == PvNode
                               || (entry.flag == CutNode && entry.evaluation >= beta)
                               || (entry.flag == AllNode && entry.evaluation <= alpha))
    ensures r.Cutoff? ==> r.score == entry.evaluation
    ensures r.Window? ==> alpha <= r.alpha < r.beta <= beta
    ensures (r.Window? && IsHit(entry, zobristKey, depth) && entry.flag == CutNode)
      ==> r.beta == beta && r.alpha >= entry.evaluation && (r.alpha == alpha || r.alpha == entry.evaluation)
    ensures (r.Window? && IsHit(entry, zobristKey, depth) && entry.flag == AllNode)
      ==> r.alpha == alpha && r.beta <= entry.evaluation && (r.beta == beta || r.beta == entry.evaluation)
  {
    if !IsHit(entry, zobristKey, depth) then Window(alpha, beta)
    else if entry.flag == PvNode then Cutoff(entry.evaluation)
    else
      var a := if entry.flag == CutNode then Max(alpha, entry.evaluation) else alpha;
      var b := if entry.flag == AllNode then Min(beta, entry.evaluation) else beta;
      if a >= b then Cutoff(entry.evaluation) else Window(a, b)
  }

  /** The flag a finished node stores: CUT_NODE when the score did not rise above
      the alpha the node was called with, ALL_NODE when it reached beta,
      PV_NODE otherwise. */
  function NodeFlag(score: int, originalAlpha: int, beta: int): (flag: TTFlags)
    ensures flag != Invalid
    ensures flag == CutNode <==> score <= originalAlpha
    ensures flag == AllNode <==> originalAlpha < score && beta <= score
    ensures flag == PvNode <==> originalAlpha < score < beta
  {
    if score <= originalAlpha then CutNode
    else if score >= beta then AllNode
    else PvNode
  }

  /** The store at the end of Search writes evaluation, move, depth (cast to a
      byte) and flag of the slot; the key field keeps whatever it held. */
  function Stored(slot: Transposition, score: int, move: Move, depth: nat, originalAlpha: int, beta: int): (e: Transposition)
    ensures e.zobristKey == slot.zobristKey
    ensures e.evaluation == score && e.move == move && e.depth == depth % 256
    ensures e.flag == NodeFlag(score, originalAlpha, beta)
  {
    slot.(evaluation := score, move := move, depth := depth % 256, flag := NodeFlag(score, originalAlpha, beta))
  }

  /** Every slot's key is still the zero the table was created with. */
  ghost predicate KeysUnset(table: seq<Transposition>) {
    forall i :: 0 <= i < |table| ==> table[i].zobristKey == 0
  }

  /** Since no store writes a key, a probe can only hit for a position whose key is 0. */
  lemma HitNeedsZeroKey(table: seq<Transposition>, zobristKey: ULong, depth: int)
    requires |table| == TableLength && KeysUnset(table)
    requires IsHit(table[Slot(zobristKey)], zobristKey, depth)
    ensures zobristKey == 0
  {
  }
}
