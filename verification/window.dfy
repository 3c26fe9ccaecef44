/**
  The modular sequence-number space shared by sender and receiver: its constants and
  the distance and successor arithmetic the two windows are built on.
*/
module Window {

  /** Largest number of packets the sender may have outstanding; also the receive window. */
  const WindowSize: nat := 6

  /** Number of distinct sequence numbers; slots are indexed by sequence number. */
  const SeqSpace: nat := 12

  /** A sequence number, and so an index into a slot table. */
  predicate IsSeq(i: int)
  {
    0 <= i < SeqSpace
  }

  /** The successor of a sequence number, wrapping at SeqSpace. */
  function Next(i: int): (r: int)
    requires IsSeq(i)
    ensures IsSeq(r)
    ensures r == if i == SeqSpace - 1 then 0 else i + 1
  {
    (i + 1) % SeqSpace
  }

  /** How many successor steps lead from `from` to `to`. */
  function Dist(from: int, to: int): int
  {
    if from <= to then to - from else to - from + SeqSpace
  }

  /** The occupancy formula of the source, with its `+ SEQSPACE` guard against a negative `%`. */
  function Occupancy(base: int, next: int): (r: int)
    requires IsSeq(base) && IsSeq(next)
    ensures 0 <= r < SeqSpace
    ensures r == Dist(base, next)
  {
    (next - base + SeqSpace) % SeqSpace
  }

  /** `i` lies in the half-open run of sequence numbers from `lo` up to, not including, `hi`. */
  predicate Between(lo: int, i: int, hi: int)
  {
    Dist(lo, i) < Dist(lo, hi)
  }

  /** Stepping the origin forward shortens the distance to every other sequence number by one. */
  lemma DistFromNext(e: int)
    requires IsSeq(e)
    ensures Dist(Next(e), e) == SeqSpace - 1
    ensures forall i :: IsSeq(i) && i != e ==> Dist(e, i) == Dist(Next(e), i) + 1
  {
  }

  /** Distances compose along the ring when the middle point lies on the way. */
  lemma DistSplit(a: int, b: int, c: int)
    requires IsSeq(a) && IsSeq(b) && IsSeq(c)
    requires Dist(a, b) <= Dist(a, c)
    ensures Dist(b, c) == Dist(a, c) - Dist(a, b)
  {
  }
}
