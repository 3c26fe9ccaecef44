/**
  The packet codec of the Selective-Repeat protocol: the fixed-format packet and its
  additive checksum (sum of sequence number, acknowledgement number and the 20 payload
  bytes), shared by the sender and the receiver.
*/
module Codec {

  /** Number of payload bytes carried by every packet. */
  const PayloadSize: nat := 20

  /** A C `char` widened to `int`; the platform's `char` is taken to be signed. */
  type Byte = x: int | -128 <= x < 128

  /** The fixed-length payload block of a packet. */
  type Payload = s: seq<Byte> | |s| == PayloadSize witness ZeroPayload

  /** An all-zero payload, the content of a zero-initialised static packet. */
  const ZeroPayload: seq<Byte> := seq(PayloadSize, _ => 0)

  /** The acknowledgement number of a pure data packet. */
  const NoAck: int := -1

  /** A packet as it travels through the channel. */
  datatype Pkt = Pkt(seqnum: int, acknum: int, checksum: int, payload: Payload)

  /** Sum of a sequence of integers, accumulated from the left as the source's loop does. */
  function Sum(s: seq<int>): int
  {
    if s == [] then 0 else Sum(s[..|s| - 1]) + s[|s| - 1]
  }

  /** The checksum a packet should carry: the specification of ComputeChecksum. */
  function Checksum(p: Pkt): int
  {
    p.seqnum + p.acknum + Sum(p.payload)
  }

  /** A packet is corrupted when its checksum field disagrees with its other fields. */
  predicate IsCorrupted(p: Pkt)
  {
    p.checksum != Checksum(p)
  }

  /** The loop that adds the sequence number, the acknowledgement number and each payload byte. */
  method ComputeChecksum(p: Pkt) returns (c: int)
    ensures c == p.seqnum + p.acknum + Sum(p.payload)
    ensures !IsCorrupted(p) <==> c == p.checksum
  {
    c := p.seqnum + p.acknum;
    var i := 0;
    while i < PayloadSize
      invariant 0 <= i <= PayloadSize
      invariant c == p.seqnum + p.acknum + Sum(p.payload[..i])
    {
      assert p.payload[..i + 1][..i] == p.payload[..i];
      c := c + p.payload[i];
      i := i + 1;
    }
    assert p.payload[..PayloadSize] == p.payload;
  }

  /** The data packet the sender builds: sequence number, "not used" ack, payload, then checksum. */
  function MakeData(seqnum: int, data: Payload): (p: Pkt)
    ensures p.seqnum == seqnum && p.acknum == NoAck && p.payload == data
    ensures !IsCorrupted(p)
  {
    Pkt(seqnum, NoAck, seqnum + NoAck + Sum(data), data)
  }

  /** The four bytes the receiver copies into an ACK's payload: "ACK" and its terminating NUL. */
  const AckText: seq<Byte> := [65, 67, 75, 0]

  /**
    The ACK the receiver builds for `seqnum`. Its checksum is computed while the payload
    still holds `uninit`, the indeterminate bytes of an uninitialised local, and only then
    are the first four payload bytes overwritten with AckText. The result therefore passes
    the corruption test exactly when the four overwritten bytes summed to those of AckText.
  */
  function MakeAck(seqnum: int, uninit: Payload): (p: Pkt)
    ensures p.seqnum == 0 && p.acknum == seqnum
    ensures p.payload[..4] == AckText && p.payload[4..] == uninit[4..]
    ensures p.checksum == Checksum(Pkt(0, seqnum, 0, uninit))
    ensures !IsCorrupted(p) <==> Sum(uninit[..4]) == Sum(AckText)
  {
    assert uninit == uninit[..4] + uninit[4..];
    SumAppend(uninit[..4], uninit[4..]);
    SumAppend(AckText, uninit[4..]);
    Pkt(0, seqnum, 0 + seqnum + Sum(uninit), AckText + uninit[4..])
  }

  /** Sum distributes over concatenation. */
  lemma {:induction false} SumAppend(a: seq<int>, b: seq<int>)
    ensures Sum(a + b) == Sum(a) + Sum(b)
    decreases |b|
  {
    if b == [] {
      assert a + b == a;
    } else {
      assert (a + b)[..|a + b| - 1] == a + b[..|b| - 1];
      SumAppend(a, b[..|b| - 1]);
    }
  }

  /** The sum of a four-element sequence, unfolded. */
  lemma SumOfFour(a: int, b: int, c: int, d: int)
    ensures Sum([a, b, c, d]) == a + b + c + d
  {
    assert [a][..0] == [];
    assert Sum([a]) == a;
    assert [a, b][..1] == [a];
    assert Sum([a, b]) == a + b;
    assert [a, b, c][..2] == [a, b];
    assert Sum([a, b, c]) == a + b + c;
    assert [a, b, c, d][..3] == [a, b, c];
  }

  /** Replacing one element changes the sum by exactly the difference. */
  lemma SumUpdate(s: seq<int>, i: int, v: int)
    requires 0 <= i < |s|
    ensures Sum(s[i := v]) == Sum(s) - s[i] + v
  {
    assert s == s[..i] + [s[i]] + s[i + 1..];
    assert s[i := v] == s[..i] + [v] + s[i + 1..];
    SumAppend(s[..i] + [s[i]], s[i + 1..]);
    SumAppend(s[..i] + [v], s[i + 1..]);
    SumAppend(s[..i], [s[i]]);
    SumAppend(s[..i], [v]);
  }

  /** Swapping two payload elements leaves the sum unchanged: the checksum ignores byte order. */
  lemma SumSwap(s: seq<int>, i: int, j: int)
    requires 0 <= i < |s| && 0 <= j < |s|
    ensures Sum(s[i := s[j]][j := s[i]]) == Sum(s)
  {
    SumUpdate(s, i, s[j]);
    SumUpdate(s[i := s[j]], j, s[i]);
  }

  /** Changing exactly one header field of a valid packet, without recomputing, is detected. */
  lemma HeaderChangeDetected(p: Pkt, seqnum: int, acknum: int, checksum: int)
    requires !IsCorrupted(p)
    ensures seqnum != p.seqnum ==> IsCorrupted(p.(seqnum := seqnum))
    ensures acknum != p.acknum ==> IsCorrupted(p.(acknum := acknum))
    ensures checksum != p.checksum ==> IsCorrupted(p.(checksum := checksum))
  {
  }

  /** Changing exactly one payload byte of a valid packet, without recomputing, is detected. */
  lemma PayloadChangeDetected(p: Pkt, i: int, v: Byte)
    requires !IsCorrupted(p)
    requires 0 <= i < PayloadSize && v != p.payload[i]
    ensures IsCorrupted(p.(payload := p.payload[i := v]))
  {
    SumUpdate(p.payload, i, v);
  }

  /** The checksum is weak: swapping two payload bytes of a valid packet goes unnoticed. */
  lemma PayloadSwapUndetected(p: Pkt, i: int, j: int)
    requires !IsCorrupted(p)
    requires 0 <= i < PayloadSize && 0 <= j < PayloadSize
    ensures !IsCorrupted(p.(payload := p.payload[i := p.payload[j]][j := p.payload[i]]))
  {
    SumSwap(p.payload, i, j);
  }

  /**
    "ACK\0" sums to 207, so an ACK built over zeroed memory, whose overwritten bytes sum
    to 0, never passes the sender's corruption test.
  */
  lemma AckOverZeroedMemoryCorrupted(seqnum: int)
    ensures Sum(AckText) == 207
    ensures IsCorrupted(MakeAck(seqnum, ZeroPayload))
  {
    SumOfFour(65, 67, 75, 0);
    assert ZeroPayload[..4] == [0, 0, 0, 0];
    SumOfFour(0, 0, 0, 0);
  }
}
