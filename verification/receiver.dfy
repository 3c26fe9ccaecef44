/**
  The receiving entity (entity B) as the source keeps it: a static slot table updated in
  place and the cursor `expectedseqnum`. Every method is proved to leave the object in the
  state the matching function of ReceiverSpec computes from the old one.
*/
module ReceiverEntity {
  import opened Codec
  import opened Window
  import opened ReceiverSpec

  class Receiver {
    /** receiver_buffer: one slot per sequence number. */
    const buf: array<RSlot>
    /** Lowest sequence number not yet delivered (expectedseqnum). */
    var expected: int
    /** Packets whose payloads were handed to layer 5 (tolayer5), in order. */
    ghost var delivered: seq<Pkt>
    /** ACKs handed to the channel (tolayer3), in order. */
    ghost var acks: seq<Pkt>

    /** The value this object stands for. */
    ghost function State(): ReceiverState
      reads this, buf
    {
      ReceiverState(buf[..], expected, delivered, acks)
    }

    /** The static storage before any call: zeroed slots and the cursor at 0. */
    constructor ()
      ensures State() == ReceiverState(seq(SeqSpace, _ => EmptyRSlot), 0, [], [])
      ensures Inv(State())
    {
      buf := new RSlot[SeqSpace](_ => EmptyRSlot);
      expected := 0;
      delivered, acks := [], [];
    }

    /**
      B_input: take a data packet from the channel. `uninit` stands for the indeterminate
      payload bytes of the ACK the source declares without initialising.
    */
    method Input(packet: Pkt, uninit: Payload)
      requires WellFormed(State())
      requires !IsCorrupted(packet) && InReceiveWindow(packet.seqnum, expected) ==> IsSeq(packet.seqnum)
      modifies this, buf
      ensures State() == OnPacket(old(State()), packet, uninit)
      ensures old(Inv(State())) ==> Inv(State())
    {
      ghost var r0 := State();
      if !IsCorrupted(packet) {
        var sn := packet.seqnum;
        var c := ComputeChecksum(Pkt(0, sn, 0, uninit));
        var ack := Pkt(0, sn, c, AckText + uninit[4..]);
        assert ack == MakeAck(sn, uninit);
        if InReceiveWindow(sn, expected) {
          if !buf[sn].used {
            ghost var stored := buf[..][sn := RSlot(packet, true)];
            buf[sn] := RSlot(packet, true);
            assert buf[..] == stored;
            if sn == expected {
              DeliverRun();
            }
          }
          acks := acks + [ack];
        }
      }
      if Inv(r0) {
        OnPacketPreservesInv(r0, packet, uninit);
      }
    }

    /** The delivery loop of B_input: deliver and free waiting slots from `expected` up to the first gap. */
    method DeliverRun()
      requires WellFormed(State())
      modifies this`expected, this`delivered, buf
      ensures (buf[..], expected, delivered) == Deliver(old(buf[..]), old(expected), old(delivered))
    {
      ghost var start, e0, d0 := buf[..], expected, delivered;
      while buf[expected].used
        invariant IsSeq(expected)
        invariant Deliver(buf[..], expected, delivered) == Deliver(start, e0, d0)
        decreases UsedCount(buf[..])
      {
        ghost var before := buf[..];
        DeliverStep(before, expected, delivered);
        UsedCountClear(before, expected);
        delivered := delivered + [buf[expected].packet];
        buf[expected] := buf[expected].(used := false);
        assert buf[..] == before[expected := before[expected].(used := false)];
        expected := Next(expected);
      }
    }

    /** B_init: the cursor to zero and every slot free. */
    method Init()
      requires buf.Length == SeqSpace
      modifies this, buf
      ensures State() == Reset(old(State()))
      ensures Inv(State())
    {
      ResetEstablishesInv(State());
      expected := 0;
      var i := 0;
      while i < SeqSpace
        invariant 0 <= i <= SeqSpace && expected == 0
        invariant forall j :: 0 <= j < i ==> buf[j] == old(buf[j]).(used := false)
        invariant forall j :: i <= j < SeqSpace ==> buf[j] == old(buf[j])
      {
        buf[i] := buf[i].(used := false);
        i := i + 1;
      }
      assert buf[..] == ClearUsed(old(buf[..]));
      delivered, acks := [], [];
    }
  }
}
