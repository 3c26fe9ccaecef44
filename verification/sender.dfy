/**
  The sending entity (entity A) as the source keeps it: a static slot table updated in place,
  the cursors `base` and `nextseqnum`, and the timer flag. Every method is proved to leave
  the object in the state the matching function of SenderSpec computes from the old one.
*/
module SenderEntity {
  import opened Codec
  import opened Window
  import opened SenderSpec

  class Sender {
    /** sender_buffer: one slot per sequence number. */
    const buf: array<Slot>
    /** Oldest sequence number not yet acknowledged. */
    var base: int
    /** Next sequence number to assign (nextseqnum). */
    var nextSeq: int
    /** The flag through which startTimer and stopTimer track the emulator timer. */
    var timerRunning: bool
    /** Packets handed to the channel (tolayer3), in order. */
    ghost var sent: seq<Pkt>
    /** Calls made on the emulator timer (starttimer, stoptimer), in order. */
    ghost var timerLog: seq<TimerEvent>

    /** The value this object stands for. */
    ghost function State(): SenderState
      reads this, buf
    {
      SenderState(buf[..], base, nextSeq, timerRunning, sent, timerLog)
    }

    /** The static storage before any call: zeroed slots, both cursors 0, no timer. */
    constructor ()
      ensures State() == SenderState(seq(SeqSpace, _ => EmptySlot), 0, 0, false, [], [])
      ensures Inv(State())
    {
      buf := new Slot[SeqSpace](_ => EmptySlot);
      base, nextSeq, timerRunning := 0, 0, false;
      sent, timerLog := [], [];
    }

    /** startTimer. */
    method StartTimer()
      modifies this
      ensures State() == SenderSpec.StartTimer(old(State()))
    {
      if !timerRunning {
        timerLog := timerLog + [Start];
        timerRunning := true;
      }
    }

    /** stopTimer. */
    method StopTimer()
      modifies this
      ensures State() == SenderSpec.StopTimer(old(State()))
    {
      if timerRunning {
        timerLog := timerLog + [Stop];
        timerRunning := false;
      }
    }

    /** A_output: accept a message from layer 5 unless the window is full. */
    method Output(data: Payload)
      requires WellFormed(State())
      modifies this, buf
      ensures State() == SenderSpec.Output(old(State()), data)
      ensures old(Inv(State())) ==> Inv(State())
    {
      ghost var s0 := State();
      if Inv(s0) { OutputPreservesInv(s0, data); }
      if (nextSeq - base + SeqSpace) % SeqSpace >= WindowSize {
        return;
      }
      var c := ComputeChecksum(Pkt(nextSeq, NoAck, 0, data));
      var packet := Pkt(nextSeq, NoAck, c, data);
      assert packet == MakeData(nextSeq, data);
      ghost var filled := buf[..][nextSeq := Slot(packet, true, false)];
      buf[nextSeq] := Slot(packet, true, false);
      assert buf[..] == filled;
      sent := sent + [packet];
      StartTimer();
      nextSeq := Next(nextSeq);
    }

    /** A_input: take an ACK from the channel. */
    method Input(ack: Pkt)
      requires WellFormed(State())
      requires !IsCorrupted(ack) ==> IsSeq(ack.acknum)
      modifies this, buf
      ensures State() == OnAck(old(State()), ack)
      ensures old(Inv(State())) ==> Inv(State())
    {
      ghost var s0 := State();
      if !IsCorrupted(ack) {
        var k := ack.acknum;
        if buf[k].used && !buf[k].acked {
          buf[k] := buf[k].(acked := true);
          SlideBase();
          var allAcked := AllAcked();
          if allAcked {
            StopTimer();
          }
        }
      }
      if Inv(s0) {
        OnAckPreservesInv(s0, ack);
      }
    }

    /** The loop of A_input that frees acknowledged slots at the base and moves the base past them. */
    method SlideBase()
      requires WellFormed(State())
      modifies this`base, buf
      ensures (buf[..], base) == Slide(old(buf[..]), old(base), nextSeq)
    {
      ghost var b0, start := base, buf[..];
      while buf[base].acked && base != nextSeq
        invariant IsSeq(base)
        invariant Slide(buf[..], base, nextSeq) == Slide(start, b0, nextSeq)
        decreases Dist(base, nextSeq)
      {
        ghost var before := buf[..];
        SlideStep(before, base, nextSeq);
        buf[base] := buf[base].(used := false);
        assert buf[..] == before[base := before[base].(used := false)];
        base := Next(base);
      }
    }

    /** The scan of A_input: true exactly when no slot of [base, nextseqnum) is still pending. */
    method AllAcked() returns (allAcked: bool)
      requires WellFormed(State())
      ensures allAcked <==> NonePending(buf[..], base, nextSeq)
    {
      allAcked := true;
      var i := base;
      while i != nextSeq
        invariant IsSeq(i) && Dist(base, i) <= Dist(base, nextSeq)
        invariant allAcked
        invariant forall j :: 0 <= j < SeqSpace && Dist(base, j) < Dist(base, i) ==> !Pending(buf[j])
        decreases Dist(i, nextSeq)
      {
        if buf[i].used && !buf[i].acked {
          allAcked := false;
          assert Between(base, i, nextSeq) && Pending(buf[..][i]);
          break;
        }
        i := Next(i);
      }
    }

    /** A_timerinterrupt: resend every pending packet of the window, then call startTimer. */
    method TimerInterrupt()
      requires WellFormed(State())
      modifies this
      ensures State() == OnTimeout(old(State()))
      ensures old(Inv(State()) && timerRunning) ==> Inv(State())
    {
      ghost var s0 := State();
      if Inv(s0) && timerRunning { OnTimeoutPreservesInv(s0); }
      var i := base;
      while i != nextSeq
        invariant base == s0.base && nextSeq == s0.next
        invariant IsSeq(i) && Dist(base, i) <= Dist(base, nextSeq)
        invariant s0.sent + Unacked(buf[..], base, nextSeq) == sent + Unacked(buf[..], i, nextSeq)
        invariant timerRunning == s0.timerRunning && timerLog == s0.timerLog
        decreases Dist(i, nextSeq)
      {
        ghost var rest := Unacked(buf[..], Next(i), nextSeq);
        assert Unacked(buf[..], i, nextSeq)
          == (if Pending(buf[..][i]) then [buf[i].packet] else []) + rest;
        if buf[i].used && !buf[i].acked {
          assert sent + Unacked(buf[..], i, nextSeq) == (sent + [buf[i].packet]) + rest;
          sent := sent + [buf[i].packet];
        }
        i := Next(i);
      }
      StartTimer();
    }

    /** A_init: both cursors to zero, the timer flag down, every slot's flags cleared. */
    method Init()
      requires buf.Length == SeqSpace
      modifies this, buf
      ensures State() == Reset(old(State()))
      ensures Inv(State())
    {
      ResetEstablishesInv(State());
      base := 0;
      nextSeq := 0;
      timerRunning := false;
      var i := 0;
      while i < SeqSpace
        invariant 0 <= i <= SeqSpace
        invariant base == 0 && nextSeq == 0 && !timerRunning
        invariant forall j :: 0 <= j < i ==> buf[j] == old(buf[j]).(used := false, acked := false)
        invariant forall j :: i <= j < SeqSpace ==> buf[j] == old(buf[j])
      {
        buf[i] := buf[i].(used := false, acked := false);
        i := i + 1;
      }
      assert buf[..] == ClearFlags(old(buf[..]));
      sent, timerLog := [], [];
      assert State() == SenderState(ClearFlags(old(buf[..])), 0, 0, false, [], []);
    }
  }
}
