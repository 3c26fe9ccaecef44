# Selective-Repeat ARQ in Dafny

This project models the protocol core of `sr.c`. That file is a Selective-Repeat
reliable-transfer protocol that runs on top of a simulated lossy, corrupting channel. Its
constants are a window of 6 (`WINDOWSIZE`) and a sequence space of 12 (`SEQSPACE`).

- **Packet codec** (`codec.dfy`, module `Codec`):
  - A packet has a sequence number, an acknowledgement number, a checksum and 20 payload
    bytes.
  - The checksum is the plain sum of both header numbers and every payload byte.
  - A packet is corrupted when its checksum field differs from that sum.
- **Sequence-number ring** (`window.dfy`, module `Window`):
  - the successor modulo 12;
  - the distance along the ring;
  - the source's window-occupancy formula.
- **Sender, entity A** (`sender_spec.dfy` for the step functions, `sender.dfy` for the class):
  - a slot table `sender_buffer` whose slots carry `used` and `acked` flags;
  - the cursors `base` and `nextseqnum`;
  - the `timer_running` flag behind `startTimer` and `stopTimer`.
- **Sender operations**:
  - `A_output` refuses a message when 6 packets are outstanding.
  - `A_input` marks the one slot the ACK names, slides `base` over the acknowledged run and
    frees those slots. It stops the timer when nothing is pending.
  - `A_timerinterrupt` resends every pending packet of the window.
  - `A_init` zeroes both cursors, lowers the timer flag and clears the `used` and `acked`
    flags of every slot. The stored packets stay in the table.
- **Receiver, entity B** (`receiver_spec.dfy` and `receiver.dfy`):
  - a slot table `receiver_buffer` and the cursor `expectedseqnum`.
  - `B_input` drops corrupted and out-of-window packets silently. Otherwise it buffers a new
    packet and delivers the contiguous run from `expectedseqnum` once the expected packet has
    arrived. It answers every in-window packet with an ACK.
  - `B_init` clears the table.

Each entity is written twice.

- **As values.** Module `SenderSpec` (or `ReceiverSpec`) has a state datatype and one function
  per entry point, from the old state to the new one. The properties are lemmas about these
  functions.
- **As a class.** Class `Sender` (or `Receiver`) keeps the static storage of the C file:
  - an `array` slot table updated in place;
  - the cursors and the flag as fields.

  Each method is proved to leave `State()` equal to what the step function computes from the
  old state. The loops of the source appear as `while` loops with invariants:
  - the checksum sum;
  - the base slide;
  - the all-acknowledged scan;
  - the timeout resend;
  - the delivery run;
  - the two init loops.

Calls into the emulator are recorded as ghost logs, in call order:
- `tolayer3` as the packets `sent` by A and the `acks` sent by B;
- `tolayer5` as the packets `delivered` by B;
- `starttimer` and `stoptimer` as `Start` and `Stop` events in `timerLog`.

The main invariants:

- **Sender.**
  - The window holds at most 6 packets.
  - A slot is in use exactly when its number lies in `[base, nextseqnum)`.
  - Every used slot holds a valid data packet with its own number.
  - The base slot of a non-empty window is unacknowledged.
  - The timer flag is up exactly when the window is non-empty.
- **Receiver.**
  - Only slots inside the receive window wait, and each holds a valid packet with its own
    number.
  - The expected slot never waits.
  - The j-th delivered packet carries sequence number j mod 12. Delivery is therefore in
    order, and no sequence number is skipped or repeated.

All entry points preserve these invariants, and the init routines establish them.

Three behaviours of the code as written are modelled as they are:

- **The ACK checksum is computed too early.** `B_input` computes the ACK's checksum while its
  payload is still uninitialised, and only then copies `"ACK"` into it. The receiver's input
  therefore takes the indeterminate bytes as a parameter `uninit`. The contract of `MakeAck`
  states that such an ACK passes the sender's corruption test exactly when the four
  overwritten bytes summed to 65 + 67 + 75 + 0 = 207. `AckOverZeroedMemoryCorrupted` shows
  that over zeroed memory the ACK is always seen as corrupted.
- **The timer is never re-armed after a timeout.** `A_timerinterrupt` never lowers
  `timer_running`, so its closing `startTimer()` makes no `starttimer` call
  (`OnTimeoutResends`). `A_output` asks for a timer only when the window was empty
  (`OutputWhenNotFull`). The invariant keeps the flag up while the window is non-empty, so
  after a timeout no new message re-arms the timer either, until the window drains.
- **Old packets are not re-acknowledged.** Take a run of packets delivered when the expected
  packet arrives. Right afterwards, each packet of that run lies outside the receive window
  if it comes back, and it is dropped without an ACK. This is stated in
  `DeliveredReplayNotAcked`.

The source indexes the slot tables with the number taken from an incoming packet, without a
range check:

- `A_input` indexes `sender_buffer` with the ack number of every uncorrupted ACK. The sender
  model therefore requires that an uncorrupted ACK carries a number in `[0, 12)`.
- `B_input` indexes `receiver_buffer` with the sequence number of every uncorrupted packet
  that passes its window test. That test is not a bounds check: with `expectedseqnum` at 8
  it admits -1, and with `expectedseqnum` at 10 it admits 13 (`WindowTestOutOfRange` gives
  the exact set). The receiver model therefore requires a number in `[0, 12)` only of an
  uncorrupted packet that passes the test. Other out-of-range packets, such as 50 with
  `expectedseqnum` at 0, are modelled as the source handles them: dropped.

## Model

| member | source | states |
|---|---|---|
| Codec.ComputeChecksum | sr.c:31-41 | the loop returns sequence number + ack number + the sum of the 20 payload bytes, and a packet is uncorrupted exactly when its checksum field equals that value |
| Codec.MakeData | sr.c:74-78 | a data packet carries the given number, the "not used" ack number -1 and the message, and is never corrupted |
| Codec.MakeAck | sr.c:155-159 | the ACK carries the checksum of the packet before "ACK\0" is copied in, so it passes the corruption test iff the four overwritten uninitialised bytes sum to the sum of "ACK\0" |
| Codec.HeaderChangeDetected | sr.c:31-41 | changing only the sequence number, only the ack number or only the checksum of a valid packet makes it corrupted |
| Codec.PayloadChangeDetected | sr.c:31-41 | changing one payload byte of a valid packet makes it corrupted |
| Codec.PayloadSwapUndetected | sr.c:31-41 | swapping two payload bytes of a valid packet leaves it valid: the additive checksum is order-blind |
| Codec.AckOverZeroedMemoryCorrupted | sr.c:155-159 | "ACK\0" sums to 207, so an ACK built over zeroed memory is always corrupted |
| Window.Next | sr.c:90 | the successor of a sequence number is again one, wrapping from 11 to 0 |
| Window.Occupancy | sr.c:69 | the source's `(next - base + SEQSPACE) % SEQSPACE` lies in [0, 12) and equals the ring distance from base to next |
| SenderSpec.Slide | sr.c:105-108 | the slide stops at next or at the first unacknowledged slot; every slot it passes was acknowledged and is freed; every other slot is unchanged |
| SenderSpec.TimerCallsIdempotent | sr.c:43-55 | startTimer and stopTimer are idempotent, set the flag to up or down, change nothing else, and log a Start or Stop only when the flag differs |
| SenderSpec.OutputWhenFull | sr.c:68-72 | with 6 or more packets outstanding A_output changes nothing and sends nothing |
| SenderSpec.OutputWhenNotFull | sr.c:74-90 | otherwise slot next receives a valid pending data packet, which is also sent; next advances, the window grows by one, base and the other slots stay, and the timer is running; Start is logged iff the window was empty, so a window already holding packets, even one whose timer has fired, is not re-armed |
| SenderSpec.OutputPreservesInv | sr.c:68-91 | A_output keeps the sender invariant, so never more than 6 packets are outstanding |
| SenderSpec.OnAckIgnored | sr.c:93-100 | a corrupted ACK, or one for a free or already-acknowledged slot, changes nothing |
| SenderSpec.OnAckIdempotent | sr.c:93-122 | the same ACK applied twice has the effect of applying it once |
| SenderSpec.OnAckFresh | sr.c:99-121 | a fresh ACK marks its slot; base moves over exactly the acknowledged run and frees it; no other slot, next or the send log changes; Stop is logged iff the window became empty |
| SenderSpec.OnAckPreservesInv | sr.c:93-122 | A_input keeps the sender invariant, including that the timer flag is up iff the window is non-empty |
| SenderSpec.MarkAndSlide | sr.c:103-116 | marking and sliding keep the slot/window invariant, and the scan finds nothing pending iff the window is empty |
| SenderSpec.SlideKeepsWindow | sr.c:105-108 | after the slide, used slots are exactly those in [base, next), still valid, and the new base slot is unacknowledged |
| SenderSpec.UnackedMembers | sr.c:127-132 | a packet is resent iff some used, unacknowledged slot in [base, next) holds it |
| SenderSpec.OnTimeoutResends | sr.c:124-135 | a timeout changes no slot or cursor and appends exactly the pending packets, in window order from base; with the flag up, no timer call is made |
| SenderSpec.UnackedInWindowOrder | sr.c:127-132 | the resend scan from any point of the window yields packets whose numbers lie between that point and next and strictly increase in distance from base |
| SenderSpec.OnTimeoutResendsInWindowOrder | sr.c:127-132 | a timeout resends the pending packets in window order from base, none of them twice |
| SenderSpec.OnTimeoutResendsValidPackets | sr.c:127-132 | every resent packet is an uncorrupted data packet whose number lies in the window |
| SenderSpec.OnTimeoutPreservesInv | sr.c:124-135 | a timeout, which can only arrive while the timer runs, keeps the sender invariant |
| SenderSpec.ResetEstablishesInv | sr.c:137-145 | A_init zeroes both cursors, lowers the flag, clears every slot's flags and establishes the invariant |
| SenderEntity.Sender.constructor | sr.c:21-26 | the zero-initialised static state satisfies the sender invariant |
| SenderEntity.Sender.StartTimer | sr.c:43-48 | the new state is what startTimer computes |
| SenderEntity.Sender.StopTimer | sr.c:50-55 | the new state is what stopTimer computes |
| SenderEntity.Sender.Output | sr.c:68-91 | the in-place update equals Output on the old state and keeps the invariant |
| SenderEntity.Sender.Input | sr.c:93-122 | the in-place update equals OnAck on the old state and keeps the invariant |
| SenderEntity.Sender.SlideBase | sr.c:105-108 | the loop leaves table and base as Slide computes them |
| SenderEntity.Sender.AllAcked | sr.c:110-116 | the scan answers true iff no slot of [base, next) is used and unacknowledged |
| SenderEntity.Sender.TimerInterrupt | sr.c:124-135 | the loop appends exactly the pending packets of the window to the send log; the state equals OnTimeout of the old one |
| SenderEntity.Sender.Init | sr.c:137-145 | the loop clears every slot's flags; the state equals Reset of the old one and satisfies the invariant |
| ReceiverSpec.InReceiveWindow | sr.c:161-162 | the source's two-part window test holds for a sequence number iff it lies fewer than 6 steps after expected |
| ReceiverSpec.WindowTestOutOfRange | sr.c:161-164 | for an in-range cursor, an out-of-range number passes the window test iff it is negative with the window reaching the ring's end, or lies in [12, expected + 6); so -1 passes at 8, 13 at 10, and 50 fails at 0 |
| ReceiverSpec.Deliver | sr.c:171-175 | the run delivers, in ring order from expected, the packets of consecutive waiting slots and frees them; it stops at the first free slot and leaves later slots untouched |
| ReceiverSpec.OnPacketDropped | sr.c:148-183 | B_input leaves the state unchanged, with no ACK, iff the packet is corrupted or fails the source's window test |
| ReceiverSpec.OnPacketAcks | sr.c:155-180 | every valid in-window packet, new or duplicate, gets exactly one ACK numbered with its sequence number |
| ReceiverSpec.OnPacketDuplicate | sr.c:164-180 | a packet whose slot already waits is not stored again; only the ACK is sent |
| ReceiverSpec.OnPacketBuffered | sr.c:164-167 | a new packet ahead of a gap is stored in its own slot and nothing is delivered; a second copy changes only the ACK log |
| ReceiverSpec.DeliverRunLength | sr.c:170-175 | under the invariant, the arrival of the expected packet delivers between 1 and 6 packets, and the cursor moves that many steps |
| ReceiverSpec.DeliverKeepsWindow | sr.c:170-175 | after that run, every waiting slot lies in the moved window and holds a valid packet with its own number |
| ReceiverSpec.DeliverInOrder | sr.c:170-175 | after that run, the j-th delivered packet carries number j mod 12 and expected is the number of the next one |
| ReceiverSpec.DeliverExpectedKeepsInv | sr.c:164-175 | storing and delivering from the expected slot keeps the receiver invariant and extends the log, starting with the arrived packet |
| ReceiverSpec.OnPacketDelivers | sr.c:164-180 | the expected packet is delivered first, followed by the contiguous run with consecutive numbers; the log only grows, by 1 to 6 packets, and the invariant holds |
| ReceiverSpec.DeliveredReplayNotAcked | sr.c:161-183 | right after the expected packet's arrival delivers a run, a copy of any packet of that run lies at least 6 steps behind the new window start and is dropped without an ACK |
| ReceiverSpec.OnPacketPreservesInv | sr.c:148-184 | B_input keeps the receiver invariant |
| ReceiverSpec.ResetEstablishesInv | sr.c:186-191 | B_init zeroes the cursor, frees every slot and establishes the invariant |
| ReceiverEntity.Receiver.constructor | sr.c:21-28 | the zero-initialised static state satisfies the receiver invariant |
| ReceiverEntity.Receiver.Input | sr.c:148-184 | the in-place update equals OnPacket on the old state and keeps the invariant |
| ReceiverEntity.Receiver.DeliverRun | sr.c:171-175 | the loop leaves table, cursor and delivery log as Deliver computes them |
| ReceiverEntity.Receiver.Init | sr.c:186-191 | the loop frees every slot; the state equals Reset of the old one and satisfies the invariant |

## Left out

- `printf` tracing is not modelled. It has no effect on the protocol state.
- `get_sim_time`, `RTT` and the `send_time` field are not modelled. They are floating-point
  simulated time, which the protocol logic never reads.
- `resendTimedOutPackets` (sr.c:57-65) is not modelled. Nothing in the file calls it, and it
  works only on that simulated time.
- The `delivered` flag of a slot and `NOTINUSE` are not modelled. The file never reads or
  writes them.
- `tolayer3`, `tolayer5`, `starttimer` and `stoptimer` belong to the emulator, which is not
  part of this model. Their calls appear only as appended entries in ghost logs.
- Liveness and exactly-once delivery across a lossy channel are not stated. They need a model
  of the channel and the scheduler. As written, the code does not guarantee them: the timer is
  not re-armed after a timeout, and already-delivered packets are not re-acknowledged.
- Codec.ComputeChecksum: computes over unbounded integers. For packets the code builds
  itself, whose headers lie in [-1, 12), the C `int` sum cannot overflow. A packet from the
  channel can carry arbitrary header values, however. A `seqnum` or `acknum` near `INT_MAX`
  makes the C sum overflow, which is undefined behaviour in C. The model does not capture
  that case.
- Codec.Byte: payload bytes are C `char` values taken as signed, in [-128, 128). The proved
  properties do not depend on that choice.
- SenderEntity.Sender.Init: also empties the ghost logs, so each log describes the trace
  since the last initialisation.
- ReceiverEntity.Receiver.Init: also empties the ghost logs, so each log describes the trace
  since the last initialisation.
- SenderSpec.OnTimeoutPreservesInv: requires the timer flag to be up. The emulator only
  delivers a timeout while a timer is running.
