/**
 * The bounded hand-off between the ingestor and the consumer (a bounded
 * multi-producer channel of src/main.rs): `try_send` never blocks and reports
 * a full buffer or a closed receiver instead, `try_recv` hands items out in
 * the order they were accepted.
 */
module Handoff {

  /** Capacity of the channel between the ingestor and the consumer. */
  const CHANNEL_CAPACITY: nat := 500_000

  datatype SendOutcome = Sent | Full | Closed

  datatype RecvOutcome<T> = Received(item: T) | Empty | Disconnected

  /** What `try_send` does to a buffer: a closed receiver refuses first, then a full buffer,
      and otherwise the item joins the back. */
  function Offer<T>(buffer: seq<T>, capacity: nat, receiverOpen: bool, item: T): (r: (SendOutcome, seq<T>))
    ensures r.0 == Closed <==> !receiverOpen
    ensures r.0 == Full <==> receiverOpen && |buffer| >= capacity
    ensures r.0 == Sent ==> r.1 == buffer + [item]
    ensures r.0 != Sent ==> r.1 == buffer
  {
    if !receiverOpen then (Closed, buffer)
    else if |buffer| >= capacity then (Full, buffer)
    else (Sent, buffer + [item])
  }

  /** A bounded channel: the buffered items, oldest first, and whether each end is still open. */
  class Channel<T> {
    const capacity: nat
    var buffer: seq<T>
    var receiverOpen: bool
    var senderOpen: bool

    ghost predicate Valid()
      reads this
    {
      0 < capacity && |buffer| <= capacity
    }

    /** `mpsc::channel(capacity)`; a zero capacity is refused. */
    constructor (capacity: nat)
      requires capacity > 0
      ensures Valid()
      ensures this.capacity == capacity && buffer == [] && receiverOpen && senderOpen
    {
      this.capacity := capacity;
      buffer := [];
      receiverOpen := true;
      senderOpen := true;
    }

    /** `Sender::try_send`. */
    method TrySend(item: T) returns (outcome: SendOutcome)
      requires Valid() && senderOpen
      modifies this
      ensures Valid()
      ensures (outcome, buffer) == Offer(old(buffer), capacity, receiverOpen, item)
      ensures receiverOpen == old(receiverOpen) && senderOpen == old(senderOpen)
    {
      if !receiverOpen {
        outcome := Closed;
      } else if |buffer| >= capacity {
        outcome := Full;
      } else {
        buffer := buffer + [item];
        outcome := Sent;
      }
    }

    /** `Receiver::try_recv`: the oldest item; once empty, `Disconnected` if no sender is left. */
    method TryRecv() returns (r: RecvOutcome<T>)
      requires Valid()
      modifies this
      ensures Valid()
      ensures old(buffer) != [] ==> r == Received(old(buffer)[0]) && buffer == old(buffer)[1..]
      ensures old(buffer) == [] ==> buffer == [] && r == (if senderOpen then Empty else Disconnected)
      ensures receiverOpen == old(receiverOpen) && senderOpen == old(senderOpen)
    {
      if buffer != [] {
        r := Received(buffer[0]);
        buffer := buffer[1..];
      } else if senderOpen {
        r := Empty;
      } else {
        r := Disconnected;
      }
    }

    /** `Receiver::close`: later sends are refused; what is buffered can still be received. */
    method CloseReceiver()
      requires Valid()
      modifies this
      ensures Valid()
      ensures !receiverOpen && buffer == old(buffer) && senderOpen == old(senderOpen)
    {
      receiverOpen := false;
    }

    /** Dropping the last sender. */
    method DropSender()
      requires Valid()
      modifies this
      ensures Valid()
      ensures !senderOpen && buffer == old(buffer) && receiverOpen == old(receiverOpen)
    {
      senderOpen := false;
    }
  }

  function Min(a: nat, b: nat): nat { if a <= b then a else b }

  /** Push 0, 1, ..., total - 1 with `try_send` into a fresh channel, then drain it with
      `try_recv`: exactly the first `capacity` values are accepted, the rest are reported
      full, and draining gives back the accepted values in order, each once. */
  method OverflowScenario(capacity: nat, total: nat) returns (sent: nat, dropped: nat, received: seq<int>)
    requires capacity > 0
    ensures sent == Min(capacity, total) && dropped == total - sent
    ensures received == seq(sent, k => k)
  {
    var ch := new Channel<int>(capacity);
    sent, dropped := 0, 0;
    var i := 0;
    while i < total
      invariant 0 <= i <= total
      invariant ch.Valid() && ch.receiverOpen && ch.senderOpen && ch.capacity == capacity
      invariant sent == Min(capacity, i) && dropped == i - sent
      invariant ch.buffer == seq(sent, k => k)
    {
      var outcome := ch.TrySend(i);
      if outcome == Sent {
        sent := sent + 1;
      } else {
        dropped := dropped + 1;
      }
      i := i + 1;
    }
    received := [];
    var drained := false;
    while !drained
      invariant ch.Valid() && ch.senderOpen
      invariant received + ch.buffer == seq(sent, k => k)
      invariant drained ==> ch.buffer == []
      decreases |ch.buffer| + (if drained then 0 else 1)
    {
      var r := ch.TryRecv();
      match r
      case Received(v) =>
        received := received + [v];
      case _ =>
        drained := true;
    }
  }

  /** The overflow case the source checks: capacity 4096, 5000 pushes. */
  method ChannelOverflowBehavior() returns (sent: nat, dropped: nat, received: seq<int>)
    ensures sent == 4096 && dropped == 904 && |received| == 4096
    ensures forall i | 0 <= i < |received| :: received[i] == i && received[i] < 4096
  {
    sent, dropped, received := OverflowScenario(4096, 5000);
  }
}
