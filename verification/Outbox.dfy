/**
 * The control channel's outbox: frames queued while the stream applies backpressure. An asynchronous
 * pump runs until a write is refused and goes on at the stream's next drain event.
 */
module Outbox {
  import opened Base

  class ControlOutbox<Frame> {
    var pending: seq<Frame>
    const maxPending: nat
    var running: bool
    /** The pump is suspended on a drain event; the first pending frame has been written already. */
    var waiting: bool
    var dropped: nat
    /** Callers of `drained` that wait, and how many have been told. */
    var waiters: nat
    var resolved: nat
    /** What the stream got, in order. */
    var written: seq<Frame>
    /** Everything accepted, in push order, and how often `push` was called. */
    ghost var accepted: seq<Frame>
    ghost var pushed: nat

    /**
     * Between two turns of the event loop: every accepted frame is written or still pending, none twice;
     * a pump is active exactly while frames are pending; nobody waits on an empty queue.
     */
    ghost predicate Valid()
      reads this
    {
      && |pending| <= maxPending
      && |accepted| + dropped == pushed
      && (running <==> pending != []) && (running <==> waiting)
      && (if waiting then |written| > 0 && written[|written| - 1] == pending[0] && accepted == written[..|written| - 1] + pending
          else accepted == written)
      && (pending == [] ==> waiters == 0)
    }

    constructor (maxPending: nat)
      ensures Valid() && this.maxPending == maxPending && accepted == [] && written == [] && pushed == 0
    {
      this.maxPending := maxPending;
      pending, running, waiting, dropped, waiters, resolved, written := [], false, false, 0, 0, 0, [];
      accepted, pushed := [], 0;
    }

    /** `push`; `takes(i)` tells whether the stream has room after the i-th write. */
    method Push(bytes: Frame, takes: nat -> bool)
      requires Valid()
      modifies this
      ensures Valid() && pushed == old(pushed) + 1
      ensures if |old(pending)| >= maxPending
              then dropped == old(dropped) + 1 && accepted == old(accepted) && written == old(written)
              else dropped == old(dropped) && accepted == old(accepted) + [bytes]
      ensures old(written) <= written
    {
      pushed := pushed + 1;
      if |pending| >= maxPending {
        dropped := dropped + 1;
        return;
      }
      accepted := accepted + [bytes];
      pending := pending + [bytes];
      if !running {
        Pump(takes);
      }
    }

    /** The stream's drain event: a suspended pump drops the frame it wrote and goes on. */
    method OnDrain(takes: nat -> bool)
      requires Valid()
      modifies this
      ensures Valid() && pushed == old(pushed) && accepted == old(accepted) && dropped == old(dropped)
      ensures old(written) <= written
      ensures old(waiting) ==> |pending| < |old(pending)|
    {
      if waiting {
        waiting := false;
        pending := pending[1..];
        running := false;
        assert accepted == written + pending;
        Pump(takes);
      }
    }

    /** `pump`, from the top of its loop to the next suspension or its end. */
    method Pump(takes: nat -> bool)
      requires !running && !waiting && |pending| <= maxPending && |accepted| + dropped == pushed
      requires accepted == written + pending
      modifies this`pending, this`running, this`waiting, this`written, this`waiters, this`resolved
      ensures Valid() && old(written) <= written && |pending| <= |old(pending)|
      ensures resolved >= old(resolved) && (resolved > old(resolved) ==> pending == [])
    {
      running := true;
      while |pending| > 0
        invariant running && !waiting && |pending| <= |old(pending)|
        invariant accepted == written + pending && old(written) <= written
        invariant waiters == old(waiters) && resolved == old(resolved)
        decreases |pending|
      {
        var bytes := pending[0];
        written := written + [bytes];
        if !takes(|written| - 1) {
          waiting := true;
          assert written[..|written| - 1] + pending == accepted;
          return;
        }
        pending := pending[1..];
      }
      running := false;
      NotifyDrained();
    }

    /** `drained`: answered at once, or when the queue is next empty. */
    method Drained() returns (now: bool)
      requires Valid()
      modifies this`waiters
      ensures Valid() && (now <==> pending == [])
      ensures waiters == old(waiters) + if now then 0 else 1
    {
      if |pending| == 0 && !running {
        return true;
      }
      waiters := waiters + 1;
      return false;
    }

    /** Everybody who waits is told, and only when nothing is pending. */
    method NotifyDrained()
      requires pending == [] && !running
      modifies this`waiters, this`resolved
      ensures waiters == 0 && resolved == old(resolved) + old(waiters)
    {
      resolved := resolved + waiters;
      waiters := 0;
    }
  }

  /** What can happen to an outbox from outside. */
  datatype Happening<Frame> = Pushed(frame: Frame) | DrainEvent | AskedDrained

  /**
   * Over any interleaving of pushes, drain events and waiters, the stream has received a prefix of what
   * was accepted, in push order and each frame once; an empty queue means all of it, and nobody waiting.
   */
  method AnyInterleaving<Frame>(box: ControlOutbox<Frame>, events: seq<Happening<Frame>>, takes: nat -> bool)
    requires box.Valid()
    modifies box
    ensures box.Valid() && old(box.written) <= box.written && box.written <= box.accepted
    ensures box.pending == [] ==> box.written == box.accepted && box.waiters == 0
    ensures |box.accepted| + box.dropped == box.pushed
  {
    for i := 0 to |events|
      invariant box.Valid() && old(box.written) <= box.written
    {
      match events[i] {
        case Pushed(frame) => box.Push(frame, takes);
        case DrainEvent => box.OnDrain(takes);
        case AskedDrained => var _ := box.Drained();
      }
    }
    if box.waiting {
      assert box.written == box.written[..|box.written| - 1] + [box.pending[0]];
      assert box.accepted[..|box.written|] == box.written;
    }
  }

  /** The stream never has more than what was accepted, and lacks at most what is pending. */
  lemma WrittenIsPrefix<Frame>(box: ControlOutbox<Frame>)
    requires box.Valid()
    ensures box.written <= box.accepted
    ensures |box.accepted| - |box.written| == if box.pending == [] then 0 else |box.pending| - 1
  {
    if box.waiting {
      assert box.written == box.written[..|box.written| - 1] + [box.pending[0]];
      assert box.accepted[..|box.written|] == box.written;
    }
  }
}
