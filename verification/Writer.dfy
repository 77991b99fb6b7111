/**
 * The writer thread: one loop that owns the database, runs stream executors inline and serves the
 * command channel between their steps.
 */
module Writer {
  import opened Base

  /** Provider settings: the secret resolver and the run timeout that setters replace. */
  datatype Settings = Settings(resolver: int, timeout: int)

  /** `Stream(true)` launches; `Stream(false)` is refused at launch. */
  datatype Command = Unary | Stream(launches: bool) | SetResolver(to: int) | SetTimeout(to: int) | Shutdown

  /** What the writer did to the command with index `i` of the channel; `at` counts the commands received by then. */
  datatype Event =
    | Ran(i: nat)
    | Launched(i: nat, settings: Settings, at: nat)
    | Refused(i: nat)
    | Finished(i: nat)

  /** Indices of the stream commands among the first `n`. */
  function Streams(sent: seq<Command>, n: nat): seq<nat>
    requires n <= |sent|
  {
    if n == 0 then [] else Streams(sent, n - 1) + if sent[n - 1].Stream? then [n - 1] else []
  }

  /** Indices of all the others. */
  function Others(sent: seq<Command>, n: nat): seq<nat>
    requires n <= |sent|
  {
    if n == 0 then [] else Others(sent, n - 1) + if sent[n - 1].Stream? then [] else [n - 1]
  }

  /** The settings after the first `n` commands. */
  function SettingsAt(initial: Settings, sent: seq<Command>, n: nat): Settings
    requires n <= |sent|
  {
    if n == 0 then initial
    else
      var s := SettingsAt(initial, sent, n - 1);
      match sent[n - 1]
      case SetResolver(v) => s.(resolver := v)
      case SetTimeout(v) => s.(timeout := v)
      case _ => s
  }

  /** The replies to commands other than streams, in the order they were given. */
  function Served(trace: seq<Event>): seq<nat> {
    if trace == [] then []
    else Served(trace[..|trace| - 1]) + if trace[|trace| - 1].Ran? then [trace[|trace| - 1].i] else []
  }

  /** The replies to streams: launched or refused. */
  function Opened(trace: seq<Event>): seq<nat> {
    if trace == [] then []
    else
      var last := trace[|trace| - 1];
      Opened(trace[..|trace| - 1]) + if last.Launched? || last.Refused? then [last.i] else []
  }

  /** The stream whose executor runs after the trace; None if two overlapped or one ended that did not run. */
  function Running(trace: seq<Event>): Option<Option<nat>> {
    if trace == [] then Some(None)
    else
      match Running(trace[..|trace| - 1])
      case None => None
      case Some(now) =>
        match trace[|trace| - 1]
        case Launched(i, _, _) => if now.None? then Some(Some(i)) else None
        case Finished(i) => if now == Some(i) then Some(None) else None
        case Refused(_) => if now.None? then Some(None) else None
        case Ran(_) => Some(now)
  }

  lemma TraceStep(trace: seq<Event>, e: Event)
    ensures Served(trace + [e]) == Served(trace) + if e.Ran? then [e.i] else []
    ensures Opened(trace + [e]) == Opened(trace) + if e.Launched? || e.Refused? then [e.i] else []
    ensures Running(trace + [e]) ==
      match Running(trace)
      case None => None
      case Some(now) =>
        match e
        case Launched(i, _, _) => if now.None? then Some(Some(i)) else None
        case Finished(i) => if now == Some(i) then Some(None) else None
        case Refused(_) => if now.None? then Some(None) else None
        case Ran(_) => Some(now)
  {
    assert (trace + [e])[..|trace|] == trace;
  }

  /** A shutdown is among the first `n` commands. */
  predicate Stopped(sent: seq<Command>, n: nat)
    requires n <= |sent|
  {
    exists i :: 0 <= i < n && sent[i].Shutdown?
  }

  /** Each launch recorded the settings of its moment, after its own command had arrived. */
  predicate LaunchesHold(trace: seq<Event>, initial: Settings, sent: seq<Command>, n: nat)
    requires n <= |sent|
  {
    forall e :: e in trace && e.Launched? ==> e.i < e.at <= n && e.settings == SettingsAt(initial, sent, e.at)
  }

  lemma LaunchesStep(trace: seq<Event>, e: Event, initial: Settings, sent: seq<Command>, n: nat, m: nat)
    requires n <= m <= |sent| && LaunchesHold(trace, initial, sent, n)
    ensures LaunchesHold(trace, initial, sent, m)
    ensures (e.Launched? ==> e.i < e.at <= m && e.settings == SettingsAt(initial, sent, e.at)) ==>
              LaunchesHold(trace + [e], initial, sent, m)
  {
    hide SettingsAt;
  }

  /** How one more command changes the accounts. */
  lemma ReceiveStep(initial: Settings, sent: seq<Command>, n: nat)
    requires n < |sent|
    ensures Streams(sent, n + 1) == (if sent[n].Stream? then Streams(sent, n) + [n] else Streams(sent, n))
    ensures Others(sent, n + 1) == (if sent[n].Stream? then Others(sent, n) else Others(sent, n) + [n])
    ensures SettingsAt(initial, sent, n + 1) ==
      match sent[n]
      case SetResolver(v) => SettingsAt(initial, sent, n).(resolver := v)
      case SetTimeout(v) => SettingsAt(initial, sent, n).(timeout := v)
      case _ => SettingsAt(initial, sent, n)
  {
  }

  lemma StoppedStep(sent: seq<Command>, n: nat)
    requires n < |sent|
    ensures Stopped(sent, n + 1) <==> Stopped(sent, n) || sent[n].Shutdown?
  {
  }

  class WriterThread {
    /** The channel, in arrival order, and how much of it has been received. */
    const sent: seq<Command>
    const initial: Settings
    var received: nat
    var pending: seq<nat>
    var stop: bool
    var state: Settings
    var trace: seq<Event>

    /**
     * Every command received is accounted for exactly once and in order: the non-streams are all served;
     * the streams are opened, or the ones still waiting, which come after them. At most one executor runs,
     * and each launch recorded the settings of the moment.
     */
    ghost predicate Valid()
      reads this
    {
      && received <= |sent|
      && Served(trace) == Others(sent, received)
      && Opened(trace) + pending == Streams(sent, received)
      && state == SettingsAt(initial, sent, received)
      && (stop <==> Stopped(sent, received))
      && LaunchesHold(trace, initial, sent, received)
    }

    constructor (sent: seq<Command>, initial: Settings)
      ensures Valid() && this.sent == sent && this.initial == initial
      ensures received == 0 && trace == [] && pending == [] && !stop
    {
      this.sent, this.initial := sent, initial;
      received, pending, stop, state, trace := 0, [], false, initial, [];
    }

    /** Takes the next command off the channel and serves it, or queues it if it is a stream. */
    method ReceiveOne() returns (i: nat)
      requires Valid() && received < |sent|
      modifies this`received, this`pending, this`stop, this`state, this`trace
      ensures Valid() && received == old(received) + 1 && i == old(received) && |pending| <= |old(pending)| + 1
      ensures Running(trace) == Running(old(trace)) && Opened(trace) == Opened(old(trace))
      ensures pending == old(pending) + if sent[i].Stream? then [i] else []
      ensures old(stop) ==> stop
    {
      hide Stopped, LaunchesHold, Running, Served, Opened, Streams, Others, SettingsAt;
      i := received;
      ReceiveStep(initial, sent, i);
      ghost var before := trace;
      TraceStep(before, Ran(i));
      LaunchesStep(before, Ran(i), initial, sent, i, i + 1);
      StoppedStep(sent, i);
      received := received + 1;
      match sent[i] {
        case Stream(_) =>
          pending := pending + [i];
        case Unary =>
          trace := trace + [Ran(i)];
        case SetResolver(to) =>
          state := state.(resolver := to);
          trace := trace + [Ran(i)];
        case SetTimeout(to) =>
          state := state.(timeout := to);
          trace := trace + [Ran(i)];
        case Shutdown =>
          stop := true;
          trace := trace + [Ran(i)];
      }
      assert Opened(before) + (old(pending) + [i]) == Opened(before) + old(pending) + [i];
    }

    /** `drain_pending`: everything that has arrived, here `available` commands; true if a shutdown was among them. */
    method Drain(available: nat) returns (shutdown: bool)
      requires Valid() && received + available <= |sent|
      modifies this`received, this`pending, this`stop, this`state, this`trace
      ensures Valid() && received == old(received) + available && old(pending) <= pending
      ensures |pending| <= |old(pending)| + available
      ensures shutdown <==> exists i :: old(received) <= i < received && sent[i].Shutdown?
      ensures Running(trace) == Running(old(trace)) && Opened(trace) == Opened(old(trace))
      ensures old(stop) ==> stop
    {
      hide Served, Opened, Running, Streams, Others, SettingsAt, LaunchesHold;
      shutdown := false;
      for k := 0 to available
        invariant Valid() && received == old(received) + k && old(pending) <= pending
        invariant |pending| <= |old(pending)| + k
        invariant shutdown <==> exists i :: old(received) <= i < received && sent[i].Shutdown?
        invariant Running(trace) == Running(old(trace)) && Opened(trace) == Opened(old(trace))
        invariant old(stop) ==> stop
      {
        var i := ReceiveOne();
        if sent[i].Shutdown? {
          shutdown := true;
        }
      }
    }

    /**
     * A stream command: refused, or launched and executed inline. `arrivals` tells how many commands each
     * drain of the executor finds; the executor stops at the first drain that sees a shutdown.
     */
    method RunStream(i: nat, arrivals: seq<nat>)
      requires i < |sent| && sent[i].Stream? && i < received
      requires Holding(i) && Running(trace) == Some(None)
      modifies this`received, this`pending, this`stop, this`state, this`trace
      ensures Valid() && Running(trace) == Some(None) && old(received) <= received
      ensures Opened(trace) == Opened(old(trace)) + [i] && old(pending) <= pending
      ensures |pending| - |old(pending)| <= received - old(received)
      ensures old(stop) ==> stop
    {
      hide Served, Opened, Running, Streams, Others, SettingsAt, LaunchesHold, Stopped;
      ghost var before := trace;
      if !sent[i].launches {
        trace := trace + [Refused(i)];
        TraceStep(before, Refused(i));
        LaunchesStep(before, Refused(i), initial, sent, received, received);
        assert Opened(trace) + pending == Opened(before) + ([i] + pending);
        return;
      }
      trace := trace + [Launched(i, state, received)];
      TraceStep(before, Launched(i, state, received));
      LaunchesStep(before, Launched(i, state, received), initial, sent, received, received);
      assert Opened(trace) + pending == Opened(before) + ([i] + pending);
      ghost var begun := Opened(trace);
      var k, shutdown := 0, false;
      while k < |arrivals| && !shutdown
        invariant Valid() && Running(trace) == Some(Some(i)) && old(received) <= received
        invariant Opened(trace) == begun && old(pending) <= pending && (old(stop) ==> stop)
        invariant |pending| - |old(pending)| <= received - old(received)
        decreases |arrivals| - k
      {
        var available := if received + arrivals[k] <= |sent| then arrivals[k] else |sent| - received;
        shutdown := Drain(available);
        k := k + 1;
      }
      ghost var ran := trace;
      trace := trace + [Finished(i)];
      TraceStep(ran, Finished(i));
      LaunchesStep(ran, Finished(i), initial, sent, received, received);
    }

    /** `Valid`, with stream `i` taken off the front of the queue and not yet opened. */
    ghost predicate Holding(i: nat)
      reads this
    {
      && received <= |sent|
      && Served(trace) == Others(sent, received)
      && Opened(trace) + ([i] + pending) == Streams(sent, received)
      && state == SettingsAt(initial, sent, received)
      && (stop <==> Stopped(sent, received))
      && LaunchesHold(trace, initial, sent, received)
    }

    /**
     * `writer_main`: waiting streams first, otherwise the next command. It ends on a shutdown or when
     * the channel is closed; then the only commands without a reply are streams still waiting at a shutdown.
     */
    method Run(arrivals: nat -> seq<nat>)
      requires Valid() && received == 0 && trace == [] && pending == [] && !stop
      modifies this
      ensures Valid() && Running(trace) == Some(None)
      ensures stop || (received == |sent| && pending == [])
    {
      hide Served, Opened, Running, Streams, Others, SettingsAt, LaunchesHold, Stopped;
      RunningStarts();
      var open := true;
      while !stop && open
        invariant Valid() && Running(trace) == Some(None)
        invariant !open ==> received == |sent| && pending == []
        decreases open, 2 * (|sent| - received) + |pending|
      {
        if |pending| > 0 {
          var i := pending[0];
          WaitingIsReceived(sent, received, Opened(trace), pending);
          assert Opened(trace) + ([i] + pending[1..]) == Opened(trace) + pending;
          pending := pending[1..];
          RunStream(i, arrivals(i));
        } else if received < |sent| {
          var i := ReceiveOne();
        } else {
          open := false;
        }
      }
    }
  }

  lemma RunningStarts()
    ensures Running([]) == Some(None)
  {
  }

  lemma WaitingIsReceived(sent: seq<Command>, n: nat, begun: seq<nat>, pending: seq<nat>)
    requires n <= |sent| && begun + pending == Streams(sent, n) && pending != []
    ensures pending[0] < n && sent[pending[0]].Stream?
  {
    StreamsIncrease(sent, n);
    assert pending[0] in begun + pending;
  }

  // ---------------------------------------------------------------- what the accounting means

  predicate Increasing(xs: seq<nat>) {
    forall i, j :: 0 <= i < j < |xs| ==> xs[i] < xs[j]
  }

  lemma AppendIncreases(xs: seq<nat>, n: nat)
    requires Increasing(xs) && forall x :: x in xs ==> x < n
    ensures Increasing(xs + [n])
  {
    forall i | 0 <= i < |xs| ensures xs[i] < n {
      assert xs[i] in xs;
    }
  }

  lemma {:induction false} StreamsIncrease(sent: seq<Command>, n: nat)
    requires n <= |sent|
    ensures Increasing(Streams(sent, n))
    ensures forall i :: i in Streams(sent, n) <==> 0 <= i < n && sent[i].Stream?
  {
    if n > 0 {
      StreamsIncrease(sent, n - 1);
      AppendIncreases(Streams(sent, n - 1), n - 1);
    }
  }

  lemma {:induction false} OthersIncrease(sent: seq<Command>, n: nat)
    requires n <= |sent|
    ensures Increasing(Others(sent, n))
    ensures forall i :: i in Others(sent, n) <==> 0 <= i < n && !sent[i].Stream?
  {
    if n > 0 {
      OthersIncrease(sent, n - 1);
      AppendIncreases(Others(sent, n - 1), n - 1);
    }
  }

  /**
   * In every state of the loop: replies go out in arrival order, separately for streams and the rest, and
   * no command is answered twice; of the commands received, exactly the waiting streams are unanswered.
   */
  lemma EveryCommandAnsweredOnce(w: WriterThread, i: nat)
    requires w.Valid() && i < w.received
    ensures Increasing(Served(w.trace)) && Increasing(Opened(w.trace))
    ensures i in Served(w.trace) + Opened(w.trace) <==> i !in w.pending
    ensures i in Served(w.trace) ==> i !in Opened(w.trace)
    ensures i in w.pending ==> w.sent[i].Stream? && forall j :: j in Opened(w.trace) ==> j < i
  {
    StreamsIncrease(w.sent, w.received);
    OthersIncrease(w.sent, w.received);
    hide Streams, Others, Served, Opened, SettingsAt, LaunchesHold;
    var all, begun, pending := Streams(w.sent, w.received), Opened(w.trace), w.pending;
    forall a, b | 0 <= a < b < |begun| ensures begun[a] < begun[b] {
      assert all[a] == begun[a] && all[b] == begun[b];
    }
    forall j, k | j in begun && k in pending ensures j < k {
      var a :| 0 <= a < |begun| && begun[a] == j;
      var b :| 0 <= b < |pending| && pending[b] == k;
      assert all[a] == j && all[|begun| + b] == k;
    }
  }

  lemma {:induction false} SettingsFromPrefix(initial: Settings, sent: seq<Command>, n: nat, m: nat)
    requires m <= n <= |sent|
    ensures SettingsAt(initial, sent[..n], m) == SettingsAt(initial, sent, m)
  {
    if m > 0 {
      SettingsFromPrefix(initial, sent, n, m - 1);
    }
  }

  /** A run's settings are those of its launch: setters that arrive later, even during the run, do not count. */
  lemma SettingsAreFixedAtLaunch(w: WriterThread, e: Event)
    requires w.Valid() && e in w.trace && e.Launched?
    ensures e.i < e.at <= |w.sent| && e.settings == SettingsAt(w.initial, w.sent[..e.at], e.at)
  {
    SettingsFromPrefix(w.initial, w.sent, e.at, e.at);
  }
}
