/**
 * Whole runs of the generation workflow: what every history of committed steps keeps, with a
 * crash allowed after any of them.
 */
module GenerationRuns {
  import opened Base
  import opened Text
  import opened GenerationLog
  import opened GenerationModel
  import opened GenerationProofs

  /** The state a history leads to; `None` when some step was not allowed. */
  ghost function Replay(origin: System, h: seq<Step>): Option<System> {
    if h == [] then Some(origin)
    else
      match Replay(origin, h[..|h| - 1])
      case None => None
      case Some(sys) => if Enabled(sys, h[|h| - 1]) then Some(Apply(sys, h[|h| - 1])) else None
  }

  // ---------------------------------------------------------------- how one run may change

  /** Run `r` between an earlier store `s` and a later store `t`. */
  ghost predicate RunEvolves(s: Store, t: Store, r: Id)
    requires r in s.runs && r in t.runs
  {
    var x, y := s.runs[r], t.runs[r];
    && SameIdentity(x, y)
    && x.revision <= y.revision
    && (x.revision == y.revision ==> x == y && Log(s, r) == Log(t, r))
    && (IsTerminal(x.status) ==> y.status == x.status && y.error == x.error && y.lastSeq == x.lastSeq)
    && (x.cancelRequested ==> y.cancelRequested)
    && (Discarded(s, r) ==> Discarded(t, r))
    && (Discarded(t, r) || Deltas(s, r) <= Deltas(t, r))
    && (x.cancelRequested ==> Discarded(t, r) || Deltas(s, r) == Deltas(t, r))
    && (x.messageId.Some? && x.messageId.value in s.messages ==>
          y.messageId == x.messageId && x.messageId.value in t.messages &&
          t.messages[x.messageId.value] == s.messages[x.messageId.value])
  }

  ghost predicate Evolves(a: System, b: System) {
    && a.nextId <= b.nextId
    && (forall r :: r in b.store.runs && r < a.nextId ==> r in a.store.runs)
    && (forall r :: r in a.store.runs && r in b.store.runs ==> RunEvolves(a.store, b.store, r))
  }

  lemma CarriedEvolves(s: Store, t: Store, r: Id)
    requires Carried(s, t, r) && RunInv(s, r)
    requires t.runs[r] == s.runs[r] || (!IsTerminal(s.runs[r].status) && s.runs[r].revision < t.runs[r].revision)
    requires s.runs[r].cancelRequested ==> t.runs[r].cancelRequested
    ensures RunEvolves(s, t, r)
  {
    CarriedLog(s, t, r);
    assert Discarded(s, r) ==> Discarded(t, r);
  }

  /** A step leaves the row of any run but its subject alone, or moves an unfinished one on. */
  lemma OtherRow(sys: System, step: Step, r: Id)
    requires RefInv(sys) && Enabled(sys, step) && Subject(step) != Some(r)
    requires r in sys.store.runs && r in Apply(sys, step).store.runs
    ensures var x, y := sys.store.runs[r], Apply(sys, step).store.runs[r];
      x == y || (!IsTerminal(x.status) && x.revision < y.revision && (x.cancelRequested ==> y.cancelRequested))
  {
    hide NextSequence, Deltas, TotalBytes, ByteLen, DeltaRows;
    if Subject(step).Some? {
      hide Apply;
      SubjectFrame(sys, step);
    }
  }

  lemma OtherRunEvolves(sys: System, step: Step, r: Id)
    requires Inv(sys) && Enabled(sys, step) && Subject(step) != Some(r)
    requires r in sys.store.runs && r in Apply(sys, step).store.runs
    ensures RunEvolves(sys.store, Apply(sys, step).store, r)
  {
    hide Apply, Enabled, RunEvolves, Carried;
    assert RunInv(sys.store, r);
    OtherCarried(sys, step, r);
    OtherRow(sys, step, r);
    CarriedEvolves(sys.store, Apply(sys, step).store, r);
  }

  /** Of the steps that write a run's log, only a committed delta adds a delta. */
  lemma SubjectDeltas(sys: System, step: Step, r: Id)
    requires Enabled(sys, step) && Subject(step) == Some(r) && !step.DiscardLog?
    requires Kept(sys.store, r) || step.KeepPartial?
    ensures r in Apply(sys, step).store.runs
    ensures Deltas(Apply(sys, step).store, r) == Deltas(sys.store, r) + if step.CommitDelta? then [step.text] else []
  {
    var s, t := sys.store, Apply(sys, step).store;
    match step
    case KeepPartial(run) => assert Log(t, r) == Log(s, r);
    case CommitDelta(run, text, lease) => PutDeltaLog(s, r, text, lease);
    case Complete(run, lease) => CompleteKept(s, r, sys.nextId, lease);
    case Fail(run, error, lease) =>
      EndRunLog(s, r, s.runs[r].(status := StatusFailed, error := Some(error)), Failed(error), lease);
    case CommitCancelled(run, lease) =>
      EndRunLog(s, r, s.runs[r].(status := StatusCancelled), Cancelled, lease);
  }

  /** The row of the run a step is about: its revision grows, and what is final stays. */
  lemma SubjectRow(sys: System, step: Step, r: Id)
    requires Enabled(sys, step) && Subject(step) == Some(r) && r in sys.store.runs && StatusInv(sys.store.runs[r])
    ensures r in Apply(sys, step).store.runs
    ensures var x, y := sys.store.runs[r], Apply(sys, step).store.runs[r];
      && SameIdentity(x, y) && x.revision < y.revision
      && (IsTerminal(x.status) ==> y.status == x.status && y.error == x.error && y.lastSeq == x.lastSeq)
      && (x.cancelRequested ==> y.cancelRequested && !step.CommitDelta?)
      && (x.messageId.Some? ==> y.messageId == x.messageId)
      && (step.DiscardLog? || x.partialLength <= y.partialLength)
  {
    hide NextSequence, Deltas, TotalBytes, ByteLen, DeltaRows;
  }

  /** A discard leaves nothing of a log, and nothing but a discard does. */
  lemma SubjectDiscards(sys: System, step: Step, r: Id)
    requires r in sys.store.runs && Enabled(sys, step) && Subject(step) == Some(r)
    requires r in Apply(sys, step).store.runs
    ensures step.DiscardLog? ==> Discarded(Apply(sys, step).store, r)
    ensures Discarded(sys.store, r) ==> Discarded(Apply(sys, step).store, r)
  {
    hide NextSequence, Deltas, TotalBytes, ByteLen, DeltaRows;
  }

  lemma SubjectEvolves(sys: System, step: Step, r: Id)
    requires Inv(sys) && Enabled(sys, step) && Subject(step) == Some(r) && r in sys.store.runs
    ensures r in Apply(sys, step).store.runs && RunEvolves(sys.store, Apply(sys, step).store, r)
  {
    hide Apply, Inv, Log, Deltas;
    assert RunInv(sys.store, r) && RefInv(sys) by { hide Enabled; RunOf(sys, r); }
    SubjectFrame(sys, step);
    SubjectRow(sys, step, r);
    SubjectDiscards(sys, step, r);
    if !step.DiscardLog? {
      SubjectDeltas(sys, step, r);
    }
  }

  lemma StepEvolves(sys: System, step: Step)
    requires Inv(sys) && Enabled(sys, step)
    ensures Evolves(sys, Apply(sys, step))
  {
    var sys' := Apply(sys, step);
    forall r | r in sys.store.runs && r in sys'.store.runs ensures RunEvolves(sys.store, sys'.store, r) {
      if Subject(step) == Some(r) {
        SubjectEvolves(sys, step, r);
      } else {
        OtherRunEvolves(sys, step, r);
      }
    }
  }

  lemma EvolvesTransitive(a: System, b: System, c: System)
    requires RefInv(a) && Evolves(a, b) && Evolves(b, c)
    ensures Evolves(a, c)
  {
    forall r | r in a.store.runs && r in c.store.runs ensures RunEvolves(a.store, c.store, r) {
      assert r in b.store.runs;
      assert RunEvolves(a.store, b.store, r) && RunEvolves(b.store, c.store, r);
    }
  }

  lemma EvolvesReflexive(a: System)
    ensures Evolves(a, a)
  {
  }

  // ---------------------------------------------------------------- histories

  /**
   * Safety over whole runs: after every prefix of a legal history the invariant holds, and no
   * run is ever taken back. Its revision only grows and names its content, a terminal status is
   * final, and committed deltas survive unless the user discards them.
   */
  lemma {:induction false} HistoryIsSafe(origin: System, h: seq<Step>, k: nat)
    requires Inv(origin) && Replay(origin, h).Some? && k <= |h|
    ensures Replay(origin, h[..k]).Some?
    ensures Inv(Replay(origin, h[..k]).value) && Inv(Replay(origin, h).value)
    ensures Evolves(Replay(origin, h[..k]).value, Replay(origin, h).value)
    decreases |h|
  {
    if k == |h| {
      assert h[..k] == h;
      if h != [] {
        HistoryIsSafe(origin, h[..|h| - 1], |h| - 1);
        assert h[..|h| - 1][..|h| - 1] == h[..|h| - 1];
        StepKeepsInv(Replay(origin, h[..|h| - 1]).value, h[|h| - 1]);
      }
      EvolvesReflexive(Replay(origin, h).value);
    } else {
      var init := h[..|h| - 1];
      HistoryIsSafe(origin, init, k);
      assert init[..k] == h[..k];
      StepKeepsInv(Replay(origin, init).value, h[|h| - 1]);
      StepEvolves(Replay(origin, init).value, h[|h| - 1]);
      EvolvesTransitive(Replay(origin, h[..k]).value, Replay(origin, init).value, Replay(origin, h).value);
    }
  }

  /** A database before its first run: chats and messages that no run wrote. */
  function BeforeRuns(chats: map<Id, Id>, messages: map<Id, Message>, nextId: Id): System {
    System(Store(chats, map[], map[], messages), nextId, None)
  }

  predicate NoRunWrote(chats: map<Id, Id>, messages: map<Id, Message>, nextId: Id) {
    forall m :: m in messages ==> m < nextId && messages[m].run.None? && messages[m].chat in chats
  }

  /** So the invariant holds in every state that is reachable from a database before its first run. */
  lemma EveryReachableState(chats: map<Id, Id>, messages: map<Id, Message>, nextId: Id, h: seq<Step>)
    requires NoRunWrote(chats, messages, nextId) && Replay(BeforeRuns(chats, messages, nextId), h).Some?
    ensures Inv(BeforeRuns(chats, messages, nextId)) && Inv(Replay(BeforeRuns(chats, messages, nextId), h).value)
  {
    assert Inv(BeforeRuns(chats, messages, nextId));
    hide Inv, Replay;
    HistoryIsSafe(BeforeRuns(chats, messages, nextId), h, 0);
  }

  /** The delta texts a history committed for one run, in order. */
  function Committed(h: seq<Step>, r: Id): seq<string> {
    if h == [] then []
    else
      var last := h[|h| - 1];
      Committed(h[..|h| - 1], r) + if last.CommitDelta? && last.run == r then [last.text] else []
  }

  lemma {:induction false} CommittedAppend(a: seq<Step>, b: seq<Step>, r: Id)
    ensures Committed(a + b, r) == Committed(a, r) + Committed(b, r)
  {
    if b == [] {
      assert a + b == a;
    } else {
      CommittedAppend(a, b[..|b| - 1], r);
      assert (a + b)[..|a + b| - 1] == a + b[..|b| - 1];
    }
  }

  lemma StepCommits(sys: System, step: Step, r: Id)
    requires RefInv(sys) && Enabled(sys, step) && r in sys.store.runs && r in Apply(sys, step).store.runs
    requires RunInv(sys.store, r) && !Discarded(sys.store, r) && !step.DiscardLog?
    ensures Deltas(Apply(sys, step).store, r) == Deltas(sys.store, r) + Committed([step], r)
  {
    CommittedOne(step, r);
    if Subject(step) == Some(r) {
      SubjectDeltas(sys, step, r);
    } else {
      OtherRunDeltas(sys, step, r);
    }
  }

  lemma CommittedOne(step: Step, r: Id)
    ensures Committed([step], r) == if step.CommitDelta? && step.run == r then [step.text] else []
  {
    assert [step][..0] == [];
  }

  lemma OtherRunDeltas(sys: System, step: Step, r: Id)
    requires RefInv(sys) && Enabled(sys, step) && Subject(step) != Some(r)
    requires r in sys.store.runs && r in Apply(sys, step).store.runs && RunInv(sys.store, r)
    ensures Deltas(Apply(sys, step).store, r) == Deltas(sys.store, r)
  {
    OtherCarried(sys, step, r);
    hide Apply, Enabled, Carried, RunInv;
    CarriedLog(sys.store, Apply(sys, step).store, r);
  }

  /** The log of a run started within the history holds exactly the deltas the history committed. */
  lemma {:induction false} DeltasAreCommitted(origin: System, h: seq<Step>, r: Id)
    requires Inv(origin) && Replay(origin, h).Some? && r >= origin.nextId
    ensures var sys := Replay(origin, h).value;
      if r in sys.store.runs then Discarded(sys.store, r) || Deltas(sys.store, r) == Committed(h, r)
      else r >= sys.nextId ==> Committed(h, r) == []
    decreases |h|
  {
    if h != [] {
      var init, step := h[..|h| - 1], h[|h| - 1];
      DeltasAreCommitted(origin, init, r);
      HistoryIsSafe(origin, init, 0);
      assert h == init + [step];
      CommittedAppend(init, [step], r);
      CommittedOne(step, r);
      CommitsStep(Replay(origin, init).value, step, r, Committed(init, r));
    }
  }

  /** One more step, for the induction above. */
  lemma CommitsStep(sys: System, step: Step, r: Id, before: seq<string>)
    requires Inv(sys) && Enabled(sys, step)
    requires if r in sys.store.runs then Discarded(sys.store, r) || Deltas(sys.store, r) == before
             else r >= sys.nextId ==> before == []
    ensures var t := Apply(sys, step);
      if r in t.store.runs then Discarded(t.store, r) || Deltas(t.store, r) == before + Committed([step], r)
      else r >= t.nextId ==> before + Committed([step], r) == []
  {
    var t := Apply(sys, step);
    CommittedOne(step, r);
    StartsAs(sys, step, r);
    hide Apply, Enabled, Log, Discarded;
    assert RefInv(sys);
    if r in sys.store.runs {
      if r in t.store.runs && !Discarded(t.store, r) {
        CommitsOne(sys, step, r);
      }
    }
  }

  /** Runs appear only by starting, with an empty log, under the next id. */
  lemma StartsAs(sys: System, step: Step, r: Id)
    requires RefInv(sys) && Enabled(sys, step)
    ensures r < sys.nextId ==> r < Apply(sys, step).nextId
    ensures r !in sys.store.runs && r in Apply(sys, step).store.runs ==>
      r == sys.nextId && Deltas(Apply(sys, step).store, r) == [] && !step.CommitDelta?
    ensures r !in sys.store.runs && step.CommitDelta? ==> step.run != r
    ensures sys.nextId <= Apply(sys, step).nextId
  {
    hide PartialMessage, DropEvents, DeltaRows, NextSequence;
  }

  lemma CommitsOne(sys: System, step: Step, r: Id)
    requires Inv(sys) && Enabled(sys, step) && r in sys.store.runs && r in Apply(sys, step).store.runs
    requires !Discarded(Apply(sys, step).store, r)
    ensures !Discarded(sys.store, r)
    ensures Deltas(Apply(sys, step).store, r) == Deltas(sys.store, r) + Committed([step], r)
  {
    assert RunInv(sys.store, r);
    StepEvolves(sys, step);
    assert RunEvolves(sys.store, Apply(sys, step).store, r);
    if step.DiscardLog? {
      assert step.run != r;
      OtherRunDeltas(sys, step, r);
      CommittedOne(step, r);
    } else {
      StepCommits(sys, step, r);
    }
  }

  // ---------------------------------------------------------------- reading a store

  predicate IsTerminalEvent(e: Event) {
    e.Completed? || e.Failed? || e.Cancelled?
  }

  predicate HasTerminalEvent(s: Status) {
    s.StatusCompleted? || s.StatusFailed? || s.StatusCancelled?
  }

  lemma {:induction false} RenderHasNoTerminal(ds: seq<string>)
    ensures forall i :: 0 <= i < |Render(ds)| ==> !IsTerminalEvent(Render(ds)[i])
  {
    if ds != [] {
      RenderHasNoTerminal(ds[..|ds| - 1]);
    }
  }

  /**
   * The event table of an undiscarded run, row by row: sequences are exactly `0..=lastSeq`; a
   * terminal event is there iff the status is completed, failed or cancelled, and then it is the
   * last row and the only one; the byte counter is the encoded length of the text.
   */
  lemma LogIsExact(sys: System, r: Id)
    requires Inv(sys) && r in sys.store.runs && !Discarded(sys.store, r)
    ensures var s, last := sys.store, sys.store.runs[r].lastSeq;
      && (forall i :: EventKey(r, i) in s.events <==> 0 <= i <= last)
      && (forall i :: 0 <= i <= last ==>
            (IsTerminalEvent(s.events[EventKey(r, i)]) <==> i == last && HasTerminalEvent(s.runs[r].status)))
      && s.runs[r].partialLength == ByteLen(Concat(Deltas(s, r)))
  {
    var s := sys.store;
    assert RunInv(s, r);
    var ds, last := Deltas(s, r), s.runs[r].lastSeq;
    SelectFull(s.events, r, last + 1);
    RenderHasNoTerminal(ds);
    ByteLenConcat(ds);
    assert |Tail(s, r)| == if HasTerminalEvent(s.runs[r].status) then 1 else 0;
  }

  /** Where the deltas and checkpoints of an undiscarded run sit. */
  lemma LogPositions(sys: System, r: Id)
    requires Inv(sys) && r in sys.store.runs && !Discarded(sys.store, r)
    ensures var s, ds := sys.store, Deltas(sys.store, r);
      && s.runs[r].lastSeq == |ds| + |ds| / 4 - (if HasTerminalEvent(s.runs[r].status) then 0 else 1)
      && (forall i :: 0 <= i < |ds| ==>
            EventKey(r, i + i / 4) in s.events && s.events[EventKey(r, i + i / 4)] == Delta(ds[i]))
      && (forall k :: 1 <= k <= |ds| / 4 ==>
            && EventKey(r, 5 * k - 1) in s.events
            && s.events[EventKey(r, 5 * k - 1)] == Checkpoint(5 * k - 1, TotalBytes(ds[..4 * k])))
  {
    hide Inv, Discarded, Tail, Log, Deltas, Select;
    RenderedLog(sys, r);
    var s, ds := sys.store, Deltas(sys.store, r);
    RenderLength(ds);
    forall i | 0 <= i < |ds|
      ensures EventKey(r, i + i / 4) in s.events && s.events[EventKey(r, i + i / 4)] == Delta(ds[i])
    {
      DeltaPosition(ds, i);
    }
    forall k | 1 <= k <= |ds| / 4
      ensures EventKey(r, 5 * k - 1) in s.events
      ensures s.events[EventKey(r, 5 * k - 1)] == Checkpoint(5 * k - 1, TotalBytes(ds[..4 * k]))
    {
      CheckpointPosition(ds, k);
    }
  }

  /** The event table holds the rendering of the deltas, then the terminal event if there is one. */
  lemma RenderedLog(sys: System, r: Id)
    requires Inv(sys) && r in sys.store.runs && !Discarded(sys.store, r)
    ensures var s, log := sys.store, Render(Deltas(sys.store, r));
      && s.runs[r].lastSeq + 1 == |log| + (if HasTerminalEvent(s.runs[r].status) then 1 else 0)
      && (forall i :: 0 <= i < |log| ==> EventKey(r, i) in s.events && s.events[EventKey(r, i)] == log[i])
  {
    var s := sys.store;
    assert RunInv(s, r);
    SelectFull(s.events, r, s.runs[r].lastSeq + 1);
    assert |Tail(s, r)| == if HasTerminalEvent(s.runs[r].status) then 1 else 0;
  }

  /** The row of a run that has not ended counts its log: the next sequence is free. */
  lemma DrivenRow(sys: System, r: Id)
    requires Inv(sys) && r in sys.store.runs && !IsTerminal(sys.store.runs[r].status)
    ensures var row, ds := sys.store.runs[r], Deltas(sys.store, r);
      && Kept(sys.store, r)
      && row.lastSeq == |ds| + |ds| / 4 - 1
      && row.partialLength == TotalBytes(ds)
      && (forall k :: k in sys.store.events && k.run == r ==> k.sequence <= row.lastSeq)
  {
    assert RunInv(sys.store, r);
    RenderLength(Deltas(sys.store, r));
    assert Tail(sys.store, r) == [];
  }

  /** A run owns a message iff its row links one, and it says what the run had committed. */
  lemma OneMessagePerRun(sys: System, r: Id)
    requires Inv(sys) && r in sys.store.runs
    ensures var s := sys.store;
      && (forall m :: m in s.messages && s.messages[m].run == Some(r) <==> s.runs[r].messageId == Some(m))
      && (s.runs[r].messageId.Some? && !Discarded(s, r) ==>
            s.messages[s.runs[r].messageId.value].content == Concat(Deltas(s, r)))
      && (s.runs[r].status.StatusCompleted? ==>
            EventKey(r, s.runs[r].lastSeq) in s.events &&
            s.events[EventKey(r, s.runs[r].lastSeq)] ==
              Completed(s.runs[r].messageId.value, s.messages[s.runs[r].messageId.value]))
  {
    hide Inv, Log, Deltas, Concat;
    RunOf(sys, r);
    RunParts(sys, r);
    if sys.store.runs[r].status.StatusCompleted? {
      TerminalRow(sys, r);
    }
  }

  /** The terminal event of a run is its last row. */
  lemma TerminalRow(sys: System, r: Id)
    requires Inv(sys) && r in sys.store.runs && HasTerminalEvent(sys.store.runs[r].status) && !Discarded(sys.store, r)
    ensures var s := sys.store; var last := EventKey(r, s.runs[r].lastSeq);
      && |Tail(s, r)| == 1 && last in s.events && s.events[last] == Tail(s, r)[0]
  {
    var s := sys.store;
    RunParts(sys, r);
    SelectFull(s.events, r, s.runs[r].lastSeq + 1);
    assert |Tail(s, r)| == 1;
  }

  /** `n` hops along `sourceRunId`. */
  function Ancestor(s: Store, r: Id, n: nat): Option<Id> {
    if n == 0 then Some(r)
    else
      match Ancestor(s, r, n - 1)
      case None => None
      case Some(q) => if q in s.runs then s.runs[q].source else None
  }

  /**
   * Attempt numbers count the chain of retries: the n-th ancestor is attempt - n, exists exactly
   * while that is positive, and asks for the same generation. So chains are acyclic.
   */
  lemma {:induction false} RetryChains(sys: System, r: Id, n: nat)
    requires Inv(sys) && r in sys.store.runs
    ensures var s := sys.store; var row := s.runs[r]; var q := Ancestor(s, r, n);
      && row.attempt >= 1
      && (q.Some? <==> n < row.attempt)
      && (q.Some? ==>
            && q.value in s.runs
            && s.runs[q.value].attempt == row.attempt - n
            && s.runs[q.value].chat == row.chat
            && s.runs[q.value].snapshot == row.snapshot
            && (q.value == r ==> n == 0))
  {
    hide Inv, RunInv;
    RunParts(sys, r);
    if n > 0 {
      RetryChains(sys, r, n - 1);
      var q := Ancestor(sys.store, r, n - 1);
      if q.Some? {
        RunParts(sys, q.value);
      }
    }
  }

  // ---------------------------------------------------------------- crash, recovery, keep, retry

  /** Startup recovery interrupts exactly the unfinished runs whose lease ran out or was cleared. */
  lemma RecoveryInterrupts(sys: System, now: int, r: Id)
    requires Inv(sys) && sys.active.None? && r in sys.store.runs
    ensures var s, t := sys.store, Apply(sys, Recover(now)).store;
      && r in t.runs
      && Log(t, r) == Log(s, r)
      && (if !IsTerminal(s.runs[r].status) && (s.runs[r].lease == None || s.runs[r].lease.value < now)
          then t.runs[r].status.Interrupted? && t.runs[r].lease.None? && t.runs[r].revision == s.runs[r].revision + 1
          else t.runs[r] == s.runs[r])
  {
    RecoveredRow(sys, now, r);
    RunOf(sys, r);
    hide Apply, Inv, Log, RunInv, RefInv;
    OtherRunCarried(sys, Recover(now), r);
    CarriedLog(sys.store, Apply(sys, Recover(now)).store, r);
  }

  lemma RecoveredRow(sys: System, now: int, r: Id)
    requires sys.active.None? && r in sys.store.runs
    ensures Enabled(sys, Recover(now))
    ensures var s, t := sys.store, Apply(sys, Recover(now)).store;
      && r in t.runs
      && (if !IsTerminal(s.runs[r].status) && (s.runs[r].lease == None || s.runs[r].lease.value < now)
          then t.runs[r].status.Interrupted? && t.runs[r].lease.None? && t.runs[r].revision == s.runs[r].revision + 1
          else t.runs[r] == s.runs[r])
  {
  }

  /** A recovered run's deltas become one message when kept. */
  lemma KeepSaysAll(sys: System, r: Id)
    requires Inv(sys) && r in sys.store.runs && sys.store.runs[r].status.Interrupted?
    requires sys.store.runs[r].messageId.None? && sys.store.runs[r].partialLength != 0
    ensures Enabled(sys, KeepPartial(r))
    ensures var kept := Apply(sys, KeepPartial(r)).store;
      var id := kept.runs[r].messageId;
      && id.Some? && id.value in kept.messages
      && kept.messages[id.value].content == Concat(Deltas(sys.store, r))
      && (forall m :: m in kept.messages && kept.messages[m].run == Some(r) ==> m == id.value)
      && (forall m :: m in sys.store.messages && sys.store.messages[m].chat == kept.runs[r].chat ==>
            sys.store.messages[m].sequence < kept.messages[id.value].sequence)
  {
    hide Inv, RunInv, RefInv, Kept, NextSequence, Deltas, Concat, DropEvents;
    RunOf(sys, r);
    RunParts(sys, r);
    assert sys.nextId !in sys.store.messages by { IdsAreFresh(sys); }
    NewSequenceIsLast(sys.store.messages, sys.store.runs[r].chat);
  }

  lemma IdsAreFresh(sys: System)
    requires RefInv(sys)
    ensures sys.nextId !in sys.store.messages && sys.nextId !in sys.store.runs
  {
  }

  /** A new message comes after every other message of its chat. */
  lemma NewSequenceIsLast(messages: map<Id, Message>, chat: Id)
    ensures forall m :: m in messages && messages[m].chat == chat ==> messages[m].sequence < NextSequence(messages, chat)
  {
    forall m | m in messages && messages[m].chat == chat ensures messages[m].sequence < NextSequence(messages, chat) {
      assert messages[m].sequence in ChatSequences(messages, chat);
    }
  }

  /** A retry of a recovered run asks for the same generation again, as the next attempt. */
  lemma RetryContinues(sys: System, r: Id, lease: int)
    requires Inv(sys) && sys.active.None? && r in sys.store.runs && IsRecoverable(sys.store.runs[r].status)
    ensures Enabled(sys, Retry(r, lease))
    ensures var retried := Apply(sys, Retry(r, lease));
      var next := sys.nextId;
      && next !in sys.store.runs && next in retried.store.runs
      && retried.store.runs[next].source == Some(r)
      && retried.store.runs[next].attempt == sys.store.runs[r].attempt + 1
      && retried.store.runs[next].chat == sys.store.runs[r].chat
      && retried.store.runs[next].snapshot == sys.store.runs[r].snapshot
      && Deltas(retried.store, next) == []
  {
  }

  /**
   * A crash after any committed step. Provided the adapter's output starts with what the history
   * committed, recovery past the lease leaves the run interrupted with every delta it had, which
   * are a prefix of that output; `KeepSaysAll` and `RetryContinues` then apply to it.
   */
  lemma CrashThenRecover(origin: System, h: seq<Step>, k: nat, r: Id, output: seq<string>, now: int)
    requires Inv(origin) && Replay(origin, h).Some? && k <= |h| && r >= origin.nextId
    requires Committed(h, r) <= output
    requires Replay(origin, h[..k]).Some? && r in Replay(origin, h[..k]).value.store.runs
    requires Stale(Replay(origin, h[..k]).value.store.runs[r], now)
    ensures var before := Replay(origin, h[..k]).value.store;
      var recovered := Replay(origin, h[..k] + [Halt, Recover(now)]);
      && recovered.Some? && Inv(recovered.value) && recovered.value.active.None?
      && r in recovered.value.store.runs
      && recovered.value.store.runs[r].status.Interrupted?
      && recovered.value.store.runs[r].messageId.None?
      && SameIdentity(recovered.value.store.runs[r], before.runs[r])
      && |Deltas(before, r)| <= |output|
      && Deltas(recovered.value.store, r) == Deltas(before, r) == output[..|Deltas(before, r)|]
  {
    hide Replay, Apply, AfterCrash, Inv, Committed, Deltas;
    var before := Replay(origin, h[..k]).value;
    assert Inv(before) by { HistoryIsSafe(origin, h, k); }
    assert Deltas(before.store, r) <= output by { CommittedSoFar(origin, h, k, r, output); }
    ReplayCrash(origin, h[..k], now);
    RecoverOne(before, r, now);
  }

  /** At every point of a history an undiscarded run holds a prefix of what is committed in the end. */
  lemma CommittedSoFar(origin: System, h: seq<Step>, k: nat, r: Id, output: seq<string>)
    requires Inv(origin) && Replay(origin, h).Some? && k <= |h| && r >= origin.nextId
    requires Committed(h, r) <= output
    requires Replay(origin, h[..k]).Some? && r in Replay(origin, h[..k]).value.store.runs
    ensures var s := Replay(origin, h[..k]).value.store;
      Deltas(s, r) <= output || IsRecoverable(s.runs[r].status)
  {
    hide Committed, Replay, Inv, Deltas, Discarded;
    TakeAndDrop(h, k);
    CommittedAppend(h[..k], h[k..], r);
    HistoryIsSafe(origin, h, k);
    DeltasAreCommitted(origin, h[..k], r);
    DiscardedIsRecoverable(Replay(origin, h[..k]).value, r);
  }

  lemma DiscardedIsRecoverable(sys: System, r: Id)
    requires r in sys.store.runs
    ensures Discarded(sys.store, r) ==> IsRecoverable(sys.store.runs[r].status)
  {
  }

  /** The process dies and the next one recovers. */
  ghost function AfterCrash(before: System, now: int): System {
    Apply(Apply(before, Halt), Recover(now))
  }

  lemma RecoverOne(before: System, r: Id, now: int)
    requires Inv(before) && r in before.store.runs && Stale(before.store.runs[r], now)
    ensures var recovered := AfterCrash(before, now);
      && Inv(recovered) && recovered.active.None?
      && r in recovered.store.runs
      && recovered.store.runs[r].status.Interrupted?
      && recovered.store.runs[r].messageId.None?
      && SameIdentity(recovered.store.runs[r], before.store.runs[r])
      && Deltas(recovered.store, r) == Deltas(before.store, r)
  {
    assert StatusInv(before.store.runs[r]) by { assert RunInv(before.store, r); }
    var halted := Apply(before, Halt);
    StepKeepsInv(before, Halt);
    StepKeepsInv(halted, Recover(now));
    RecoveryInterrupts(halted, now, r);
  }

  lemma ReplayOne(origin: System, h: seq<Step>, step: Step)
    requires Replay(origin, h).Some? && Enabled(Replay(origin, h).value, step)
    ensures Replay(origin, h + [step]) == Some(Apply(Replay(origin, h).value, step))
  {
    assert (h + [step])[..|h|] == h;
  }

  lemma ReplayCrash(origin: System, h: seq<Step>, now: int)
    requires Replay(origin, h).Some?
    ensures Replay(origin, h + [Halt, Recover(now)]) == Some(AfterCrash(Replay(origin, h).value, now))
  {
    ReplayOne(origin, h, Halt);
    ReplayOne(origin, h + [Halt], Recover(now));
    assert h + [Halt, Recover(now)] == h + [Halt] + [Recover(now)];
  }
}
