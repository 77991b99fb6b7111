/**
 * The inline executor: one generation run driven through a provider adapter, with commands
 * served between its steps, and what every such execution comes to.
 */
module GenerationExecutor {
  import opened Base
  import opened Text
  import opened GenerationLog
  import opened GenerationModel
  import opened GenerationProofs
  import opened GenerationRuns
  import opened GenerationOps
  import opened GenerationKernel

  /** How one adapter call ends. */
  datatype Outcome =
    | Usage
    | AdapterCancelled
    | StepFailed(step: Option<string>)
    | Timeout
    | NetworkFault
    | Unavailable
    | RequestInvalid(model: Option<string>)

  /** An adapter that emits `texts` while it is told to continue and stops when told to stop. */
  datatype Adapter = Adapter(texts: seq<string>, finish: Outcome, onStop: Outcome)

  /** How the executor returns. Only `Ended` commits a terminal event. */
  datatype ExecEnd = ShutDown | Vanished | Rejected | Ended(last: int)

  /** The error stored for a failed attempt. */
  function ToError(o: Outcome, r: Id, row: Run): ErrorDto
    requires !o.Usage? && !o.AdapterCancelled?
  {
    match o
    case StepFailed(step) => ErrorDto("PROVIDER_STEP_FAILED", Some(r), step)
    case Timeout => ErrorDto("PROVIDER_TIMEOUT", Some(r), None)
    case NetworkFault => ErrorDto("PROVIDER_NETWORK_FAULT", Some(r), None)
    case Unavailable => ErrorDto("PROVIDER_UNAVAILABLE", None, Some(if row.provider.Some? then row.provider.value else "fake"))
    case RequestInvalid(m) =>
      ErrorDto("PROVIDER_MODEL_INVALID", None, if m.Some? then m else Some(if row.model.Some? then row.model.value else ""))
  }

  // ---------------------------------------------------------------- what an execution comes to

  /** The commands waiting at the i-th drain: 0 is the one before the first step, i + 1 the one before delta i. */
  function Batch(bs: seq<seq<Command>>, i: nat): seq<Command> {
    if i < |bs| then bs[i] else []
  }

  datatype Why = AtShutdown | AtRemoval | AtCancel | AtOversize | AtEnd

  /** How many deltas are committed, and what stops the next one. */
  datatype Flow = Flow(deltas: nat, why: Why)

  /** What the first drain means for the execution. */
  function Opening(bs: seq<seq<Command>>, ch: Id): Why {
    if Shutdown in Batch(bs, 0) then AtShutdown else if RemoveCharacter(ch) in Batch(bs, 0) then AtRemoval else AtEnd
  }

  /** What the drain before delta `i` means for that delta; a cancel of the first drain is seen here. */
  function Interruption(bs: seq<seq<Command>>, text: string, i: nat, r: Id, ch: Id): Why {
    var b := Batch(bs, i + 1);
    if Shutdown in b then AtShutdown
    else if RemoveCharacter(ch) in b then AtRemoval
    else if CancelRun(r) in b || (i == 0 && CancelRun(r) in Batch(bs, 0)) then AtCancel
    else if Utf16Len(text) > MAX_DELTA_UNITS then AtOversize
    else AtEnd
  }

  /** Nothing interrupts the first `f.deltas` deltas, and then `f.why` happens. */
  predicate Emits(f: Flow, bs: seq<seq<Command>>, texts: seq<string>, r: Id, ch: Id) {
    && f.deltas <= |texts|
    && (forall i :: 0 <= i < f.deltas ==> Interruption(bs, texts[i], i, r, ch) == AtEnd)
    && (if f.deltas < |texts| then Interruption(bs, texts[f.deltas], f.deltas, r, ch) == f.why && f.why != AtEnd
        else f.why == AtEnd)
  }

  predicate IsFlow(f: Flow, bs: seq<seq<Command>>, texts: seq<string>, r: Id, ch: Id) {
    if Opening(bs, ch) != AtEnd then f == Flow(0, Opening(bs, ch)) else Emits(f, bs, texts, r, ch)
  }

  /** The batch at which the flow stopped. */
  function LastBatch(f: Flow, bs: seq<seq<Command>>, ch: Id): seq<Command> {
    if Opening(bs, ch) != AtEnd then Batch(bs, 0) else Batch(bs, f.deltas + 1)
  }

  /** A cancel was served while the execution lasted. */
  predicate Asked(f: Flow, bs: seq<seq<Command>>, r: Id, ch: Id) {
    CancelRun(r) in Batch(bs, 0) || (f.why in {AtShutdown, AtCancel} && CancelRun(r) in LastBatch(f, bs, ch))
  }

  predicate Removed(f: Flow, bs: seq<seq<Command>>, ch: Id) {
    f.why in {AtShutdown, AtRemoval} && RemoveCharacter(ch) in LastBatch(f, bs, ch)
  }

  /** The progress notices of `n` deltas. */
  function Progress(n: nat): seq<Notice> {
    if n == 0 then [] else Progress(n - 1) + [CommittedTo(n + n / 4 - 1)]
  }

  /** An unknown provider behaves like an adapter that is unavailable from the start. */
  function Effective(adapter: Option<Adapter>): Adapter {
    if adapter.Some? then adapter.value else Adapter([], Unavailable, Unavailable)
  }

  /** The status an adapter's outcome commits; none if the message is over the wire limit. */
  function EndStatus(o: Outcome, text: string): Option<Status> {
    match o
    case Usage => if Utf16Len(text) > MAX_CONTENT_UNITS then None else Some(StatusCompleted)
    case AdapterCancelled => Some(StatusCancelled)
    case _ => Some(StatusFailed)
  }

  /** The row a finished execution leaves, for an outcome that is not a failure or is failure `o`. */
  predicate EndsAs(o: Outcome, r: Id, row: Run, end: ExecEnd, n: nat, text: string) {
    match EndStatus(o, text)
    case None => end.Rejected? && !IsTerminal(row.status)
    case Some(status) =>
      && end == Ended(n + n / 4) && row.lastSeq == n + n / 4 && row.status == status
      && (status.StatusFailed? ==> row.error == Some(ToError(o, r, row)))
  }

  /**
   * What is left of run `r`, which started as `who` and committed `ds`, when its execution ended for
   * reason `why`: `asked` says whether a cancel was served, `raced` whether in the last batch.
   */
  ghost predicate LeftBehind(why: Why, outcome: Outcome, r: Id, who: Run, ds: seq<string>, asked: bool, raced: bool,
                             end: ExecEnd, after: Store)
  {
    r in after.runs &&
    var row := after.runs[r];
    && SameIdentity(who, row) && Deltas(after, r) == ds && (row.cancelRequested <==> asked)
    && match why
       case AtShutdown => !IsTerminal(row.status) && (row.lease.None? <==> !raced)
       case AtRemoval => false
       case AtOversize => end.Rejected? && row.status.Streaming?
       case _ => EndsAs(outcome, r, row, end, |ds|, Concat(ds))
  }

  /** What an execution with flow `f` comes to: its end, the notices `sent`, and the run it leaves. */
  ghost predicate Executed(f: Flow, bs: seq<seq<Command>>, adapter: Adapter, r: Id, who: Run, ch: Id,
                           end: ExecEnd, after: Store, sent: seq<Notice>)
  {
    && IsFlow(f, bs, adapter.texts, r, ch) && f.deltas <= |adapter.texts|
    && sent == Progress(f.deltas) + Closing(end)
    && (end.ShutDown? <==> f.why.AtShutdown?) && (end.Vanished? <==> f.why.AtRemoval?)
    && if Removed(f, bs, ch) then r !in after.runs
       else LeftBehind(f.why, if f.why.AtCancel? then adapter.onStop else adapter.finish, r, who, adapter.texts[..f.deltas],
                       Asked(f, bs, r, ch), CancelRun(r) in LastBatch(f, bs, ch), end, after)
  }

  /** Only a terminal commit is announced. */
  function Closing(end: ExecEnd): seq<Notice> {
    if end.Ended? then [EndedAt(end.last)] else []
  }

  // ---------------------------------------------------------------- the driven run, seen through drains and deltas

  /** A row `stream_start` has just inserted. */
  predicate JustStarted(sys: System, r: Id) {
    Driven(sys, r) &&
    var row := sys.store.runs[r];
    row.status.Queued? && row.revision == 0 && !row.cancelRequested && row.lastSeq == -1 && row.lease.Some?
  }

  /** Run `r` is driven, still the run that started as `who`, of character `ch`, with deltas `ds`. */
  ghost predicate Running(sys: System, r: Id, who: Run, ch: Id, ds: seq<string>) {
    && Driven(sys, r)
    && SameIdentity(who, sys.store.runs[r])
    && who.chat in sys.store.chats && sys.store.chats[who.chat] == ch
    && Deltas(sys.store, r) == ds
    && sys.store.runs[r].lastSeq == |ds| + |ds| / 4 - 1
  }

  lemma RunningAfterDrain(sys: System, cs: seq<Command>, r: Id, who: Run, ch: Id, ds: seq<string>)
    requires Inv(sys) && Running(sys, r, who, ch, ds)
    ensures var t := ServeAll(sys, cs);
      && Inv(t) && t.active == sys.active
      && (if RemoveCharacter(ch) in cs then r !in t.store.runs
          else Running(t, r, who, ch, ds) && t.store.runs[r] == ServedRow(sys.store.runs[r], cs, r))
  {
    hide Inv, Serve, ServeAll, Log;
    ServeDriven(sys, cs, r);
  }

  lemma RunningAfterDelta(sys: System, r: Id, who: Run, ch: Id, ds: seq<string>, text: string, lease: int)
    requires Inv(sys) && Running(sys, r, who, ch, ds) && Enabled(sys, Step.CommitDelta(r, text, lease))
    ensures var t := Apply(sys, Step.CommitDelta(r, text, lease));
      && Running(t, r, who, ch, ds + [text])
      && t.store.runs[r].status == sys.store.runs[r].status && t.store.runs[r].cancelRequested == sys.store.runs[r].cancelRequested
      && t.store.runs[r].lease.Some?
  {
    assert Kept(sys.store, r) by { hide Apply; DrivenRow(sys, r); }
    hide Inv, Kept, Log, Deltas, TotalBytes, ByteLen;
    SubjectDeltas(sys, Step.CommitDelta(r, text, lease), r);
    DeltaRow(sys, r, text, lease);
    hide Apply, Enabled;
  }

  lemma DeltaRow(sys: System, r: Id, text: string, lease: int)
    requires Enabled(sys, Step.CommitDelta(r, text, lease))
    ensures var t := Apply(sys, Step.CommitDelta(r, text, lease));
      && Driven(t, r) && t.store.chats == sys.store.chats && SameIdentity(sys.store.runs[r], t.store.runs[r])
      && t.store.runs[r].status == sys.store.runs[r].status && t.store.runs[r].cancelRequested == sys.store.runs[r].cancelRequested
      && t.store.runs[r].lease.Some?
      && t.store.runs[r].lastSeq == sys.store.runs[r].lastSeq + 1 + (if |Deltas(sys.store, r)| % 4 == 3 then 1 else 0)
  {
    hide Deltas, TotalBytes, ByteLen;
  }

  lemma RunningAfterAdvance(sys: System, r: Id, who: Run, ch: Id, ds: seq<string>, to: Status, lease: int)
    requires Inv(sys) && Running(sys, r, who, ch, ds) && Enabled(sys, Advance(r, to, lease))
    ensures var t := Apply(sys, Advance(r, to, lease));
      && Running(t, r, who, ch, ds)
      && t.store.runs[r].status == to && t.store.runs[r].cancelRequested == sys.store.runs[r].cancelRequested
      && t.store.runs[r].lease.Some?
  {
    assert RunInv(sys.store, r);
    OtherRunDeltas(sys, Advance(r, to, lease), r);
    hide Inv, Deltas, RunInv;
  }

  lemma RunningAtStart(sys: System, r: Id)
    requires Inv(sys) && JustStarted(sys, r)
    ensures sys.store.runs[r].chat in sys.store.chats
    ensures Running(sys, r, sys.store.runs[r], sys.store.chats[sys.store.runs[r].chat], [])
  {
    DrivenRow(sys, r);
    RunOf(sys, r);
  }

  // ---------------------------------------------------------------- the executor

  /** Serves every queued command; reports whether one of them was a shutdown. */
  method Drain(db: Kernel, cmds: seq<Command>) returns (stop: bool)
    requires db.Valid()
    modifies db
    ensures db.Valid() && unchanged(db`notices, db`origin)
    ensures db.Sys() == ServeAll(old(db.Sys()), cmds)
    ensures stop <==> Shutdown in cmds
    ensures old(db.history) <= db.history
    ensures forall r :: Committed(db.history, r) == old(Committed(db.history, r))
  {
    hide Apply, Enabled, Inv, Replay;
    stop := false;
    assert cmds[..0] == [];
    for i := 0 to |cmds|
      invariant db.Valid() && unchanged(db`notices, db`origin)
      invariant db.Sys() == ServeAll(old(db.Sys()), cmds[..i])
      invariant stop <==> Shutdown in cmds[..i]
      invariant old(db.history) <= db.history
      invariant forall r :: Committed(db.history, r) == old(Committed(db.history, r))
    {
      ghost var before, past := db.Sys(), db.history;
      ServeTwo(old(db.Sys()), cmds[..i], cmds[i]);
      assert cmds[..i + 1] == cmds[..i] + [cmds[i]];
      match cmds[i] {
        case CancelRun(r) => var _ := db.GenerationCancel(r);
        case KeepRun(r) => var _ := db.GenerationKeep(r);
        case DiscardRun(r) => var _ := db.GenerationDiscard(r);
        case RemoveCharacter(ch) => db.CharactersDelete(ch);
        case Shutdown => stop := true;
        case _ =>
      }
      forall r ensures Committed(db.history, r) == Committed(past, r) {
        ServedCommits(before, cmds[i], past, r);
      }
    }
    assert cmds[..|cmds|] == cmds;
  }

  /** Serving a command never commits a delta. */
  lemma ServedCommits(sys: System, c: Command, past: seq<Step>, r: Id)
    ensures Committed(past + StepsOf(sys, c), r) == Committed(past, r)
  {
    CommittedAppend(past, StepsOf(sys, c), r);
    var steps := StepsOf(sys, c);
    if steps != [] {
      CommittedOne(steps[0], r);
    }
  }

  /** What the adapter is told after each delta. */
  datatype EmitStatus = Continue | Stop(why: Why)

  /**
   * The emit bridge: serve what is queued, re-read the row, and commit the delta unless something
   * stops it. A driven run is never terminal, so the bridge's check for that cannot fire. `seen` is the
   * row as last read; an adapter that ignored an earlier stop may find a newer one in the database.
   */
  method Emit(db: Kernel, r: Id, seen: Run, text: string, emitted: nat, batch: seq<Command>,
              ghost who: Run, ghost ch: Id, ghost ds: seq<string>)
    returns (status: EmitStatus, run: Run)
    requires db.Valid() && Running(db.Sys(), r, who, ch, ds) && emitted == |ds|
    requires db.runs[r].status.Streaming? || db.runs[r].cancelRequested
    modifies db
    ensures db.Valid() && unchanged(db`origin) && db.active == Some(r) && old(db.history) <= db.history
    ensures status == Emitted(batch, r, ch, old(db.runs)[r], text)
    ensures Committed(db.history, r) == old(Committed(db.history, r)) + if status.Continue? then [text] else []
    ensures db.notices == old(db.notices) + if status.Continue? then [CommittedTo(emitted + 1 + (emitted + 1) / 4 - 1)] else []
    ensures r !in db.runs <==> RemoveCharacter(ch) in batch
    ensures r in db.runs ==>
      && Running(db.Sys(), r, who, ch, if status.Continue? then ds + [text] else ds)
      && (status != Stop(AtShutdown) ==> run == db.runs[r])
      && (status.Continue? ==> run.status.Streaming? && !run.cancelRequested && run.lease.Some?)
      && (status.Stop? ==> db.runs[r] == ServedRow(old(db.runs)[r], batch, r))
    ensures status == Stop(AtShutdown) || r !in db.runs ==> run == seen
  {
    hide Inv, Apply, Enabled, Kernel.Traced, ServeAll, Committed, Deltas, Utf16Len;
    db.Sound();
    RunningAfterDrain(db.Sys(), batch, r, who, ch, ds);
    run := seen;
    var stop := Drain(db, batch);
    if stop {
      return Stop(AtShutdown), run;
    }
    if r !in db.runs {
      return Stop(AtRemoval), run;
    }
    run := db.runs[r];
    if run.status.Cancelling? || run.cancelRequested {
      return Stop(AtCancel), run;
    }
    db.Reach(r);
    assert Enabled(db.Sys(), Step.CommitDelta(r, text, 0)) by { DeltaAllowed(db.Sys(), r, text, 0); }
    ghost var before, past := db.Sys(), db.history;
    var outcome, lease := db.CommitDelta(r, run, text, emitted);
    if outcome.TooLong? {
      return Stop(AtOversize), run;
    }
    run := outcome.row;
    RunningAfterDelta(before, r, who, ch, ds, text, lease);
    CommittedAppend(past, [Step.CommitDelta(r, text, lease)], r);
    CommittedOne(Step.CommitDelta(r, text, lease), r);
    return Continue, run;
  }

  /** The executor returns without a terminal event. */
  ghost method Leave(db: Kernel)
    requires db.Valid()
    modifies db`active, db`history
    ensures db.Valid() && db.active.None? && db.Sys() == old(db.Sys()).(active := None)
    ensures old(db.history) <= db.history
    ensures forall r :: Committed(db.history, r) == old(Committed(db.history, r))
  {
    db.Stop();
    forall r ensures Committed(db.history, r) == old(Committed(db.history, r)) {
      CommittedAppend(old(db.history), [Halt], r);
      CommittedOne(Halt, r);
    }
  }

  /** Shutdown while run `r` is being driven. */
  method LeaveForShutdown(db: Kernel, r: Id, seen: Run, ghost who: Run, ghost ch: Id, ghost ds: seq<string>)
    requires db.Valid() && db.active == Some(r)
    requires r in db.runs ==> Running(db.Sys(), r, who, ch, ds) && Seen(seen, db.runs[r])
    modifies db
    ensures db.Valid() && unchanged(db`origin, db`notices) && db.active.None? && old(db.history) <= db.history
    ensures db.runs.Keys == old(db.runs).Keys
    ensures r in db.runs ==>
      && db.runs[r] == (if seen == old(db.runs)[r] then Bumped(seen).(lease := None) else old(db.runs)[r])
      && Deltas(db.Sys().store, r) == ds
    ensures forall q :: Committed(db.history, q) == old(Committed(db.history, q))
  {
    hide Inv, Kernel.Traced;
    ghost var before, past := db.Sys(), db.history;
    if r in db.runs {
      db.Reach(r);
      ClearedDeltas(before, r);
    }
    hide Deltas, Ready;
    db.CommitShutdownProgress(r, seen);
    forall q ensures Committed(db.history, q) == Committed(past, q) {
      CommittedAppend(past, [ClearLease(r)], q);
      CommittedOne(ClearLease(r), q);
    }
    ghost var mid := db.Sys();
    Leave(db);
  }

  lemma ClearedDeltas(sys: System, r: Id)
    requires Driven(sys, r)
    ensures Deltas(Apply(sys, ClearLease(r)).store, r) == Deltas(sys.store, r)
    ensures Deltas(Apply(Apply(sys, ClearLease(r)), Halt).store, r) == Deltas(sys.store, r)
  {
  }

  /** What `Emit` decides. */
  function Emitted(batch: seq<Command>, r: Id, ch: Id, seen: Run, text: string): EmitStatus {
    if Shutdown in batch then Stop(AtShutdown)
    else if RemoveCharacter(ch) in batch then Stop(AtRemoval)
    else if CancelRun(r) in batch || seen.cancelRequested then Stop(AtCancel)
    else if Utf16Len(text) > MAX_DELTA_UNITS then Stop(AtOversize)
    else Continue
  }

  lemma DeltaAllowed(sys: System, r: Id, text: string, lease: int)
    requires Driven(sys, r) && sys.store.runs[r].status.Streaming? && !sys.store.runs[r].cancelRequested
    ensures Enabled(sys, Step.CommitDelta(r, text, lease))
  {
  }

  /** A status transition from a row just read: nobody else writes, so the swap wins. */
  method AdvanceTo(db: Kernel, r: Id, seen: Run, to: Status, ghost who: Run, ghost ch: Id) returns (run: Run)
    requires db.Valid() && Running(db.Sys(), r, who, ch, []) && seen == db.runs[r]
    requires if to.Preparing? then seen.status.Queued? || seen.status.Cancelling? else to.Streaming? && seen.status.Preparing?
    modifies db
    ensures db.Valid() && unchanged(db`origin, db`notices) && old(db.history) <= db.history
    ensures r in db.runs && Running(db.Sys(), r, who, ch, []) && run == db.runs[r]
    ensures run.status == to && run.cancelRequested == seen.cancelRequested && run.lease.Some?
    ensures forall q :: Committed(db.history, q) == old(Committed(db.history, q))
  {
    hide Inv, Kernel.Traced, Deltas, Apply, Ready;
    ghost var before, past := db.Sys(), db.history;
    db.Sound();
    db.Reach(r);
    var outcome, step := db.CasStatus(r, seen, to);
    run := outcome.row;
    RunningAfterAdvance(before, r, who, ch, [], to, step.lease);
    forall q ensures Committed(db.history, q) == Committed(past, q) {
      CommittedAppend(past, [step], q);
      CommittedOne(step, q);
    }
  }

  /** Terminal commit for what the adapter reported. */
  method Finish(db: Kernel, r: Id, seen: Run, outcome: Outcome, ghost who: Run, ghost ch: Id, ghost ds: seq<string>)
    returns (end: ExecEnd)
    requires db.Valid() && Running(db.Sys(), r, who, ch, ds) && seen == db.runs[r]
    modifies db
    ensures db.Valid() && unchanged(db`origin) && db.active.None? && old(db.history) <= db.history
    ensures end.Ended? || end.Rejected?
    ensures db.notices == old(db.notices) + Closing(end)
    ensures forall why, raced :: why in {AtCancel, AtEnd} ==>
              LeftBehind(why, outcome, r, who, ds, seen.cancelRequested, raced, end, db.Sys().store)
    ensures forall q :: Committed(db.history, q) == old(Committed(db.history, q))
  {
    hide Inv, Kernel.Traced, Kernel.Valid, Deltas, Apply, Ready, Concat, Enabled, Committed, Utf16Len, LeftBehind, EndsAs, Running;
    DrivenWhileRunning(db.Sys(), r, who, ch, ds);
    ghost var before, past := db.Sys(), db.history;
    db.Sound();
    db.Reach(r);
    var last: int;
    ghost var step: Step;
    match outcome {
      case Usage =>
        var text := db.ConcatDeltaText(r);
        var done;
        done, step := db.TerminalCompleted(r, seen, text);
        if done.None? {
          Leave(db);
          RejectedLeaves(r, who, ds, seen.cancelRequested, db.Sys().store);
          return Rejected;
        }
        last := done.value;
      case AdapterCancelled =>
        last, step := db.TerminalCancelled(r, seen);
      case _ =>
        last, step := db.TerminalFailed(r, seen, ToError(outcome, r, seen));
    }
    EndedRow(before, r, who, ch, ds, step);
    StepCommitsNothing(past, step);
    db.Notify(r, EndedAt(last));
    EndedLeaves(outcome, r, who, ds, seen.cancelRequested, last, db.Sys().store);
    return Ended(last);
  }

  lemma StepCommitsNothing(past: seq<Step>, step: Step)
    requires !step.CommitDelta?
    ensures forall q :: Committed(past + [step], q) == Committed(past, q)
  {
    hide Committed;
    forall q ensures Committed(past + [step], q) == Committed(past, q) {
      CommittedAppend(past, [step], q);
      CommittedOne(step, q);
    }
  }

  lemma DrivenWhileRunning(sys: System, r: Id, who: Run, ch: Id, ds: seq<string>)
    requires Running(sys, r, who, ch, ds)
    ensures Driven(sys, r) && Deltas(sys.store, r) == ds && SameIdentity(who, sys.store.runs[r])
    ensures sys.store.runs[r].lastSeq == |ds| + |ds| / 4 - 1
  {
  }

  lemma RejectedLeaves(r: Id, who: Run, ds: seq<string>, asked: bool, after: Store)
    requires r in after.runs && SameIdentity(who, after.runs[r]) && Deltas(after, r) == ds
    requires after.runs[r].cancelRequested == asked && !IsTerminal(after.runs[r].status)
    requires Utf16Len(Concat(ds)) > MAX_CONTENT_UNITS
    ensures forall why, raced :: why in {AtCancel, AtEnd} ==>
              LeftBehind(why, Usage, r, who, ds, asked, raced, Rejected, after)
  {
    hide Deltas, Concat, Utf16Len;
  }

  lemma EndedLeaves(outcome: Outcome, r: Id, who: Run, ds: seq<string>, asked: bool, last: int, after: Store)
    requires r in after.runs && SameIdentity(who, after.runs[r]) && Deltas(after, r) == ds
    requires after.runs[r].cancelRequested == asked && last == after.runs[r].lastSeq == |ds| + |ds| / 4
    requires EndStatus(outcome, Concat(ds)) == Some(after.runs[r].status)
    requires after.runs[r].status.StatusFailed? ==> after.runs[r].error == Some(ToError(outcome, r, after.runs[r]))
    ensures forall why, raced :: why in {AtCancel, AtEnd} ==>
              LeftBehind(why, outcome, r, who, ds, asked, raced, Ended(last), after)
  {
    hide Deltas, Concat, Utf16Len;
  }

  predicate IsTerminalStep(step: Step, r: Id) {
    (step.Complete? || step.Fail? || step.CommitCancelled?) && step.run == r
  }

  /** The row a terminal commit leaves. */
  lemma EndedRow(sys: System, r: Id, who: Run, ch: Id, ds: seq<string>, step: Step)
    requires Inv(sys) && Running(sys, r, who, ch, ds) && IsTerminalStep(step, r) && Enabled(sys, step)
    ensures var t := Apply(sys, step);
      && t.active.None? && r in t.store.runs && SameIdentity(who, t.store.runs[r])
      && Deltas(t.store, r) == ds
      && t.store.runs[r].lastSeq == |ds| + |ds| / 4
      && t.store.runs[r].cancelRequested == sys.store.runs[r].cancelRequested
      && t.store.runs[r].status ==
           (if step.Complete? then StatusCompleted else if step.Fail? then StatusFailed else StatusCancelled)
      && (step.Fail? ==> t.store.runs[r].error == Some(step.error))
  {
    DrivenRow(sys, r);
    hide Inv, Kept;
    SubjectDeltas(sys, step, r);
    hide Deltas, PartialMessage;
  }

  /** What `batch` holds when it, or the delta after it, stopped the execution. */
  predicate StoppedBy(why: Why, batch: seq<Command>, r: Id, ch: Id, seen: Run) {
    match why
    case AtShutdown => true
    case AtRemoval => RemoveCharacter(ch) in batch
    case AtCancel => RemoveCharacter(ch) !in batch && (CancelRun(r) in batch || seen.cancelRequested)
    case _ => RemoveCharacter(ch) !in batch && CancelRun(r) !in batch
  }

  /** The rest of an execution whose adapter was told to stop. */
  method WindUp(db: Kernel, r: Id, seen: Run, run: Run, why: Why, outcome: Outcome, ghost batch: seq<Command>,
                ghost who: Run, ghost ch: Id, ghost ds: seq<string>)
    returns (end: ExecEnd)
    requires db.Valid() && db.active == Some(r)
    requires why != AtEnd && (r !in db.runs <==> RemoveCharacter(ch) in batch)
    requires r in db.runs ==> Running(db.Sys(), r, who, ch, ds) && db.runs[r] == ServedRow(seen, batch, r)
    requires r in db.runs && why != AtShutdown ==> run == db.runs[r]
    requires why == AtShutdown ==> run == seen
    requires seen.lease.Some? && !seen.status.Cancelling? && (why.AtOversize? ==> seen.status.Streaming?)
    requires StoppedBy(why, batch, r, ch, seen)
    modifies db
    ensures db.Valid() && unchanged(db`origin) && db.active.None? && old(db.history) <= db.history
    ensures db.notices == old(db.notices) + Closing(end)
    ensures (end.ShutDown? <==> why.AtShutdown?) && (end.Vanished? <==> why.AtRemoval?)
    ensures if RemoveCharacter(ch) in batch then r !in db.runs
            else LeftBehind(why, outcome, r, who, ds, CancelRun(r) in batch || seen.cancelRequested,
                            CancelRun(r) in batch, end, db.Sys().store)
    ensures Committed(db.history, r) == old(Committed(db.history, r))
  {
    hide Inv, Kernel.Traced, Deltas, Concat;
    match why {
      case AtShutdown =>
        LeaveForShutdown(db, r, run, who, ch, ds);
        end := ShutDown;
      case AtRemoval =>
        Leave(db);
        end := Vanished;
      case AtCancel =>
        end := Finish(db, r, run, outcome, who, ch, ds);
      case AtOversize =>
        Leave(db);
        end := Rejected;
    }
  }

  lemma EmittedMeans(bs: seq<seq<Command>>, text: string, i: nat, r: Id, ch: Id, seen: Run)
    requires seen.cancelRequested <==> i == 0 && CancelRun(r) in Batch(bs, 0)
    ensures var why := Interruption(bs, text, i, r, ch);
      (why.AtEnd? ==> !(i == 0 && CancelRun(r) in Batch(bs, 0))) &&
      Emitted(Batch(bs, i + 1), r, ch, seen, text) == (if why.AtEnd? then Continue else Stop(why)) &&
      StoppedBy(why, Batch(bs, i + 1), r, ch, seen)
  {
  }

  lemma EmitsUntil(f: Flow, bs: seq<seq<Command>>, texts: seq<string>, r: Id, ch: Id)
    requires f.deltas <= |texts|
    requires forall i :: 0 <= i < f.deltas ==> Interruption(bs, texts[i], i, r, ch) == AtEnd
    requires if f.deltas < |texts| then Interruption(bs, texts[f.deltas], f.deltas, r, ch) == f.why && f.why != AtEnd
             else f.why == AtEnd
    ensures Emits(f, bs, texts, r, ch)
  {
  }

  lemma ProgressStarts()
    ensures Progress(0) == []
  {
  }

  lemma ProgressGrows(n: nat)
    ensures Progress(n + 1) == Progress(n) + [CommittedTo(n + 1 + (n + 1) / 4 - 1)]
  {
  }

  /** The adapter's part of an execution, from the first delta on. */
  method Generate(db: Kernel, r: Id, loaded: Run, bs: seq<seq<Command>>, provider: Adapter, ghost who: Run, ghost ch: Id)
    returns (end: ExecEnd, ghost flow: Flow)
    requires db.Valid() && Running(db.Sys(), r, who, ch, [])
    requires r in db.runs && loaded == db.runs[r] && loaded.status.Streaming? && loaded.lease.Some?
    requires loaded.cancelRequested <==> CancelRun(r) in Batch(bs, 0)
    modifies db
    ensures db.Valid() && unchanged(db`origin) && db.active.None? && old(db.history) <= db.history
    ensures Emits(flow, bs, provider.texts, r, ch) && flow.deltas <= |provider.texts|
    ensures db.notices == old(db.notices) + Progress(flow.deltas) + Closing(end)
    ensures (end.ShutDown? <==> flow.why.AtShutdown?) && (end.Vanished? <==> flow.why.AtRemoval?)
    ensures var batch := Batch(bs, flow.deltas + 1);
      if flow.why in {AtShutdown, AtRemoval} && RemoveCharacter(ch) in batch then r !in db.runs
      else LeftBehind(flow.why, if flow.why.AtCancel? then provider.onStop else provider.finish, r, who,
                      provider.texts[..flow.deltas],
                      CancelRun(r) in Batch(bs, 0) || (flow.why in {AtShutdown, AtCancel} && CancelRun(r) in batch),
                      CancelRun(r) in batch, end, db.Sys().store)
    ensures Committed(db.history, r) == old(Committed(db.history, r)) + provider.texts[..flow.deltas]
  {
    hide *;
    var run := loaded;
    var texts, emitted := provider.texts, 0;
    assert texts[..0] == [];
    ProgressStarts();
    while emitted < |texts|
      invariant db.Valid() && unchanged(db`origin) && old(db.history) <= db.history
      invariant emitted <= |texts| && r in db.runs && Running(db.Sys(), r, who, ch, texts[..emitted])
      invariant run == db.runs[r] && run.status.Streaming? && run.lease.Some?
      invariant run.cancelRequested <==> emitted == 0 && CancelRun(r) in Batch(bs, 0)
      invariant emitted > 0 ==> CancelRun(r) !in Batch(bs, 0)
      invariant forall i :: 0 <= i < emitted ==> Interruption(bs, texts[i], i, r, ch) == AtEnd
      invariant db.notices == old(db.notices) + Progress(emitted)
      invariant Committed(db.history, r) == old(Committed(db.history, r)) + texts[..emitted]
    {
      var seen, batch, status := run, Batch(bs, emitted + 1), Continue;
      ProgressGrows(emitted);
      EmittedMeans(bs, texts[emitted], emitted, r, ch, seen);
      assert texts[..emitted + 1] == texts[..emitted] + [texts[emitted]];
      status, run := Emit(db, r, seen, texts[emitted], emitted, batch, who, ch, texts[..emitted]);
      if status.Stop? {
        flow := Flow(emitted, status.why);
        EmitsUntil(flow, bs, texts, r, ch);
        end := WindUp(db, r, seen, run, status.why, if status.why.AtCancel? then provider.onStop else provider.finish, batch, who, ch, texts[..emitted]);
        return;
      }
      emitted := emitted + 1;
    }
    assert texts[..emitted] == texts;
    end := Finish(db, r, run, provider.finish, who, ch, texts);
    flow := Flow(emitted, AtEnd);
    EmitsUntil(flow, bs, texts, r, ch);
  }

  /** The first drain, seen from a run that has just been queued. */
  lemma FirstDrain(sys: System, r: Id, batch: seq<Command>)
    requires Inv(sys) && JustStarted(sys, r)
    ensures sys.store.runs[r].chat in sys.store.chats
    ensures var who := sys.store.runs[r]; var ch := sys.store.chats[who.chat]; var t := ServeAll(sys, batch);
      && sys.active == Some(r) && who.lease.Some? && !who.status.Cancelling? && !who.cancelRequested
      && t.active == Some(r)
      && (r !in t.store.runs <==> RemoveCharacter(ch) in batch)
      && (r in t.store.runs ==>
            && Running(t, r, who, ch, []) && t.store.runs[r] == ServedRow(who, batch, r)
            && (t.store.runs[r].status.Queued? || t.store.runs[r].status.Cancelling?)
            && (t.store.runs[r].cancelRequested <==> CancelRun(r) in batch))
  {
    hide Inv, ServeAll, Deltas;
    RunningAtStart(sys, r);
    RunningAfterDrain(sys, batch, r, sys.store.runs[r], sys.store.chats[sys.store.runs[r].chat], []);
  }

  lemma OpeningStops(f: Flow, bs: seq<seq<Command>>, adapter: Adapter, r: Id, who: Run, ch: Id)
    requires f == Flow(0, if Shutdown in Batch(bs, 0) then AtShutdown else AtRemoval)
    requires Shutdown in Batch(bs, 0) || RemoveCharacter(ch) in Batch(bs, 0)
    ensures IsFlow(f, bs, adapter.texts, r, ch) && Opening(bs, ch) != AtEnd
    ensures StoppedBy(f.why, Batch(bs, 0), r, ch, who)
  {
  }

  lemma OpeningPasses(bs: seq<seq<Command>>, ch: Id)
    requires Shutdown !in Batch(bs, 0) && RemoveCharacter(ch) !in Batch(bs, 0)
    ensures Opening(bs, ch) == AtEnd
  {
  }

  /** `Executed`, put together from what the parts of an execution promise. */
  lemma ExecutedMeans(f: Flow, bs: seq<seq<Command>>, adapter: Adapter, r: Id, who: Run, ch: Id,
                      end: ExecEnd, after: Store, sent: seq<Notice>)
    requires f.deltas <= |adapter.texts|
    requires IsFlow(f, bs, adapter.texts, r, ch) || (Opening(bs, ch) == AtEnd && Emits(f, bs, adapter.texts, r, ch))
    requires sent == Progress(f.deltas) + Closing(end)
    requires (end.ShutDown? <==> f.why.AtShutdown?) && (end.Vanished? <==> f.why.AtRemoval?)
    requires var batch := if Opening(bs, ch) != AtEnd then Batch(bs, 0) else Batch(bs, f.deltas + 1);
      if f.why in {AtShutdown, AtRemoval} && RemoveCharacter(ch) in batch then r !in after.runs
      else LeftBehind(f.why, if f.why.AtCancel? then adapter.onStop else adapter.finish, r, who,
                      adapter.texts[..f.deltas],
                      CancelRun(r) in Batch(bs, 0) || (f.why in {AtShutdown, AtCancel} && CancelRun(r) in batch),
                      CancelRun(r) in batch, end, after)
    ensures Executed(f, bs, adapter, r, who, ch, end, after, sent)
  {
    hide LeftBehind, Emits, Progress;
  }

  /**
   * Runs the executor for run `r`: drain, queued -> preparing -> streaming, the adapter, and the
   * commit its outcome calls for. `bs` are the commands that the successive drains find queued.
   */
  method ExecuteStream(db: Kernel, r: Id, bs: seq<seq<Command>>, adapter: Option<Adapter>)
    returns (end: ExecEnd, ghost flow: Flow)
    requires db.Valid() && JustStarted(db.Sys(), r) && db.runs[r].chat in db.chats
    modifies db
    ensures db.Valid() && unchanged(db`origin) && old(db.history) <= db.history && db.active.None?
    ensures old(db.notices) <= db.notices
    ensures Executed(flow, bs, Effective(adapter), r, old(db.runs)[r], old(db.chats)[old(db.runs)[r].chat],
                     end, db.Sys().store, db.notices[|old(db.notices)|..])
    ensures Committed(db.history, r) == old(Committed(db.history, r)) + Effective(adapter).texts[..flow.deltas]
  {
    hide Inv, Apply, Kernel.Traced, Kernel.Valid, ServeAll, Running, LeftBehind, Emits, Executed, IsFlow, Opening, Removed, Asked, LastBatch;
    hide StoppedBy, Committed, Progress, Closing, Batch, ServedRow, Deltas, Effective;
    ghost var who := db.runs[r];
    ghost var ch := db.chats[who.chat];
    var batch := Batch(bs, 0);
    ghost var texts := Effective(adapter).texts;
    db.Sound();
    FirstDrain(db.Sys(), r, batch);
    ProgressStarts();
    assert texts[..0] == [];
    var run := db.runs[r];
    var stop := Drain(db, batch);
    if stop || r !in db.runs {
      var why := if stop then AtShutdown else AtRemoval;
      flow := Flow(0, why);
      OpeningStops(flow, bs, Effective(adapter), r, who, ch);
      end := WindUp(db, r, run, run, why, Effective(adapter).finish, batch, who, ch, []);
      assert db.notices[|old(db.notices)|..] == Progress(0) + Closing(end);
      ExecutedMeans(flow, bs, Effective(adapter), r, who, ch, end, db.Sys().store, Progress(0) + Closing(end));
    } else {
      OpeningPasses(bs, ch);
      run := AdvanceTo(db, r, db.runs[r], Preparing, who, ch);
      run := AdvanceTo(db, r, run, Streaming, who, ch);
      end, flow := Generate(db, r, run, bs, Effective(adapter), who, ch);
      assert db.notices[|old(db.notices)|..] == Progress(flow.deltas) + Closing(end);
      ExecutedMeans(flow, bs, Effective(adapter), r, who, ch, end, db.Sys().store, Progress(flow.deltas) + Closing(end));
    }
  }
}
