/**
 * Durable generation as a state machine over committed transactions.
 *
 * A `System` is the database plus the one fact that dies with the process: which run the inline
 * executor is driving. Every `Step` but `Halt` is one database transaction, so a crash can only
 * fall between steps, and `Halt` (the executor returned, or the process died) may come at any time.
 */
module GenerationModel {
  import opened Base
  import opened Text
  import opened GenerationLog

  const LEASE_GRACE_SECONDS := 30

  datatype Status =
    | Queued | Preparing | Streaming | StatusCompleted
    | StatusFailed | Cancelling | StatusCancelled | Interrupted

  datatype Run = Run(
    source: Option<Id>,
    chat: Id,
    attempt: int,
    status: Status,
    provider: Option<string>,
    model: Option<string>,
    snapshot: string,
    revision: int,
    cancelRequested: bool,
    lastSeq: int,
    partialLength: int,
    error: Option<ErrorDto>,
    messageId: Option<Id>,
    lease: Option<int>)

  /** Primary key of `generation_events`. */
  datatype EventKey = EventKey(run: Id, sequence: int)

  datatype Store = Store(
    chats: map<Id, Id>,  // chat -> its character
    runs: map<Id, Run>,
    events: map<EventKey, Event>,
    messages: map<Id, Message>)

  datatype System = System(store: Store, nextId: Id, active: Option<Id>)

  predicate IsTerminal(s: Status) {
    s.StatusCompleted? || s.StatusFailed? || s.StatusCancelled? || s.Interrupted?
  }

  predicate IsRecoverable(s: Status) {
    s.StatusFailed? || s.StatusCancelled? || s.Interrupted?
  }

  predicate IsCancellable(s: Status) {
    s.Queued? || s.Preparing? || s.Streaming?
  }

  // ---------------------------------------------------------------- queries

  /** Rows of `run` with a sequence in `0..n`, ascending. */
  function Select(events: map<EventKey, Event>, run: Id, n: nat): (rows: seq<Event>)
    ensures |rows| <= n
  {
    if n == 0 then []
    else
      Select(events, run, n - 1) +
      if EventKey(run, n - 1) in events then [events[EventKey(run, n - 1)]] else []
  }

  /** The event log of a run. `RunInv` shows that no row of the run lies outside these bounds. */
  function Log(s: Store, run: Id): seq<Event>
    requires run in s.runs
  {
    Select(s.events, run, if s.runs[run].lastSeq < 0 then 0 else s.runs[run].lastSeq + 1)
  }

  function Deltas(s: Store, run: Id): seq<string>
    requires run in s.runs
  {
    DeltaTexts(Log(s, run))
  }

  /** Message sequences in use in one chat. */
  function ChatSequences(messages: map<Id, Message>, chat: Id): set<int> {
    set m | m in messages && messages[m].chat == chat :: messages[m].sequence
  }

  ghost function Pick<T>(xs: set<T>): (x: T)
    requires xs != {}
    ensures x in xs
  {
    var x :| x in xs; x
  }

  ghost function Max(xs: set<int>): (m: int)
    requires xs != {}
    ensures m in xs && forall x :: x in xs ==> x <= m
  {
    var x := Pick(xs);
    var rest := xs - {x};
    assert xs == rest + {x};
    if rest == {} then x
    else
      var m := Max(rest);
      if m < x then x else m
  }

  /** `COALESCE(MAX(sequence), -1) + 1` over one chat. */
  ghost function NextSequence(messages: map<Id, Message>, chat: Id): int {
    var used := ChatSequences(messages, chat);
    if used == {} then 0 else Max(used) + 1
  }

  // ---------------------------------------------------------------- steps

  datatype Step =
    | Start(chat: Id, provider: Option<string>, model: Option<string>, snapshot: string, lease: int)
    | Retry(source: Id, lease: int)
    | RequestCancel(run: Id)
    | KeepPartial(run: Id)
    | DiscardLog(run: Id)
    | Advance(run: Id, to: Status, lease: int)
    | CommitDelta(run: Id, text: string, lease: int)
    | Complete(run: Id, lease: int)
    | Fail(run: Id, error: ErrorDto, lease: int)
    | CommitCancelled(run: Id, lease: int)
    | ClearLease(run: Id)
    | Recover(now: int)
    | DeleteCharacter(character: Id)
    | Halt

  /** The run is being driven by the executor and has not ended. */
  predicate Driven(sys: System, run: Id) {
    sys.active == Some(run) && run in sys.store.runs && !IsTerminal(sys.store.runs[run].status)
  }

  predicate Enabled(sys: System, step: Step) {
    var runs := sys.store.runs;
    match step
    case Start(chat, _, _, _, _) => sys.active.None? && chat in sys.store.chats
    case Retry(source, _) => sys.active.None? && source in runs && IsRecoverable(runs[source].status)
    case RequestCancel(run) => run in runs && IsCancellable(runs[run].status)
    case KeepPartial(run) =>
      run in runs && IsRecoverable(runs[run].status) && runs[run].messageId.None? && runs[run].partialLength != 0
    case DiscardLog(run) => run in runs && IsRecoverable(runs[run].status)
    case Advance(run, to, _) =>
      Driven(sys, run) &&
      if to.Preparing? then runs[run].status.Queued? || runs[run].status.Cancelling?
      else to.Streaming? && runs[run].status.Preparing?
    case CommitDelta(run, _, _) => Driven(sys, run) && runs[run].status.Streaming? && !runs[run].cancelRequested
    case Complete(run, _) => Driven(sys, run)
    case Fail(run, _, _) => Driven(sys, run)
    case CommitCancelled(run, _) => Driven(sys, run)
    case ClearLease(run) => Driven(sys, run)
    case Recover(_) => sys.active.None?
    case DeleteCharacter(_) => true
    case Halt => true
  }

  function Bumped(run: Run): Run {
    run.(revision := run.revision + 1)
  }

  /** A freshly queued run row. */
  function NewRun(source: Option<Id>, chat: Id, attempt: int, provider: Option<string>, model: Option<string>,
                  snapshot: string, lease: int): Run {
    Run(source, chat, attempt, Queued, provider, model, snapshot, 0, false, -1, 0, None, None, Some(lease))
  }

  /** Ends a driven run: terminal status, one terminal event right after the log, fresh lease. */
  function EndRun(s: Store, run: Id, ended: Run, event: Event, lease: int): Store
    requires run in s.runs
  {
    var seq' := s.runs[run].lastSeq + 1;
    s.(runs := s.runs[run := Bumped(ended).(lastSeq := seq', lease := Some(lease))],
       events := s.events[EventKey(run, seq') := event])
  }

  predicate Stale(run: Run, now: int) {
    !IsTerminal(run.status) && (run.lease.None? || run.lease.value < now)
  }

  function RecoverStale(runs: map<Id, Run>, now: int): map<Id, Run> {
    map r | r in runs ::
      if Stale(runs[r], now) then Bumped(runs[r]).(status := Interrupted, lease := None) else runs[r]
  }

  function PutDelta(s: Store, run: Id, text: string, lease: int): Store
    requires run in s.runs
  {
    var r := s.runs[run];
    var ds := Deltas(s, run);
    var rows := DeltaRows(ds, text);
    var events := s.events[EventKey(run, r.lastSeq + 1) := rows[0]];
    s.(runs := s.runs[run := Bumped(r).(lastSeq := r.lastSeq + |rows|,
                                        partialLength := r.partialLength + ByteLen(text),
                                        lease := Some(lease))],
       events := if |rows| == 2 then events[EventKey(run, r.lastSeq + 2) := rows[1]] else events)
  }

  function DropEvents(events: map<EventKey, Event>, gone: set<Id>): map<EventKey, Event> {
    map k | k in events && k.run !in gone :: events[k]
  }

  /** `ON DELETE CASCADE`: the character's chats, their runs and messages, and those runs' events. */
  function Cascade(s: Store, character: Id): Store {
    var chats := map c | c in s.chats && s.chats[c] != character :: s.chats[c];
    var gone := set r | r in s.runs && s.runs[r].chat !in chats;
    Store(chats,
          map r | r in s.runs && r !in gone :: s.runs[r],
          DropEvents(s.events, gone),
          map m | m in s.messages && s.messages[m].chat in chats :: s.messages[m])
  }

  /** An assistant message made of everything the run has committed so far. */
  ghost function PartialMessage(s: Store, run: Id): Message
    requires run in s.runs
  {
    var chat := s.runs[run].chat;
    Message(chat, Concat(Deltas(s, run)), NextSequence(s.messages, chat), Some(run))
  }

  /** Completion: message, status and terminal event together. */
  ghost function CompleteStore(s: Store, run: Id, id: Id, lease: int): Store
    requires run in s.runs
  {
    var message := PartialMessage(s, run);
    var ended := s.runs[run].(status := StatusCompleted, messageId := Some(id));
    EndRun(s, run, ended, Completed(id, message), lease).(messages := s.messages[id := message])
  }

  ghost function Apply(sys: System, step: Step): System
    requires Enabled(sys, step)
  {
    var s := sys.store;
    match step
    case Start(chat, provider, model, snapshot, lease) =>
      var run := NewRun(None, chat, 1, provider, model, snapshot, lease);
      System(s.(runs := s.runs[sys.nextId := run]), sys.nextId + 1, Some(sys.nextId))
    case Retry(source, lease) =>
      var from := s.runs[source];
      var run := NewRun(Some(source), from.chat, from.attempt + 1, from.provider, from.model, from.snapshot, lease);
      System(s.(runs := s.runs[sys.nextId := run]), sys.nextId + 1, Some(sys.nextId))
    case RequestCancel(run) =>
      sys.(store := s.(runs := s.runs[run := Bumped(s.runs[run]).(status := Cancelling, cancelRequested := true)]))
    case KeepPartial(run) =>
      sys.(store := s.(runs := s.runs[run := Bumped(s.runs[run]).(messageId := Some(sys.nextId))],
                       messages := s.messages[sys.nextId := PartialMessage(s, run)]),
           nextId := sys.nextId + 1)
    case DiscardLog(run) =>
      sys.(store := s.(runs := s.runs[run := Bumped(s.runs[run]).(partialLength := 0)],
                       events := DropEvents(s.events, {run})))
    case Advance(run, to, lease) =>
      sys.(store := s.(runs := s.runs[run := Bumped(s.runs[run]).(status := to, lease := Some(lease))]))
    case CommitDelta(run, text, lease) =>
      sys.(store := PutDelta(s, run, text, lease))
    case Complete(run, lease) =>
      sys.(store := CompleteStore(s, run, sys.nextId, lease), nextId := sys.nextId + 1, active := None)
    case Fail(run, error, lease) =>
      sys.(store := EndRun(s, run, s.runs[run].(status := StatusFailed, error := Some(error)), Failed(error), lease),
           active := None)
    case CommitCancelled(run, lease) =>
      sys.(store := EndRun(s, run, s.runs[run].(status := StatusCancelled), Cancelled, lease), active := None)
    case ClearLease(run) =>
      sys.(store := s.(runs := s.runs[run := Bumped(s.runs[run]).(lease := None)]))
    case Recover(now) =>
      sys.(store := s.(runs := RecoverStale(s.runs, now)))
    case DeleteCharacter(character) =>
      sys.(store := Cascade(s, character))
    case Halt =>
      sys.(active := None)
  }

  // ---------------------------------------------------------------- the invariant

  /** The terminal event a run's status calls for. */
  function Tail(s: Store, run: Id): seq<Event>
    requires run in s.runs
  {
    var r := s.runs[run];
    match r.status
    case StatusCompleted =>
      if r.messageId.Some? && r.messageId.value in s.messages
      then [Completed(r.messageId.value, s.messages[r.messageId.value])] else []
    case StatusFailed => if r.error.Some? then [Failed(r.error.value)] else []
    case StatusCancelled => [Cancelled]
    case _ => []
  }

  /** Nothing of the run's log is left. */
  ghost predicate Discarded(s: Store, run: Id)
    requires run in s.runs
  {
    IsRecoverable(s.runs[run].status) && s.runs[run].partialLength == 0 &&
    forall k :: k in s.events ==> k.run != run
  }

  /** The log is gapless from 0, is what its deltas render to, and ends as the status says. */
  ghost predicate Kept(s: Store, run: Id)
    requires run in s.runs
  {
    var r := s.runs[run];
    var ds := Deltas(s, run);
    && r.lastSeq >= -1
    && |Log(s, run)| == r.lastSeq + 1
    && Log(s, run) == Render(ds) + Tail(s, run)
    && r.partialLength == TotalBytes(ds)
    && (forall k :: k in s.events && k.run == run ==> 0 <= k.sequence <= r.lastSeq)
  }

  /** A run's only message, and what it says. */
  ghost predicate MessageInv(s: Store, run: Id)
    requires run in s.runs
  {
    var r := s.runs[run];
    && (forall m :: m in s.messages && s.messages[m].run == Some(run) ==> r.messageId == Some(m))
    && (r.messageId.Some? ==>
          && r.messageId.value in s.messages
          && s.messages[r.messageId.value].run == Some(run)
          && s.messages[r.messageId.value].chat == r.chat
          && (Discarded(s, run) || s.messages[r.messageId.value].content == Concat(Deltas(s, run))))
  }

  /** A retry continues its source: next attempt, same chat, same request. */
  predicate SourceInv(s: Store, run: Id)
    requires run in s.runs
  {
    var r := s.runs[run];
    match r.source
    case None => r.attempt == 1
    case Some(p) =>
      && p in s.runs
      && r.attempt == s.runs[p].attempt + 1
      && r.attempt >= 2
      && r.chat == s.runs[p].chat
      && r.provider == s.runs[p].provider
      && r.model == s.runs[p].model
      && r.snapshot == s.runs[p].snapshot
  }

  /** How the status, the error, the message link and the cancel flag go together. */
  predicate StatusInv(r: Run) {
    && (r.status.StatusFailed? <==> r.error.Some?)
    && (r.status.StatusCompleted? ==> r.messageId.Some?)
    && (!IsTerminal(r.status) ==> r.messageId.None?)
    && (r.status.Cancelling? ==> r.cancelRequested)
  }

  ghost predicate RunInv(s: Store, run: Id)
    requires run in s.runs
  {
    && s.runs[run].chat in s.chats
    && StatusInv(s.runs[run])
    && SourceInv(s, run)
    && (Kept(s, run) || Discarded(s, run))
    && MessageInv(s, run)
  }

  /** Foreign keys, fresh ids, and a live executor only on a run that has not ended. */
  ghost predicate RefInv(sys: System) {
    var s := sys.store;
    && (forall r :: r in s.runs ==> r < sys.nextId)
    && (forall m :: m in s.messages ==> m < sys.nextId)
    && (forall m :: m in s.messages ==> s.messages[m].chat in s.chats)
    && (forall m :: m in s.messages && s.messages[m].run.Some? ==> s.messages[m].run.value in s.runs)
    && (forall k :: k in s.events ==> k.run in s.runs)
    && (sys.active.Some? ==> sys.active.value < sys.nextId)
    && (sys.active.Some? && sys.active.value in s.runs ==> !IsTerminal(s.runs[sys.active.value].status))
  }

  ghost predicate Inv(sys: System) {
    RefInv(sys) && forall r :: r in sys.store.runs ==> RunInv(sys.store, r)
  }
}
