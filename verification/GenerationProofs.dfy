/** Every step of the generation workflow keeps the invariant. */
module GenerationProofs {
  import opened Base
  import opened Text
  import opened GenerationLog
  import opened GenerationModel

  /** Two event tables hold the same rows of `run`. */
  ghost predicate SameEvents(a: map<EventKey, Event>, b: map<EventKey, Event>, run: Id) {
    forall k: EventKey :: k.run == run ==> (k in a <==> k in b) && (k in a ==> a[k] == b[k])
  }

  lemma {:induction false} SelectFrame(a: map<EventKey, Event>, b: map<EventKey, Event>, run: Id, n: nat)
    requires forall i :: 0 <= i < n ==> (EventKey(run, i) in a <==> EventKey(run, i) in b)
    requires forall i :: 0 <= i < n && EventKey(run, i) in a ==> a[EventKey(run, i)] == b[EventKey(run, i)]
    ensures Select(a, run, n) == Select(b, run, n)
  {
    if n > 0 {
      SelectFrame(a, b, run, n - 1);
    }
  }

  /** A selection as long as its bound misses no row. */
  lemma {:induction false} SelectFull(e: map<EventKey, Event>, run: Id, n: nat)
    requires |Select(e, run, n)| == n
    ensures forall i :: 0 <= i < n ==> EventKey(run, i) in e && Select(e, run, n)[i] == e[EventKey(run, i)]
  {
    if n > 0 {
      SelectFull(e, run, n - 1);
    }
  }

  predicate SameIdentity(a: Run, b: Run) {
    && a.source == b.source && a.chat == b.chat && a.attempt == b.attempt
    && a.provider == b.provider && a.model == b.model && a.snapshot == b.snapshot
  }

  /** Nothing `RunInv` says about `run`, other than its status, has changed. */
  ghost predicate Carried(s: Store, s': Store, run: Id) {
    && run in s.runs && run in s'.runs
    && SameIdentity(s.runs[run], s'.runs[run])
    && s'.runs[run].chat in s'.chats
    && (s.runs[run].source.Some? ==>
          var p := s.runs[run].source.value;
          p in s.runs ==> p in s'.runs && SameIdentity(s.runs[p], s'.runs[p]))
    && SameEvents(s.events, s'.events, run)
    && s.runs[run].lastSeq == s'.runs[run].lastSeq
    && s.runs[run].partialLength == s'.runs[run].partialLength
    && s.runs[run].messageId == s'.runs[run].messageId
    && (forall m :: m in s'.messages && s'.messages[m].run == Some(run) ==> m in s.messages && s.messages[m] == s'.messages[m])
    && (forall m :: m in s.messages && s.messages[m].run == Some(run) ==> m in s'.messages && s.messages[m] == s'.messages[m])
  }

  lemma CarriedLog(s: Store, s': Store, run: Id)
    requires Carried(s, s', run)
    ensures Log(s, run) == Log(s', run) && Deltas(s, run) == Deltas(s', run)
  {
    SelectFrame(s.events, s'.events, run, if s.runs[run].lastSeq < 0 then 0 else s.runs[run].lastSeq + 1);
  }

  lemma CarriedRun(s: Store, s': Store, run: Id)
    requires Carried(s, s', run) && RunInv(s, run)
    requires StatusInv(s'.runs[run])
    requires (s'.runs[run].status == s.runs[run].status && s'.runs[run].error == s.runs[run].error)
          || (!IsTerminal(s.runs[run].status) && (!IsTerminal(s'.runs[run].status) || s'.runs[run].status.Interrupted?))
    ensures RunInv(s', run)
  {
    CarriedLog(s, s', run);
    assert Tail(s, run) == Tail(s', run);
    if Kept(s, run) {
      assert Kept(s', run);
    } else {
      assert Discarded(s', run);
    }
    assert Discarded(s, run) ==> Discarded(s', run);
  }

  // ---------------------------------------------------------------- the run a step is about

  /** A new run starts with an empty log. */
  lemma NewRunInv(s: Store, id: Id, row: Run)
    requires id !in s.runs && row.chat in s.chats && row.status.Queued? && row.error.None? && row.messageId.None?
    requires row.lastSeq == -1 && row.partialLength == 0
    requires forall m :: m in s.messages ==> s.messages[m].run != Some(id)
    requires forall k :: k in s.events ==> k.run != id
    requires SourceInv(s.(runs := s.runs[id := row]), id)
    ensures RunInv(s.(runs := s.runs[id := row]), id)
  {
    var s' := s.(runs := s.runs[id := row]);
    assert Log(s', id) == [];
    assert Kept(s', id);
  }

  /** Appending rows to the log of a run leaves the earlier rows where they were. */
  lemma AppendedLog(s: Store, s': Store, run: Id, rows: seq<Event>)
    requires run in s.runs && run in s'.runs && s.runs[run].lastSeq >= -1
    requires s'.runs[run].lastSeq == s.runs[run].lastSeq + |rows| && 1 <= |rows| <= 2
    requires s'.events == (var e := s.events[EventKey(run, s.runs[run].lastSeq + 1) := rows[0]];
                           if |rows| == 2 then e[EventKey(run, s.runs[run].lastSeq + 2) := rows[1]] else e)
    ensures Log(s', run) == Log(s, run) + rows
  {
    var n := s.runs[run].lastSeq + 1;
    SelectFrame(s.events, s'.events, run, n);
    assert Select(s'.events, run, n + 1) == Select(s'.events, run, n) + [rows[0]];
    if |rows| == 2 {
      assert Select(s'.events, run, n + 2) == Select(s'.events, run, n + 1) + [rows[1]];
      assert rows == [rows[0]] + [rows[1]];
    } else {
      assert rows == [rows[0]];
    }
  }

  /** What a committed delta does to the log and to the deltas read back. */
  lemma PutDeltaLog(s: Store, run: Id, text: string, lease: int)
    requires run in s.runs && Kept(s, run) && !IsTerminal(s.runs[run].status)
    ensures var s' := PutDelta(s, run, text, lease);
      && Deltas(s', run) == Deltas(s, run) + [text]
      && Log(s', run) == Render(Deltas(s, run) + [text])
  {
    var s' := PutDelta(s, run, text, lease);
    var ds := Deltas(s, run);
    var rows := DeltaRows(ds, text);
    assert Log(s, run) == Render(ds) by {
      assert Tail(s, run) == [];
      assert Render(ds) + [] == Render(ds);
    }
    assert Log(s', run) == Log(s, run) + rows by {
      hide Log, Render, DeltaRows;
      PutDeltaRows(s, run, text, lease);
    }
    hide *;
    DeltaTextsAppend(Log(s, run), rows);
    DeltaRowsRender(ds, text);
    DeltasOf(s, run);
    DeltasOf(s', run);
  }

  lemma DeltasOf(s: Store, run: Id)
    requires run in s.runs
    ensures Deltas(s, run) == DeltaTexts(Log(s, run))
  {
    hide Log, DeltaTexts;
  }

  lemma PutDeltaRows(s: Store, run: Id, text: string, lease: int)
    requires run in s.runs && s.runs[run].lastSeq >= -1
    ensures var s' := PutDelta(s, run, text, lease);
      run in s'.runs && Log(s', run) == Log(s, run) + DeltaRows(Deltas(s, run), text)
  {
    hide Log, Deltas, DeltaTexts, TotalBytes, ByteLen;
    AppendedLog(s, PutDelta(s, run, text, lease), run, DeltaRows(Deltas(s, run), text));
  }

  lemma PutDeltaKept(s: Store, run: Id, text: string, lease: int)
    requires run in s.runs && Kept(s, run) && !IsTerminal(s.runs[run].status)
    ensures Kept(PutDelta(s, run, text, lease), run)
  {
    hide Render, Log, DeltaTexts, ByteLen;
    var s' := PutDelta(s, run, text, lease);
    var ds := Deltas(s, run);
    PutDeltaLog(s, run, text, lease);
    DeltaRowsRender(ds, text);
    assert Tail(s, run) == Tail(s', run) == [];
    assert TotalBytes(ds + [text]) == TotalBytes(ds) + ByteLen(text) by { assert (ds + [text])[..|ds|] == ds; }
    assert Log(s', run) == Render(ds + [text]) + Tail(s', run);
  }

  /** Ending a run adds its terminal event and no delta. */
  lemma EndRunLog(s: Store, run: Id, ended: Run, event: Event, lease: int)
    requires run in s.runs && Kept(s, run) && !IsTerminal(s.runs[run].status) && !event.Delta?
    ensures var s' := EndRun(s, run, ended, event, lease);
      && Log(s', run) == Log(s, run) + [event] == Render(Deltas(s, run)) + [event]
      && Deltas(s', run) == Deltas(s, run)
  {
    var s' := EndRun(s, run, ended, event, lease);
    assert Tail(s, run) == [];
    AppendedLog(s, s', run, [event]);
    DeltaTextsAppend(Log(s, run), [event]);
    assert DeltaTexts([event]) == [];
  }

  lemma EndRunKept(s: Store, run: Id, ended: Run, event: Event, lease: int, messages: map<Id, Message>)
    requires run in s.runs && Kept(s, run) && !IsTerminal(s.runs[run].status) && !event.Delta?
    requires ended.partialLength == s.runs[run].partialLength
    requires Tail(EndRun(s, run, ended, event, lease).(messages := messages), run) == [event]
    ensures Kept(EndRun(s, run, ended, event, lease).(messages := messages), run)
  {
    EndRunLog(s, run, ended, event, lease);
    var s1 := EndRun(s, run, ended, event, lease);
    var s' := s1.(messages := messages);
    assert Log(s', run) == Log(s1, run);
  }

  /** A run ends cancelled, or failed with the error of its event. */
  predicate IsBadEnd(row: Run, ended: Run, event: Event) {
    || (ended == row.(status := StatusCancelled) && event == Cancelled)
    || (event.Failed? && ended == row.(status := StatusFailed, error := Some(event.error)))
  }

  lemma EndRunInv(s: Store, run: Id, ended: Run, event: Event, lease: int)
    requires run in s.runs && RunInv(s, run) && !IsTerminal(s.runs[run].status)
    requires IsBadEnd(s.runs[run], ended, event)
    ensures RunInv(EndRun(s, run, ended, event, lease), run)
  {
    var s' := EndRun(s, run, ended, event, lease);
    EndRunRest(s, run, ended, event, lease);
    EndRunKept(s, run, ended, event, lease, s.messages);
    EndRunMessage(s, run, ended, event, lease);
    hide *;
    RunInvParts(s', run);
  }

  /** What ending a run leaves of the row and its references. */
  lemma EndRunRest(s: Store, run: Id, ended: Run, event: Event, lease: int)
    requires run in s.runs && RunInv(s, run) && !IsTerminal(s.runs[run].status)
    requires IsBadEnd(s.runs[run], ended, event)
    ensures Kept(s, run) && !event.Delta? && ended.partialLength == s.runs[run].partialLength
    ensures var s' := EndRun(s, run, ended, event, lease);
      && run in s'.runs && s'.runs[run].chat in s'.chats && StatusInv(s'.runs[run]) && SourceInv(s', run)
      && Tail(s', run) == [event] && s' == s'.(messages := s.messages)
  {
    hide Log, Deltas, MessageInv, Render, TotalBytes;
    assert SourceInv(s, run);
  }

  lemma EndRunMessage(s: Store, run: Id, ended: Run, event: Event, lease: int)
    requires run in s.runs && RunInv(s, run) && !IsTerminal(s.runs[run].status)
    requires IsBadEnd(s.runs[run], ended, event)
    ensures MessageInv(EndRun(s, run, ended, event, lease), run)
  {
    hide Log, Deltas, Kept, Discarded, SourceInv;
    assert MessageInv(s, run);
  }

  lemma RunInvParts(s: Store, run: Id)
    requires run in s.runs && s.runs[run].chat in s.chats && StatusInv(s.runs[run]) && SourceInv(s, run)
    requires (Kept(s, run) || Discarded(s, run)) && MessageInv(s, run)
    ensures RunInv(s, run)
  {
    hide StatusInv, SourceInv, Kept, Discarded, MessageInv;
  }

  lemma CompleteKept(s: Store, run: Id, id: Id, lease: int)
    requires run in s.runs && Kept(s, run) && !IsTerminal(s.runs[run].status)
    ensures Kept(CompleteStore(s, run, id, lease), run)
    ensures Deltas(CompleteStore(s, run, id, lease), run) == Deltas(s, run)
  {
    var message := PartialMessage(s, run);
    var ended := s.runs[run].(status := StatusCompleted, messageId := Some(id));
    var s1 := EndRun(s, run, ended, Completed(id, message), lease);
    var s' := CompleteStore(s, run, id, lease);
    assert Tail(s', run) == [Completed(id, message)];
    EndRunKept(s, run, ended, Completed(id, message), lease, s'.messages);
    EndRunLog(s, run, ended, Completed(id, message), lease);
    assert Log(s', run) == Log(s1, run);
  }

  lemma CompleteInv(s: Store, run: Id, id: Id, lease: int)
    requires run in s.runs && RunInv(s, run) && !IsTerminal(s.runs[run].status) && id !in s.messages
    ensures RunInv(CompleteStore(s, run, id, lease), run)
  {
    var s' := CompleteStore(s, run, id, lease);
    assert Kept(s', run) && MessageInv(s', run) by {
      assert MessageInv(s, run);
      CompleteKept(s, run, id, lease);
      CompleteMessage(s, run, id, lease);
    }
    assert SourceInv(s', run) by { assert SourceInv(s, run); }
  }

  lemma CompleteMessage(s: Store, run: Id, id: Id, lease: int)
    requires run in s.runs && s.runs[run].messageId.None? && id !in s.messages
    requires forall m :: m in s.messages ==> s.messages[m].run != Some(run)
    requires Deltas(CompleteStore(s, run, id, lease), run) == Deltas(s, run)
    ensures MessageInv(CompleteStore(s, run, id, lease), run)
  {
  }

  lemma KeepInv(s: Store, run: Id, id: Id)
    requires run in s.runs && RunInv(s, run) && IsRecoverable(s.runs[run].status)
    requires s.runs[run].messageId.None? && id !in s.messages
    ensures var row := Bumped(s.runs[run]).(messageId := Some(id));
      RunInv(s.(runs := s.runs[run := row], messages := s.messages[id := PartialMessage(s, run)]), run)
  {
    var row := Bumped(s.runs[run]).(messageId := Some(id));
    var s' := s.(runs := s.runs[run := row], messages := s.messages[id := PartialMessage(s, run)]);
    assert Log(s', run) == Log(s, run);
    assert Tail(s', run) == Tail(s, run);
    assert Kept(s, run) ==> Kept(s', run);
    assert Discarded(s, run) ==> Discarded(s', run);
    assert SourceInv(s', run) && StatusInv(row) by { assert SourceInv(s, run); }
    assert MessageInv(s', run) by {
      hide Log, Kept, SourceInv;
      assert MessageInv(s, run);
    }
    hide *;
    RunInvParts(s', run);
  }

  lemma DiscardInv(s: Store, run: Id)
    requires run in s.runs && RunInv(s, run) && IsRecoverable(s.runs[run].status)
    ensures RunInv(s.(runs := s.runs[run := Bumped(s.runs[run]).(partialLength := 0)],
                      events := DropEvents(s.events, {run})), run)
  {
    var s' := s.(runs := s.runs[run := Bumped(s.runs[run]).(partialLength := 0)], events := DropEvents(s.events, {run}));
    assert Discarded(s', run);
  }

  // ---------------------------------------------------------------- every run, every step

  predicate IsNewRun(sys: System, step: Step, r: Id) {
    (step.Start? || step.Retry?) && r == sys.nextId
  }

  /** The one run whose log or messages a step rewrites. */
  function Subject(step: Step): Option<Id> {
    match step
    case KeepPartial(run) => Some(run)
    case DiscardLog(run) => Some(run)
    case CommitDelta(run, _, _) => Some(run)
    case Complete(run, _) => Some(run)
    case Fail(run, _, _) => Some(run)
    case CommitCancelled(run, _) => Some(run)
    case _ => None
  }

  /** Only `run`'s row, log and messages differ. */
  ghost predicate TouchesOnly(s: Store, s': Store, run: Id) {
    && s'.chats == s.chats
    && run in s.runs && s'.runs.Keys == s.runs.Keys && SameIdentity(s.runs[run], s'.runs[run])
    && (forall q :: q in s.runs && q != run ==> s'.runs[q] == s.runs[q])
    && (forall k: EventKey :: k.run != run ==> (k in s.events <==> k in s'.events) && (k in s.events ==> s.events[k] == s'.events[k]))
    && (forall m :: m in s.messages ==> m in s'.messages && s'.messages[m] == s.messages[m])
    && (forall m :: m in s'.messages && m !in s.messages ==>
          s'.messages[m].run == Some(run) && s'.messages[m].chat == s.runs[run].chat)
  }

  lemma DeltaFrame(s: Store, run: Id, text: string, lease: int)
    requires run in s.runs
    ensures TouchesOnly(s, PutDelta(s, run, text, lease), run)
  {
  }

  lemma EndRunFrame(s: Store, run: Id, ended: Run, event: Event, lease: int)
    requires run in s.runs && SameIdentity(s.runs[run], ended)
    ensures TouchesOnly(s, EndRun(s, run, ended, event, lease), run)
  {
  }

  lemma NewMessageFrame(s: Store, t: Store, run: Id, id: Id, message: Message)
    requires TouchesOnly(s, t, run) && t.messages == s.messages && id !in s.messages
    requires message.run == Some(run) && message.chat == s.runs[run].chat
    ensures TouchesOnly(s, t.(messages := s.messages[id := message]), run)
  {
  }

  lemma SubjectFrame(sys: System, step: Step)
    requires Enabled(sys, step) && Subject(step).Some?
    requires forall m :: m in sys.store.messages ==> m < sys.nextId
    ensures TouchesOnly(sys.store, Apply(sys, step).store, Subject(step).value)
  {
    var s, s' := sys.store, Apply(sys, step).store;
    match step
    case KeepPartial(run) =>
      var t := s.(runs := s.runs[run := Bumped(s.runs[run]).(messageId := Some(sys.nextId))]);
      NewMessageFrame(s, t, run, sys.nextId, PartialMessage(s, run));
    case DiscardLog(run) =>
    case CommitDelta(run, text, lease) => DeltaFrame(s, run, text, lease);
    case Complete(run, lease) =>
      var message := PartialMessage(s, run);
      var ended := s.runs[run].(status := StatusCompleted, messageId := Some(sys.nextId));
      EndRunFrame(s, run, ended, Completed(sys.nextId, message), lease);
      NewMessageFrame(s, EndRun(s, run, ended, Completed(sys.nextId, message), lease), run, sys.nextId, message);
    case Fail(run, error, lease) =>
      EndRunFrame(s, run, s.runs[run].(status := StatusFailed, error := Some(error)), Failed(error), lease);
    case CommitCancelled(run, lease) =>
      EndRunFrame(s, run, s.runs[run].(status := StatusCancelled), Cancelled, lease);
  }

  lemma TouchesCarried(s: Store, s': Store, run: Id, r: Id)
    requires TouchesOnly(s, s', run) && r in s.runs && r != run && s.runs[r].chat in s.chats
    ensures Carried(s, s', r)
  {
  }

  /** The row may change its status, revision, cancel flag and lease. */
  predicate SameRecord(a: Run, b: Run) {
    SameIdentity(a, b) && a.lastSeq == b.lastSeq && a.partialLength == b.partialLength && a.messageId == b.messageId
  }

  /** Nothing but statuses, revisions, cancel flags, leases and new rows differs. */
  ghost predicate Quiet(s: Store, s': Store) {
    && s'.chats == s.chats && s'.events == s.events && s'.messages == s.messages
    && forall q :: q in s.runs ==> q in s'.runs && SameRecord(s.runs[q], s'.runs[q])
  }

  /** A step without a subject, short of a deletion, is quiet. */
  lemma QuietStep(sys: System, step: Step)
    requires Enabled(sys, step) && Subject(step).None? && !step.DeleteCharacter?
    requires forall r :: r in sys.store.runs ==> r < sys.nextId
    ensures Quiet(sys.store, Apply(sys, step).store)
  {
  }

  lemma QuietCarries(s: Store, s': Store, r: Id)
    requires Quiet(s, s') && r in s.runs && s.runs[r].chat in s.chats
    ensures Carried(s, s', r)
  {
  }

  /** A run that is not the subject of a step is carried over. */
  lemma OtherRunCarried(sys: System, step: Step, r: Id)
    requires RefInv(sys) && Enabled(sys, step) && !step.DeleteCharacter?
    requires r in sys.store.runs && sys.store.runs[r].chat in sys.store.chats && Subject(step) != Some(r)
    ensures Carried(sys.store, Apply(sys, step).store, r)
  {
    hide Apply, Enabled, TouchesOnly, Carried, Quiet;
    if Subject(step).Some? {
      SubjectFrame(sys, step);
      TouchesCarried(sys.store, Apply(sys, step).store, Subject(step).value, r);
    } else {
      QuietStep(sys, step);
      QuietCarries(sys.store, Apply(sys, step).store, r);
    }
  }

  lemma CascadeCarries(s: Store, character: Id, r: Id)
    requires r in s.runs && RunInv(s, r) && r in Cascade(s, character).runs
    ensures Carried(s, Cascade(s, character), r)
  {
    var s' := Cascade(s, character);
    assert SameEvents(s.events, s'.events, r);
    forall m | m in s.messages && s.messages[m].run == Some(r) ensures m in s'.messages && s.messages[m] == s'.messages[m] {
      assert s.messages[m].chat == s.runs[r].chat;
    }
  }

  /** The same for every step, a deletion elsewhere included. */
  lemma OtherCarried(sys: System, step: Step, r: Id)
    requires RefInv(sys) && Enabled(sys, step) && Subject(step) != Some(r)
    requires r in sys.store.runs && r in Apply(sys, step).store.runs && RunInv(sys.store, r)
    ensures Carried(sys.store, Apply(sys, step).store, r)
  {
    if step.DeleteCharacter? {
      CascadeCarries(sys.store, step.character, r);
    } else {
      hide Apply, Enabled;
      OtherRunCarried(sys, step, r);
    }
  }

  /** What a step may do to the status of a run it is not about. */
  lemma OtherStatus(sys: System, step: Step, r: Id)
    requires RefInv(sys) && Enabled(sys, step) && Subject(step) != Some(r)
    requires r in sys.store.runs && r in Apply(sys, step).store.runs && StatusInv(sys.store.runs[r])
    ensures var x, y := sys.store.runs[r], Apply(sys, step).store.runs[r];
      && StatusInv(y)
      && ((y.status == x.status && y.error == x.error)
          || (!IsTerminal(x.status) && (!IsTerminal(y.status) || y.status.Interrupted?)))
  {
    if Subject(step).Some? {
      hide Apply, Enabled;
      SubjectFrame(sys, step);
    } else if step.DeleteCharacter? {
      hide PartialMessage, PutDelta, EndRun, CompleteStore;
    } else {
      QuietStatus(sys, step, r);
    }
  }

  /** What a quiet step does to a status. */
  lemma QuietStatus(sys: System, step: Step, r: Id)
    requires Enabled(sys, step) && Subject(step).None? && !step.DeleteCharacter?
    requires r in sys.store.runs && r < sys.nextId && r in Apply(sys, step).store.runs && StatusInv(sys.store.runs[r])
    ensures var x, y := sys.store.runs[r], Apply(sys, step).store.runs[r];
      && StatusInv(y)
      && ((y.status == x.status && y.error == x.error)
          || (!IsTerminal(x.status) && (!IsTerminal(y.status) || y.status.Interrupted?)))
  {
    hide PartialMessage, PutDelta, EndRun, CompleteStore, DropEvents, Cascade;
  }

  lemma OtherRunInv(sys: System, step: Step, r: Id)
    requires RefInv(sys) && Enabled(sys, step) && r in sys.store.runs && RunInv(sys.store, r)
    requires r in Apply(sys, step).store.runs && Subject(step) != Some(r)
    ensures RunInv(Apply(sys, step).store, r)
  {
    OtherCarried(sys, step, r);
    OtherStatus(sys, step, r);
    hide Apply, Enabled, Carried, Kept, Discarded, MessageInv, SourceInv;
    CarriedRun(sys.store, Apply(sys, step).store, r);
  }

  /** One step keeps the invariant of one run. */
  lemma StepKeepsRun(sys: System, step: Step, r: Id)
    requires RefInv(sys) && Enabled(sys, step) && r in Apply(sys, step).store.runs
    requires forall q :: q in sys.store.runs ==> RunInv(sys.store, q)
    ensures RunInv(Apply(sys, step).store, r)
  {
    var s, s' := sys.store, Apply(sys, step).store;
    if IsNewRun(sys, step, r) {
      assert step.Retry? ==> RunInv(s, step.source);
      NewRunInv(s, r, s'.runs[r]);
    } else {
      assert RunInv(s, r);
      if Subject(step) != Some(r) {
        OtherRunInv(sys, step, r);
      } else {
        SubjectInv(sys, step);
      }
    }
  }

  lemma SubjectInv(sys: System, step: Step)
    requires RefInv(sys) && Enabled(sys, step) && Subject(step).Some? && RunInv(sys.store, Subject(step).value)
    ensures RunInv(Apply(sys, step).store, Subject(step).value)
  {
    var s := sys.store;
    match step
    case KeepPartial(run) => KeepInv(s, run, sys.nextId);
    case DiscardLog(run) => DiscardInv(s, run);
    case CommitDelta(run, text, lease) => PutDeltaInv(s, run, text, lease);
    case Complete(run, lease) => CompleteInv(s, run, sys.nextId, lease);
    case Fail(run, error, lease) =>
      EndRunInv(s, run, s.runs[run].(status := StatusFailed, error := Some(error)), Failed(error), lease);
    case CommitCancelled(run, lease) =>
      EndRunInv(s, run, s.runs[run].(status := StatusCancelled), Cancelled, lease);
  }

  lemma PutDeltaInv(s: Store, run: Id, text: string, lease: int)
    requires run in s.runs && RunInv(s, run) && !IsTerminal(s.runs[run].status)
    ensures RunInv(PutDelta(s, run, text, lease), run)
  {
    hide Kept, Deltas, ByteLen, TotalBytes, DeltaRows;
    assert Kept(s, run);
    PutDeltaKept(s, run, text, lease);
    assert MessageInv(PutDelta(s, run, text, lease), run) by { assert MessageInv(s, run); }
  }

  lemma CascadeRefs(sys: System, character: Id)
    requires Inv(sys)
    ensures RefInv(sys.(store := Cascade(sys.store, character)))
  {
    var s, s' := sys.store, Cascade(sys.store, character);
    forall m | m in s'.messages && s'.messages[m].run.Some? ensures s'.messages[m].run.value in s'.runs {
      var r := s.messages[m].run.value;
      assert RunInv(s, r);
      assert s.messages[m].chat == s.runs[r].chat;
    }
  }

  lemma StepKeepsRefs(sys: System, step: Step)
    requires Inv(sys) && Enabled(sys, step)
    ensures RefInv(Apply(sys, step))
  {
    if step.DeleteCharacter? {
      CascadeRefs(sys, step.character);
    } else if Subject(step).Some? {
      assert sys.store.runs[Subject(step).value].chat in sys.store.chats by { assert RunInv(sys.store, Subject(step).value); }
      hide Apply, Enabled, Inv;
      SubjectRefs(sys, step);
    } else {
      QuietRefs(sys, step);
    }
  }

  lemma QuietRefs(sys: System, step: Step)
    requires RefInv(sys) && Enabled(sys, step) && Subject(step).None? && !step.DeleteCharacter?
    ensures RefInv(Apply(sys, step))
  {
    hide PartialMessage, PutDelta, EndRun, CompleteStore, DropEvents, Cascade;
  }

  lemma SubjectRefs(sys: System, step: Step)
    requires RefInv(sys) && Enabled(sys, step) && Subject(step).Some?
    requires sys.store.runs[Subject(step).value].chat in sys.store.chats
    ensures RefInv(Apply(sys, step))
  {
    SubjectFrame(sys, step);
  }

  lemma RunOf(sys: System, r: Id)
    requires Inv(sys) && r in sys.store.runs
    ensures RefInv(sys) && RunInv(sys.store, r)
  {
  }

  lemma RunParts(sys: System, r: Id)
    requires Inv(sys) && r in sys.store.runs
    ensures sys.store.runs[r].chat in sys.store.chats
    ensures StatusInv(sys.store.runs[r]) && SourceInv(sys.store, r) && MessageInv(sys.store, r)
    ensures Kept(sys.store, r) || Discarded(sys.store, r)
  {
    hide Kept, Discarded, SourceInv, MessageInv, StatusInv;
    RunOf(sys, r);
  }

  /** The invariant is inductive. */
  lemma StepKeepsInv(sys: System, step: Step)
    requires Inv(sys) && Enabled(sys, step)
    ensures Inv(Apply(sys, step))
  {
    StepKeepsRefs(sys, step);
    forall r | r in Apply(sys, step).store.runs ensures RunInv(Apply(sys, step).store, r) {
      StepKeepsRun(sys, step, r);
    }
  }
}
