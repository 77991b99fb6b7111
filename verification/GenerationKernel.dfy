/**
 * The generation code itself: the unary operations and the compare-and-swap transitions the
 * executor makes, over a database object. Every commit is recorded in `history`, and each
 * method is proved to make only steps the state machine allows.
 */
module GenerationKernel {
  import opened Base
  import opened Text
  import opened GenerationLog
  import opened GenerationModel
  import opened GenerationProofs
  import opened GenerationRuns
  import opened GenerationOps

  /** Wire limits, in UTF-16 units. */
  const MAX_DELTA_UNITS := 4096
  const MAX_CONTENT_UNITS := 1_000_000

  const PARTIAL_PREVIEW_LEN := 4096

  datatype Notice = CommittedTo(through: int) | EndedAt(last: int)

  /** No lease reaches beyond `limit`. */
  ghost predicate LeasesWithin(runs: map<Id, Run>, limit: int) {
    forall r :: r in runs && runs[r].lease.Some? ==> runs[r].lease.value <= limit
  }

  class Kernel {
    var chats: map<Id, Id>
    var runs: map<Id, Run>
    var events: map<EventKey, Event>
    var messages: map<Id, Message>
    var nextId: Id
    var clock: int
    var notices: seq<Notice>
    ghost var active: Option<Id>
    ghost var origin: System
    ghost var history: seq<Step>

    ghost function Sys(): System
      reads this`chats, this`runs, this`events, this`messages, this`nextId, this`active
    {
      System(Store(chats, runs, events, messages), nextId, active)
    }

    /** The recorded history leads to the present state. */
    ghost predicate Traced()
      reads this`chats, this`runs, this`events, this`messages, this`nextId, this`active, this`origin, this`history
    {
      Inv(origin) && Replay(origin, history) == Some(Sys())
    }

    ghost predicate Valid()
      reads this
    {
      Traced() && LeasesWithin(runs, clock + LEASE_GRACE_SECONDS)
    }

    /** Every state the code reaches satisfies the invariant. */
    lemma Sound()
      requires Valid()
      ensures Inv(Sys())
    {
      HistoryIsSafe(origin, history, |history|);
    }

    /** Opens a database some earlier process left behind. */
    constructor (chats: map<Id, Id>, runs: map<Id, Run>, events: map<EventKey, Event>, messages: map<Id, Message>,
                 nextId: Id, clock: int)
      requires Inv(System(Store(chats, runs, events, messages), nextId, None))
      requires LeasesWithin(runs, clock + LEASE_GRACE_SECONDS)
      ensures Valid() && history == []
      ensures Sys() == origin == System(Store(chats, runs, events, messages), nextId, None)
    {
      this.chats, this.runs, this.events, this.messages, this.nextId := chats, runs, events, messages, nextId;
      this.clock, this.notices := clock, [];
      active, history := None, [];
      origin := System(Store(chats, runs, events, messages), nextId, None);
    }

    /** Notes that the fields now hold the result of one allowed step. */
    ghost method Record(before: System, step: Step)
      requires Inv(origin) && Replay(origin, history) == Some(before)
      requires Enabled(before, step) && Sys() == Apply(before, step)
      requires LeasesWithin(runs, clock + LEASE_GRACE_SECONDS)
      modifies this`history
      ensures Valid() && history == old(history) + [step]
    {
      ReplayOne(origin, history, step);
      history := history + [step];
    }

    /** The wall clock: some later second. */
    method Now() returns (now: int)
      modifies this`clock
      ensures clock == now && now >= old(clock)
    {
      var elapsed: nat :| elapsed >= 0;
      clock := clock + elapsed;
      now := clock;
    }

    /** `UPDATE generation_runs SET ... WHERE id = ? AND revision = ?` */
    method CasRow(r: Id, revision: int, row: Run) returns (changed: bool)
      modifies this`runs
      ensures changed <==> r in old(runs) && old(runs)[r].revision == revision
      ensures runs == if changed then old(runs)[r := row] else old(runs)
    {
      if r in runs && runs[r].revision == revision {
        runs := runs[r := row];
        return true;
      }
      return false;
    }

    /** `INSERT INTO generation_events`: the primary key is free. */
    method InsertEvent(key: EventKey, event: Event)
      requires key !in events && key.run in runs
      modifies this`events
      ensures events == old(events)[key := event]
    {
      events := events[key := event];
    }

    /** `SELECT COALESCE(MAX(sequence), -1) + 1 FROM messages WHERE chat_id = ?` */
    method QueryNextSequence(chat: Id) returns (n: int)
      ensures n == NextSequence(messages, chat)
    {
      n := 0;
      var todo := messages.Keys;
      ghost var seen: set<Id> := {};
      var found := false;
      while todo != {}
        invariant seen + todo == messages.Keys && seen !! todo
        invariant found <==> exists m :: m in seen && messages[m].chat == chat
        invariant found ==> exists m :: m in seen && messages[m].chat == chat && messages[m].sequence == n - 1
        invariant !found ==> n == 0
        invariant forall m :: m in seen && messages[m].chat == chat ==> messages[m].sequence < n
        decreases |todo|
      {
        var m :| m in todo;
        if messages[m].chat == chat && (!found || messages[m].sequence >= n) {
          n := messages[m].sequence + 1;
          found := true;
        }
        todo, seen := todo - {m}, seen + {m};
      }
      assert seen == messages.Keys;
      var used := ChatSequences(messages, chat);
      if found {
        assert n - 1 in used;
      } else {
        assert used == {};
      }
    }

    // -------------------------------------------------------------- launching a run

    /** `generation.start` */
    method StreamStart(chat: Id, provider: Option<string>, model: Option<string>, snapshot: string)
      returns (res: Result<Id, OpError>, ghost lease: int)
      requires Valid() && active.None?
      modifies this
      ensures Valid() && unchanged(this`notices, this`origin)
      ensures if chat !in old(chats) then res == Err(ChatNotFound) && unchanged(this)
              else
                && res == Ok(old(nextId))
                && history == old(history) + [Start(chat, provider, model, snapshot, lease)]
                && Sys() == Apply(old(Sys()), Start(chat, provider, model, snapshot, lease))
    {
      hide Inv, Replay, PutDelta, EndRun, CompleteStore, PartialMessage, DropEvents, Cascade, RecoverStale, Deltas;
      if chat !in chats {
        return Err(ChatNotFound), 0;
      }
      ghost var before := Sys();
      var now := Now();
      var expires := now + LEASE_GRACE_SECONDS;
      lease := expires;
      var id := nextId;
      nextId := nextId + 1;
      runs := runs[id := NewRun(None, chat, 1, provider, model, snapshot, expires)];
      active := Some(id);
      Record(before, Start(chat, provider, model, snapshot, expires));
      return Ok(id), expires;
    }

    /** `generation.retry` */
    method StreamRetry(source: Id) returns (res: Result<Id, OpError>, ghost lease: int)
      requires Valid() && active.None?
      modifies this
      ensures Valid() && unchanged(this`notices, this`origin)
      ensures if source !in old(runs) then res == Err(RunNotFound) && unchanged(this)
              else if !IsRecoverable(old(runs)[source].status)
              then res == Err(StateConflict(old(runs)[source].status)) && unchanged(this)
              else
                && res == Ok(old(nextId))
                && history == old(history) + [Retry(source, lease)]
                && Sys() == Apply(old(Sys()), Retry(source, lease))
    {
      hide Inv, Replay, PutDelta, EndRun, CompleteStore, PartialMessage, DropEvents, Cascade, RecoverStale, Deltas;
      if source !in runs {
        return Err(RunNotFound), 0;
      }
      var from := runs[source];
      if !IsRecoverable(from.status) {
        return Err(StateConflict(from.status)), 0;
      }
      ghost var before := Sys();
      var now := Now();
      var expires := now + LEASE_GRACE_SECONDS;
      var id := nextId;
      nextId := nextId + 1;
      runs := runs[id := NewRun(Some(source), from.chat, from.attempt + 1, from.provider, from.model, from.snapshot, expires)];
      active := Some(id);
      Record(before, Retry(source, expires));
      return Ok(id), expires;
    }

    // -------------------------------------------------------------- unary operations

    /**
     * `generation.cancel`. Nothing runs between the read of the row and the update, so the
     * compare-and-swap of this and the next two operations is proved to win at once and their
     * re-read loops never go round.
     */
    method GenerationCancel(r: Id) returns (res: Result<(), OpError>)
      requires Valid()
      modifies this
      ensures Valid() && unchanged(this`notices, this`origin)
      ensures res == ReplyTo(old(Sys()).store, CancelRun(r))
      ensures Sys() == Serve(old(Sys()), CancelRun(r))
      ensures history == old(history) + StepsOf(old(Sys()), CancelRun(r))
    {
      hide Inv, Replay, NewRun, PutDelta, EndRun, CompleteStore, PartialMessage, DropEvents, Cascade, RecoverStale, Deltas;
      if r !in runs {
        return Err(RunNotFound);
      }
      ghost var before := Sys();
      var run := runs[r];
      if IsCancellable(run.status) {
        var changed := CasRow(r, run.revision,
                              run.(status := Cancelling, cancelRequested := true, revision := run.revision + 1));
        assert changed;
        Record(before, RequestCancel(r));
        return Ok(());
      } else if run.status.Cancelling? {
        return Ok(());
      } else {
        return Err(StateConflict(run.status));
      }
    }

    /** `generation.keep` */
    method GenerationKeep(r: Id) returns (res: Result<(), OpError>)
      requires Valid()
      modifies this
      ensures Valid() && unchanged(this`notices, this`origin)
      ensures res == ReplyTo(old(Sys()).store, KeepRun(r))
      ensures Sys() == Serve(old(Sys()), KeepRun(r))
      ensures history == old(history) + StepsOf(old(Sys()), KeepRun(r))
    {
      hide Inv, Replay, NewRun, PutDelta, EndRun, CompleteStore, DropEvents, Cascade, RecoverStale;
      if r !in runs {
        return Err(RunNotFound);
      }
      ghost var before := Sys();
      var run := runs[r];
      if !IsRecoverable(run.status) {
        return Err(StateConflict(run.status));
      }
      if run.messageId.Some? {
        return Ok(());
      }
      if run.partialLength == 0 {
        return Err(NoPartialOutput);
      }
      var text := ConcatDeltaText(r);
      KeepTransaction(r, run, text);
      Record(before, KeepPartial(r));
      return Ok(());
    }

    /** Link and message in one transaction; the row is updated first. */
    method KeepTransaction(r: Id, run: Run, text: string)
      requires r in runs && run == runs[r] && Enabled(Sys(), KeepPartial(r)) && text == Concat(Deltas(Sys().store, r))
      modifies this`runs, this`messages, this`nextId
      ensures Sys() == Apply(old(Sys()), KeepPartial(r))
      ensures forall q :: q in runs ==> q in old(runs) && runs[q].lease == old(runs)[q].lease
    {
      hide Inv, Replay, NewRun, PutDelta, EndRun, CompleteStore, DropEvents, Cascade, RecoverStale;
      var id := nextId;
      nextId := nextId + 1;
      var changed := CasRow(r, run.revision, run.(messageId := Some(id), revision := run.revision + 1));
      assert changed;
      var sequence := QueryNextSequence(run.chat);
      messages := messages[id := Message(run.chat, text, sequence, Some(r))];
    }

    /** `generation.discard` */
    method GenerationDiscard(r: Id) returns (res: Result<(), OpError>)
      requires Valid()
      modifies this
      ensures Valid() && unchanged(this`notices, this`origin)
      ensures res == ReplyTo(old(Sys()).store, DiscardRun(r))
      ensures Sys() == Serve(old(Sys()), DiscardRun(r))
      ensures history == old(history) + StepsOf(old(Sys()), DiscardRun(r))
    {
      hide Inv, Replay, NewRun, PutDelta, EndRun, CompleteStore, PartialMessage, Cascade, RecoverStale, Deltas;
      if r !in runs {
        return Err(RunNotFound);
      }
      ghost var before := Sys();
      var run := runs[r];
      if !IsRecoverable(run.status) {
        return Err(StateConflict(run.status));
      }
      var changed := CasRow(r, run.revision, run.(partialLength := 0, revision := run.revision + 1));
      assert changed;
      events := DropEvents(events, {r});
      Record(before, DiscardLog(r));
      return Ok(());
    }

    /** `characters.delete`, as far as runs and messages see it. */
    method CharactersDelete(character: Id)
      requires Valid()
      modifies this
      ensures Valid() && unchanged(this`notices, this`origin)
      ensures Sys() == Serve(old(Sys()), RemoveCharacter(character))
      ensures history == old(history) + StepsOf(old(Sys()), RemoveCharacter(character))
    {
      hide Inv, Replay, NewRun, PutDelta, EndRun, CompleteStore, PartialMessage, RecoverStale, Deltas;
      ghost var before := Sys();
      var left := Cascade(Store(chats, runs, events, messages), character);
      chats, runs, events, messages := left.chats, left.runs, left.events, left.messages;
      Record(before, DeleteCharacter(character));
    }

    /** Startup recovery. */
    method RecoverRuns()
      requires Valid() && active.None?
      modifies this
      ensures Valid() && unchanged(this`notices, this`origin) && clock >= old(clock)
      ensures history == old(history) + [Recover(clock)] && Sys() == Apply(old(Sys()), Recover(clock))
      ensures clock > old(clock) + LEASE_GRACE_SECONDS ==> forall r :: r in runs ==> IsTerminal(runs[r].status)
    {
      hide Inv, Replay, NewRun, PutDelta, EndRun, CompleteStore, PartialMessage, DropEvents, Cascade, Deltas;
      ghost var before := Sys();
      var now := Now();
      runs := RecoverStale(runs, now);
      Record(before, Recover(now));
    }

    /** The executor returns, or the process dies. */
    ghost method Stop()
      requires Valid()
      modifies this`active, this`history
      ensures Valid() && history == old(history) + [Halt] && Sys() == Apply(old(Sys()), Halt)
    {
      hide Inv, Replay, NewRun, PutDelta, EndRun, CompleteStore, PartialMessage, DropEvents, Cascade, RecoverStale, Deltas;
      ghost var before := Sys();
      active := None;
      Record(before, Halt);
    }

    /** `concat_delta_text`: the committed delta payloads of a run, in sequence order. */
    method ConcatDeltaText(r: Id) returns (text: string)
      requires r in runs
      ensures text == Concat(Deltas(Sys().store, r))
    {
      var texts: seq<string> := [];
      var n := if runs[r].lastSeq < 0 then 0 else runs[r].lastSeq + 1;
      for i := 0 to n
        invariant texts == DeltaTexts(Select(events, r, i))
      {
        ghost var rows := Select(events, r, i);
        assert rows + [] == rows;
        if EventKey(r, i) in events {
          assert (rows + [events[EventKey(r, i)]])[..|rows|] == rows;
          if events[EventKey(r, i)].Delta? {
            texts := texts + [events[EventKey(r, i)].text];
          }
        }
      }
      return Concat(texts);
    }

    // -------------------------------------------------------------- compare-and-swap transitions

    /** The one step committed since `before`, when the history was `past`. */
    ghost predicate Commits(before: System, step: Step, past: seq<Step>)
      reads this`chats, this`runs, this`events, this`messages, this`nextId, this`active, this`history
    {
      Enabled(before, step) && Sys() == Apply(before, step) && history == past + [step]
    }

    /** The executor's run: ready for its next event, and loaded at some earlier or the present revision. */
    ghost predicate Executing(r: Id, seen: Run)
      reads this`chats, this`runs, this`events, this`messages, this`nextId, this`active
    {
      Driven(Sys(), r) && Ready(Sys(), r) && Seen(seen, runs[r])
    }

    /** A lost swap to a run somebody is cancelling. */
    ghost predicate CancelRaced(r: Id, seen: Run)
      requires r in runs
      reads this`runs
    {
      seen.revision != runs[r].revision && (runs[r].status.Cancelling? || runs[r].cancelRequested)
    }

    /** The status transaction: row only. */
    method TryAdvance(r: Id, seen: Run, to: Status, lease: int) returns (changed: bool)
      requires Valid() && Executing(r, seen) && Enabled(Sys(), Advance(r, to, lease)) && lease <= clock + LEASE_GRACE_SECONDS
      modifies this`runs, this`history
      ensures Valid() && (changed <==> seen.revision == old(runs)[r].revision)
      ensures if changed then r in runs && Commits(old(Sys()), Advance(r, to, lease), old(history))
              else unchanged(this)
    {
      hide Inv, Replay, NewRun, PutDelta, EndRun, CompleteStore, PartialMessage, DropEvents, Cascade, RecoverStale, Deltas;
      ghost var before := Sys();
      changed := CasRow(r, seen.revision, seen.(status := to, revision := seen.revision + 1, lease := Some(lease)));
      if changed {
        Record(before, Advance(r, to, lease));
      }
    }

    /**
     * Moves the run to `to`; a lost swap re-reads the row and reacts. The run is driven, so the
     * re-read row is never terminal.
     */
    method CasStatus(r: Id, seen: Run, to: Status) returns (outcome: StepOutcome, ghost step: Step)
      requires Valid() && Executing(r, seen) && Enabled(Sys(), Advance(r, to, 0))
      modifies this
      ensures Valid() && unchanged(this`notices, this`origin)
      ensures Commits(old(Sys()), step, old(history))
      ensures if old(CancelRaced(r, seen))
              then step.CommitCancelled? && step.run == r && outcome == CancelWon(old(runs)[r].lastSeq + 1)
              else step.Advance? && step.run == r && step.to == to && r in runs && outcome == Proceed(runs[r])
    {
      hide Apply, Inv, Ready;
      var run := seen;
      var now := Now();
      var lease := now + LEASE_GRACE_SECONDS;
      for attempt := 0 to 8
        invariant attempt <= 1 && Valid() && clock == now
        invariant unchanged(this`chats, this`runs, this`events, this`messages, this`nextId, this`active)
        invariant unchanged(this`notices, this`origin, this`history)
        invariant if attempt == 0 then run == seen else run == runs[r] && seen.revision != run.revision && !CancelRaced(r, seen)
      {
        var changed := TryAdvance(r, run, to, lease);
        if changed {
          return Proceed(runs[r]), Advance(r, to, lease);
        }
        run := runs[r];
        if run.status.Cancelling? || run.cancelRequested {
          var last;
          last, step := TerminalCancelled(r, run);
          return CancelWon(last), step;
        }
      }
    }

    /** The delta transaction: row first, then the event and its checkpoint. */
    method TryDelta(r: Id, seen: Run, text: string, deltaIndex: nat, lease: int) returns (changed: bool)
      requires Executing(r, seen)
      requires seen.revision == runs[r].revision ==> deltaIndex == |Deltas(Sys().store, r)|
      modifies this`runs, this`events
      ensures changed <==> seen.revision == old(runs)[r].revision
      ensures if changed then Sys() == old(Sys()).(store := PutDelta(old(Sys()).store, r, text, lease)) else unchanged(this)
    {
      var deltaSeq := seen.lastSeq + 1;
      var checkpoint := deltaIndex % 4 == 3;
      var endSeq := if checkpoint then deltaSeq + 1 else deltaSeq;
      var newPartial := seen.partialLength + ByteLen(text);
      ghost var rows := DeltaRows(Deltas(Sys().store, r), text);
      changed := CasRow(r, seen.revision,
                        seen.(lastSeq := endSeq, partialLength := newPartial, revision := seen.revision + 1, lease := Some(lease)));
      if changed {
        InsertEvent(EventKey(r, deltaSeq), Delta(text));
        if checkpoint {
          InsertEvent(EventKey(r, endSeq), Checkpoint(endSeq, newPartial));
        }
      }
    }

    /** Commits one delta: the event (with its checkpoint) and the row, or nothing. */
    method CommitDelta(r: Id, seen: Run, text: string, deltaIndex: nat) returns (outcome: DeltaOutcome, ghost lease: int)
      requires Valid() && Executing(r, seen)
      requires seen.revision == runs[r].revision ==>
                 Enabled(Sys(), Step.CommitDelta(r, text, 0)) && deltaIndex == |Deltas(Sys().store, r)|
      modifies this
      ensures Valid() && unchanged(this`origin)
      ensures if Utf16Len(text) > MAX_DELTA_UNITS then outcome.TooLong? && unchanged(this)
              else if seen.revision != old(runs)[r].revision
              then outcome.Conflict? && Sys() == old(Sys()) && unchanged(this`notices, this`history)
              else
                && Enabled(old(Sys()), Step.CommitDelta(r, text, lease))
                && Sys() == Apply(old(Sys()), Step.CommitDelta(r, text, lease))
                && history == old(history) + [Step.CommitDelta(r, text, lease)]
                && r in runs && outcome == Applied(runs[r])
                && notices == old(notices) + [CommittedTo(runs[r].lastSeq)]
    {
      hide Inv, Replay, NewRun, EndRun, CompleteStore, PartialMessage, DropEvents, Cascade, RecoverStale;
      if Utf16Len(text) > MAX_DELTA_UNITS {
        return TooLong, 0;
      }
      ghost var before := Sys();
      var now := Now();
      lease := now + LEASE_GRACE_SECONDS;
      var changed := TryDelta(r, seen, text, deltaIndex, now + LEASE_GRACE_SECONDS);
      if !changed {
        return Conflict, 0;
      }
      Record(before, Step.CommitDelta(r, text, lease));
      Notify(r, CommittedTo(runs[r].lastSeq));
      return Applied(runs[r]), lease;
    }

    /** A notice is only sent for a sequence that is already durable. */
    method Notify(r: Id, notice: Notice)
      requires Valid() && r in runs && (if notice.CommittedTo? then notice.through else notice.last) == runs[r].lastSeq
      modifies this`notices
      ensures Valid() && notices == old(notices) + [notice]
    {
      notices := notices + [notice];
    }

    /** A terminal transaction: row and terminal event together, or nothing. */
    method EndRow(r: Id, seen: Run, ended: Run, event: Event, lease: int) returns (last: Option<int>)
      requires Executing(r, seen) && ended.revision == seen.revision
      modifies this`runs, this`events
      ensures if seen.revision == old(runs)[r].revision
              then last == Some(old(runs)[r].lastSeq + 1) &&
                   Sys() == old(Sys()).(store := EndRun(old(Sys()).store, r, ended, event, lease))
              else last.None? && unchanged(this)
    {
      hide Inv, Replay, NewRun, PutDelta, CompleteStore, PartialMessage, DropEvents, Cascade, RecoverStale;
      var end := seen.lastSeq + 1;
      var changed := CasRow(r, seen.revision, ended.(lastSeq := end, revision := seen.revision + 1, lease := Some(lease)));
      if !changed {
        return None;
      }
      InsertEvent(EventKey(r, end), event);
      return Some(end);
    }

    method TryCancelled(r: Id, seen: Run, lease: int) returns (last: Option<int>)
      requires Valid() && Executing(r, seen) && lease <= clock + LEASE_GRACE_SECONDS
      modifies this`runs, this`events, this`active, this`history
      ensures Valid() && (last.Some? <==> seen.revision == old(runs)[r].revision)
      ensures if last.Some? then last.value == old(runs)[r].lastSeq + 1 && Commits(old(Sys()), CommitCancelled(r, lease), old(history))
              else unchanged(this)
    {
      hide Inv, Replay, NewRun, PutDelta, CompleteStore, PartialMessage, DropEvents, Cascade, RecoverStale, Deltas;
      ghost var before := Sys();
      last := EndRow(r, seen, seen.(status := StatusCancelled), Cancelled, lease);
      if last.Some? {
        active := None;
        Record(before, CommitCancelled(r, lease));
      }
    }

    method TryFailed(r: Id, seen: Run, error: ErrorDto, lease: int) returns (last: Option<int>)
      requires Valid() && Executing(r, seen) && lease <= clock + LEASE_GRACE_SECONDS
      modifies this`runs, this`events, this`active, this`history
      ensures Valid() && (last.Some? <==> seen.revision == old(runs)[r].revision)
      ensures if last.Some? then last.value == old(runs)[r].lastSeq + 1 && Commits(old(Sys()), Fail(r, error, lease), old(history))
              else unchanged(this)
    {
      hide Inv, Replay, NewRun, PutDelta, CompleteStore, PartialMessage, DropEvents, Cascade, RecoverStale, Deltas;
      ghost var before := Sys();
      last := EndRow(r, seen, seen.(status := StatusFailed, error := Some(error)), Failed(error), lease);
      if last.Some? {
        active := None;
        Record(before, Fail(r, error, lease));
      }
    }

    method TryCompleted(r: Id, seen: Run, message: Message, lease: int) returns (last: Option<int>)
      requires Valid() && Executing(r, seen) && lease <= clock + LEASE_GRACE_SECONDS
      requires message == PartialMessage(Sys().store, r)
      modifies this`runs, this`events, this`messages, this`nextId, this`active, this`history
      ensures Valid() && (last.Some? <==> seen.revision == old(runs)[r].revision)
      ensures if last.Some? then last.value == old(runs)[r].lastSeq + 1 && Commits(old(Sys()), Complete(r, lease), old(history))
              else unchanged(this)
    {
      hide Apply, Inv, Ready, NextSequence;
      ghost var before := Sys();
      CompleteApplies(before, r, lease);
      var id := nextId;
      last := EndRow(r, seen, seen.(status := StatusCompleted, messageId := Some(id)), Completed(id, message), lease);
      if last.Some? {
        nextId := nextId + 1;
        messages := messages[id := message];
        active := None;
        Record(before, Complete(r, lease));
      }
    }

    /** Terminal commit `cancelled`. */
    method TerminalCancelled(r: Id, seen: Run) returns (last: int, ghost step: Step)
      requires Valid() && Executing(r, seen)
      modifies this
      ensures Valid() && unchanged(this`notices, this`origin)
      ensures step.CommitCancelled? && step.run == r && last == old(runs)[r].lastSeq + 1
      ensures Commits(old(Sys()), step, old(history))
    {
      hide Apply, Inv, Ready;
      var run := seen;
      for attempt := 0 to 8
        invariant attempt <= 1 && Valid() && clock >= old(clock)
        invariant unchanged(this`chats, this`runs, this`events, this`messages, this`nextId, this`active)
        invariant unchanged(this`notices, this`origin, this`history)
        invariant if attempt == 0 then run == seen else run == runs[r]
      {
        var now := Now();
        var lease := now + LEASE_GRACE_SECONDS;
        var end := TryCancelled(r, run, lease);
        if end.Some? {
          return end.value, CommitCancelled(r, lease);
        }
        run := runs[r];
      }
    }

    /** Terminal commit `failed`. */
    method TerminalFailed(r: Id, seen: Run, error: ErrorDto) returns (last: int, ghost step: Step)
      requires Valid() && Executing(r, seen)
      modifies this
      ensures Valid() && unchanged(this`notices, this`origin)
      ensures if old(CancelRaced(r, seen)) then step.CommitCancelled? && step.run == r
              else step.Fail? && step.run == r && step.error == error
      ensures last == old(runs)[r].lastSeq + 1 && Commits(old(Sys()), step, old(history))
    {
      hide Apply, Inv, Ready;
      var run := seen;
      for attempt := 0 to 8
        invariant attempt <= 1 && Valid() && clock >= old(clock)
        invariant unchanged(this`chats, this`runs, this`events, this`messages, this`nextId, this`active)
        invariant unchanged(this`notices, this`origin, this`history)
        invariant if attempt == 0 then run == seen else run == runs[r] && seen.revision != run.revision && !CancelRaced(r, seen)
      {
        var now := Now();
        var lease := now + LEASE_GRACE_SECONDS;
        var end := TryFailed(r, run, error, lease);
        if end.Some? {
          return end.value, Fail(r, error, lease);
        }
        run := runs[r];
        if run.status.Cancelling? || run.cancelRequested {
          last, step := TerminalCancelled(r, run);
          return last, step;
        }
      }
    }

    /** Terminal commit `completed`: message, row and event; refused when the text is over the wire limit. */
    method TerminalCompleted(r: Id, seen: Run, fullText: string) returns (last: Option<int>, ghost step: Step)
      requires Valid() && Executing(r, seen) && fullText == Concat(Deltas(Sys().store, r))
      modifies this
      ensures Valid() && unchanged(this`notices, this`origin)
      ensures if Utf16Len(fullText) > MAX_CONTENT_UNITS then last.None? && unchanged(this)
              else
                && last == Some(old(runs)[r].lastSeq + 1)
                && (if old(CancelRaced(r, seen)) then step.CommitCancelled? && step.run == r
                    else step.Complete? && step.run == r)
                && Commits(old(Sys()), step, old(history))
    {
      hide Apply, Inv, Ready;
      if Utf16Len(fullText) > MAX_CONTENT_UNITS {
        return None, Halt;
      }
      var run := seen;
      var sequence := QueryNextSequence(run.chat);
      var message := Message(run.chat, fullText, sequence, Some(r));
      for attempt := 0 to 8
        invariant attempt <= 1 && Valid() && clock >= old(clock)
        invariant unchanged(this`chats, this`runs, this`events, this`messages, this`nextId, this`active)
        invariant unchanged(this`notices, this`origin, this`history)
        invariant message == PartialMessage(Sys().store, r)
        invariant if attempt == 0 then run == seen else run == runs[r] && seen.revision != run.revision && !CancelRaced(r, seen)
      {
        var now := Now();
        var lease := now + LEASE_GRACE_SECONDS;
        var end := TryCompleted(r, run, message, lease);
        if end.Some? {
          return end, Complete(r, lease);
        }
        run := runs[r];
        if run.status.Cancelling? || run.cancelRequested {
          var cancelled;
          cancelled, step := TerminalCancelled(r, run);
          return Some(cancelled), step;
        }
      }
    }

    /** A run the executor drives is ready for its next event. */
    lemma Reach(r: Id)
      requires Valid() && Driven(Sys(), r)
      ensures Ready(Sys(), r)
    {
      Sound();
      DrivenReady(Sys(), r);
    }

    /** Shutdown mid-run: clears the lease, unless the row has moved on since `seen` was read. */
    method CommitShutdownProgress(r: Id, seen: Run)
      requires Valid() && active == Some(r) && (r in runs ==> Executing(r, seen))
      modifies this
      ensures Valid() && unchanged(this`notices, this`origin)
      ensures if r in old(runs) && seen.revision == old(runs)[r].revision
              then Sys() == Apply(old(Sys()), ClearLease(r)) && history == old(history) + [ClearLease(r)]
              else unchanged(this)
    {
      hide Inv, Replay, NewRun, PutDelta, EndRun, CompleteStore, PartialMessage, DropEvents, Cascade, RecoverStale, Deltas;
      ghost var before := Sys();
      var changed := CasRow(r, seen.revision, seen.(lease := None, revision := seen.revision + 1));
      if changed {
        Record(before, ClearLease(r));
      }
    }
  }

  /** `seen` is the row as it was at some earlier or the present revision. */
  predicate Seen(seen: Run, row: Run) {
    && seen.revision <= row.revision
    && SameIdentity(seen, row)
    && (seen.revision == row.revision ==> seen == row)
  }

  datatype StepOutcome = Proceed(row: Run) | CancelWon(last: int)

  datatype DeltaOutcome = Applied(row: Run) | Conflict | TooLong

  /** The counters of a driven run's row match its log, so the sequences it writes next are free. */
  ghost predicate Ready(sys: System, r: Id) {
    Driven(sys, r) &&
    var row, ds := sys.store.runs[r], Deltas(sys.store, r);
    && row.lastSeq == |ds| + |ds| / 4 - 1
    && row.partialLength == TotalBytes(ds)
    && EventKey(r, row.lastSeq + 1) !in sys.store.events
    && EventKey(r, row.lastSeq + 2) !in sys.store.events
  }

  lemma CompleteApplies(sys: System, r: Id, lease: int)
    requires Driven(sys, r)
    ensures Enabled(sys, Complete(r, lease))
    ensures Apply(sys, Complete(r, lease)) == System(CompleteStore(sys.store, r, sys.nextId, lease), sys.nextId + 1, None)
  {
  }

  lemma DrivenReady(sys: System, r: Id)
    requires Inv(sys) && Driven(sys, r)
    ensures Ready(sys, r)
  {
    DrivenRow(sys, r);
  }

  /** The history a command adds. */
  ghost function StepsOf(sys: System, c: Command): seq<Step> {
    match StepOf(sys.store, c)
    case None => []
    case Some(step) => [step]
  }
}
