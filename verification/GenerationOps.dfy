/** The unary generation operations: what each commits and what it answers. */
module GenerationOps {
  import opened Base
  import opened Text
  import opened GenerationLog
  import opened GenerationModel
  import opened GenerationProofs
  import opened GenerationRuns

  /** Commands a drain may find queued while the executor runs. */
  datatype Command =
    | CancelRun(run: Id)
    | KeepRun(run: Id)
    | DiscardRun(run: Id)
    | RemoveCharacter(character: Id)
    | Unrelated
    | QueueStream
    | SetProviderState
    | Shutdown

  datatype OpError =
    | RunNotFound
    | StateConflict(status: Status)
    | NoPartialOutput
    | ChatNotFound

  /** The transaction a command commits, if any. */
  function StepOf(s: Store, c: Command): Option<Step> {
    match c
    case CancelRun(r) => if r in s.runs && IsCancellable(s.runs[r].status) then Some(RequestCancel(r)) else None
    case KeepRun(r) =>
      if r in s.runs && IsRecoverable(s.runs[r].status) && s.runs[r].messageId.None? && s.runs[r].partialLength != 0
      then Some(KeepPartial(r)) else None
    case DiscardRun(r) => if r in s.runs && IsRecoverable(s.runs[r].status) then Some(DiscardLog(r)) else None
    case RemoveCharacter(ch) => Some(DeleteCharacter(ch))
    case _ => None
  }

  /** The answer of the three run operations. */
  function ReplyTo(s: Store, c: Command): Result<(), OpError>
    requires c.CancelRun? || c.KeepRun? || c.DiscardRun?
  {
    if c.run !in s.runs then Err(RunNotFound)
    else
      var row := s.runs[c.run];
      if c.CancelRun? then
        if IsCancellable(row.status) || row.status.Cancelling? then Ok(()) else Err(StateConflict(row.status))
      else if !IsRecoverable(row.status) then Err(StateConflict(row.status))
      else if c.KeepRun? && row.messageId.None? && row.partialLength == 0 then Err(NoPartialOutput)
      else Ok(())
  }

  ghost function Serve(sys: System, c: Command): System {
    match StepOf(sys.store, c)
    case None => sys
    case Some(step) => Apply(sys, step)
  }

  ghost function ServeAll(sys: System, cs: seq<Command>): System {
    if cs == [] then sys else Serve(ServeAll(sys, cs[..|cs| - 1]), cs[|cs| - 1])
  }

  // ---------------------------------------------------------------- keep and discard

  /** Everything but how often a row was rewritten. */
  function Settled(sys: System, r: Id): System {
    if r in sys.store.runs
    then sys.(store := sys.store.(runs := sys.store.runs[r := sys.store.runs[r].(revision := 0)]))
    else sys
  }

  predicate Cleans(c: Command, r: Id) {
    c == KeepRun(r) || c == DiscardRun(r)
  }

  /** A keep that comes first counts once; a discard anywhere counts once. */
  function Canonical(cs: seq<Command>, r: Id): seq<Command> {
    (if |cs| > 0 && cs[0] == KeepRun(r) then [KeepRun(r)] else []) +
    (if DiscardRun(r) in cs then [DiscardRun(r)] else [])
  }

  lemma ServeTwo(sys: System, a: seq<Command>, c: Command)
    ensures ServeAll(sys, a + [c]) == Serve(ServeAll(sys, a), c)
  {
    assert (a + [c])[..|a|] == a;
  }

  /** Serving a keep or a discard does not look at revisions. */
  lemma ServeSettled(a: System, b: System, c: Command, r: Id)
    requires Cleans(c, r) && Settled(a, r) == Settled(b, r)
    requires r in a.store.runs && r in b.store.runs
    ensures Settled(Serve(a, c), r) == Settled(Serve(b, c), r)
    ensures r in Serve(a, c).store.runs && r in Serve(b, c).store.runs
  {
    SettledMeans(a, b, r);
    hide Settled;
    if c == KeepRun(r) {
      KeepSettled(a, b, r);
    } else {
      DiscardSettled(a, b, r);
    }
  }

  /** `b` is `a` up to one revision. */
  predicate Alike(a: System, b: System, r: Id) {
    && r in a.store.runs && r in b.store.runs
    && b == a.(store := a.store.(runs := b.store.runs)) && b.store.runs == a.store.runs[r := b.store.runs[r]]
    && a.store.runs[r].(revision := 0) == b.store.runs[r].(revision := 0)
  }

  lemma AlikeSettles(a: System, b: System, r: Id)
    requires Alike(a, b, r)
    ensures Settled(a, r) == Settled(b, r)
  {
    assert Settled(a, r).store.runs == Settled(b, r).store.runs;
  }

  lemma AlikeMessage(a: System, b: System, r: Id)
    requires Alike(a, b, r)
    ensures PartialMessage(a.store, r) == PartialMessage(b.store, r)
  {
    hide NextSequence;
  }

  lemma KeepSettled(a: System, b: System, r: Id)
    requires Alike(a, b, r)
    ensures var c := KeepRun(r);
      && Settled(Serve(a, c), r) == Settled(Serve(b, c), r) && r in Serve(a, c).store.runs && r in Serve(b, c).store.runs
  {
    AlikeMessage(a, b, r);
    hide PartialMessage, Settled;
    AlikeSettles(Serve(a, KeepRun(r)), Serve(b, KeepRun(r)), r);
  }

  lemma DiscardSettled(a: System, b: System, r: Id)
    requires Alike(a, b, r)
    ensures var c := DiscardRun(r);
      && Settled(Serve(a, c), r) == Settled(Serve(b, c), r) && r in Serve(a, c).store.runs && r in Serve(b, c).store.runs
  {
    hide PartialMessage, Settled, DropEvents;
    AlikeSettles(Serve(a, DiscardRun(r)), Serve(b, DiscardRun(r)), r);
  }

  /** Systems that settle alike differ only in one revision. */
  lemma SettledMeans(a: System, b: System, r: Id)
    requires Settled(a, r) == Settled(b, r) && r in a.store.runs && r in b.store.runs
    ensures b == a.(store := a.store.(runs := b.store.runs))
    ensures b.store.runs == a.store.runs[r := b.store.runs[r]]
    ensures a.store.runs[r].(revision := 0) == b.store.runs[r].(revision := 0)
  {
    var x, y := Settled(a, r).store.runs, Settled(b, r).store.runs;
    assert x[r] == y[r];
    forall q | q in a.store.runs || q in b.store.runs
      ensures q in a.store.runs && q in b.store.runs && (q != r ==> a.store.runs[q] == b.store.runs[q])
    {
      assert q in x <==> q in y;
      assert q != r ==> x[q] == y[q];
    }
  }

  /** Once kept, or once discarded, keeping again changes nothing. */
  lemma KeepAgain(sys: System, r: Id)
    requires r in sys.store.runs && (sys.store.runs[r].messageId.Some? || sys.store.runs[r].partialLength == 0)
    ensures Serve(sys, KeepRun(r)) == sys
  {
  }

  /** A second discard only bumps the revision. */
  lemma DiscardAgain(sys: System, r: Id)
    requires r in sys.store.runs
    ensures Settled(Serve(Serve(sys, DiscardRun(r)), DiscardRun(r)), r) == Settled(Serve(sys, DiscardRun(r)), r)
  {
    var once := Serve(sys, DiscardRun(r));
    var twice := Serve(once, DiscardRun(r));
    assert twice.store.events == once.store.events;
    assert Settled(twice, r).store.runs == Settled(once, r).store.runs;
  }

  /** What a list of keeps and discards leaves. */
  lemma {:induction false} CleanedState(sys: System, r: Id, cs: seq<Command>)
    requires r in sys.store.runs && IsRecoverable(sys.store.runs[r].status)
    requires forall i :: 0 <= i < |cs| ==> Cleans(cs[i], r)
    ensures var t := ServeAll(sys, cs).store;
      && r in t.runs && t.runs[r].status == sys.store.runs[r].status
      && (cs != [] && cs[0] == KeepRun(r) ==> t.runs[r].messageId.Some? || t.runs[r].partialLength == 0)
      && (DiscardRun(r) in cs ==> t.runs[r].partialLength == 0 && t.events == DropEvents(t.events, {r}))
  {
    hide Serve, ServeAll, DropEvents;
    assert ServeAll(sys, []) == sys by { ServeNone(sys); }
    if cs != [] {
      var init, last := cs[..|cs| - 1], cs[|cs| - 1];
      CleanedState(sys, r, init);
      assert cs == init + [last];
      ServeTwo(sys, init, last);
      CleanOne(ServeAll(sys, init), last, r);
    }
  }

  lemma ServeNone(sys: System)
    ensures ServeAll(sys, []) == sys
  {
  }

  lemma CleanOne(sys: System, c: Command, r: Id)
    requires Cleans(c, r) && r in sys.store.runs && IsRecoverable(sys.store.runs[r].status)
    ensures var s, t := sys.store, Serve(sys, c).store;
      && r in t.runs && t.runs[r].status == s.runs[r].status
      && (s.runs[r].messageId.Some? ==> t.runs[r].messageId.Some?)
      && (s.runs[r].partialLength == 0 ==> t.runs[r].partialLength == 0)
      && (if c.KeepRun? then t.events == s.events && (t.runs[r].messageId.Some? || t.runs[r].partialLength == 0)
          else t.runs[r].partialLength == 0 && t.events == DropEvents(t.events, {r}))
  {
    hide PartialMessage;
  }

  /**
   * Keep and discard are idempotent in any order: any list of them leaves, up to the revision
   * counter, what its first keep and one discard leave.
   */
  lemma {:induction false} KeepDiscardSettle(sys: System, r: Id, cs: seq<Command>)
    requires r in sys.store.runs && IsRecoverable(sys.store.runs[r].status)
    requires forall i :: 0 <= i < |cs| ==> Cleans(cs[i], r)
    ensures Settled(ServeAll(sys, cs), r) == Settled(ServeAll(sys, Canonical(cs, r)), r)
  {
    hide Serve, ServeAll, Settled;
    if cs != [] {
      var init, last := cs[..|cs| - 1], cs[|cs| - 1];
      var canon := Canonical(init, r);
      assert cs == init + [last];
      KeepDiscardSettle(sys, r, init);
      ServeTwo(sys, init, last);
      CleanedState(sys, r, init);
      CleanedState(sys, r, canon);
      ServeSettled(ServeAll(sys, init), ServeAll(sys, canon), last, r);
      ServeTwo(sys, canon, last);
      assert Settled(ServeAll(sys, cs), r) == Settled(ServeAll(sys, canon + [last]), r);
      if init == [] {
        assert Canonical(cs, r) == [last];
        assert canon == [];
      } else if last.KeepRun? {
        assert Canonical(cs, r) == canon;
        KeepAfter(sys, r, init, canon);
      } else if DiscardRun(r) in init {
        var first := if init[0] == KeepRun(r) then [KeepRun(r)] else [];
        assert canon == first + [DiscardRun(r)] == Canonical(cs, r);
        ServeTwo(sys, first, DiscardRun(r));
        CleanedState(sys, r, first);
        DiscardAgain(ServeAll(sys, first), r);
      } else {
        assert Canonical(cs, r) == canon + [last];
      }
    }
  }

  lemma KeepAfter(sys: System, r: Id, init: seq<Command>, canon: seq<Command>)
    requires r in sys.store.runs && IsRecoverable(sys.store.runs[r].status)
    requires init != [] && (forall i :: 0 <= i < |init| ==> Cleans(init[i], r)) && canon == Canonical(init, r)
    ensures ServeAll(sys, canon + [KeepRun(r)]) == ServeAll(sys, canon)
  {
    hide Serve, ServeAll, DropEvents;
    ServeTwo(sys, canon, KeepRun(r));
    CleanedState(sys, r, canon);
    assert init[0] == KeepRun(r) || init[0] == DiscardRun(r);
    KeepAgain(ServeAll(sys, canon), r);
  }

  // ---------------------------------------------------------------- a batch served while a run is driven

  /** What one drained batch does to the row the executor is driving. */
  function ServedRow(row: Run, cs: seq<Command>, r: Id): Run {
    if CancelRun(r) in cs && !row.status.Cancelling?
    then row.(status := Cancelling, cancelRequested := true, revision := row.revision + 1)
    else row
  }

  /** Serving a command keeps the invariant, never starts a run, and leaves the executor in place. */
  lemma ServeKeepsInv(sys: System, c: Command)
    requires Inv(sys)
    ensures var t := Serve(sys, c);
      Inv(t) && t.active == sys.active && sys.nextId <= t.nextId && t.store.runs.Keys <= sys.store.runs.Keys
  {
    var step := StepOf(sys.store, c);
    if step.Some? {
      StepKeepsInv(sys, step.value);
    }
  }

  /** One command, seen from a driven run that stays. */
  lemma ServeOneDriven(sys: System, c: Command, r: Id)
    requires Inv(sys) && Driven(sys, r)
    ensures var t := Serve(sys, c); var ch := sys.store.chats[sys.store.runs[r].chat];
      if c == RemoveCharacter(ch) then r !in t.store.runs
      else
        && Driven(t, r)
        && t.store.runs[r] == ServedRow(sys.store.runs[r], [c], r)
        && t.store.runs[r].chat in t.store.chats && t.store.chats[t.store.runs[r].chat] == ch
        && Log(t.store, r) == Log(sys.store, r)
  {
    RunOf(sys, r);
    var step := StepOf(sys.store, c);
    if step.Some? {
      ServedDriven(sys, c, r);
      if r in Serve(sys, c).store.runs {
        hide Enabled, Carried, Inv, RunInv, Log, Apply, Kept, Discarded, MessageInv;
        OtherCarried(sys, step.value, r);
        CarriedLog(sys.store, Serve(sys, c).store, r);
      }
    }
  }

  /** The same for the row alone. */
  lemma ServedDriven(sys: System, c: Command, r: Id)
    requires RefInv(sys) && Driven(sys, r) && StepOf(sys.store, c).Some? && sys.store.runs[r].chat in sys.store.chats
    requires r < sys.nextId
    ensures Subject(StepOf(sys.store, c).value) != Some(r)
    ensures var t := Serve(sys, c); var ch := sys.store.chats[sys.store.runs[r].chat];
      if c == RemoveCharacter(ch) then r !in t.store.runs
      else
        && Driven(t, r)
        && t.store.runs[r] == ServedRow(sys.store.runs[r], [c], r)
        && t.store.runs[r].chat in t.store.chats && t.store.chats[t.store.runs[r].chat] == ch
  {
    hide RefInv, PartialMessage, DropEvents, PutDelta, EndRun, CompleteStore, RecoverStale;
  }

  /** `t` is `sys` after `cs`, as far as the driven run `r` goes. */
  ghost predicate DrivenOn(sys: System, t: System, cs: seq<Command>, r: Id)
    requires Driven(sys, r) && sys.store.runs[r].chat in sys.store.chats
  {
    var ch := sys.store.chats[sys.store.runs[r].chat];
    if RemoveCharacter(ch) in cs then r !in t.store.runs
    else
      && Driven(t, r)
      && t.store.runs[r] == ServedRow(sys.store.runs[r], cs, r)
      && t.store.runs[r].chat in t.store.chats && t.store.chats[t.store.runs[r].chat] == ch
      && Log(t.store, r) == Log(sys.store, r)
  }

  lemma DrivenOnStep(sys: System, mid: System, cs: seq<Command>, c: Command, r: Id)
    requires Driven(sys, r) && sys.store.runs[r].chat in sys.store.chats && DrivenOn(sys, mid, cs, r)
    requires Inv(mid) && Serve(mid, c).store.runs.Keys <= mid.store.runs.Keys
    ensures DrivenOn(sys, Serve(mid, c), cs + [c], r)
  {
    hide Serve, Inv, Log;
    if r in mid.store.runs {
      ServeOneDriven(mid, c, r);
      hide ServedRow;
      ServedTwice(sys.store.runs[r], cs, c, r);
    }
  }

  lemma DrivenOnNothing(sys: System, r: Id)
    requires Driven(sys, r) && sys.store.runs[r].chat in sys.store.chats
    ensures DrivenOn(sys, sys, [], r)
  {
    hide Log;
  }

  /** No command a drain serves can touch the log of the driven run; a cancel marks its row once. */
  lemma {:induction false} ServeDriven(sys: System, cs: seq<Command>, r: Id)
    requires Inv(sys) && Driven(sys, r)
    ensures sys.store.runs[r].chat in sys.store.chats
    ensures Inv(ServeAll(sys, cs)) && ServeAll(sys, cs).active == sys.active
    ensures DrivenOn(sys, ServeAll(sys, cs), cs, r)
  {
    assert sys.store.runs[r].chat in sys.store.chats by { assert RunInv(sys.store, r); }
    ServeNone(sys);
    hide ServeAll, Serve, Inv, DrivenOn, Driven;
    if cs == [] {
      DrivenOnNothing(sys, r);
    } else {
      var init, c := cs[..|cs| - 1], cs[|cs| - 1];
      FrontAndLast(cs);
      ServeTwo(sys, init, c);
      ServeDriven(sys, init, r);
      ServeKeepsInv(ServeAll(sys, init), c);
      DrivenOnStep(sys, ServeAll(sys, init), init, c, r);
    }
  }

  lemma ServedTwice(row: Run, cs: seq<Command>, c: Command, r: Id)
    ensures ServedRow(ServedRow(row, cs, r), [c], r) == ServedRow(row, cs + [c], r)
  {
  }
}
