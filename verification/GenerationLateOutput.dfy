/**
 * Adapters that go on emitting whatever they are told: which of their deltas are committed. A stop only
 * binds the adapter; the bridge looks at each delta afresh.
 */
module GenerationLateOutput {
  import opened Base
  import opened Text
  import opened GenerationLog
  import opened GenerationModel
  import opened GenerationProofs
  import opened GenerationRuns
  import opened GenerationOps
  import opened GenerationKernel
  import opened GenerationExecutor

  /** The character has been deleted by one of the first `n` drains of the adapter. */
  predicate Gone(bs: seq<seq<Command>>, n: nat, ch: Id) {
    exists j :: 1 <= j <= n && RemoveCharacter(ch) in Batch(bs, j)
  }

  /** A cancel has been served by the first drain or one of the first `n` drains of the adapter. */
  predicate Cancelled(bs: seq<seq<Command>>, n: nat, r: Id) {
    exists j :: 0 <= j <= n && CancelRun(r) in Batch(bs, j)
  }

  /** Delta `k` is committed: the run is still there and uncancelled, its drain saw no shutdown, and it is short enough. */
  predicate Commits(bs: seq<seq<Command>>, text: string, k: nat, r: Id, ch: Id) {
    !Gone(bs, k + 1, ch) && !Cancelled(bs, k + 1, r) && Shutdown !in Batch(bs, k + 1) && Utf16Len(text) <= MAX_DELTA_UNITS
  }

  /** The committed ones of the emitted `texts`. */
  function Accepted(bs: seq<seq<Command>>, texts: seq<string>, r: Id, ch: Id): seq<string> {
    if texts == [] then []
    else
      var k := |texts| - 1;
      Accepted(bs, texts[..k], r, ch) + if Commits(bs, texts[k], k, r, ch) then [texts[k]] else []
  }

  /** After a cancel nothing is committed, however long the adapter goes on. */
  lemma {:induction false} NothingAfterCancel(bs: seq<seq<Command>>, texts: seq<string>, k: nat, r: Id, ch: Id)
    requires k <= |texts| && Cancelled(bs, k + 1, r)
    ensures Accepted(bs, texts, r, ch) == Accepted(bs, texts[..k], r, ch)
  {
    if k == |texts| {
      assert texts[..k] == texts;
    } else {
      var init := texts[..|texts| - 1];
      assert init[..k] == texts[..k];
      NothingAfterCancel(bs, init, k, r, ch);
      var j :| 0 <= j <= k + 1 && CancelRun(r) in Batch(bs, j);
      assert Cancelled(bs, |texts|, r);
    }
  }

  /** Nor after the deletion of the character. */
  lemma {:induction false} NothingAfterRemoval(bs: seq<seq<Command>>, texts: seq<string>, k: nat, r: Id, ch: Id)
    requires k <= |texts| && Gone(bs, k + 1, ch)
    ensures Accepted(bs, texts, r, ch) == Accepted(bs, texts[..k], r, ch)
  {
    if k == |texts| {
      assert texts[..k] == texts;
    } else {
      var init := texts[..|texts| - 1];
      assert init[..k] == texts[..k];
      NothingAfterRemoval(bs, init, k, r, ch);
      var j :| 1 <= j <= k + 1 && RemoveCharacter(ch) in Batch(bs, j);
      assert Gone(bs, |texts|, ch);
    }
  }

  /** Before the first stop every delta is committed; so an adapter that stops when told to leaves a prefix of its output. */
  lemma {:induction false} PromptAdapterLeavesPrefix(f: Flow, bs: seq<seq<Command>>, texts: seq<string>, n: nat, r: Id, ch: Id)
    requires Emits(f, bs, texts, r, ch) && n <= |texts| && n <= f.deltas + 1
    ensures Accepted(bs, texts[..n], r, ch) == if n <= f.deltas then texts[..n] else texts[..f.deltas]
  {
    hide Accepted, Emits, Commits;
    if n <= f.deltas {
      AllBefore(f, bs, texts, n, r, ch);
    } else {
      AllBefore(f, bs, texts, f.deltas, r, ch);
      FirstInterruption(f, bs, texts, r, ch);
      Base.TakeMore(texts, f.deltas);
      AcceptedMore(bs, texts[..f.deltas], texts[f.deltas], texts[..n], r, ch);
    }
  }

  lemma {:induction false} AllBefore(f: Flow, bs: seq<seq<Command>>, texts: seq<string>, n: nat, r: Id, ch: Id)
    requires Emits(f, bs, texts, r, ch) && n <= f.deltas && n <= |texts|
    ensures Accepted(bs, texts[..n], r, ch) == texts[..n]
  {
    if n > 0 {
      hide Accepted, Emits, Commits;
      AllBefore(f, bs, texts, n - 1, r, ch);
      UninterruptedCommits(f, bs, texts, n - 1, r, ch);
      Base.TakeMore(texts, n - 1);
      AllMore(bs, texts[..n - 1], texts[n - 1], texts[..n], r, ch);
    }
  }

  lemma AllMore(bs: seq<seq<Command>>, front: seq<string>, text: string, more: seq<string>, r: Id, ch: Id)
    requires more != [] && more[..|more| - 1] == front && more[|more| - 1] == text && more == front + [text]
    requires Accepted(bs, front, r, ch) == front && Commits(bs, text, |front|, r, ch)
    ensures Accepted(bs, more, r, ch) == more
  {
    hide *;
    AcceptedMore(bs, front, text, more, r, ch);
  }

  lemma FirstInterruption(f: Flow, bs: seq<seq<Command>>, texts: seq<string>, r: Id, ch: Id)
    requires Emits(f, bs, texts, r, ch) && f.deltas < |texts|
    ensures !Commits(bs, texts[f.deltas], f.deltas, r, ch)
  {
    hide Commits;
    InterruptedDoesNot(bs, texts[f.deltas], f.deltas, r, ch);
  }

  lemma UninterruptedCommits(f: Flow, bs: seq<seq<Command>>, texts: seq<string>, k: nat, r: Id, ch: Id)
    requires Emits(f, bs, texts, r, ch) && k < f.deltas
    ensures Commits(bs, texts[k], k, r, ch)
  {
    hide Utf16Len, Batch;
    forall j: nat | 1 <= j <= k + 1 ensures RemoveCharacter(ch) !in Batch(bs, j) && CancelRun(r) !in Batch(bs, j) {
      assert Interruption(bs, texts[j - 1], j - 1, r, ch) == AtEnd;
    }
    assert Interruption(bs, texts[0], 0, r, ch) == AtEnd;
    assert Interruption(bs, texts[k], k, r, ch) == AtEnd;
    assert forall j: nat :: 0 <= j <= k + 1 ==> j == 0 || CancelRun(r) !in Batch(bs, j);
  }

  lemma InterruptedDoesNot(bs: seq<seq<Command>>, text: string, k: nat, r: Id, ch: Id)
    requires Interruption(bs, text, k, r, ch) != AtEnd
    ensures !Commits(bs, text, k, r, ch)
  {
    hide Utf16Len, Batch;
    assert RemoveCharacter(ch) in Batch(bs, k + 1) ==> Gone(bs, k + 1, ch);
    assert CancelRun(r) in Batch(bs, k + 1) ==> Cancelled(bs, k + 1, r);
    assert CancelRun(r) in Batch(bs, 0) ==> Cancelled(bs, k + 1, r);
  }

  /**
   * A later delta can still be committed after a stop: exactly when all the stops so far were for
   * shutdowns or oversized deltas, and neither stands in the way of this one.
   */
  lemma LateDeltaCommits(bs: seq<seq<Command>>, texts: seq<string>, k: nat, r: Id, ch: Id)
    requires k < |texts|
    ensures Commits(bs, texts[k], k, r, ch) <==>
      && Interruption(bs, texts[k], k, r, ch) == AtEnd
      && CancelRun(r) !in Batch(bs, 0)
      && forall j: nat :: 1 <= j <= k ==> RemoveCharacter(ch) !in Batch(bs, j) && CancelRun(r) !in Batch(bs, j)
  {
    hide Utf16Len, Batch;
    var n: nat := k + 1;
    if Commits(bs, texts[k], k, r, ch) {
      assert CancelRun(r) in Batch(bs, 0) ==> Cancelled(bs, n, r);
      assert CancelRun(r) in Batch(bs, n) ==> Cancelled(bs, n, r);
      assert RemoveCharacter(ch) in Batch(bs, n) ==> Gone(bs, n, ch);
      forall j: nat | 1 <= j <= k ensures RemoveCharacter(ch) !in Batch(bs, j) && CancelRun(r) !in Batch(bs, j) {
        assert RemoveCharacter(ch) in Batch(bs, j) ==> Gone(bs, n, ch);
        assert CancelRun(r) in Batch(bs, j) ==> Cancelled(bs, n, r);
      }
    }
    if Gone(bs, k + 1, ch) {
      var j: nat :| 1 <= j <= k + 1 && RemoveCharacter(ch) in Batch(bs, j);
      assert j <= k || j == k + 1;
    }
    if Cancelled(bs, k + 1, r) {
      var j: nat :| 0 <= j <= k + 1 && CancelRun(r) in Batch(bs, j);
      assert j == 0 || j <= k || j == k + 1;
    }
  }

  /** An oversized delta between two short ones leaves a gap: what is committed is no prefix of the output. */
  lemma OversizeLeavesGap(a: string, long: string, b: string, r: Id, ch: Id)
    requires Utf16Len(a) <= MAX_DELTA_UNITS < Utf16Len(long) && Utf16Len(b) <= MAX_DELTA_UNITS
    ensures Accepted([], [a] + [long] + [b], r, ch) == [a] + [b]
    ensures !([a] + [b] <= [a] + [long] + [b])
  {
    NotThatPrefix(a, long, b);
    Undisturbed(a, 0, r, ch);
    Undisturbed(long, 1, r, ch);
    Undisturbed(b, 2, r, ch);
    OneMore([], [], a, r, ch);
    OneMore([], [a], long, r, ch);
    OneMore([], [a] + [long], b, r, ch);
    hide Accepted, Commits, Utf16Len;
    assert [] + [a] == [a] && Accepted([], [], r, ch) == [] by { Nothing(r, ch); }
  }

  lemma Nothing(r: Id, ch: Id)
    ensures Accepted([], [], r, ch) == []
  {
  }

  lemma NotThatPrefix(a: string, long: string, b: string)
    requires long != b
    ensures !([a] + [b] <= [a] + [long] + [b])
  {
    assert ([a] + [b])[1] == b && ([a] + [long] + [b])[1] == long;
  }

  /** Without commands only the length counts. */
  lemma Undisturbed(text: string, k: nat, r: Id, ch: Id)
    ensures Commits([], text, k, r, ch) <==> Utf16Len(text) <= MAX_DELTA_UNITS
  {
    hide Utf16Len;
  }

  lemma OneMore(bs: seq<seq<Command>>, texts: seq<string>, text: string, r: Id, ch: Id)
    ensures Accepted(bs, texts + [text], r, ch) ==
      Accepted(bs, texts, r, ch) + if Commits(bs, text, |texts|, r, ch) then [text] else []
  {
    hide Commits;
    assert (texts + [text])[..|texts|] == texts;
  }

  lemma NoneYet(bs: seq<seq<Command>>, r: Id, ch: Id)
    ensures !Gone(bs, 0, ch) && (Cancelled(bs, 0, r) <==> CancelRun(r) in Batch(bs, 0))
    ensures Accepted(bs, [], r, ch) == []
  {
    hide Batch;
  }

  lemma OneMoreDrain(bs: seq<seq<Command>>, n: nat, r: Id, ch: Id)
    ensures Gone(bs, n + 1, ch) <==> Gone(bs, n, ch) || RemoveCharacter(ch) in Batch(bs, n + 1)
    ensures Cancelled(bs, n + 1, r) <==> Cancelled(bs, n, r) || CancelRun(r) in Batch(bs, n + 1)
  {
    hide Batch;
    if Gone(bs, n, ch) {
      var j :| 1 <= j <= n && RemoveCharacter(ch) in Batch(bs, j);
      assert Gone(bs, n + 1, ch);
    }
    if Cancelled(bs, n, r) {
      var j :| 0 <= j <= n && CancelRun(r) in Batch(bs, j);
      assert Cancelled(bs, n + 1, r);
    }
  }

  lemma AcceptedMore(bs: seq<seq<Command>>, front: seq<string>, text: string, more: seq<string>, r: Id, ch: Id)
    requires more != [] && more[..|more| - 1] == front && more[|more| - 1] == text
    ensures Accepted(bs, more, r, ch) ==
      if Commits(bs, text, |front|, r, ch) then Accepted(bs, front, r, ch) + [text] else Accepted(bs, front, r, ch)
  {
    hide *;
    AcceptedUnfolds(bs, more, r, ch);
  }

  lemma AcceptedUnfolds(bs: seq<seq<Command>>, texts: seq<string>, r: Id, ch: Id)
    requires texts != []
    ensures var k := |texts| - 1;
      Accepted(bs, texts, r, ch) == Accepted(bs, texts[..k], r, ch) + if Commits(bs, texts[k], k, r, ch) then [texts[k]] else []
  {
    hide Commits;
  }

  // ---------------------------------------------------------------- the code

  lemma {:induction false} ServeAllKeeps(sys: System, cs: seq<Command>)
    requires Inv(sys)
    ensures var t := ServeAll(sys, cs);
      Inv(t) && t.active == sys.active && t.store.runs.Keys <= sys.store.runs.Keys
  {
    hide Inv, Serve;
    if cs != [] {
      ServeAllKeeps(sys, cs[..|cs| - 1]);
      ServeKeepsInv(ServeAll(sys, cs[..|cs| - 1]), cs[|cs| - 1]);
    }
  }

  /**
   * The bridge between two calls: what is committed, whether a cancel was served and whether its status
   * still stands, whether the run is gone, whether the row it last read is the current one, and
   * whether it has seen a shutdown or an error.
   */
  datatype Bridge = Bridge(kept: seq<string>, asked: bool, cancelling: bool, gone: bool, current: bool, stopped: bool, failed: bool)

  /** The same after one more call, which drains `batch`. */
  function After(b: Bridge, batch: seq<Command>, text: string, r: Id, ch: Id): Bridge {
    var cancel := CancelRun(r) in batch;
    var drained := b.(asked := b.asked || cancel, cancelling := b.cancelling || cancel, gone := b.gone || RemoveCharacter(ch) in batch);
    if Shutdown in batch then drained.(stopped := true, current := b.current && (b.cancelling || !cancel))
    else if drained.gone then drained.(failed := true)
    else if drained.asked then drained.(current := true)
    else if Utf16Len(text) > MAX_DELTA_UNITS then drained.(current := true, failed := true)
    else drained.(current := true, kept := b.kept + [text])
  }

  function AllAfter(bs: seq<seq<Command>>, texts: seq<string>, r: Id, ch: Id): Bridge {
    if texts == [] then Bridge([], CancelRun(r) in Batch(bs, 0), false, false, true, false, false)
    else After(AllAfter(bs, texts[..|texts| - 1], r, ch), Batch(bs, |texts|), texts[|texts| - 1], r, ch)
  }

  /** An error is returned for a delta whose run is gone, or which is too long, unless a shutdown or a cancel comes first. */
  predicate Fails(bs: seq<seq<Command>>, text: string, k: nat, r: Id, ch: Id) {
    Shutdown !in Batch(bs, k + 1) &&
    (Gone(bs, k + 1, ch) || (!Cancelled(bs, k + 1, r) && Utf16Len(text) > MAX_DELTA_UNITS))
  }

  /** What the bridge has seen after all calls, call by call. */
  lemma {:induction false} BridgeMeans(bs: seq<seq<Command>>, texts: seq<string>, r: Id, ch: Id)
    ensures var b, n := AllAfter(bs, texts, r, ch), |texts|;
      && b.kept == Accepted(bs, texts, r, ch)
      && (b.gone <==> Gone(bs, n, ch)) && (b.asked <==> Cancelled(bs, n, r))
      && (b.stopped <==> exists j: nat :: 1 <= j <= n && Shutdown in Batch(bs, j))
      && (b.failed <==> exists k: nat :: k < n && Fails(bs, texts[k], k, r, ch))
      && (b.gone ==> b.stopped || b.failed) && (!b.current ==> b.stopped) && (b.cancelling ==> b.asked)
  {
    hide Batch, Gone, Cancelled, Commits, Fails, After;
    if texts == [] {
      NoneYet(bs, r, ch);
      hide After;
    } else {
      var k := |texts| - 1;
      BridgeMeans(bs, texts[..k], r, ch);
      OneMoreDrain(bs, k, r, ch);
      AcceptedUnfolds(bs, texts, r, ch);
      BridgeStep(bs, AllAfter(bs, texts[..k], r, ch), texts[k], k, r, ch);
      StoppedStep(bs, k);
      hide AllAfter, Accepted;
      assert AllAfter(bs, texts, r, ch) == After(AllAfter(bs, texts[..k], r, ch), Batch(bs, k + 1), texts[k], r, ch) by { BridgeUnfolds(bs, texts, r, ch); }
      FailedStep(bs, texts, k, r, ch);
    }
  }

  lemma BridgeUnfolds(bs: seq<seq<Command>>, texts: seq<string>, r: Id, ch: Id)
    requires texts != []
    ensures AllAfter(bs, texts, r, ch) ==
      After(AllAfter(bs, texts[..|texts| - 1], r, ch), Batch(bs, |texts|), texts[|texts| - 1], r, ch)
  {
    hide After, Batch;
  }

  lemma StoppedStep(bs: seq<seq<Command>>, k: nat)
    ensures (exists j: nat :: 1 <= j <= k + 1 && Shutdown in Batch(bs, j)) <==>
      (exists j: nat :: 1 <= j <= k && Shutdown in Batch(bs, j)) || Shutdown in Batch(bs, k + 1)
  {
    hide Batch;
    if j: nat :| 1 <= j <= k + 1 && Shutdown in Batch(bs, j) {
      assert j <= k || j == k + 1;
    }
  }

  lemma FailedStep(bs: seq<seq<Command>>, texts: seq<string>, k: nat, r: Id, ch: Id)
    requires |texts| == k + 1
    ensures (exists j: nat :: j < k + 1 && Fails(bs, texts[j], j, r, ch)) <==>
      (exists j: nat :: j < k && Fails(bs, texts[..k][j], j, r, ch)) || Fails(bs, texts[k], k, r, ch)
  {
    hide Fails;
    if j: nat :| j < k + 1 && Fails(bs, texts[j], j, r, ch) {
      assert j < k ==> texts[..k][j] == texts[j];
    }
    if j: nat :| j < k && Fails(bs, texts[..k][j], j, r, ch) {
      assert texts[..k][j] == texts[j];
    }
  }

  /** One call, in terms of what has been served so far. */
  lemma BridgeStep(bs: seq<seq<Command>>, b: Bridge, text: string, k: nat, r: Id, ch: Id)
    requires (b.gone <==> Gone(bs, k, ch)) && (b.asked <==> Cancelled(bs, k, r)) && (b.cancelling ==> b.asked)
    requires (b.gone ==> b.stopped || b.failed) && (!b.current ==> b.stopped)
    ensures var c := After(b, Batch(bs, k + 1), text, r, ch);
      && c.kept == (if Commits(bs, text, k, r, ch) then b.kept + [text] else b.kept)
      && (c.gone <==> Gone(bs, k + 1, ch)) && (c.asked <==> Cancelled(bs, k + 1, r))
      && (c.stopped <==> b.stopped || Shutdown in Batch(bs, k + 1))
      && (c.failed <==> b.failed || Fails(bs, text, k, r, ch))
      && (c.gone ==> c.stopped || c.failed) && (!c.current ==> c.stopped) && (c.cancelling ==> c.asked)
  {
    OneMoreDrain(bs, k, r, ch);
    hide Batch, Gone, Cancelled, Utf16Len;
  }

  /** The row of the run, and what the bridge last read of it, are as `b` says. */
  ghost predicate Tracks(sys: System, b: Bridge, seen: Run, r: Id, who: Run, ch: Id) {
    && sys.active == Some(r) && (r in sys.store.runs <==> !b.gone)
    && (b.cancelling ==> b.asked) && SameIdentity(who, seen)
    && (r in sys.store.runs ==>
          var row := sys.store.runs[r];
          && Running(sys, r, who, ch, b.kept) && row.cancelRequested == b.asked
          && (if b.cancelling then row.status.Cancelling? else row.status.Streaming?)
          && row.lease.Some? && Seen(seen, row) && (seen == row <==> b.current))
  }

  /** What a call for a run that is there leaves. */
  lemma TracksOn(sys: System, t: System, b: Bridge, batch: seq<Command>, text: string, seen: Run, run: Run,
                 status: EmitStatus, r: Id, who: Run, ch: Id)
    requires Tracks(sys, b, seen, r, who, ch) && r in sys.store.runs && status == Emitted(batch, r, ch, sys.store.runs[r], text)
    requires t.active == Some(r) && (r !in t.store.runs <==> RemoveCharacter(ch) in batch)
    requires status == Stop(AtShutdown) || r !in t.store.runs ==> run == seen
    requires r in t.store.runs ==>
      && Running(t, r, who, ch, if status.Continue? then b.kept + [text] else b.kept)
      && (status != Stop(AtShutdown) ==> run == t.store.runs[r])
      && (status.Continue? ==> run.status.Streaming? && !run.cancelRequested && run.lease.Some?)
      && (status.Stop? ==> t.store.runs[r] == ServedRow(sys.store.runs[r], batch, r))
    ensures Tracks(t, After(b, batch, text, r, ch), run, r, who, ch)
  {
    hide Deltas, Utf16Len;
  }

  /** One call of the bridge, whatever came before. */
  method EmitAgain(db: Kernel, r: Id, seen: Run, text: string, emitted: nat, batch: seq<Command>, ghost b: Bridge, ghost who: Run, ghost ch: Id)
    returns (status: EmitStatus, run: Run)
    requires db.Valid() && Tracks(db.Sys(), b, seen, r, who, ch) && emitted == |b.kept|
    modifies db
    ensures db.Valid() && unchanged(db`origin) && old(db.history) <= db.history
    ensures Tracks(db.Sys(), After(b, batch, text, r, ch), run, r, who, ch)
    ensures var c := After(b, batch, text, r, ch);
      && (c.kept == if status.Continue? then b.kept + [text] else b.kept)
      && (status == Stop(AtShutdown) <==> Shutdown in batch)
      && (c.failed <==> b.failed || status == Stop(AtOversize) || status == Stop(AtRemoval))
    ensures Committed(db.history, r) == old(Committed(db.history, r)) + if status.Continue? then [text] else []
    ensures db.notices == old(db.notices) + if status.Continue? then [CommittedTo(emitted + 1 + (emitted + 1) / 4 - 1)] else []
  {
    hide Inv, Kernel.Traced, ServeAll, Committed, Deltas, Utf16Len, Running;
    if r in db.runs {
      ghost var before := db.Sys();
      status, run := Emit(db, r, seen, text, emitted, batch, who, ch, b.kept);
      TracksOn(before, db.Sys(), b, batch, text, seen, run, status, r, who, ch);
      return;
    }
    db.Sound();
    ServeAllKeeps(db.Sys(), batch);
    var stop := Drain(db, batch);
    return Stop(if stop then AtShutdown else AtRemoval), seen;
  }

  /**
   * All the calls of the bridge for an adapter that emits `texts` regardless, from the first delta on:
   * exactly the accepted ones are committed and announced, in order. `run` is the row last read,
   * `stopped` and `failed` what the calls have come across.
   */
  method EmitAll(db: Kernel, r: Id, loaded: Run, bs: seq<seq<Command>>, texts: seq<string>, ghost who: Run, ghost ch: Id)
    returns (run: Run, stopped: bool, failed: bool)
    requires db.Valid() && Running(db.Sys(), r, who, ch, [])
    requires r in db.runs && loaded == db.runs[r] && loaded.status.Streaming? && loaded.lease.Some?
    requires loaded.cancelRequested <==> CancelRun(r) in Batch(bs, 0)
    modifies db
    ensures db.Valid() && unchanged(db`origin) && old(db.history) <= db.history
    ensures Tracks(db.Sys(), AllAfter(bs, texts, r, ch), run, r, who, ch)
    ensures stopped == AllAfter(bs, texts, r, ch).stopped && failed == AllAfter(bs, texts, r, ch).failed
    ensures Committed(db.history, r) == old(Committed(db.history, r)) + Accepted(bs, texts, r, ch)
    ensures db.notices == old(db.notices) + Progress(|Accepted(bs, texts, r, ch)|)
  {
    hide Inv, Kernel.Traced, Kernel.Valid, Committed, Deltas, Running, Batch, After, Tracks, Accepted, AllAfter, Progress;
    BridgeStarts(db.Sys(), loaded, bs, r, who, ch);
    ProgressStarts();
    run, stopped, failed := loaded, false, false;
    var emitted := 0;
    assert texts[..0] == [];
    for i := 0 to |texts|
      invariant db.Valid() && unchanged(db`origin) && old(db.history) <= db.history
      invariant Tracks(db.Sys(), AllAfter(bs, texts[..i], r, ch), run, r, who, ch)
      invariant emitted == |AllAfter(bs, texts[..i], r, ch).kept|
      invariant stopped == AllAfter(bs, texts[..i], r, ch).stopped && failed == AllAfter(bs, texts[..i], r, ch).failed
      invariant Committed(db.history, r) == old(Committed(db.history, r)) + AllAfter(bs, texts[..i], r, ch).kept
      invariant db.notices == old(db.notices) + Progress(emitted)
    {
      ghost var b := AllAfter(bs, texts[..i], r, ch);
      BridgeMore(bs, texts, i, r, ch);
      AfterMeans(b, Batch(bs, i + 1), texts[i], r, ch);
      ProgressGrows(emitted);
      var status;
      status, run := EmitAgain(db, r, run, texts[i], emitted, Batch(bs, i + 1), b, who, ch);
      match status {
        case Continue => emitted := emitted + 1;
        case Stop(why) =>
          stopped := stopped || why == AtShutdown;
          failed := failed || why == AtOversize || why == AtRemoval;
      }
    }
    assert texts[..|texts|] == texts;
    BridgeMeans(bs, texts, r, ch);
  }

  lemma BridgeStarts(sys: System, loaded: Run, bs: seq<seq<Command>>, r: Id, who: Run, ch: Id)
    requires Running(sys, r, who, ch, []) && loaded == sys.store.runs[r] && loaded.status.Streaming? && loaded.lease.Some?
    requires loaded.cancelRequested <==> CancelRun(r) in Batch(bs, 0)
    ensures var b := AllAfter(bs, [], r, ch);
      Tracks(sys, b, loaded, r, who, ch) && b.kept == [] && !b.stopped && !b.failed
  {
    hide Deltas, Batch;
  }

  lemma BridgeMore(bs: seq<seq<Command>>, texts: seq<string>, i: nat, r: Id, ch: Id)
    requires i < |texts|
    ensures AllAfter(bs, texts[..i + 1], r, ch) == After(AllAfter(bs, texts[..i], r, ch), Batch(bs, i + 1), texts[i], r, ch)
  {
    hide After, Batch, AllAfter;
    Base.TakeMore(texts, i);
    BridgeUnfolds(bs, texts[..i + 1], r, ch);
  }

  lemma AfterMeans(b: Bridge, batch: seq<Command>, text: string, r: Id, ch: Id)
    ensures var c := After(b, batch, text, r, ch);
      && (c.kept == b.kept || c.kept == b.kept + [text])
      && (c.stopped <==> b.stopped || Shutdown in batch)
  {
    hide Utf16Len;
  }

  // ---------------------------------------------------------------- how such an execution ends

  /**
   * What an execution comes to after calls that leave `b`, when the adapter reported `outcome`: an error
   * wins over a shutdown, and both over the report. A shutdown clears the lease exactly if the bridge
   * had read the row as it is.
   */
  ghost predicate Concluded(b: Bridge, outcome: Outcome, r: Id, who: Run, end: ExecEnd, after: Store) {
    if b.failed || b.stopped then
      && end == (if !b.failed then ShutDown else if b.gone then Vanished else Rejected)
      && (r in after.runs <==> !b.gone)
      && (r in after.runs ==>
            && SameIdentity(who, after.runs[r]) && Deltas(after, r) == b.kept && !IsTerminal(after.runs[r].status)
            && after.runs[r].cancelRequested == b.asked
            && (after.runs[r].lease.None? <==> !b.failed && b.current))
    else
      && r in after.runs && SameIdentity(who, after.runs[r]) && Deltas(after, r) == b.kept
      && after.runs[r].cancelRequested == b.asked
      && EndsAs(outcome, r, after.runs[r], end, |b.kept|, Concat(b.kept))
  }

  /** The end of an execution whose adapter is through. */
  method Conclude(db: Kernel, r: Id, run: Run, stopped: bool, failed: bool, outcome: Outcome, ghost b: Bridge, ghost who: Run, ghost ch: Id)
    returns (end: ExecEnd)
    requires db.Valid() && Tracks(db.Sys(), b, run, r, who, ch)
    requires stopped == b.stopped && failed == b.failed
    requires (b.gone ==> b.stopped || b.failed) && (!b.current ==> b.stopped)
    modifies db
    ensures db.Valid() && unchanged(db`origin) && db.active.None? && old(db.history) <= db.history
    ensures Concluded(b, outcome, r, who, end, db.Sys().store)
    ensures db.notices == old(db.notices) + Closing(end)
    ensures Committed(db.history, r) == old(Committed(db.history, r))
  {
    hide Inv, Kernel.Traced, Deltas, Concat, Running, Committed;
    ghost var before := db.Sys();
    if r in db.runs {
      DrivenWhileRunning(db.Sys(), r, who, ch, b.kept);
    }
    if failed {
      Leave(db);
      end := if r in db.runs then Rejected else Vanished;
    } else if stopped {
      LeaveForShutdown(db, r, run, who, ch, b.kept);
      end := ShutDown;
    } else {
      end := Finish(db, r, run, outcome, who, ch, b.kept);
      assert LeftBehind(AtEnd, outcome, r, who, b.kept, run.cancelRequested, false, end, db.Sys().store);
    }
  }

  /** What `ExecuteAny` comes to: as for any adapter when the first drain stops it, otherwise as its calls leave it. */
  ghost predicate ExecutedAny(bs: seq<seq<Command>>, texts: seq<string>, outcome: Outcome, r: Id, who: Run, ch: Id,
                              end: ExecEnd, after: Store, sent: seq<Notice>)
  {
    if Opening(bs, ch) != AtEnd then
      Executed(Flow(0, Opening(bs, ch)), bs, Adapter([], outcome, outcome), r, who, ch, end, after, sent)
    else
      && Concluded(AllAfter(bs, texts, r, ch), outcome, r, who, end, after)
      && sent == Progress(|Accepted(bs, texts, r, ch)|) + Closing(end)
  }

  /**
   * The executor for any adapter at all: `texts` are the deltas it emits in this run, whatever it is
   * told, and `outcome` is what it reports in the end.
   */
  method ExecuteAny(db: Kernel, r: Id, bs: seq<seq<Command>>, texts: seq<string>, outcome: Outcome) returns (end: ExecEnd)
    requires db.Valid() && JustStarted(db.Sys(), r) && db.runs[r].chat in db.chats
    modifies db
    ensures db.Valid() && unchanged(db`origin) && old(db.history) <= db.history && db.active.None?
    ensures old(db.notices) <= db.notices
    ensures ExecutedAny(bs, texts, outcome, r, old(db.runs)[r], old(db.chats)[old(db.runs)[r].chat],
                        end, db.Sys().store, db.notices[|old(db.notices)|..])
    ensures Committed(db.history, r) == old(Committed(db.history, r)) + if Opening(bs, old(db.chats)[old(db.runs)[r].chat]) != AtEnd then []
      else Accepted(bs, texts, r, old(db.chats)[old(db.runs)[r].chat])
  {
    hide Inv, Apply, Kernel.Traced, Kernel.Valid, ServeAll, Running, LeftBehind, Emits, Executed, IsFlow, Removed, Asked, LastBatch;
    hide StoppedBy, Committed, Progress, Closing, Batch, ServedRow, Deltas, Accepted, AllAfter, Concluded, Tracks;
    ghost var who := db.runs[r];
    ghost var ch := db.chats[who.chat];
    var batch := Batch(bs, 0);
    db.Sound();
    FirstDrain(db.Sys(), r, batch);
    ProgressStarts();
    var run := db.runs[r];
    var stop := Drain(db, batch);
    if stop || r !in db.runs {
      var why := if stop then AtShutdown else AtRemoval;
      OpeningStops(Flow(0, why), bs, Adapter([], outcome, outcome), r, who, ch);
      end := WindUp(db, r, run, run, why, outcome, batch, who, ch, []);
      assert db.notices[|old(db.notices)|..] == Progress(0) + Closing(end);
      ExecutedMeans(Flow(0, why), bs, Adapter([], outcome, outcome), r, who, ch, end, db.Sys().store, Progress(0) + Closing(end));
    } else {
      OpeningPasses(bs, ch);
      run := AdvanceTo(db, r, db.runs[r], Preparing, who, ch);
      run := AdvanceTo(db, r, run, Streaming, who, ch);
      var stopped, failed;
      run, stopped, failed := EmitAll(db, r, run, bs, texts, who, ch);
      BridgeMeans(bs, texts, r, ch);
      end := Conclude(db, r, run, stopped, failed, outcome, AllAfter(bs, texts, r, ch), who, ch);
      assert db.notices[|old(db.notices)|..] == Progress(|Accepted(bs, texts, r, ch)|) + Closing(end);
    }
  }
}
