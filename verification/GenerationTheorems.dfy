/** What every execution of a generation run comes to, for any adapter and any commands served meanwhile. */
module GenerationTheorems {
  import opened Base
  import opened Text
  import opened GenerationLog
  import opened GenerationModel
  import opened GenerationProofs
  import opened GenerationRuns
  import opened GenerationOps
  import opened GenerationKernel
  import opened GenerationExecutor

  /** A run that `stream_start` launches is what the executor expects. */
  lemma LaunchedRunsAreFresh(sys: System, step: Step)
    requires Inv(sys) && Enabled(sys, step) && (step.Start? || step.Retry?)
    ensures JustStarted(Apply(sys, step), sys.nextId)
    ensures Log(Apply(sys, step).store, sys.nextId) == []
  {
    hide RunInv;
    if step.Retry? {
      assert sys.store.runs[step.source].chat in sys.store.chats by { RunParts(sys, step.source); }
    }
    hide Inv;
  }

  // ---------------------------------------------------------------- flows

  /** The first index, from `i` on, at which something stops the deltas. */
  function FlowFrom(bs: seq<seq<Command>>, texts: seq<string>, r: Id, ch: Id, i: nat): Flow
    requires i <= |texts|
    decreases |texts| - i
  {
    if i == |texts| then Flow(i, AtEnd)
    else
      var why := Interruption(bs, texts[i], i, r, ch);
      if why.AtEnd? then FlowFrom(bs, texts, r, ch, i + 1) else Flow(i, why)
  }

  lemma {:induction false} FlowFromEmits(bs: seq<seq<Command>>, texts: seq<string>, r: Id, ch: Id, i: nat)
    requires i <= |texts| && forall j :: 0 <= j < i ==> Interruption(bs, texts[j], j, r, ch) == AtEnd
    ensures Emits(FlowFrom(bs, texts, r, ch, i), bs, texts, r, ch)
    decreases |texts| - i
  {
    if i < |texts| && Interruption(bs, texts[i], i, r, ch) == AtEnd {
      FlowFromEmits(bs, texts, r, ch, i + 1);
    }
  }

  /** The commands and the adapter's output determine how many deltas are committed, and why no more. */
  lemma FlowIsDetermined(bs: seq<seq<Command>>, texts: seq<string>, r: Id, ch: Id)
    ensures exists f :: IsFlow(f, bs, texts, r, ch)
    ensures forall f, g :: IsFlow(f, bs, texts, r, ch) && IsFlow(g, bs, texts, r, ch) ==> f == g
  {
    var flow := if Opening(bs, ch) != AtEnd then Flow(0, Opening(bs, ch)) else FlowFrom(bs, texts, r, ch, 0);
    FlowFromEmits(bs, texts, r, ch, 0);
    assert IsFlow(flow, bs, texts, r, ch);
    forall f, g | IsFlow(f, bs, texts, r, ch) && IsFlow(g, bs, texts, r, ch) ensures f == g {
      if Opening(bs, ch) == AtEnd {
        NoneEarlier(f, g, bs, texts, r, ch);
        NoneEarlier(g, f, bs, texts, r, ch);
      }
    }
  }

  lemma NoneEarlier(f: Flow, g: Flow, bs: seq<seq<Command>>, texts: seq<string>, r: Id, ch: Id)
    requires Emits(f, bs, texts, r, ch) && Emits(g, bs, texts, r, ch)
    ensures g.deltas <= f.deltas
  {
    if f.deltas < |texts| {
      assert Interruption(bs, texts[f.deltas], f.deltas, r, ch) != AtEnd;
    }
  }

  // ---------------------------------------------------------------- cancel

  /** No delta is committed after a cancel: one served by drain `k` leaves at most the deltas before it. */
  lemma CancelStopsDeltas(f: Flow, bs: seq<seq<Command>>, texts: seq<string>, r: Id, ch: Id, k: nat)
    requires IsFlow(f, bs, texts, r, ch) && CancelRun(r) in Batch(bs, k)
    ensures f.deltas <= if k == 0 then 0 else k - 1
  {
    if Opening(bs, ch) == AtEnd {
      var bound := if k == 0 then 0 else k - 1;
      if bound < |texts| {
        assert Interruption(bs, texts[bound], bound, r, ch) != AtEnd;
      }
    }
  }

  /**
   * A cancel served by the drain before delta `i`, with nothing stopping the run earlier and neither
   * a shutdown nor a deletion in that drain, ends the run `cancelled` with exactly `i` deltas,
   * for any adapter that reports a cancellation when told to stop.
   */
  lemma CancelIsHonoured(f: Flow, bs: seq<seq<Command>>, adapter: Adapter, r: Id, who: Run, ch: Id,
                         end: ExecEnd, after: Store, sent: seq<Notice>, i: nat)
    requires Executed(f, bs, adapter, r, who, ch, end, after, sent)
    requires adapter.onStop.AdapterCancelled? && i < |adapter.texts| && Opening(bs, ch) == AtEnd
    requires forall j :: 0 <= j < i ==> Interruption(bs, adapter.texts[j], j, r, ch) == AtEnd
    requires CancelRun(r) in Batch(bs, i + 1) && Shutdown !in Batch(bs, i + 1) && RemoveCharacter(ch) !in Batch(bs, i + 1)
    ensures f == Flow(i, AtCancel) && end == Ended(i + i / 4)
    ensures r in after.runs && after.runs[r].status.StatusCancelled? && after.runs[r].cancelRequested
    ensures Deltas(after, r) == adapter.texts[..i]
  {
    hide Deltas;
    var g := Flow(i, AtCancel);
    assert Interruption(bs, adapter.texts[i], i, r, ch) == AtCancel;
    assert IsFlow(g, bs, adapter.texts, r, ch);
    FlowIsDetermined(bs, adapter.texts, r, ch);
    assert !Removed(f, bs, ch);
  }

  /**
   * Exactly when a run completes although a cancel was requested: the adapter reported success after
   * being told to stop, or it emitted nothing at all after a cancel in the first drain.
   */
  lemma CompletedDespiteCancel(f: Flow, bs: seq<seq<Command>>, adapter: Adapter, r: Id, who: Run, ch: Id,
                               end: ExecEnd, after: Store, sent: seq<Notice>)
    requires Executed(f, bs, adapter, r, who, ch, end, after, sent)
    requires r in after.runs && after.runs[r].status.StatusCompleted?
    ensures after.runs[r].cancelRequested <==>
              f.why == AtCancel || (adapter.texts == [] && CancelRun(r) in Batch(bs, 0))
    ensures f.why == AtCancel ==> adapter.onStop == Usage
    ensures f.why != AtCancel ==> f == Flow(|adapter.texts|, AtEnd) && adapter.finish == Usage
  {
    hide Deltas;
    assert !Removed(f, bs, ch);
    if f.why == AtEnd && |adapter.texts| > 0 {
      assert Opening(bs, ch) == AtEnd;
      assert Interruption(bs, adapter.texts[0], 0, r, ch) == AtEnd;
    }
  }

  /** A completed run with a delta never had a cancel requested, if its adapter never reports success on a stop. */
  lemma CompletedMeansUncancelled(f: Flow, bs: seq<seq<Command>>, adapter: Adapter, r: Id, who: Run, ch: Id,
                                  end: ExecEnd, after: Store, sent: seq<Notice>)
    requires Executed(f, bs, adapter, r, who, ch, end, after, sent) && adapter.onStop != Usage
    requires r in after.runs && after.runs[r].status.StatusCompleted? && f.deltas > 0
    ensures !after.runs[r].cancelRequested && Deltas(after, r) == adapter.texts
    ensures forall k: nat :: CancelRun(r) in Batch(bs, k) ==> k > |adapter.texts|
  {
    hide Deltas;
    assert !Removed(f, bs, ch);
    CompletedDespiteCancel(f, bs, adapter, r, who, ch, end, after, sent);
    assert adapter.texts[..f.deltas] == adapter.texts;
    forall k: nat | CancelRun(r) in Batch(bs, k) ensures k > |adapter.texts| {
      CancelStopsDeltas(f, bs, adapter.texts, r, ch, k);
    }
  }

  lemma CancelThenPrepare(sys: System, r: Id, lease: int)
    requires Driven(sys, r) && sys.store.runs[r].status.Queued?
    ensures Enabled(sys, RequestCancel(r))
    ensures var asked := Apply(sys, RequestCancel(r));
      && Driven(asked, r) && asked.store.runs[r].status.Cancelling?
      && Enabled(asked, Advance(r, Preparing, lease))
      && var moved := Apply(asked, Advance(r, Preparing, lease));
         Driven(moved, r) && moved.store.runs[r].status.Preparing? && moved.store.runs[r].cancelRequested
  {
    hide Deltas, NextSequence;
  }

  lemma StreamThenComplete(sys: System, r: Id, lease: int)
    requires Driven(sys, r) && sys.store.runs[r].status.Preparing?
    ensures Enabled(sys, Advance(r, Streaming, lease))
    ensures var streaming := Apply(sys, Advance(r, Streaming, lease));
      && Enabled(streaming, Complete(r, lease))
      && var done := Apply(streaming, Complete(r, lease)).store;
         r in done.runs && done.runs[r].status.StatusCompleted? &&
         done.runs[r].cancelRequested == sys.store.runs[r].cancelRequested
  {
    hide Deltas, NextSequence;
  }

  /**
   * The status alone does not remember a cancel: one served by the first drain is overwritten by
   * `preparing`, and the run can still complete. Only the flag survives.
   */
  lemma StatusIsNotMonotone(sys: System, r: Id, lease: int)
    requires JustStarted(sys, r)
    ensures Enabled(sys, RequestCancel(r))
    ensures var asked := Apply(sys, RequestCancel(r));
      && r in asked.store.runs && asked.store.runs[r].status.Cancelling?
      && Enabled(asked, Advance(r, Preparing, lease))
      && var moved := Apply(asked, Advance(r, Preparing, lease));
         && r in moved.store.runs && moved.store.runs[r].status.Preparing?
         && Enabled(moved, Advance(r, Streaming, lease))
         && var streaming := Apply(moved, Advance(r, Streaming, lease));
            && Enabled(streaming, Complete(r, lease))
            && var done := Apply(streaming, Complete(r, lease)).store;
               r in done.runs && done.runs[r].status.StatusCompleted? && done.runs[r].cancelRequested
  {
    hide Apply, Enabled;
    CancelThenPrepare(sys, r, lease);
    StreamThenComplete(Apply(Apply(sys, RequestCancel(r)), Advance(r, Preparing, lease)), r, lease);
  }

  // ---------------------------------------------------------------- shutdown, recovery, notices

  /**
   * After a shutdown the run can be recovered at once, whatever the time, exactly when the drain
   * that saw the shutdown served no cancel for it; otherwise recovery waits for the lease.
   */
  lemma ShutdownAndLease(f: Flow, bs: seq<seq<Command>>, adapter: Adapter, r: Id, who: Run, ch: Id,
                         end: ExecEnd, after: Store, sent: seq<Notice>)
    requires Executed(f, bs, adapter, r, who, ch, end, after, sent) && end.ShutDown? && r in after.runs
    ensures (forall now: int :: Stale(after.runs[r], now)) <==> CancelRun(r) !in LastBatch(f, bs, ch)
    ensures CancelRun(r) in LastBatch(f, bs, ch) ==>
      after.runs[r].lease.Some? && forall now: int :: Stale(after.runs[r], now) <==> after.runs[r].lease.value < now
  {
    hide Deltas;
    assert !Removed(f, bs, ch);
    if CancelRun(r) in LastBatch(f, bs, ch) {
      assert !Stale(after.runs[r], after.runs[r].lease.value);
    }
  }

  /** The text of the message that keeping run `r` writes. */
  ghost function KeptText(sys: System, r: Id): Option<string> {
    if !Enabled(sys, KeepPartial(r)) then None
    else
      var kept := Apply(sys, KeepPartial(r)).store;
      match kept.runs[r].messageId
      case Some(m) => if m in kept.messages then Some(kept.messages[m].content) else None
      case None => None
  }

  lemma KeptTextIsAll(sys: System, r: Id)
    requires Inv(sys) && r in sys.store.runs && sys.store.runs[r].status.Interrupted?
    requires sys.store.runs[r].messageId.None? && sys.store.runs[r].partialLength != 0
    ensures KeptText(sys, r) == Some(Concat(Deltas(sys.store, r)))
  {
    hide Inv, Deltas, Concat;
    KeepSaysAll(sys, r);
    hide Apply, Enabled;
  }

  /**
   * An execution cut short by a shutdown, and recovery past the lease: the run is interrupted, holds
   * the first `f.deltas` of the adapter's deltas, and keeping it writes a message with exactly their text.
   */
  lemma ShutdownThenKeep(f: Flow, bs: seq<seq<Command>>, adapter: Adapter, r: Id, who: Run, ch: Id,
                         end: ExecEnd, sys: System, sent: seq<Notice>, now: int)
    requires Executed(f, bs, adapter, r, who, ch, end, sys.store, sent) && end.ShutDown? && r in sys.store.runs
    requires Inv(sys) && Stale(sys.store.runs[r], now)
    ensures f.deltas <= |adapter.texts|
    ensures var recovered := AfterCrash(sys, now);
      && Inv(recovered) && r in recovered.store.runs && recovered.store.runs[r].status.Interrupted?
      && Deltas(recovered.store, r) == adapter.texts[..f.deltas]
      && (recovered.store.runs[r].partialLength != 0 ==> KeptText(recovered, r) == Some(Concat(adapter.texts[..f.deltas])))
  {
    assert f.deltas <= |adapter.texts| && Deltas(sys.store, r) == adapter.texts[..f.deltas] by {
      hide Deltas;
      assert !Removed(f, bs, ch);
    }
    hide Executed, Inv, AfterCrash, Deltas, Concat, KeptText;
    RecoverOne(sys, r, now);
    if AfterCrash(sys, now).store.runs[r].partialLength != 0 {
      KeptTextIsAll(AfterCrash(sys, now), r);
    }
  }

  lemma {:induction false} ProgressAt(n: nat, i: nat)
    requires i < n
    ensures |Progress(n)| == n && Progress(n)[i] == CommittedTo(i + (i + 1) / 4)
  {
    if n > 1 {
      ProgressAt(n - 1, if i < n - 1 then i else 0);
    } else {
      assert Progress(0) == [];
    }
  }

  /** Every notice an execution sends names a sequence that is in the event table. */
  lemma NoticesAreDurable(f: Flow, bs: seq<seq<Command>>, adapter: Adapter, r: Id, who: Run, ch: Id,
                          end: ExecEnd, sys: System, sent: seq<Notice>, i: nat)
    requires Executed(f, bs, adapter, r, who, ch, end, sys.store, sent) && r in sys.store.runs
    requires Inv(sys) && !Discarded(sys.store, r) && i < |sent|
    ensures EventKey(r, if sent[i].CommittedTo? then sent[i].through else sent[i].last) in sys.store.events
    ensures sent[i].EndedAt? ==> i == |sent| - 1 && sent[i].last == sys.store.runs[r].lastSeq
  {
    hide Executed, Inv, Discarded, Deltas, Progress;
    SentMeans(f, bs, adapter, r, who, ch, end, sys.store, sent);
    LogReaches(sys, r);
    if i < f.deltas {
      ProgressAt(f.deltas, i);
    } else if f.deltas > 0 {
      ProgressAt(f.deltas, 0);
    }
  }

  lemma LogReaches(sys: System, r: Id)
    requires Inv(sys) && r in sys.store.runs && !Discarded(sys.store, r)
    ensures var n, last := |Deltas(sys.store, r)|, sys.store.runs[r].lastSeq;
      last >= n + n / 4 - 1 && forall i :: 0 <= i <= last ==> EventKey(r, i) in sys.store.events
  {
    hide Inv, Discarded, Deltas, TotalBytes, Concat;
    LogIsExact(sys, r);
    assert sys.store.runs[r].lastSeq >= |Deltas(sys.store, r)| + |Deltas(sys.store, r)| / 4 - 1 by { LogPositions(sys, r); }
  }

  lemma SentMeans(f: Flow, bs: seq<seq<Command>>, adapter: Adapter, r: Id, who: Run, ch: Id,
                  end: ExecEnd, after: Store, sent: seq<Notice>)
    requires Executed(f, bs, adapter, r, who, ch, end, after, sent) && r in after.runs
    ensures |Deltas(after, r)| == f.deltas && sent == Progress(f.deltas) + Closing(end) && Progress(0) == []
    ensures end.Ended? ==> 0 <= end.last == after.runs[r].lastSeq
  {
    hide Deltas;
    assert !Removed(f, bs, ch);
  }

  // ---------------------------------------------------------------- the preview of a run

  /** `generation.get`: the first characters of the text so far, and whether that is said to be all. */
  function Preview(text: string): string {
    if |text| <= PARTIAL_PREVIEW_LEN then text else text[..PARTIAL_PREVIEW_LEN]
  }

  predicate Truncated(partialLength: int) {
    partialLength > PARTIAL_PREVIEW_LEN
  }

  /**
   * The flag counts bytes and the preview counts characters: an unflagged preview is the whole
   * text, and a flagged one is still whole exactly when the text is short in characters.
   */
  lemma PreviewIsWhole(sys: System, r: Id)
    requires Inv(sys) && r in sys.store.runs && !Discarded(sys.store, r)
    ensures var text := Concat(Deltas(sys.store, r));
      && (!Truncated(sys.store.runs[r].partialLength) ==> Preview(text) == text)
      && (Truncated(sys.store.runs[r].partialLength) ==> (Preview(text) == text <==> |text| <= PARTIAL_PREVIEW_LEN))
      && (Truncated(sys.store.runs[r].partialLength) ==> |text| > PARTIAL_PREVIEW_LEN / 4)
  {
    LogIsExact(sys, r);
    LengthOrder(Concat(Deltas(sys.store, r)));
    hide Inv, Discarded, Deltas, Concat;
  }

  /**
   * The preview is cut by characters but the wire allows `PARTIAL_PREVIEW_LEN` UTF-16 units, so a
   * preview of characters outside the basic plane can be refused; one of plain characters never is.
   */
  lemma PreviewMayNotFit()
    ensures exists text: string :: |text| <= PARTIAL_PREVIEW_LEN && Utf16Len(Preview(text)) > PARTIAL_PREVIEW_LEN
    ensures forall text: string :: (forall i :: 0 <= i < |text| ==> text[i] as int < 0x10000) ==>
              Utf16Len(Preview(text)) <= PARTIAL_PREVIEW_LEN
  {
    var astral := Repeat('\U{1F600}', PARTIAL_PREVIEW_LEN);
    RepeatLength('\U{1F600}', PARTIAL_PREVIEW_LEN);
    assert Preview(astral) == astral;
    assert |astral| <= PARTIAL_PREVIEW_LEN && Utf16Len(Preview(astral)) > PARTIAL_PREVIEW_LEN;
    forall text: string | forall i :: 0 <= i < |text| ==> text[i] as int < 0x10000
      ensures Utf16Len(Preview(text)) <= PARTIAL_PREVIEW_LEN
    {
      PlainLength(Preview(text));
    }
  }

  function Repeat(c: char, n: nat): string {
    if n == 0 then "" else Repeat(c, n - 1) + [c]
  }

  lemma {:induction false} RepeatLength(c: char, n: nat)
    requires c as int >= 0x10000
    ensures |Repeat(c, n)| == n && Utf16Len(Repeat(c, n)) == 2 * n
  {
    if n > 0 {
      RepeatLength(c, n - 1);
      assert Repeat(c, n)[..n - 1] == Repeat(c, n - 1);
    }
  }

  lemma {:induction false} PlainLength(s: string)
    requires forall i :: 0 <= i < |s| ==> s[i] as int < 0x10000
    ensures Utf16Len(s) == |s|
  {
    if s != "" {
      PlainLength(s[..|s| - 1]);
    }
  }
}
