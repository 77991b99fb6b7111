/** `generation.events`: reading a run's log page by page while the executor keeps appending to it. */
module EventPaging {
  import opened Base
  import opened Text
  import opened GenerationLog
  import opened GenerationModel
  import opened GenerationProofs
  import opened GenerationRuns
  import P = Paging

  datatype Row = Row(sequence: int, event: Event)

  datatype EventPage = EventPage(items: seq<Row>, hasMore: bool)

  /** Rows `from..to` of a log, numbered. */
  function Numbered(log: seq<Event>, from: nat, to: nat): (rows: seq<Row>)
    requires from <= to <= |log|
    ensures |rows| == to - from && forall i :: 0 <= i < |rows| ==> rows[i] == Row(from + i, log[from + i])
  {
    seq(to - from, i requires 0 <= i < to - from => Row(from + i, log[from + i]))
  }

  /** The table holds `log` for run `r`, and nothing else of it. */
  ghost predicate Holds(events: map<EventKey, Event>, r: Id, log: seq<Event>) {
    && (forall k :: k in events && k.run == r ==> 0 <= k.sequence < |log|)
    && (forall i :: 0 <= i < |log| ==> EventKey(r, i) in events && events[EventKey(r, i)] == log[i])
  }

  /** Where the rows after sequence `after` begin in a log of `n` rows, whatever number is asked for. */
  function FirstAfter(after: int, n: nat): (from: nat)
    ensures from <= n && (from > 0 ==> from - 1 <= after) && (from < n ==> after < from)
  {
    if after < 0 then 0 else if after + 1 <= n then after + 1 else n
  }

  /** The page of a log from row `from` on. */
  function PageFrom(log: seq<Event>, from: nat, n: nat): EventPage
    requires from <= |log|
  {
    if |log| - from <= n then EventPage(Numbered(log, from, |log|), false) else EventPage(Numbered(log, from, from + n), true)
  }

  /** `SELECT ... WHERE run_id = ? AND sequence > ? ORDER BY sequence LIMIT ?` over a table that holds `log`. */
  method QueryEvents(events: map<EventKey, Event>, r: Id, after: int, limit: nat, ghost log: seq<Event>) returns (rows: seq<Row>)
    requires Holds(events, r, log)
    ensures var from := FirstAfter(after, |log|);
      && |rows| == (if |log| - from < limit then |log| - from else limit)
      && rows == Numbered(log, from, from + |rows|)
  {
    rows := [];
    var next := if after < 0 then 0 else after + 1;
    ghost var from := FirstAfter(after, |log|);
    if next > |log| {
      assert EventKey(r, next) !in events by { assert EventKey(r, next).run == r; }
    }
    while EventKey(r, next) in events && |rows| < limit
      invariant if next > |log| then rows == [] && EventKey(r, next) !in events && from == |log|
                else from <= next && |rows| == next - from <= limit
      invariant forall i :: 0 <= i < |rows| ==> from + i < |log| && rows[i] == Row(from + i, log[from + i])
      decreases if next > |log| then 0 else |log| - next
    {
      assert EventKey(r, next).run == r;
      rows := rows + [Row(next, events[EventKey(r, next)])];
      next := next + 1;
    }
  }

  /**
   * `generation.events`: one page after sequence `after`, which may be any number; None if there is no
   * such run. A discarded run has no rows.
   */
  method ReadPage(sys: System, r: Id, after: int, limit: Option<int>) returns (page: Option<EventPage>)
    requires Inv(sys)
    ensures page.None? <==> r !in sys.store.runs
    ensures page.Some? ==> page.value == PageFrom(Log(sys.store, r), FirstAfter(after, |Log(sys.store, r)|), P.PageLimit(limit))
    ensures page.Some? && Discarded(sys.store, r) ==> page.value == EventPage([], false)
  {
    if r !in sys.store.runs {
      return None;
    }
    LogTable(sys, r);
    hide Inv, Log, Holds, Discarded, P.PageLimit;
    var found := ReadLog(sys.store.events, r, after, P.PageLimit(limit), Log(sys.store, r));
    page := Some(found);
  }

  /** The same over the event table alone. */
  method ReadLog(events: map<EventKey, Event>, r: Id, after: int, n: nat, ghost log: seq<Event>) returns (page: EventPage)
    requires Holds(events, r, log)
    ensures page == PageFrom(log, FirstAfter(after, |log|), n)
  {
    hide Holds;
    var rows := QueryEvents(events, r, after, n + 1, log);
    page := CutPage(rows, n);
    PageRows(rows, log, FirstAfter(after, |log|), n);
  }

  lemma PageRows(rows: seq<Row>, log: seq<Event>, from: nat, n: nat)
    requires from <= |log| && |rows| == if |log| - from < n + 1 then |log| - from else n + 1
    requires rows == Numbered(log, from, from + |rows|)
    ensures PageFrom(log, from, n) == EventPage(if |rows| <= n then rows else rows[..n], |rows| > n)
  {
  }

  /** Takes at most `n` rows; one more says that there is more. */
  method CutPage(rows: seq<Row>, n: nat) returns (page: EventPage)
    requires |rows| <= n + 1
    ensures page.items == (if |rows| <= n then rows else rows[..n]) && page.hasMore == (|rows| > n)
  {
    var items: seq<Row>, more := [], false;
    for i := 0 to |rows|
      invariant |items| <= n && (if more then |items| == n < |rows| else |items| == i) && items == rows[..|items|]
    {
      if |items| >= n {
        more := true;
        break;
      }
      items := items + [rows[i]];
    }
    page := EventPage(items, more);
  }

  /** The event table holds the log of every run; that of a discarded one is empty. */
  lemma LogTable(sys: System, r: Id)
    requires Inv(sys) && r in sys.store.runs
    ensures Holds(sys.store.events, r, Log(sys.store, r))
    ensures Discarded(sys.store, r) ==> Log(sys.store, r) == []
  {
    hide Inv, Discarded, Kept, Log, Holds, SourceInv, MessageInv, StatusInv;
    RunParts(sys, r);
    if Discarded(sys.store, r) {
      DiscardedTable(sys.store, r);
    } else {
      KeptTable(sys.store, r);
    }
  }

  lemma DiscardedTable(s: Store, r: Id)
    requires r in s.runs && Discarded(s, r)
    ensures Holds(s.events, r, Log(s, r)) && Log(s, r) == []
  {
    SelectNothing(s.events, r, if s.runs[r].lastSeq < 0 then 0 else s.runs[r].lastSeq + 1);
  }

  lemma KeptTable(s: Store, r: Id)
    requires r in s.runs && Kept(s, r)
    ensures Holds(s.events, r, Log(s, r))
  {
    hide Render, Deltas, TotalBytes, Tail;
    SelectFull(s.events, r, s.runs[r].lastSeq + 1);
  }

  lemma {:induction false} SelectNothing(events: map<EventKey, Event>, r: Id, n: nat)
    requires forall k :: k in events ==> k.run != r
    ensures Select(events, r, n) == []
  {
    if n > 0 {
      SelectNothing(events, r, n - 1);
      assert EventKey(r, n - 1).run == r;
    }
  }

  lemma RenderGrows(a: seq<string>, b: seq<string>)
    requires a <= b
    ensures Render(a) <= Render(b)
  {
    RenderPrefix(b, |a|);
    assert b[..|a|] == a;
  }

  /** The log of an undiscarded run only grows, whatever happens in between. */
  lemma LogGrows(a: System, b: System, r: Id)
    requires Inv(a) && Inv(b) && Evolves(a, b) && r in a.store.runs && r in b.store.runs
    requires !Discarded(a.store, r) && !Discarded(b.store, r)
    ensures Log(a.store, r) <= Log(b.store, r)
  {
    hide Inv, Log, Deltas, Discarded, MessageInv, SourceInv, Render, TotalBytes;
    RunParts(a, r);
    RunParts(b, r);
    assert RunEvolves(a.store, b.store, r);
    var x, y := Deltas(a.store, r), Deltas(b.store, r);
    RenderGrows(x, y);
    if HasTerminalEvent(a.store.runs[r].status) {
      SameTail(a.store, b.store, r);
      RenderLength(x);
      RenderLength(y);
      assert |Render(x)| == |Render(y)|;
      assert |x| == |y|;
      assert x == y;
    } else {
      assert Tail(a.store, r) == [];
      assert Log(a.store, r) == Render(x) + [];
    }
  }

  /** A terminal event is never rewritten. */
  lemma SameTail(s: Store, t: Store, r: Id)
    requires r in s.runs && r in t.runs && RunEvolves(s, t, r) && HasTerminalEvent(s.runs[r].status)
    requires StatusInv(s.runs[r]) && MessageInv(s, r)
    ensures Tail(s, r) == Tail(t, r) && |Tail(s, r)| == 1
  {
    hide Deltas, Log, Discarded;
  }

  lemma TakeTake(h: seq<Step>, j: nat, k: nat)
    requires j <= k <= |h|
    ensures h[..k][..j] == h[..j]
  {
  }

  /** So in any history of the workflow, the log at an earlier point is a prefix of the log later. */
  lemma HistoryLogGrows(origin: System, h: seq<Step>, j: nat, k: nat, r: Id)
    requires Inv(origin) && Replay(origin, h).Some? && j <= k <= |h|
    ensures Replay(origin, h[..j]).Some? && Replay(origin, h[..k]).Some?
    ensures var a, b := Replay(origin, h[..j]).value, Replay(origin, h[..k]).value;
      r in a.store.runs && r in b.store.runs && !Discarded(a.store, r) && !Discarded(b.store, r) ==>
        Inv(a) && Inv(b) && Log(a.store, r) <= Log(b.store, r)
  {
    hide Replay, Inv, Discarded, Log, Evolves;
    HistoryIsSafe(origin, h, k);
    TakeTake(h, j, k);
    HistoryIsSafe(origin, h[..k], j);
    var a, b := Replay(origin, h[..j]).value, Replay(origin, h[..k]).value;
    if r in a.store.runs && r in b.store.runs && !Discarded(a.store, r) && !Discarded(b.store, r) {
      LogGrows(a, b, r);
    }
  }

  /**
   * Reading on from the last sequence seen, with pages of any sizes and any number of steps committed
   * between two pages, returns the log from its start, each event once and in order; and a page that
   * says there is no more has reached the end of the log at that time.
   */
  method FollowEvents(systems: seq<System>, r: Id, limits: nat -> Option<int>) returns (seen: seq<Row>, hasMore: bool)
    requires systems != []
    requires forall i :: 0 <= i < |systems| ==> Inv(systems[i]) && r in systems[i].store.runs && !Discarded(systems[i].store, r)
    requires forall i, j :: 0 <= i <= j < |systems| ==> Log(systems[i].store, r) <= Log(systems[j].store, r)
    ensures var log := Log(systems[|systems| - 1].store, r);
      |seen| <= |log| && seen == Numbered(log, 0, |seen|) && (hasMore <==> |seen| < |log|)
  {
    hide Inv, Discarded, Log;
    seen, hasMore := [], true;
    for i := 0 to |systems|
      invariant i > 0 ==> |seen| <= |Log(systems[i - 1].store, r)| && seen == Numbered(Log(systems[i - 1].store, r), 0, |seen|)
      invariant i > 0 ==> (hasMore <==> |seen| < |Log(systems[i - 1].store, r)|)
      invariant i == 0 ==> seen == []
    {
      var found := ReadPage(systems[i], r, |seen| - 1, limits(i));
      var page := found.value;
      assert i > 0 ==> Log(systems[i - 1].store, r) <= Log(systems[i].store, r);
      seen := seen + page.items;
      hasMore := page.hasMore;
    }
  }
}
