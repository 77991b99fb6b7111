/** The built-in `fake` provider: its model grammar, its deterministic output, and it as an executor's adapter. */
module Fake {
  import opened Base
  import opened Text
  import opened Paths
  import E = GenerationExecutor
  import L = GenerationLog
  import M = GenerationModel
  import K = GenerationKernel
  import O = GenerationOps
  import T = GenerationTheorems

  const DEFAULT_STEPS := 8
  const DEFAULT_TOKENS_PER_STEP := 6

  datatype Config = Config(steps: int, failAt: Option<int>, delayMs: int, tokensPerStep: int)

  const DEFAULTS := Config(DEFAULT_STEPS, None, 0, DEFAULT_TOKENS_PER_STEP)

  function Clamp(n: int, lo: int, hi: int): (c: int)
    requires lo <= hi
    ensures lo <= c <= hi && (lo <= n <= hi ==> c == n)
  {
    if n < lo then lo else if n > hi then hi else n
  }

  /** The white space that Rust's `str::trim` removes. */
  predicate IsSpace(c: char) {
    var v := c as int;
    || 9 <= v <= 13 || v == 0x20 || v == 0x85 || v == 0xa0 || v == 0x1680 || 0x2000 <= v <= 0x200a
    || v == 0x2028 || v == 0x2029 || v == 0x202f || v == 0x205f || v == 0x3000
  }

  function Trim(s: string): string {
    if s != "" && IsSpace(s[0]) then Trim(s[1..])
    else if s != "" && IsSpace(s[|s| - 1]) then Trim(s[..|s| - 1])
    else s
  }

  /** One `key=value` segment; `number` stands for the integer parser. */
  function Assignment(segment: string, number: string -> Option<int>): Option<(string, int)> {
    var n := Until(segment, '=');
    if n == |segment| then None
    else
      match number(Trim(segment[n + 1..]))
      case None => None
      case Some(v) => Some((Trim(segment[..n]), v))
  }

  predicate InRange(c: Config) {
    && 1 <= c.steps <= 64 && 0 <= c.delayMs <= 200 && 1 <= c.tokensPerStep <= 256
    && (c.failAt.Some? ==> 1 <= c.failAt.value <= 64)
  }

  const KEYS := {"steps", "fail-at", "delay-ms", "tokens-per-step"}

  /** What one assignment does to the configuration. */
  function Assign(c: Config, key: string, n: int): (r: Option<Config>)
    requires InRange(c)
    ensures r.Some? <==> key in KEYS
    ensures r.Some? ==> InRange(r.value)
  {
    if key == "steps" then Some(c.(steps := Clamp(n, 1, 64)))
    else if key == "fail-at" then Some(c.(failAt := Some(Clamp(n, 1, c.steps))))
    else if key == "delay-ms" then Some(c.(delayMs := Clamp(n, 0, 200)))
    else if key == "tokens-per-step" then Some(c.(tokensPerStep := Clamp(n, 1, 256)))
    else None
  }

  /** The configuration after the given segments; None if one is malformed. */
  function Folded(segments: seq<string>, number: string -> Option<int>): (r: Option<Config>)
    ensures r.Some? ==> InRange(r.value)
  {
    if segments == [] then Some(DEFAULTS)
    else
      match Folded(segments[..|segments| - 1], number)
      case None => None
      case Some(c) =>
        var segment := Trim(segments[|segments| - 1]);
        if segment == "" then Some(c)
        else
          match Assignment(segment, number)
          case None => None
          case Some((key, n)) => Assign(c, key, n)
  }

  /** Blank, or a number assigned to a known key. */
  predicate WellFormed(segment: string, number: string -> Option<int>) {
    var s := Trim(segment);
    s == "" || (Assignment(s, number).Some? && Assignment(s, number).value.0 in KEYS)
  }

  predicate AllWellFormed(segments: seq<string>, number: string -> Option<int>) {
    forall i :: 0 <= i < |segments| ==> WellFormed(segments[i], number)
  }

  /** The last clamp, against the final number of steps. */
  function Settled(c: Config): Config
    requires InRange(c)
  {
    c.(failAt := if c.failAt.Some? then Some(Clamp(c.failAt.value, 1, c.steps)) else None)
  }

  /** `parse_config`: a usable configuration, or None for a malformed model string. */
  method ParseConfig(model: string, number: string -> Option<int>) returns (cfg: Option<Config>)
    ensures cfg.Some? <==> AllWellFormed(Split(model, ';'), number)
    ensures cfg.Some? ==> InRange(cfg.value) && (cfg.value.failAt.Some? ==> 1 <= cfg.value.failAt.value <= cfg.value.steps)
    ensures cfg.Some? ==> Folded(Split(model, ';'), number).Some? && cfg.value == Settled(Folded(Split(model, ';'), number).value)
  {
    hide Trim, Assignment;
    var segments := Split(model, ';');
    var c := DEFAULTS;
    for i := 0 to |segments|
      invariant Folded(segments[..i], number) == Some(c)
      invariant forall k :: 0 <= k < i ==> WellFormed(segments[k], number)
    {
      assert segments[..i + 1][..i] == segments[..i];
      var segment := Trim(segments[i]);
      if segment != "" {
        var pair := Assignment(segment, number);
        if pair.None? || Assign(c, pair.value.0, pair.value.1).None? {
          assert !WellFormed(segments[i], number);
          return None;
        }
        c := Assign(c, pair.value.0, pair.value.1).value;
      }
    }
    assert segments[..|segments|] == segments;
    return Some(Settled(c));
  }

  /** The last failing step asked for, with the number of steps in force at that point. */
  function Requested(segments: seq<string>, number: string -> Option<int>): Option<(int, int)>
    requires Folded(segments, number).Some?
  {
    if segments == [] then None
    else
      var before := segments[..|segments| - 1];
      match Assignment(Trim(segments[|segments| - 1]), number)
      case Some(("fail-at", n)) => Some((n, Folded(before, number).value.steps))
      case _ => Requested(before, number)
  }

  lemma {:induction false} FailAtIsRequested(segments: seq<string>, number: string -> Option<int>)
    requires Folded(segments, number).Some?
    ensures Folded(segments, number).value.failAt == match Requested(segments, number)
      case None => None
      case Some((n, now)) => if 1 <= now <= 64 then Some(Clamp(n, 1, now)) else None
    ensures Requested(segments, number).Some? ==> 1 <= Requested(segments, number).value.1 <= 64
  {
    if segments != [] {
      FailAtIsRequested(segments[..|segments| - 1], number);
    }
  }

  /**
   * The failing step depends on the order of the segments: the last request comes out clamped against
   * the final number of steps exactly if it was within the number in force when it was read, or that
   * number was no smaller than the final one.
   */
  lemma FailAtDependsOnOrder(segments: seq<string>, number: string -> Option<int>)
    requires Folded(segments, number).Some? && Requested(segments, number).Some?
    ensures var c, (n, now) := Folded(segments, number).value, Requested(segments, number).value;
      Settled(c).failAt == Some(Clamp(n, 1, c.steps)) <==> n <= now || c.steps <= now
  {
    FailAtIsRequested(segments, number);
  }

  /** The same two assignments, in either order. */
  lemma OrderMatters()
    ensures var a := Assign(Assign(DEFAULTS, "fail-at", 20).value, "steps", 30);
            var b := Assign(Assign(DEFAULTS, "steps", 30).value, "fail-at", 20);
      a.Some? && b.Some? && Settled(a.value).failAt == Some(8) && Settled(b.value).failAt == Some(20)
  {
  }

  // ---------------------------------------------------------------- output

  /** The text of step `i`: `line` stands for the formatted, hashed line, cut to the configured length. */
  function DeltaText(line: (string, nat) -> string, runKey: string, c: Config, i: nat): (text: string)
    requires InRange(c)
    ensures |text| <= c.tokensPerStep
  {
    var whole := line(runKey, i);
    if |whole| <= c.tokensPerStep then whole else whole[..c.tokensPerStep]
  }

  /** How many deltas are produced before the configured failure, or in all. */
  function Produced(c: Config): (n: nat)
    requires InRange(c) && (c.failAt.Some? ==> c.failAt.value <= c.steps)
    ensures n <= c.steps
  {
    if c.failAt.Some? then c.failAt.value - 1 else c.steps
  }

  function Texts(line: (string, nat) -> string, runKey: string, c: Config, n: nat): (ts: seq<string>)
    requires InRange(c)
    ensures |ts| == n && forall i :: 0 <= i < n ==> ts[i] == DeltaText(line, runKey, c, i)
  {
    seq(n, i requires 0 <= i < n => DeltaText(line, runKey, c, i))
  }

  /** The adapter that the executor drives: it reports a cancellation whenever it is told to stop. */
  function AsAdapter(line: (string, nat) -> string, runKey: string, c: Config, stepName: int -> string): E.Adapter
    requires InRange(c) && (c.failAt.Some? ==> c.failAt.value <= c.steps)
  {
    E.Adapter(Texts(line, runKey, c, Produced(c)),
              if c.failAt.Some? then E.StepFailed(Some(stepName(c.failAt.value))) else E.Usage,
              E.AdapterCancelled)
  }

  /** How a sleep between two steps ends. */
  datatype Nap = Slept | NapCancelled | NapExpired

  /**
   * The deltas emitted and the outcome of a call with configuration `c`: the adapter's texts up to the
   * first interruption, and the outcome says which it was. `cancelled(i)` and `expired(i)` are what the
   * checks before step `i` see, `nap(i)` how the sleep after it ends, `stopAt` the delta answered with Stop.
   */
  ghost predicate Generated(line: (string, nat) -> string, runKey: string, c: Config, stepName: int -> string,
                            cancelled: nat -> bool, expired: nat -> bool, nap: nat -> Nap, stopAt: Option<nat>,
                            emitted: seq<string>, outcome: E.Outcome)
    requires InRange(c) && (c.failAt.Some? ==> c.failAt.value <= c.steps)
  {
    var a, n := AsAdapter(line, runKey, c, stepName), |emitted|;
    && emitted <= a.texts
    && (forall i :: 0 <= i < n ==> !cancelled(i) && !expired(i))
    && (outcome == E.AdapterCancelled || outcome == E.Timeout || (outcome == a.finish && emitted == a.texts))
    && (outcome == E.Timeout ==> (n < c.steps && expired(n)) || (n > 0 && nap(n - 1).NapExpired?))
    && (outcome == E.AdapterCancelled ==>
          (n < c.steps && cancelled(n)) || (n > 0 && (stopAt == Some(n - 1) || nap(n - 1).NapCancelled?)))
    && ((forall i: nat :: !cancelled(i) && !expired(i) && nap(i).Slept?) && stopAt.None? ==> emitted == a.texts && outcome == a.finish)
  }

  /** `generate`; `entry` tells whether the call finds itself cancelled at once. */
  method Generate(line: (string, nat) -> string, runKey: string, model: string, number: string -> Option<int>, stepName: int -> string,
                  entry: bool, cancelled: nat -> bool, expired: nat -> bool, nap: nat -> Nap, stopAt: Option<nat>)
    returns (emitted: seq<string>, outcome: E.Outcome)
    ensures entry ==> emitted == [] && outcome == E.AdapterCancelled
    ensures !entry && !AllWellFormed(Split(model, ';'), number) ==> emitted == [] && outcome == E.RequestInvalid(Some(model))
    ensures !entry && AllWellFormed(Split(model, ';'), number) ==>
      exists c :: InRange(c) && (c.failAt.Some? ==> c.failAt.value <= c.steps) &&
        Folded(Split(model, ';'), number).Some? && c == Settled(Folded(Split(model, ';'), number).value) &&
        Generated(line, runKey, c, stepName, cancelled, expired, nap, stopAt, emitted, outcome)
  {
    if entry {
      return [], E.AdapterCancelled;
    }
    hide AllWellFormed, Split, Folded, Settled, Generated;
    var cfg := ParseConfig(model, number);
    if cfg.None? {
      return [], E.RequestInvalid(Some(model));
    }
    emitted, outcome := Steps(line, runKey, cfg.value, stepName, cancelled, expired, nap, stopAt);
  }

  /** The steps of a call with a parsed configuration. */
  method Steps(line: (string, nat) -> string, runKey: string, c: Config, stepName: int -> string,
               cancelled: nat -> bool, expired: nat -> bool, nap: nat -> Nap, stopAt: Option<nat>)
    returns (emitted: seq<string>, outcome: E.Outcome)
    requires InRange(c) && (c.failAt.Some? ==> c.failAt.value <= c.steps)
    ensures Generated(line, runKey, c, stepName, cancelled, expired, nap, stopAt, emitted, outcome)
  {
    emitted := [];
    for i := 0 to c.steps
      invariant emitted == Texts(line, runKey, c, i) && i <= Produced(c)
      invariant forall j :: 0 <= j < i ==> !cancelled(j) && !expired(j)
    {
      TextsPrefix(line, runKey, c, i, Produced(c));
      if cancelled(i) {
        return emitted, E.AdapterCancelled;
      }
      if expired(i) {
        return emitted, E.Timeout;
      }
      if c.failAt == Some(i + 1) {
        return emitted, E.StepFailed(Some(stepName(i + 1)));
      }
      emitted := emitted + [DeltaText(line, runKey, c, i)];
      TextsPrefix(line, runKey, c, i + 1, Produced(c));
      if stopAt == Some(i) {
        return emitted, E.AdapterCancelled;
      }
      if i + 1 < c.steps {
        match nap(i) {
          case NapCancelled => return emitted, E.AdapterCancelled;
          case NapExpired => return emitted, E.Timeout;
          case Slept =>
        }
      }
    }
    outcome := E.Usage;
  }

  lemma TextsPrefix(line: (string, nat) -> string, runKey: string, c: Config, i: nat, n: nat)
    requires InRange(c) && i <= n
    ensures Texts(line, runKey, c, i) <= Texts(line, runKey, c, n)
  {
  }

  // ---------------------------------------------------------------- the fake provider in an execution

  lemma {:induction false} ConcatLength(ts: seq<string>)
    requires forall i :: 0 <= i < |ts| ==> |ts[i]| <= 256
    ensures |Concat(ts)| <= 256 * |ts|
  {
    if ts != [] {
      ConcatLength(ts[..|ts| - 1]);
    }
  }

  lemma {:induction false} Utf16AtMostDouble(s: string)
    ensures Utf16Len(s) <= 2 * |s|
  {
    if s != "" {
      Utf16AtMostDouble(s[..|s| - 1]);
    }
  }

  /** Nothing the fake provider says is over a wire limit. */
  lemma FakeFitsTheWire(line: (string, nat) -> string, runKey: string, c: Config, n: nat)
    requires InRange(c) && n <= 64
    ensures forall t :: t in Texts(line, runKey, c, n) ==> Utf16Len(t) <= K.MAX_DELTA_UNITS
    ensures Utf16Len(Concat(Texts(line, runKey, c, n))) <= K.MAX_CONTENT_UNITS
  {
    var ts := Texts(line, runKey, c, n);
    forall t | t in ts ensures |t| <= 256 && Utf16Len(t) <= K.MAX_DELTA_UNITS {
      var i :| 0 <= i < n && ts[i] == t;
      Utf16AtMostDouble(t);
    }
    ConcatLength(ts);
    hide Texts;
    Utf16AtMostDouble(Concat(ts));
  }

  /** The fake provider as an adapter that emits its first `n` texts and then ends with `finish`. */
  function CutShort(line: (string, nat) -> string, runKey: string, c: Config, n: nat, finish: E.Outcome): E.Adapter
    requires InRange(c)
  {
    E.Adapter(Texts(line, runKey, c, n), finish, E.AdapterCancelled)
  }

  /**
   * However a call ends (its steps done, the configured failure, a stop, a cancel, the deadline), an
   * execution of the fake provider is never refused: it ends by a shutdown, by its run's removal, or with
   * a terminal event; and a run it completes with at least one delta was never asked to cancel.
   */
  lemma FakeIsNeverRefused(line: (string, nat) -> string, runKey: string, c: Config, n: nat, finish: E.Outcome,
                           f: E.Flow, bs: seq<seq<O.Command>>, r: L.Id, who: M.Run, ch: L.Id,
                           end: E.ExecEnd, after: M.Store, sent: seq<K.Notice>)
    requires InRange(c) && n <= c.steps
    requires E.Executed(f, bs, CutShort(line, runKey, c, n, finish), r, who, ch, end, after, sent)
    ensures f.why != E.AtOversize && !end.Rejected?
    ensures r in after.runs && after.runs[r].status.StatusCompleted? && f.deltas > 0 ==> !after.runs[r].cancelRequested
  {
    hide E.Executed;
    if r in after.runs && after.runs[r].status.StatusCompleted? && f.deltas > 0 {
      T.CompletedMeansUncancelled(f, bs, CutShort(line, runKey, c, n, finish), r, who, ch, end, after, sent);
    }
    NeverRefused(line, runKey, c, n, finish, f, bs, r, who, ch, end, after, sent);
  }

  /** In particular with the outcomes of an undisturbed call. */
  lemma UndisturbedIsCutNowhere(line: (string, nat) -> string, runKey: string, c: Config, stepName: int -> string)
    requires InRange(c) && (c.failAt.Some? ==> c.failAt.value <= c.steps)
    ensures AsAdapter(line, runKey, c, stepName) ==
      CutShort(line, runKey, c, Produced(c), AsAdapter(line, runKey, c, stepName).finish)
  {
  }

  lemma NeverRefused(line: (string, nat) -> string, runKey: string, c: Config, n: nat, finish: E.Outcome,
                     f: E.Flow, bs: seq<seq<O.Command>>, r: L.Id, who: M.Run, ch: L.Id,
                     end: E.ExecEnd, after: M.Store, sent: seq<K.Notice>)
    requires InRange(c) && n <= c.steps
    requires E.Executed(f, bs, CutShort(line, runKey, c, n, finish), r, who, ch, end, after, sent)
    ensures f.why != E.AtOversize && !end.Rejected?
  {
    var a := CutShort(line, runKey, c, n, finish);
    FakeFitsTheWire(line, runKey, c, n);
    FakeFitsTheWire(line, runKey, c, f.deltas);
    assert a.texts[..f.deltas] == Texts(line, runKey, c, f.deltas);
    NeverOversize(f, bs, a.texts, r, ch);
    hide M.Deltas, Utf16Len, Concat, DeltaText, Texts, E.IsFlow, Produced;
    if !E.Removed(f, bs, ch) {
      var outcome := if f.why == E.AtCancel then a.onStop else a.finish;
      NotRejected(f.why, outcome, r, who, a.texts[..f.deltas], E.Asked(f, bs, r, ch),
                  O.CancelRun(r) in E.LastBatch(f, bs, ch), end, after);
    }
  }

  lemma NeverOversize(f: E.Flow, bs: seq<seq<O.Command>>, texts: seq<string>, r: L.Id, ch: L.Id)
    requires E.IsFlow(f, bs, texts, r, ch)
    requires forall t :: t in texts ==> Utf16Len(t) <= K.MAX_DELTA_UNITS
    ensures f.why != E.AtOversize
  {
    hide Utf16Len;
    if E.Opening(bs, ch) == E.AtEnd && f.deltas < |texts| {
      assert texts[f.deltas] in texts;
    }
  }

  lemma NotRejected(why: E.Why, outcome: E.Outcome, r: L.Id, who: M.Run, ds: seq<string>, asked: bool, raced: bool,
                    end: E.ExecEnd, after: M.Store)
    requires E.LeftBehind(why, outcome, r, who, ds, asked, raced, end, after) && why != E.AtOversize
    requires (end.ShutDown? <==> why == E.AtShutdown) && Utf16Len(Concat(ds)) <= K.MAX_CONTENT_UNITS
    ensures !end.Rejected?
  {
    hide M.Deltas, Utf16Len, Concat;
  }
}
