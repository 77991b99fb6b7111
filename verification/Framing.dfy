/** The client's event stream: lines cut out of text that arrives in chunks. */
module Framing {
  import opened Base
  import opened Text
  import opened Paths

  /** White space as `String.prototype.trim` sees it. */
  predicate IsSpace(c: char) {
    var v := c as int;
    || 9 <= v <= 13 || v == 0x20 || v == 0xa0 || v == 0x1680 || 0x2000 <= v <= 0x200a
    || v == 0x2028 || v == 0x2029 || v == 0x202f || v == 0x205f || v == 0x3000 || v == 0xfeff
  }

  function TrimStart(s: string): string {
    if s != "" && IsSpace(s[0]) then TrimStart(s[1..]) else s
  }

  function TrimEnd(s: string): string {
    if s != "" && IsSpace(s[|s| - 1]) then TrimEnd(s[..|s| - 1]) else s
  }

  function Trim(s: string): string {
    TrimEnd(TrimStart(s))
  }

  /** The events read so far, and whether a line was refused. */
  datatype Output<T> = Output(events: seq<T>, failed: bool)

  /** What a list of lines yields: the trimmed non-empty ones, up to the first that does not parse. */
  function Yield<T>(lines: seq<string>, parse: string -> Option<T>): Output<T> {
    if lines == [] then Output([], false)
    else
      var before, line := Yield(lines[..|lines| - 1], parse), Trim(lines[|lines| - 1]);
      if before.failed || line == "" then before
      else
        match parse(line)
        case None => Output(before.events, true)
        case Some(event) => Output(before.events + [event], false)
  }

  /** The specification of a stream: a function of the whole text. */
  function Events<T>(text: string, parse: string -> Option<T>): Output<T> {
    Yield(Split(text, '\n'), parse)
  }

  /** All lines but the last. */
  function Front(lines: seq<string>): seq<string>
    requires lines != []
  {
    lines[..|lines| - 1]
  }

  /** The last line, which more text may continue. */
  function Back(lines: seq<string>): string
    requires lines != []
  {
    lines[|lines| - 1]
  }

  lemma FrontBack(lines: seq<string>)
    requires lines != []
    ensures Front(lines) + [Back(lines)] == lines
  {
  }

  lemma FrontOf(front: seq<string>, back: string)
    ensures Front(front + [back]) == front && Back(front + [back]) == back
  {
  }

  lemma FrontCons(head: string, rest: seq<string>)
    requires rest != []
    ensures Front([head] + rest) == [head] + Front(rest) && Back([head] + rest) == Back(rest)
  {
  }

  /** A text either has no separator, or begins with a line that ends with one. */
  lemma FirstCut(a: string, sep: char) returns (head: string, rest: string, whole: bool)
    ensures whole ==> Split(a, sep) == [a]
    ensures !whole ==> sep !in head && a == head + [sep] + rest && |rest| < |a|
  {
    var n := Until(a, sep);
    UntilMeans(a, sep);
    whole := n == |a|;
    head := a[..n];
    rest := if whole then "" else a[n + 1..];
  }

  lemma Regroup(head: string, sep: char, rest: string, b: string)
    ensures head + [sep] + rest + b == head + [sep] + (rest + b)
  {
  }

  lemma RegroupLines(head: string, middle: seq<string>, tail: seq<string>)
    ensures [head] + middle + tail == [head] + (middle + tail)
  {
  }

  /** Cutting a longer text: the last, possibly partial, line continues. */
  lemma {:induction false} SplitAppend(a: string, b: string, sep: char)
    ensures Split(a + b, sep) == Front(Split(a, sep)) + Split(Back(Split(a, sep)) + b, sep)
    decreases |a|
  {
    var head, rest, whole := FirstCut(a, sep);
    if whole {
      FrontOf([], a);
      assert [] + [a] == [a];
      assert [] + Split(a + b, sep) == Split(a + b, sep);
    } else {
      hide *;
      SplitAppend(rest, b, sep);
      Regroup(head, sep, rest, b);
      SplitCons(head, sep, rest);
      SplitCons(head, sep, rest + b);
      FrontCons(head, Split(rest, sep));
      RegroupLines(head, Front(Split(rest, sep)), Split(Back(Split(rest, sep)) + b, sep));
    }
  }

  /** One more chunk: the complete lines so far, and the line still open. */
  lemma OneMoreChunk(chunks: seq<string>, i: nat, lines: seq<string>, buffer: string)
    requires i < |chunks| && lines + [buffer] == Split(Concat(chunks[..i]), '\n')
    ensures var parts := Split(buffer + chunks[i], '\n');
      lines + Front(parts) + [Back(parts)] == Split(Concat(chunks[..i + 1]), '\n')
  {
    assert chunks[..i + 1][..i] == chunks[..i];
    assert Concat(chunks[..i + 1]) == Concat(chunks[..i]) + chunks[i];
    hide *;
    SplitAppend(Concat(chunks[..i]), chunks[i], '\n');
    FrontOf(lines, buffer);
    FrontBack(Split(buffer + chunks[i], '\n'));
    Reassociate(lines, Front(Split(buffer + chunks[i], '\n')), [Back(Split(buffer + chunks[i], '\n'))]);
  }

  lemma Reassociate(a: seq<string>, b: seq<string>, c: seq<string>)
    ensures a + b + c == a + (b + c)
  {
  }

  lemma {:induction false} YieldAppend<T>(a: seq<string>, b: seq<string>, parse: string -> Option<T>)
    ensures Yield(a, parse).failed ==> Yield(a + b, parse) == Yield(a, parse)
    ensures !Yield(a, parse).failed ==>
      Yield(a + b, parse) == Output(Yield(a, parse).events + Yield(b, parse).events, Yield(b, parse).failed)
  {
    if b == [] {
      assert a + b == a;
    } else {
      YieldAppend(a, b[..|b| - 1], parse);
      assert (a + b)[..|a + b| - 1] == a + b[..|b| - 1];
    }
  }

  /** Hands over the lines of one chunk; stops at the first that does not parse. */
  method YieldLines<T>(lines: seq<string>, parse: string -> Option<T>, events: seq<T>) returns (out: Output<T>)
    ensures out == Output(events + Yield(lines, parse).events, Yield(lines, parse).failed)
  {
    var more := events;
    for i := 0 to |lines|
      invariant !Yield(lines[..i], parse).failed && more == events + Yield(lines[..i], parse).events
    {
      assert lines[..i + 1][..i] == lines[..i];
      var trimmed := Trim(lines[i]);
      if |trimmed| > 0 {
        match parse(trimmed) {
          case None =>
            YieldAppend(lines[..i + 1], lines[i + 1..], parse);
            assert lines[..i + 1] + lines[i + 1..] == lines;
            return Output(more, true);
          case Some(event) =>
            more := more + [event];
        }
      }
    }
    assert lines[..|lines|] == lines;
    return Output(more, false);
  }

  /**
   * `stream`: whatever the chunks, the events are those of the text they add up to.
   */
  method Stream<T>(chunks: seq<string>, parse: string -> Option<T>) returns (out: Output<T>)
    ensures out == Events(Concat(chunks), parse)
  {
    var buffer := "";
    out := Output([], false);
    ghost var lines: seq<string> := [];
    assert Split("", '\n') == [""] && Concat(chunks[..0]) == "" && Yield(lines, parse) == out;
    hide Split, Concat, Yield, Front, Back;
    for i := 0 to |chunks|
      invariant lines + [buffer] == Split(Concat(chunks[..i]), '\n')
      invariant out == Yield(lines, parse) && !out.failed
    {
      OneMoreChunk(chunks, i, lines, buffer);
      buffer := buffer + chunks[i];
      var parts := Split(buffer, '\n');
      buffer := Back(parts);
      YieldAppend(lines, Front(parts), parse);
      lines := lines + Front(parts);
      out := YieldLines(Front(parts), parse, out.events);
      if out.failed {
        FailsEarly(chunks, i + 1, lines, buffer, parse);
        return;
      }
    }
    assert chunks[..|chunks|] == chunks;
    YieldAppend(lines, [buffer], parse);
    out := YieldLines([buffer], parse, out.events);
  }

  /** A line that does not parse decides the outcome, however much text follows. */
  lemma {:induction false} FailsEarly<T>(chunks: seq<string>, i: nat, lines: seq<string>, buffer: string, parse: string -> Option<T>)
    requires i <= |chunks| && lines + [buffer] == Split(Concat(chunks[..i]), '\n') && Yield(lines, parse).failed
    ensures Events(Concat(chunks), parse) == Yield(lines, parse)
    decreases |chunks| - i
  {
    hide Split, Concat, Yield, Front, Back;
    if i == |chunks| {
      assert chunks[..i] == chunks;
      YieldAppend(lines, [buffer], parse);
    } else {
      OneMoreChunk(chunks, i, lines, buffer);
      var parts := Split(buffer + chunks[i], '\n');
      YieldAppend(lines, Front(parts), parse);
      FailsEarly(chunks, i + 1, lines + Front(parts), Back(parts), parse);
    }
  }

  // ---------------------------------------------------------------- what a sender wrote

  /** One encoded event per line. */
  function Sent<T>(events: seq<T>, encode: T -> string): string {
    if events == [] then "" else Sent(events[..|events| - 1], encode) + encode(events[|events| - 1]) + "\n"
  }

  /** The encoding stays on one line, is not blank, does not begin or end with space, and parses back. */
  ghost predicate IsLineCodec<T(!new)>(encode: T -> string, parse: string -> Option<T>) {
    forall e: T ::
      encode(e) != "" && '\n' !in encode(e) && Trim(encode(e)) == encode(e) && parse(encode(e)) == Some(e)
  }

  /** Every event that was sent is received, in order, however the text was cut up. */
  lemma {:induction false} SentIsReceived<T(!new)>(events: seq<T>, encode: T -> string, parse: string -> Option<T>)
    requires IsLineCodec(encode, parse)
    ensures Events(Sent(events, encode), parse) == Output(events, false)
    ensures Back(Split(Sent(events, encode), '\n')) == ""
  {
    EmptyText(parse);
    if events != [] {
      var init, e := events[..|events| - 1], events[|events| - 1];
      SentIsReceived(init, encode, parse);
      var before, line := Sent(init, encode), encode(e);
      assert Sent(events, encode) == before + (line + "\n") by {
        assert before + line + "\n" == before + (line + "\n");
      }
      assert init + [e] == events;
      YieldTwo(e, line, parse);
      hide *;
      SplitAppend(before, line + "\n", '\n');
      LineAlone(line);
      FrontBack(Split(before, '\n'));
      YieldAppend(Front(Split(before, '\n')), [""], parse);
      YieldAppend(Front(Split(before, '\n')), [line, ""], parse);
      BackOfTwo(Front(Split(before, '\n')), line);
    }
  }

  lemma EmptyText<T>(parse: string -> Option<T>)
    ensures Split("", '\n') == [""] && Back([""]) == "" && Events("", parse) == Output([], false)
  {
    assert [""][..0] == [] && Trim("") == "";
  }

  lemma LineAlone(line: string)
    requires '\n' !in line
    ensures Split("" + (line + "\n"), '\n') == [line, ""]
  {
    SplitCons(line, '\n', "");
    assert "" + (line + "\n") == line + ['\n'] + "";
    assert Split("", '\n') == [""];
  }

  lemma BackOfTwo(front: seq<string>, line: string)
    ensures Back(front + [line, ""]) == ""
  {
  }

  lemma YieldTwo<T>(e: T, line: string, parse: string -> Option<T>)
    requires line != "" && Trim(line) == line && parse(line) == Some(e)
    ensures Yield([line, ""], parse) == Output([e], false)
    ensures Yield([""], parse) == Output([], false)
  {
    assert [line, ""][..1] == [line] && [line][..0] == [] && [""][..0] == [];
    assert Trim("") == "";
    assert Yield([line], parse) == Output([] + [e], false);
  }
}
