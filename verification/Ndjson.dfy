/** Newline-delimited records: the writer, the bounded reader and the parser of export sections. */
module Ndjson {
  import opened Base
  import opened Text

  const MAX_LINES := 1_000_000
  const MAX_LINE_BYTES := 1_048_576

  /** A record encoding, standing for the JSON serializer of one record type. */
  datatype Codec<!T> = Codec(encode: T -> string, decode: string -> Option<T>)

  /** The decoder undoes the encoder, and an encoded record stays on one line. */
  ghost predicate IsSound<T(!new)>(c: Codec<T>) {
    forall x: T :: c.decode(c.encode(x)) == Some(x) && '\n' !in c.encode(x) && '\r' !in c.encode(x)
  }

  datatype NdjsonError = TooManyLines | LineTooLong(line: nat) | BadRecord(line: nat) | WrongCount(expected: nat, found: nat)

  /** Length of the first line of `text`, its newline included. */
  function FirstLine(text: string): (n: nat)
    requires text != ""
    ensures 1 <= n <= |text|
  {
    if text[0] == '\n' || |text| == 1 then 1 else 1 + FirstLine(text[1..])
  }

  /** The first line has no other newline, and lacks one at its end only if it is the last. */
  lemma {:induction false} FirstLineMeans(text: string)
    requires text != ""
    ensures var n := FirstLine(text);
      (forall i :: 0 <= i < n - 1 ==> text[i] != '\n') && (n < |text| ==> text[n - 1] == '\n')
  {
    if text[0] != '\n' && |text| > 1 {
      FirstLineMeans(text[1..]);
      var n := FirstLine(text[1..]);
      forall i | 0 <= i < n ensures text[i] != '\n' {
        assert i > 0 ==> text[i] == text[1..][i - 1];
      }
    }
  }

  /** The lines of a text, each with its newline; the last one may lack it. */
  function Lines(text: string): seq<string> {
    if text == "" then [] else [text[..FirstLine(text)]] + Lines(text[FirstLine(text)..])
  }

  /** `trim_end_matches(['\n', '\r'])` */
  function TrimEnd(s: string): string {
    if s != "" && (s[|s| - 1] == '\n' || s[|s| - 1] == '\r') then TrimEnd(s[..|s| - 1]) else s
  }

  /** A line without its newline and one carriage return before it: what the byte bound measures. */
  function Measured(line: string): string {
    if line != "" && line[|line| - 1] == '\n' then
      var s := line[..|line| - 1];
      if s != "" && s[|s| - 1] == '\r' then s[..|s| - 1] else s
    else line
  }

  function Printed<T>(c: Codec<T>, records: seq<T>): string {
    if records == [] then "" else Printed(c, records[..|records| - 1]) + c.encode(records[|records| - 1]) + "\n"
  }

  /** The records on `lines`, or the first line that is not one. */
  function Decoded<T>(c: Codec<T>, lines: seq<string>): Result<seq<T>, nat> {
    if lines == [] then Ok([])
    else
      match Decoded(c, lines[..|lines| - 1])
      case Err(n) => Err(n)
      case Ok(records) =>
        match c.decode(TrimEnd(lines[|lines| - 1]))
        case None => Err(|lines|)
        case Some(record) => Ok(records + [record])
  }

  function Parsed<T>(c: Codec<T>, text: string, expected: nat): Result<seq<T>, NdjsonError> {
    match Decoded(c, Lines(text))
    case Err(n) => Err(BadRecord(n))
    case Ok(records) => if |Lines(text)| == expected then Ok(records) else Err(WrongCount(expected, |Lines(text)|))
  }

  predicate InBounds(text: string) {
    |Lines(text)| <= MAX_LINES && forall l :: l in Lines(text) ==> ByteLen(Measured(l)) <= MAX_LINE_BYTES
  }

  // ---------------------------------------------------------------- lines of concatenated texts

  lemma {:induction false} FirstLineOf(a: string, b: string)
    requires a != "" && a[|a| - 1] == '\n' && '\n' !in a[..|a| - 1]
    ensures FirstLine(a + b) == |a|
  {
    if |a| > 1 {
      assert (a + b)[1..] == a[1..] + b;
      assert a[1..][..|a| - 2] == a[..|a| - 1][1..];
      FirstLineOf(a[1..], b);
    }
  }

  /** A complete line in front of a text is its first line. */
  lemma LinesCons(a: string, b: string)
    requires a != "" && a[|a| - 1] == '\n' && '\n' !in a[..|a| - 1]
    ensures Lines(a + b) == [a] + Lines(b)
  {
    FirstLineOf(a, b);
    assert (a + b)[..|a|] == a && (a + b)[|a|..] == b;
  }

  /** Lines of a text that ends with a newline, followed by more text. */
  lemma {:induction false} LinesAppend(a: string, b: string)
    requires a == "" || a[|a| - 1] == '\n'
    ensures Lines(a + b) == Lines(a) + Lines(b)
    decreases |a|
  {
    if a == "" {
      assert a + b == b;
    } else {
      hide *;
      var n := FirstLine(a);
      var line, rest := a[..n], a[n..];
      FirstLineEnds(a);
      assert a == line + rest;
      LinesAppend(rest, b);
      LinesCons(line, rest + b);
      LinesCons(line, rest);
      Assoc(line, rest, b);
      Assoc([line], Lines(rest), Lines(b));
    }
  }

  /** The first line of a text that ends with a newline. */
  lemma FirstLineEnds(a: string)
    requires a != "" && a[|a| - 1] == '\n'
    ensures var n := FirstLine(a); var line, rest := a[..n], a[n..];
      line[n - 1] == '\n' && '\n' !in line[..n - 1] && (rest == "" || rest[|rest| - 1] == '\n')
  {
    hide *;
    FirstLineMeans(a);
  }

  /** Every text is the concatenation of its lines. */
  lemma {:induction false} LinesConcat(text: string)
    ensures Concat(Lines(text)) == text
    decreases |text|
  {
    if text != "" {
      var n := FirstLine(text);
      LinesConcat(text[n..]);
      ConcatCons(text[..n], Lines(text[n..]));
      assert text == text[..n] + text[n..];
    }
  }

  lemma {:induction false} ConcatCons(s: string, ts: seq<string>)
    ensures Concat([s] + ts) == s + Concat(ts)
  {
    if ts == [] {
      assert [s] + ts == [s];
    } else {
      ConcatCons(s, ts[..|ts| - 1]);
      assert ([s] + ts)[..|ts|] == [s] + ts[..|ts| - 1];
    }
  }

  // ---------------------------------------------------------------- round trip

  /** What the writer wrote reads back as one line per record. */
  lemma {:induction false} PrintedLines<T(!new)>(c: Codec<T>, records: seq<T>)
    requires IsSound(c)
    ensures Printed(c, records) == "" || Printed(c, records)[|Printed(c, records)| - 1] == '\n'
    ensures |Lines(Printed(c, records))| == |records|
    ensures forall i :: 0 <= i < |records| ==> Lines(Printed(c, records))[i] == c.encode(records[i]) + "\n"
  {
    if records != [] {
      var init, last := records[..|records| - 1], c.encode(records[|records| - 1]) + "\n";
      PrintedLines(c, init);
      assert Printed(c, records) == Printed(c, init) + last;
      assert Lines(last) == [last] by {
        LinesCons(last, "");
        assert last + "" == last;
      }
      hide *;
      LinesAppend(Printed(c, init), last);
    }
  }

  lemma {:induction false} DecodedAll<T(!new)>(c: Codec<T>, records: seq<T>, lines: seq<string>)
    requires IsSound(c) && |lines| == |records|
    requires forall i :: 0 <= i < |records| ==> lines[i] == c.encode(records[i]) + "\n"
    ensures Decoded(c, lines) == Ok(records)
  {
    if lines != [] {
      var n := |records| - 1;
      DecodedAll(c, records[..n], lines[..n]);
      LineDecodes(c, records[n]);
      DecodedMore(c, records, lines, n);
    }
  }

  lemma LineDecodes<T(!new)>(c: Codec<T>, record: T)
    requires IsSound(c)
    ensures c.decode(TrimEnd(c.encode(record) + "\n")) == Some(record)
  {
    EncodedEnds(c, record);
    TrimOnce(c.encode(record));
    hide TrimEnd;
  }

  /** An encoded record ends in no line end. */
  lemma EncodedEnds<T(!new)>(c: Codec<T>, record: T)
    requires IsSound(c)
    ensures var text := c.encode(record); text == "" || (text[|text| - 1] != '\n' && text[|text| - 1] != '\r')
  {
    var text := c.encode(record);
    assert text != "" ==> text[|text| - 1] in text;
  }

  lemma TrimOnce(text: string)
    requires text == "" || (text[|text| - 1] != '\n' && text[|text| - 1] != '\r')
    ensures TrimEnd(text + "\n") == text
  {
    FrontOfMore(text, '\n');
    assert text + ['\n'] == text + "\n";
    TrimStep(text + "\n");
    NoTrim(text);
    hide TrimEnd;
  }

  lemma TrimStep(line: string)
    requires line != "" && line[|line| - 1] == '\n'
    ensures TrimEnd(line) == TrimEnd(line[..|line| - 1])
  {
  }

  lemma NoTrim(text: string)
    requires text == "" || (text[|text| - 1] != '\n' && text[|text| - 1] != '\r')
    ensures TrimEnd(text) == text
  {
  }

  lemma DecodedMore<T>(c: Codec<T>, records: seq<T>, lines: seq<string>, n: nat)
    requires |lines| == |records| == n + 1 && Decoded(c, lines[..n]) == Ok(records[..n])
    requires c.decode(TrimEnd(lines[n])) == Some(records[n])
    ensures Decoded(c, lines) == Ok(records)
  {
    hide TrimEnd;
    assert records[..n] + [records[n]] == records;
  }

  /** Parsing what was printed gives the records back, and exactly for the right declared count. */
  lemma PrintParse<T(!new)>(c: Codec<T>, records: seq<T>, expected: nat)
    requires IsSound(c)
    ensures Parsed(c, Printed(c, records), expected) ==
              if expected == |records| then Ok(records) else Err(WrongCount(expected, |records|))
  {
    PrintedLines(c, records);
    DecodedAll(c, records, Lines(Printed(c, records)));
  }

  /** The bounds of a printed section, in terms of its records. */
  lemma PrintedBounds<T(!new)>(c: Codec<T>, records: seq<T>)
    requires IsSound(c)
    ensures InBounds(Printed(c, records)) <==>
              |records| <= MAX_LINES && forall r :: r in records ==> ByteLen(c.encode(r)) <= MAX_LINE_BYTES
  {
    PrintedLines(c, records);
    var lines := Lines(Printed(c, records));
    hide Lines, Printed, ByteLen;
    forall i | 0 <= i < |records| ensures Measured(lines[i]) == c.encode(records[i]) {
      MeasuredRecord(c.encode(records[i]));
    }
    hide Measured;
    if InBounds(Printed(c, records)) {
      forall r | r in records ensures ByteLen(c.encode(r)) <= MAX_LINE_BYTES {
        var i :| 0 <= i < |records| && records[i] == r;
        assert lines[i] in lines;
      }
    }
  }

  lemma MeasuredRecord(e: string)
    requires '\r' !in e
    ensures Measured(e + "\n") == e
  {
    assert (e + "\n")[..|e|] == e;
    if e != "" { assert e[|e| - 1] in e; }
  }

  // ---------------------------------------------------------------- the code

  /** `write_ndjson` */
  method WriteNdjson<T>(c: Codec<T>, records: seq<T>) returns (out: string)
    ensures out == Printed(c, records)
  {
    out := "";
    for i := 0 to |records|
      invariant out == Printed(c, records[..i])
    {
      assert records[..i + 1][..i] == records[..i];
      var line := c.encode(records[i]);
      out := out + line;
      out := out + "\n";
    }
    assert records[..|records|] == records;
  }

  /** One `read_line`: how much of the unread text it takes. */
  method ReadLine(rest: string) returns (n: nat)
    requires rest != ""
    ensures n == FirstLine(rest)
  {
    n := 0;
    while n < |rest| && rest[n] != '\n'
      invariant 0 <= n <= |rest| && forall i :: 0 <= i < n ==> rest[i] != '\n'
    {
      n := n + 1;
    }
    FirstLineMeans(rest);
    if n < |rest| {
      n := n + 1;
    }
  }

  /** Reading one more line of a text. */
  lemma NextLine(rest: string, done: seq<string>, all: seq<string>)
    requires rest != "" && done + Lines(rest) == all
    ensures done + [rest[..FirstLine(rest)]] + Lines(rest[FirstLine(rest)..]) == all
  {
    LinesStep(rest);
    hide *;
    Regroup(done, rest[..FirstLine(rest)], Lines(rest[FirstLine(rest)..]), Lines(rest));
  }

  lemma Regroup<T>(done: seq<T>, x: T, rest: seq<T>, left: seq<T>)
    requires left == [x] + rest
    ensures done + [x] + rest == done + left
  {
  }

  lemma Assoc<T>(a: seq<T>, b: seq<T>, c: seq<T>)
    ensures a + b + c == a + (b + c)
  {
  }

  lemma LinesStep(text: string)
    requires text != ""
    ensures Lines(text) == [text[..FirstLine(text)]] + Lines(text[FirstLine(text)..])
  {
    hide FirstLine;
  }

  /** `ndjson_bounds`: the number of lines, or the first violated bound. */
  method NdjsonBounds(text: string) returns (r: Result<nat, NdjsonError>)
    ensures r.Ok? <==> InBounds(text)
    ensures r.Ok? ==> r.value == |Lines(text)|
  {
    var lines, rest := 0, text;
    ghost var done: seq<string> := [];
    while rest != ""
      invariant done + Lines(rest) == Lines(text) && lines == |done| <= MAX_LINES
      invariant forall l :: l in done ==> ByteLen(Measured(l)) <= MAX_LINE_BYTES
      decreases |rest|
    {
      var n := ReadLine(rest);
      var buf := rest[..n];
      NextLine(rest, done, Lines(text));
      done := done + [buf];
      assert buf in Lines(text) by { assert Lines(text)[|done| - 1] == buf; }
      rest := rest[n..];
      lines := lines + 1;
      if lines > MAX_LINES {
        return Err(TooManyLines);
      }
      var len := ByteLen(Measured(buf));
      if len > MAX_LINE_BYTES {
        return Err(LineTooLong(lines));
      }
    }
    return Ok(lines);
  }

  /** `parse_ndjson` */
  method ParseNdjson<T>(c: Codec<T>, text: string, expected: nat) returns (r: Result<seq<T>, NdjsonError>)
    ensures r == Parsed(c, text, expected)
  {
    var records, lineNo, rest := [], 0, text;
    ghost var done: seq<string> := [];
    while rest != ""
      invariant done + Lines(rest) == Lines(text) && lineNo == |done|
      invariant Decoded(c, done) == Ok(records)
      decreases |rest|
    {
      var n := ReadLine(rest);
      var buf := rest[..n];
      NextLine(rest, done, Lines(text));
      assert (done + [buf])[..|done|] == done;
      done := done + [buf];
      rest := rest[n..];
      lineNo := lineNo + 1;
      match c.decode(TrimEnd(buf)) {
        case None =>
          DecodedStops(c, done, Lines(rest));
          return Err(BadRecord(lineNo));
        case Some(record) =>
          records := records + [record];
      }
    }
    assert done + [] == done;
    if lineNo != expected {
      return Err(WrongCount(expected, lineNo));
    }
    return Ok(records);
  }

  /** The first bad line decides. */
  lemma {:induction false} DecodedStops<T>(c: Codec<T>, done: seq<string>, rest: seq<string>)
    requires Decoded(c, done).Err?
    ensures Decoded(c, done + rest) == Decoded(c, done)
  {
    if rest == [] {
      assert done + rest == done;
    } else {
      DecodedStops(c, done, rest[..|rest| - 1]);
      assert (done + rest)[..|done + rest| - 1] == done + rest[..|rest| - 1];
    }
  }
}
