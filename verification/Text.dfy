/** Results, and the length measures the kernel applies to generated text. */
module Base {
  datatype Option<+T> = None | Some(value: T)

  datatype Result<+T, +E> = Ok(value: T) | Err(error: E)

  /** A checksum that identifies what it was taken of. */
  datatype Digest<T> = Digest(of: T)

  /** A sequence is its front and its last element. */
  lemma FrontAndLast<T>(s: seq<T>)
    requires s != []
    ensures s == s[..|s| - 1] + [s[|s| - 1]]
  {
  }

  lemma FrontOfMore<T>(s: seq<T>, x: T)
    ensures (s + [x])[..|s + [x]| - 1] == s && (s + [x])[|s|] == x && |s + [x]| == |s| + 1
  {
  }

  lemma TakeMore<T>(s: seq<T>, i: nat)
    requires i < |s|
    ensures |s[..i + 1]| == i + 1 && s[..i + 1][..i] == s[..i] && s[..i + 1][i] == s[i] && s[..i + 1] == s[..i] + [s[i]]
  {
  }

  lemma TakeAndDrop<T>(s: seq<T>, i: nat)
    requires i <= |s|
    ensures s == s[..i] + s[i..]
  {
  }

  /** What is left of a process's allowance of steps; None is no limit. */
  function Spent(fuel: Option<nat>): Option<nat> {
    match fuel
    case None => None
    case Some(k) => Some(if k == 0 then 0 else k - 1)
  }
}

/** Strings are sequences of Unicode scalar values; these are their encoded lengths. */
module Text {
  /** Bytes one character takes in UTF-8. */
  function Utf8Len(c: char): (n: nat)
    ensures 1 <= n <= 4
  {
    var v := c as int;
    if v < 0x80 then 1 else if v < 0x800 then 2 else if v < 0x10000 then 3 else 4
  }

  /** Rust's `str::len`. */
  function ByteLen(s: string): nat {
    if s == "" then 0 else ByteLen(s[..|s| - 1]) + Utf8Len(s[|s| - 1])
  }

  /** The length the wire contract bounds: UTF-16 code units. */
  function Utf16Len(s: string): nat {
    if s == "" then 0
    else Utf16Len(s[..|s| - 1]) + if s[|s| - 1] as int < 0x10000 then 1 else 2
  }

  function Concat(ts: seq<string>): string {
    if ts == [] then "" else Concat(ts[..|ts| - 1]) + ts[|ts| - 1]
  }

  function TotalBytes(ts: seq<string>): nat {
    if ts == [] then 0 else TotalBytes(ts[..|ts| - 1]) + ByteLen(ts[|ts| - 1])
  }

  lemma {:induction false} ByteLenAppend(a: string, b: string)
    ensures ByteLen(a + b) == ByteLen(a) + ByteLen(b)
  {
    if b == "" {
      assert a + b == a;
    } else {
      ByteLenAppend(a, b[..|b| - 1]);
      assert (a + b)[..|a + b| - 1] == a + b[..|b| - 1];
    }
  }

  /** The byte counter of a run is the encoded length of the text it stands for. */
  lemma {:induction false} ByteLenConcat(ts: seq<string>)
    ensures ByteLen(Concat(ts)) == TotalBytes(ts)
  {
    if ts != [] {
      ByteLenConcat(ts[..|ts| - 1]);
      ByteLenAppend(Concat(ts[..|ts| - 1]), ts[|ts| - 1]);
    }
  }

  /** Characters, UTF-16 units and UTF-8 bytes only ever grow in that order. */
  lemma {:induction false} LengthOrder(s: string)
    ensures |s| <= Utf16Len(s) <= ByteLen(s) <= 4 * |s|
  {
    if s != "" {
      LengthOrder(s[..|s| - 1]);
    }
  }
}
