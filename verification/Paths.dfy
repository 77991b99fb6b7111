/** Managed relative keys: the grammar, and how keys and paths below a directory correspond. */
module Paths {
  import opened Base
  import opened Text

  const MAX_RELATIVE_KEY_LEN := 512

  datatype Rule =
    | Empty | TooLong | LeadingOrTrailingSlash | ControlChar | Backslash
    | EmptyComponent | DotComponent | ReservedName | TrailingDotOrSpace

  /** `char::is_control` */
  predicate IsControl(c: char) {
    c as int < 0x20 || 0x7f <= c as int <= 0x9f
  }

  function Upper(c: char): char {
    if 'a' <= c <= 'z' then ((c as int - 'a' as int) + 'A' as int) as char else c
  }

  function AsciiUppercase(s: string): string {
    seq(|s|, i requires 0 <= i < |s| => Upper(s[i]))
  }

  // ---------------------------------------------------------------- splitting and joining

  /** Length of the part before the first `sep`. */
  function Until(s: string, sep: char): (n: nat)
    ensures n <= |s|
  {
    if s == "" || s[0] == sep then 0 else 1 + Until(s[1..], sep)
  }

  /** `str::split(sep)`: always at least one part. */
  function Split(s: string, sep: char): (parts: seq<string>)
    ensures |parts| >= 1
    decreases |s|
  {
    var n := Until(s, sep);
    if n == |s| then [s] else [s[..n]] + Split(s[n + 1..], sep)
  }

  function Join(parts: seq<string>, sep: char): string
    requires |parts| >= 1
  {
    if |parts| == 1 then parts[0] else parts[0] + [sep] + Join(parts[1..], sep)
  }

  lemma {:induction false} UntilMeans(s: string, sep: char)
    ensures forall i :: 0 <= i < Until(s, sep) ==> s[i] != sep
    ensures Until(s, sep) < |s| ==> s[Until(s, sep)] == sep
  {
    if s != "" && s[0] != sep {
      UntilMeans(s[1..], sep);
    }
  }

  lemma {:induction false} UntilOf(a: string, sep: char, b: string)
    requires sep !in a
    ensures Until(a, sep) == |a| && Until(a + [sep] + b, sep) == |a|
  {
    if a != "" {
      UntilOf(a[1..], sep, b);
      assert (a + [sep] + b)[1..] == a[1..] + [sep] + b;
    }
  }

  /** Joining the parts of a string gives it back. */
  lemma {:induction false} JoinSplit(s: string, sep: char)
    ensures Join(Split(s, sep), sep) == s
    decreases |s|
  {
    var n := Until(s, sep);
    UntilMeans(s, sep);
    if n < |s| {
      JoinSplit(s[n + 1..], sep);
      assert s == s[..n] + [sep] + s[n + 1..];
      assert Split(s, sep)[1..] == Split(s[n + 1..], sep);
    }
  }

  /** Splitting joined parts gives them back, if none holds the separator. */
  lemma {:induction false} SplitJoin(parts: seq<string>, sep: char)
    requires |parts| >= 1 && forall p :: p in parts ==> sep !in p
    ensures Split(Join(parts, sep), sep) == parts
  {
    var first := parts[0];
    assert first in parts;
    if |parts| == 1 {
      UntilOf(first, sep, "");
      assert parts == [first];
    } else {
      SplitJoin(parts[1..], sep);
      SplitCons(first, sep, Join(parts[1..], sep));
      assert parts == [first] + parts[1..];
    }
  }

  lemma SplitCons(first: string, sep: char, rest: string)
    requires sep !in first
    ensures Split(first + [sep] + rest, sep) == [first] + Split(rest, sep)
  {
    UntilOf(first, sep, rest);
    var s := first + [sep] + rest;
    assert s[..|first|] == first && s[|first| + 1..] == rest;
  }

  /** No part holds the separator. */
  lemma {:induction false} SplitParts(s: string, sep: char)
    ensures forall p :: p in Split(s, sep) ==> sep !in p
    decreases |s|
  {
    UntilMeans(s, sep);
    var n := Until(s, sep);
    if n < |s| {
      SplitParts(s[n + 1..], sep);
    }
  }

  // ---------------------------------------------------------------- the grammar

  predicate IsReservedWindowsName(component: string) {
    var upper := AsciiUppercase(Split(component, '.')[0]);
    || upper in {"CON", "PRN", "AUX", "NUL"}
    || (|upper| == 4 && upper[..3] in {"COM", "LPT"} && '1' <= upper[3] <= '9')
  }

  function ComponentFault(component: string): Option<Rule> {
    if component == "" then Some(EmptyComponent)
    else if component == "." || component == ".." then Some(DotComponent)
    else if IsReservedWindowsName(component) then Some(ReservedName)
    else if component[|component| - 1] == '.' || component[|component| - 1] == ' ' then Some(TrailingDotOrSpace)
    else None
  }

  function FirstFault(components: seq<string>): Option<Rule> {
    if components == [] then None
    else if ComponentFault(components[0]).Some? then ComponentFault(components[0])
    else FirstFault(components[1..])
  }

  /** `validate_relative_key`: the first rule a key breaks. */
  function KeyFault(key: string): Option<Rule> {
    if key == "" then Some(Empty)
    else if ByteLen(key) > MAX_RELATIVE_KEY_LEN then Some(TooLong)
    else if key[0] == '/' || key[|key| - 1] == '/' then Some(LeadingOrTrailingSlash)
    else if exists i :: 0 <= i < |key| && IsControl(key[i]) then Some(ControlChar)
    else if '\\' in key then Some(Backslash)
    else FirstFault(Split(key, '/'))
  }

  predicate IsValidKey(key: string) {
    KeyFault(key).None?
  }

  /** The rules one by one. */
  lemma ValidWhen(key: string)
    requires key != "" && ByteLen(key) <= MAX_RELATIVE_KEY_LEN && key[0] != '/' && key[|key| - 1] != '/'
    requires forall i :: 0 <= i < |key| ==> !IsControl(key[i]) && key[i] != '\\'
    requires FirstFault(Split(key, '/')).None?
    ensures IsValidKey(key)
  {
    hide ByteLen, FirstFault, Split, IsControl;
  }

  lemma {:induction false} FirstFaultMeans(components: seq<string>)
    ensures FirstFault(components).None? <==> forall c :: c in components ==> ComponentFault(c).None?
  {
    if components != [] {
      FirstFaultMeans(components[1..]);
      assert components == [components[0]] + components[1..];
    }
  }

  // ---------------------------------------------------------------- paths below a directory

  /** A path as its components; the path library drops empty and `.` components. */
  type Path = seq<string>

  function Components(parts: seq<string>): Path {
    if parts == [] then []
    else (if parts[0] == "" || parts[0] == "." then [] else [parts[0]]) + Components(parts[1..])
  }

  lemma {:induction false} ComponentsOfClean(parts: seq<string>)
    requires forall p :: p in parts ==> p != "" && p != "."
    ensures Components(parts) == parts
  {
    if parts != [] {
      assert parts == [parts[0]] + parts[1..];
      assert parts[0] in parts && forall p :: p in parts[1..] ==> p in parts;
      ComponentsOfClean(parts[1..]);
    }
  }

  /** `join_checked`, with its check that the result is below `root`. */
  function JoinChecked(root: Path, key: string): Option<Path> {
    if !IsValidKey(key) then None
    else
      var joined := root + Components(Split(key, '/'));
      if root <= joined then Some(joined) else None
  }

  /** `relative_key_of` */
  function RelativeKeyOf(root: Path, path: Path): string
    requires root < path
  {
    Join(path[|root|..], '/')
  }

  /** The parts of a valid key are proper components, none of which leads upwards. */
  lemma ValidComponents(key: string)
    requires IsValidKey(key)
    ensures Components(Split(key, '/')) == Split(key, '/')
    ensures forall p :: p in Split(key, '/') ==> p != "" && p != "." && p != ".." && '/' !in p
  {
    FirstFaultMeans(Split(key, '/'));
    SplitParts(key, '/');
    forall p | p in Split(key, '/') ensures p != "" && p != "." && p != ".." {
      assert ComponentFault(p).None?;
    }
    ComponentsOfClean(Split(key, '/'));
  }

  /**
   * A valid key always joins, strictly below the root and without a way up, and the walked path leads
   * back to the very same key; so two keys never share a path.
   */
  lemma JoinedKeyComesBack(root: Path, key: string)
    ensures JoinChecked(root, key).Some? <==> IsValidKey(key)
    ensures IsValidKey(key) ==>
      var path := JoinChecked(root, key).value;
      root < path && ".." !in path[|root|..] && RelativeKeyOf(root, path) == key
  {
    if IsValidKey(key) {
      ValidComponents(key);
      JoinSplit(key, '/');
      var path := root + Split(key, '/');
      assert path[|root|..] == Split(key, '/');
    }
  }

  /** The other way: the key of a path walked below `root`, if it is valid, joins to that path. */
  lemma WalkedPathComesBack(root: Path, path: Path)
    requires root < path && forall i :: |root| <= i < |path| ==> '/' !in path[i]
    requires IsValidKey(RelativeKeyOf(root, path))
    ensures JoinChecked(root, RelativeKeyOf(root, path)) == Some(path)
  {
    var rel := path[|root|..];
    SplitJoin(rel, '/');
    ValidComponents(RelativeKeyOf(root, path));
    assert root + rel == path;
  }

  /** Putting a valid name in front of a valid key keeps it valid exactly as long as it is short enough. */
  lemma NestedKey(dir: string, key: string)
    requires IsValidKey(dir) && '/' !in dir && IsValidKey(key)
    ensures IsValidKey(dir + "/" + key) <==> ByteLen(dir) + 1 + ByteLen(key) <= MAX_RELATIVE_KEY_LEN
  {
    var nested := dir + "/" + key;
    JoinedLength(dir, key);
    assert FirstFault(Split(nested, '/')).None? by { NestedParts(dir, key); }
    hide ByteLen, FirstFault, Split, IsControl;
    assert nested == dir + ['/'] + key;
    assert nested[0] == dir[0] && nested[|nested| - 1] == key[|key| - 1];
    forall i | 0 <= i < |nested| ensures !IsControl(nested[i]) && nested[i] != '\\' {
      if i < |dir| {
        assert nested[i] == dir[i] && dir[i] in dir;
      } else if i > |dir| {
        assert nested[i] == key[i - |dir| - 1] && key[i - |dir| - 1] in key;
      } else {
        SlashIsPlain();
      }
    }
  }

  lemma JoinedLength(dir: string, key: string)
    ensures ByteLen(dir + "/" + key) == ByteLen(dir) + 1 + ByteLen(key)
  {
    ByteLenAppend(dir + "/", key);
    ByteLenAppend(dir, "/");
    assert "/"[..0] == "";
  }

  lemma SlashIsPlain()
    ensures !IsControl('/')
  {
  }

  lemma NestedParts(dir: string, key: string)
    requires IsValidKey(dir) && '/' !in dir && IsValidKey(key)
    ensures FirstFault(Split(dir + "/" + key, '/')).None?
  {
    SplitCons(dir, '/', key);
    assert dir + ['/'] + key == dir + "/" + key;
    UntilOf(dir, '/', "");
    assert Split(dir, '/') == [dir];
    FirstFaultMeans(Split(dir, '/'));
    FirstFaultMeans(Split(key, '/'));
    hide Split, ComponentFault;
    FirstFaultMeans(Split(dir + "/" + key, '/'));
    hide FirstFault;
    assert dir in [dir];
  }

  // ---------------------------------------------------------------- plain names

  predicate IsLower(s: string) {
    forall i :: 0 <= i < |s| ==> 'a' <= s[i] <= 'z'
  }

  /** Plain characters take one byte each. */
  lemma {:induction false} PlainLength(name: string)
    requires forall i :: 0 <= i < |name| ==> 'a' <= name[i] <= 'z' || name[i] == '.'
    ensures ByteLen(name) == |name|
  {
    if name != "" {
      PlainLength(name[..|name| - 1]);
      assert 'a' <= name[|name| - 1] <= 'z' || name[|name| - 1] == '.';
    }
  }

  /** A short lower-case name that is not a reserved word is a key. */
  lemma PlainName(name: string)
    requires 1 <= |name| <= MAX_RELATIVE_KEY_LEN && name[|name| - 1] != '.' && Until(name, '.') >= 5
    requires forall i :: 0 <= i < |name| ==> 'a' <= name[i] <= 'z' || name[i] == '.'
    ensures IsValidKey(name)
  {
    PlainLength(name);
    PlainPart(name);
    PlainChars(name);
    hide *;
    ValidWhen(name);
  }

  lemma PlainChars(name: string)
    requires forall i :: 0 <= i < |name| ==> 'a' <= name[i] <= 'z' || name[i] == '.'
    ensures forall i :: 0 <= i < |name| ==> !IsControl(name[i]) && name[i] != '\\' && name[i] != '/'
  {
  }

  lemma PlainPart(name: string)
    requires 1 <= |name| && name[|name| - 1] != '.' && Until(name, '.') >= 5
    requires forall i :: 0 <= i < |name| ==> 'a' <= name[i] <= 'z' || name[i] == '.'
    ensures FirstFault(Split(name, '/')).None?
  {
    assert 'a' <= name[|name| - 1] <= 'z';
    PlainChars(name);
    hide *;
    Whole(name, '/');
    LongBase(name);
    LetterLast(name);
    OnePart(name);
  }

  lemma LetterLast(name: string)
    requires name != "" && 'a' <= name[|name| - 1] <= 'z' && !IsReservedWindowsName(name)
    ensures ComponentFault(name).None?
  {
    hide IsReservedWindowsName;
  }

  lemma OnePart(name: string)
    requires ComponentFault(name).None?
    ensures FirstFault([name]).None?
  {
    hide ComponentFault;
    FirstFaultMeans([name]);
  }

  lemma Whole(s: string, sep: char)
    requires forall i :: 0 <= i < |s| ==> s[i] != sep
    ensures Split(s, sep) == [s]
  {
    UntilOf(s, sep, "");
  }

  lemma LongBase(name: string)
    requires Until(name, '.') >= 5
    ensures !IsReservedWindowsName(name)
  {
    hide Until;
    assert |Split(name, '.')[0]| >= 5;
    assert |AsciiUppercase(Split(name, '.')[0])| >= 5;
  }

  /** A lower-case word is a key by itself. */
  lemma WordIsKey(word: string)
    requires IsLower(word) && 5 <= |word| <= MAX_RELATIVE_KEY_LEN
    ensures IsValidKey(word) && '/' !in word && ByteLen(word) == |word|
  {
    assert '.' !in word;
    UntilOf(word, '.', "");
    assert 'a' <= word[|word| - 1] <= 'z';
    PlainLength(word);
    hide IsValidKey, Until, ByteLen;
    PlainName(word);
  }

  /** And so is a word with an extension. */
  lemma FileNameIsKey(word: string, extension: string)
    requires IsLower(word) && IsLower(extension)
    requires 5 <= |word| && 1 <= |extension| && |word| + 1 + |extension| <= MAX_RELATIVE_KEY_LEN
    ensures IsValidKey(word + "." + extension)
  {
    var name := word + "." + extension;
    assert name == word + ['.'] + extension && '.' !in word;
    UntilOf(word, '.', extension);
    assert name[|name| - 1] == extension[|extension| - 1] && 'a' <= extension[|extension| - 1] <= 'z';
    hide IsValidKey, Until, ByteLen;
    PlainName(name);
  }

  const ASSETS_PREFIX := "assets/"

  /** A key below the assets directory is a key again exactly while it is short enough. */
  lemma AssetKey(key: string)
    requires IsValidKey(key)
    ensures IsValidKey(ASSETS_PREFIX + key) <==> |ASSETS_PREFIX| + ByteLen(key) <= MAX_RELATIVE_KEY_LEN
  {
    WordIsKey("assets");
    PrefixParts(key);
    hide *;
    NestedKey("assets", key);
  }

  lemma PrefixParts(key: string)
    ensures ASSETS_PREFIX + key == "assets" + "/" + key && |ASSETS_PREFIX| == 7 && |"assets"| == 6
    ensures (ASSETS_PREFIX + key)[|ASSETS_PREFIX|..] == key
  {
  }
}
