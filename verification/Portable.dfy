/** Export containers: writing one from a database, verifying one, and importing it. */
module Portable {
  import opened Base
  import opened Text
  import opened Ndjson
  import opened Transfer
  import P = Paths

  datatype Section = CharactersFile | ChatsFile | MessagesFile | LorebooksFile | PresetsFile

  /** Files of a container; `Stray` is anything outside its layout. */
  datatype Path = SectionPath(section: Section) | AssetPath(key: string) | Stray(name: string)

  datatype Entry = Entry(path: Path, size: int, sum: Digest<string>)

  datatype Counts = Counts(characters: nat, chats: nat, messages: nat, lorebooks: nat, presets: nat)

  datatype Manifest = Manifest(version: nat, counts: Counts, inventory: seq<Entry>)

  /** A container directory; without a manifest it is incomplete. */
  datatype Container = Container(files: map<Path, string>, manifest: Option<Manifest>)

  /** The encodings of the records, and the length in bytes of a serialized manifest. */
  datatype Codecs = Codecs(
    manifestLen: Manifest -> nat,
    character: Codec<Rec<Character>>,
    chat: Codec<Rec<Chat>>,
    message: Codec<Rec<WireMessage>>,
    lorebook: Codec<Rec<string>>,
    preset: Codec<Rec<string>>)

  const FORMAT_VERSION := 1
  const MAX_MANIFEST_BYTES := 1_048_576

  ghost predicate AllSound(k: Codecs) {
    IsSound(k.character) && IsSound(k.chat) && IsSound(k.message) && IsSound(k.lorebook) && IsSound(k.preset)
  }

  // ---------------------------------------------------------------- verification of a container

  function SectionWord(s: Section): (word: string)
    ensures P.IsLower(word) && 5 <= |word| <= 10
  {
    match s
    case CharactersFile => "characters"
    case ChatsFile => "chats"
    case MessagesFile => "messages"
    case LorebooksFile => "lorebooks"
    case PresetsFile => "presets"
  }

  /** The `logicalPath` of an inventory entry. */
  function Logical(p: Path): string {
    match p
    case SectionPath(s) => SectionWord(s) + "." + "ndjson"
    case AssetPath(key) => P.ASSETS_PREFIX + key
    case Stray(name) => name
  }

  /** The file is present with the declared size and checksum. */
  predicate Matches(files: map<Path, string>, e: Entry) {
    e.path in files && ByteLen(files[e.path]) == e.size && Digest(files[e.path]) == e.sum
  }

  predicate DistinctPaths(inventory: seq<Entry>) {
    forall i, j :: 0 <= i < j < |inventory| ==> inventory[i].path != inventory[j].path
  }

  /** A section of the declared length, within the line bounds. */
  predicate SectionHolds(files: map<Path, string>, s: Section, expected: nat) {
    SectionPath(s) in files && InBounds(files[SectionPath(s)]) && |Lines(files[SectionPath(s)])| == expected
  }

  predicate SectionsHold(files: map<Path, string>, n: Counts) {
    && SectionHolds(files, CharactersFile, n.characters) && SectionHolds(files, ChatsFile, n.chats)
    && SectionHolds(files, MessagesFile, n.messages) && SectionHolds(files, LorebooksFile, n.lorebooks)
    && SectionHolds(files, PresetsFile, n.presets)
  }

  /** The inventory lists exactly the files, each as it is. */
  predicate InventoryHolds(files: map<Path, string>, inventory: seq<Entry>) {
    && DistinctPaths(inventory)
    && (forall e :: e in inventory ==> !e.path.Stray? && Matches(files, e))
    && (forall p :: p in files ==> exists e :: e in inventory && e.path == p)
  }

  /** Every entry is named by a managed key. */
  predicate PathsValid(inventory: seq<Entry>) {
    forall e :: e in inventory ==> P.IsValidKey(Logical(e.path))
  }

  predicate Verified(c: Container, manifestLen: Manifest -> nat) {
    c.manifest.Some? && manifestLen(c.manifest.value) <= MAX_MANIFEST_BYTES && c.manifest.value.version == FORMAT_VERSION &&
    PathsValid(c.manifest.value.inventory) && InventoryHolds(c.files, c.manifest.value.inventory) &&
    SectionsHold(c.files, c.manifest.value.counts)
  }

  /** `verify_export` */
  method VerifyExport(c: Container, manifestLen: Manifest -> nat) returns (counts: Option<Counts>)
    ensures counts.Some? <==> Verified(c, manifestLen)
    ensures counts.Some? ==> counts.value == c.manifest.value.counts
  {
    hide PathsValid, InventoryHolds;
    if c.manifest.None? || manifestLen(c.manifest.value) > MAX_MANIFEST_BYTES {
      return None;
    }
    var m := c.manifest.value;
    if m.version != FORMAT_VERSION {
      return None;
    }
    var ok := CheckInventory(c.files, m.inventory);
    if !ok {
      return None;
    }
    var sections := [(CharactersFile, m.counts.characters), (ChatsFile, m.counts.chats), (MessagesFile, m.counts.messages),
                     (LorebooksFile, m.counts.lorebooks), (PresetsFile, m.counts.presets)];
    for i := 0 to 5
      invariant forall j :: 0 <= j < i ==> SectionHolds(c.files, sections[j].0, sections[j].1)
    {
      var path := SectionPath(sections[i].0);
      if path !in c.files {
        assert !SectionHolds(c.files, sections[i].0, sections[i].1);
        return None;
      }
      var lines := NdjsonBounds(c.files[path]);
      if lines.Err? || lines.value != sections[i].1 {
        assert !SectionHolds(c.files, sections[i].0, sections[i].1);
        return None;
      }
    }
    assert forall j :: 0 <= j < 5 ==> SectionHolds(c.files, sections[j].0, sections[j].1);
    assert SectionHolds(c.files, sections[0].0, sections[0].1) && SectionHolds(c.files, sections[1].0, sections[1].1);
    assert SectionHolds(c.files, sections[2].0, sections[2].1) && SectionHolds(c.files, sections[3].0, sections[3].1);
    assert SectionHolds(c.files, sections[4].0, sections[4].1);
    return Some(m.counts);
  }

  method CheckInventory(files: map<Path, string>, inventory: seq<Entry>) returns (ok: bool)
    ensures ok <==> PathsValid(inventory) && InventoryHolds(files, inventory)
  {
    hide P.IsValidKey, Logical, ByteLen;
    var seen: set<Path> := {};
    for i := 0 to |inventory|
      invariant forall p :: p in seen <==> exists j :: 0 <= j < i && inventory[j].path == p
      invariant DistinctPaths(inventory[..i])
      invariant forall j :: 0 <= j < i ==> P.IsValidKey(Logical(inventory[j].path))
      invariant forall j :: 0 <= j < i ==> !inventory[j].path.Stray? && Matches(files, inventory[j])
    {
      var e := inventory[i];
      assert e in inventory;
      if !P.IsValidKey(Logical(e.path)) || e.path.Stray? || e.path in seen || !Matches(files, e) {
        return false;
      }
      seen := seen + {e.path};
    }
    assert inventory[..|inventory|] == inventory;
    var todo := files.Keys;
    while todo != {}
      invariant todo <= files.Keys
      invariant forall p :: p in files && p !in todo ==> p in seen
      decreases todo
    {
      var p :| p in todo;
      if p !in seen {
        assert forall e :: e in inventory ==> e.path in seen;
        return false;
      }
      todo := todo - {p};
    }
    forall p | p in files ensures exists e :: e in inventory && e.path == p {
      var j :| 0 <= j < |inventory| && inventory[j].path == p;
      assert inventory[j] in inventory;
    }
    return true;
  }

  // ---------------------------------------------------------------- reading a container

  /** What is wrong with the first message that may not be imported. */
  function MessageFault(messages: seq<Rec<WireMessage>>): Option<ImportError> {
    if messages == [] then None
    else if !IsRole(messages[0].row.role) then Some(InvalidRole(messages[0].id))
    else if messages[0].row.sequence > I64_MAX then Some(SequenceOutOfRange(messages[0].id))
    else MessageFault(messages[1..])
  }

  function SectionText(files: map<Path, string>, s: Section): string {
    if SectionPath(s) in files then files[SectionPath(s)] else ""
  }

  /** Parsed sections that pass every check made before the transaction. */
  function Screened(x: Incoming): Result<Incoming, ImportError> {
    if !AllDistinct(x) then Err(DuplicateId)
    else if MessageFault(x.messages).Some? then Err(MessageFault(x.messages).value)
    else Ok(x)
  }

  /** The records an import works with, or why it refuses the container. */
  function Checked(k: Codecs, c: Container): Result<Incoming, ImportError> {
    if !Verified(c, k.manifestLen) then Err(BadContainer)
    else
      var n := c.manifest.value.counts;
      match Parsed(k.character, SectionText(c.files, CharactersFile), n.characters)
      case Err(e) => Err(BadSection(e))
      case Ok(characters) =>
        match Parsed(k.chat, SectionText(c.files, ChatsFile), n.chats)
        case Err(e) => Err(BadSection(e))
        case Ok(chats) =>
          match Parsed(k.message, SectionText(c.files, MessagesFile), n.messages)
          case Err(e) => Err(BadSection(e))
          case Ok(messages) =>
            match Parsed(k.lorebook, SectionText(c.files, LorebooksFile), n.lorebooks)
            case Err(e) => Err(BadSection(e))
            case Ok(lorebooks) =>
              match Parsed(k.preset, SectionText(c.files, PresetsFile), n.presets)
              case Err(e) => Err(BadSection(e))
              case Ok(presets) => Screened(Incoming(characters, chats, messages, lorebooks, presets))
  }

  /** `reject_duplicate_ids` */
  method HasDuplicates<V>(recs: seq<Rec<V>>) returns (found: bool)
    ensures found <==> !Distinct(recs)
  {
    var seen: set<Id> := {};
    for i := 0 to |recs|
      invariant forall id :: id in seen <==> exists j :: 0 <= j < i && recs[j].id == id
      invariant Distinct(recs[..i])
    {
      if recs[i].id in seen {
        return true;
      }
      seen := seen + {recs[i].id};
    }
    assert recs[..|recs|] == recs;
    return false;
  }

  method CheckMessages(messages: seq<Rec<WireMessage>>) returns (fault: Option<ImportError>)
    ensures fault == MessageFault(messages)
  {
    for i := 0 to |messages|
      invariant MessageFault(messages) == MessageFault(messages[i..])
    {
      var m := messages[i];
      if !IsRole(m.row.role) {
        return Some(InvalidRole(m.id));
      }
      if m.row.sequence > I64_MAX {
        return Some(SequenceOutOfRange(m.id));
      }
    }
    return None;
  }

  method Screen(x: Incoming) returns (r: Result<Incoming, ImportError>)
    ensures r == Screened(x)
  {
    var a := HasDuplicates(x.characters);
    var b := HasDuplicates(x.chats);
    var c := HasDuplicates(x.messages);
    var d := HasDuplicates(x.lorebooks);
    var e := HasDuplicates(x.presets);
    if a || b || c || d || e {
      return Err(DuplicateId);
    }
    var fault := CheckMessages(x.messages);
    return if fault.Some? then Err(fault.value) else Ok(x);
  }

  method ReadContainer(k: Codecs, c: Container) returns (r: Result<Incoming, ImportError>)
    ensures r == Checked(k, c)
  {
    hide Verified, Parsed, Screened;
    var counts := VerifyExport(c, k.manifestLen);
    if counts.None? {
      return Err(BadContainer);
    }
    var n := counts.value;
    var characters := ParseNdjson(k.character, SectionText(c.files, CharactersFile), n.characters);
    if characters.Err? { return Err(BadSection(characters.error)); }
    var chats := ParseNdjson(k.chat, SectionText(c.files, ChatsFile), n.chats);
    if chats.Err? { return Err(BadSection(chats.error)); }
    var messages := ParseNdjson(k.message, SectionText(c.files, MessagesFile), n.messages);
    if messages.Err? { return Err(BadSection(messages.error)); }
    var lorebooks := ParseNdjson(k.lorebook, SectionText(c.files, LorebooksFile), n.lorebooks);
    if lorebooks.Err? { return Err(BadSection(lorebooks.error)); }
    var presets := ParseNdjson(k.preset, SectionText(c.files, PresetsFile), n.presets);
    if presets.Err? { return Err(BadSection(presets.error)); }
    r := Screen(Incoming(characters.value, chats.value, messages.value, lorebooks.value, presets.value));
  }
}
