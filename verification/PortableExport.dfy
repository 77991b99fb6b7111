/** Writing an export container, and why it comes back: `create_export` and the round trip. */
module PortableExport {
  import opened Base
  import opened Text
  import opened Ndjson
  import opened Transfer
  import opened Portable
  import opened PortableImport
  import P = Paths

  /** A registry row of an asset. */
  datatype AssetRow = AssetRow(key: string, sum: Digest<string>, size: int)

  /** The asset registry and the files of the assets directory. */
  datatype Assets = Assets(registry: map<Id, AssetRow>, files: map<string, string>)

  /** Rows whose JSON columns do not parse. */
  datatype Broken = Broken(characters: set<Id>, lorebooks: set<Id>, presets: set<Id>)

  datatype Destination = Absent | Directory(entries: nat) | NotADirectory

  datatype ExportError =
    | DestinationNotADirectory | DestinationNotEmpty | Unreadable(id: Id)
    | AssetNotRegistered(id: Id) | AssetDamaged(id: Id)

  /** `sequence as u64` */
  function ToWire(m: Message): WireMessage {
    WireMessage(m.chat, m.role, m.content, if m.sequence >= 0 then m.sequence else WrapBelow(m.sequence), m.created)
  }

  /** A negative 64-bit integer read as unsigned. */
  function WrapBelow(n: int): (u: nat)
    requires n < 0
    ensures n >= -I64_MAX - 1 ==> u == n + U64_SPAN && u > I64_MAX
  {
    if n >= -I64_MAX - 1 then n + U64_SPAN else 0
  }

  /** Rows a 64-bit column and the role check of the schema can hold. */
  predicate Storable(t: Tables) {
    forall m :: m in t.messages ==> -I64_MAX - 1 <= t.messages[m].sequence <= I64_MAX && IsRole(t.messages[m].role)
  }

  predicate Ascending<V>(recs: seq<Rec<V>>) {
    forall i, j :: 0 <= i < j < |recs| ==> recs[i].id < recs[j].id
  }

  /** The rows of a table, ordered by id. */
  predicate IsListing<V(==)>(recs: seq<Rec<V>>, table: map<Id, V>) {
    Ascending(recs) && TableOf(recs) == table
  }

  function WireRows(recs: seq<Rec<Message>>): (out: seq<Rec<WireMessage>>)
    ensures |out| == |recs| && forall i :: 0 <= i < |recs| ==> out[i] == Rec(recs[i].id, ToWire(recs[i].row))
  {
    seq(|recs|, i requires 0 <= i < |recs| => Rec(recs[i].id, ToWire(recs[i].row)))
  }

  /** `x` are the records of `t`, section by section, `said` its messages before the wire conversion. */
  predicate Lists(t: Tables, x: Incoming, said: seq<Rec<Message>>) {
    && IsListing(x.characters, t.characters) && IsListing(x.chats, t.chats)
    && IsListing(said, t.messages) && x.messages == WireRows(said)
    && IsListing(x.lorebooks, t.lorebooks) && IsListing(x.presets, t.presets)
  }

  function CountsOf(x: Incoming): Counts {
    Counts(|x.characters|, |x.chats|, |x.messages|, |x.lorebooks|, |x.presets|)
  }

  /** The section files of the records `x`. */
  function SectionFiles(k: Codecs, x: Incoming): map<Path, string> {
    map[SectionPath(CharactersFile) := Printed(k.character, x.characters),
        SectionPath(ChatsFile) := Printed(k.chat, x.chats),
        SectionPath(MessagesFile) := Printed(k.message, x.messages),
        SectionPath(LorebooksFile) := Printed(k.lorebook, x.lorebooks),
        SectionPath(PresetsFile) := Printed(k.preset, x.presets)]
  }

  // ---------------------------------------------------------------- what an export contains

  /** The asset is registered under a managed key, and its file is as recorded. */
  predicate Intact(a: Assets, id: Id) {
    id in a.registry && P.IsValidKey(a.registry[id].key) && a.registry[id].key in a.files &&
    ByteLen(a.files[a.registry[id].key]) == a.registry[id].size && Digest(a.files[a.registry[id].key]) == a.registry[id].sum
  }

  predicate AllIntact(a: Assets, ids: seq<Id>) {
    forall i :: 0 <= i < |ids| ==> Intact(a, ids[i])
  }

  /** Registered assets have keys of their own (`relative_key` is UNIQUE). */
  predicate KeysAreUnique(a: Assets) {
    forall i, j :: i in a.registry && j in a.registry && a.registry[i].key == a.registry[j].key ==> i == j
  }

  predicate Increasing(ids: seq<Id>) {
    forall i, j :: 0 <= i < j < |ids| ==> ids[i] < ids[j]
  }

  ghost predicate Referenced(t: Tables, id: Id) {
    exists c :: c in t.characters && t.characters[c].avatar == Some(id)
  }

  /** The assets that characters refer to, each once, in id order. */
  ghost predicate Refers(t: Tables, ids: seq<Id>) {
    Increasing(ids) && forall id :: id in ids <==> Referenced(t, id)
  }

  function AssetEntry(a: Assets, id: Id): Entry
    requires id in a.registry
  {
    Entry(AssetPath(a.registry[id].key), a.registry[id].size, a.registry[id].sum)
  }

  function AssetEntries(a: Assets, ids: seq<Id>): (entries: seq<Entry>)
    requires AllIntact(a, ids)
    ensures |entries| == |ids| && forall i :: 0 <= i < |ids| ==> ids[i] in a.registry && entries[i] == AssetEntry(a, ids[i])
  {
    seq(|ids|, i requires 0 <= i < |ids| => AssetEntry(a, ids[i]))
  }

  const SECTIONS := [CharactersFile, ChatsFile, MessagesFile, LorebooksFile, PresetsFile]

  function SectionEntry(s: Section, text: string): Entry {
    Entry(SectionPath(s), ByteLen(text), Digest(text))
  }

  /** The text of one section. */
  function TextOf(k: Codecs, x: Incoming, s: Section): string {
    match s
    case CharactersFile => Printed(k.character, x.characters)
    case ChatsFile => Printed(k.chat, x.chats)
    case MessagesFile => Printed(k.message, x.messages)
    case LorebooksFile => Printed(k.lorebook, x.lorebooks)
    case PresetsFile => Printed(k.preset, x.presets)
  }

  function SectionEntries(k: Codecs, x: Incoming): (entries: seq<Entry>)
    ensures |entries| == 5 && forall i :: 0 <= i < 5 ==> entries[i] == SectionEntry(SECTIONS[i], TextOf(k, x, SECTIONS[i]))
  {
    seq(5, i requires 0 <= i < 5 => SectionEntry(SECTIONS[i], TextOf(k, x, SECTIONS[i])))
  }

  function KeysOf(a: Assets, ids: seq<Id>): (keys: seq<string>)
    requires AllIntact(a, ids)
    ensures |keys| == |ids| && forall i :: 0 <= i < |ids| ==> keys[i] == a.registry[ids[i]].key && keys[i] in a.files
  {
    seq(|ids|, i requires 0 <= i < |ids| => a.registry[ids[i]].key)
  }

  function AssetFiles(keys: seq<string>, live: map<string, string>): map<Path, string>
    requires forall i :: 0 <= i < |keys| ==> keys[i] in live
  {
    map key | key in keys :: AssetPath(key) := live[key]
  }

  /** `sections` and the assets under the given keys, nothing else. */
  function WithAssets(sections: map<Path, string>, keys: seq<string>, live: map<string, string>): map<Path, string>
    requires forall i :: 0 <= i < |keys| ==> keys[i] in live
  {
    sections + AssetFiles(keys, live)
  }

  function Payload(k: Codecs, x: Incoming, a: Assets, ids: seq<Id>): map<Path, string>
    requires AllIntact(a, ids)
  {
    WithAssets(SectionFiles(k, x), KeysOf(a, ids), a.files)
  }

  function ManifestOf(k: Codecs, x: Incoming, a: Assets, ids: seq<Id>): Manifest
    requires AllIntact(a, ids)
  {
    Manifest(FORMAT_VERSION, CountsOf(x), AssetEntries(a, ids) + SectionEntries(k, x))
  }

  /** The container of the records `x` and the assets `ids`. */
  function ExportOf(k: Codecs, x: Incoming, a: Assets, ids: seq<Id>): Container
    requires AllIntact(a, ids)
  {
    Container(Payload(k, x, a, ids), Some(ManifestOf(k, x, a, ids)))
  }

  lemma SectionsOnly(k: Codecs, x: Incoming)
    ensures forall p :: p in SectionFiles(k, x) ==> p.SectionPath?
    ensures forall s: Section :: SectionPath(s) in SectionFiles(k, x)
  {
    hide Printed;
    forall s: Section ensures SectionPath(s) in SectionFiles(k, x) {
      match s
      case CharactersFile =>
      case ChatsFile =>
      case MessagesFile =>
      case LorebooksFile =>
      case PresetsFile =>
    }
  }

  /** The files of a container, one by one. */
  lemma WithAssetsMeans(sections: map<Path, string>, keys: seq<string>, live: map<string, string>)
    requires (forall i :: 0 <= i < |keys| ==> keys[i] in live) && forall p :: p in sections ==> p.SectionPath?
    ensures var files := WithAssets(sections, keys, live);
      && (forall p :: p in sections ==> p in files && files[p] == sections[p])
      && (forall i :: 0 <= i < |keys| ==> AssetPath(keys[i]) in files && files[AssetPath(keys[i])] == live[keys[i]])
      && (forall p :: p in files && p !in sections ==> p.AssetPath? && p.key in keys)
  {
    var added := AssetFiles(keys, live);
    forall i | 0 <= i < |keys| ensures AssetPath(keys[i]) in added && added[AssetPath(keys[i])] == live[keys[i]] {
      assert keys[i] in keys;
    }
  }

  lemma MoreAssets(sections: map<Path, string>, keys: seq<string>, key: string, live: map<string, string>)
    requires (forall i :: 0 <= i < |keys| ==> keys[i] in live) && key in live
    ensures WithAssets(sections, keys + [key], live) == WithAssets(sections, keys, live)[AssetPath(key) := live[key]]
  {
    hide AssetFiles;
    MoreAssetFiles(keys, key, live);
    UpdateMerged(sections, AssetFiles(keys, live), AssetPath(key), live[key]);
  }

  lemma MoreAssetFiles(keys: seq<string>, key: string, live: map<string, string>)
    requires (forall i :: 0 <= i < |keys| ==> keys[i] in live) && key in live
    ensures AssetFiles(keys + [key], live) == AssetFiles(keys, live)[AssetPath(key) := live[key]]
  {
    InMore(keys, key);
  }

  lemma InMore(keys: seq<string>, key: string)
    ensures forall q :: q in keys + [key] <==> q in keys || q == key
  {
  }

  lemma UpdateMerged(a: map<Path, string>, b: map<Path, string>, p: Path, text: string)
    ensures a + b[p := text] == (a + b)[p := text]
  {
  }

  lemma NoAssets(k: Codecs, x: Incoming, a: Assets)
    ensures Payload(k, x, a, []) == SectionFiles(k, x) && AssetEntries(a, []) == []
  {
    hide SectionFiles;
  }

  /** One asset more. */
  lemma MorePayload(k: Codecs, x: Incoming, a: Assets, ids: seq<Id>, id: Id)
    requires AllIntact(a, ids) && Intact(a, id)
    ensures AllIntact(a, ids + [id])
    ensures Payload(k, x, a, ids + [id]) == Payload(k, x, a, ids)[AssetPath(a.registry[id].key) := a.files[a.registry[id].key]]
    ensures AssetEntries(a, ids + [id]) == AssetEntries(a, ids) + [AssetEntry(a, id)]
  {
    hide SectionFiles, WithAssets, P.IsValidKey, ByteLen;
    assert KeysOf(a, ids + [id]) == KeysOf(a, ids) + [a.registry[id].key];
    MoreAssets(SectionFiles(k, x), KeysOf(a, ids), a.registry[id].key, a.files);
  }

  /** The payload: the five sections, and the assets under their keys. */
  lemma PayloadMeans(k: Codecs, x: Incoming, a: Assets, ids: seq<Id>)
    requires AllIntact(a, ids)
    ensures var files := Payload(k, x, a, ids);
      && (forall p :: p in SectionFiles(k, x) ==> p in files && files[p] == SectionFiles(k, x)[p])
      && (forall i :: 0 <= i < |ids| ==> AssetPath(KeysOf(a, ids)[i]) in files && files[AssetPath(KeysOf(a, ids)[i])] == a.files[KeysOf(a, ids)[i]])
      && (forall p :: p in files && !p.SectionPath? ==> p.AssetPath? && p.key in KeysOf(a, ids))
  {
    SectionsOnly(k, x);
    hide SectionFiles, AllIntact, WithAssets;
    WithAssetsMeans(SectionFiles(k, x), KeysOf(a, ids), a.files);
  }

  /** Every section is within the line bounds of a container. */
  ghost predicate WithinBounds<T>(c: Codec<T>, records: seq<T>) {
    |records| <= MAX_LINES && forall r :: r in records ==> ByteLen(c.encode(r)) <= MAX_LINE_BYTES
  }

  ghost predicate AllWithinBounds(k: Codecs, x: Incoming) {
    && WithinBounds(k.character, x.characters) && WithinBounds(k.chat, x.chats) && WithinBounds(k.message, x.messages)
    && WithinBounds(k.lorebook, x.lorebooks) && WithinBounds(k.preset, x.presets)
  }

  lemma PrintedSection<T(!new)>(c: Codec<T>, records: seq<T>, files: map<Path, string>, s: Section)
    requires IsSound(c) && SectionPath(s) in files && files[SectionPath(s)] == Printed(c, records)
    ensures SectionHolds(files, s, |records|) <==> WithinBounds(c, records)
  {
    PrintedLines(c, records);
    PrintedBounds(c, records);
  }

  lemma SectionTexts(k: Codecs, x: Incoming)
    ensures forall s: Section :: SectionPath(s) in SectionFiles(k, x) && SectionFiles(k, x)[SectionPath(s)] == TextOf(k, x, s)
  {
    hide Printed;
    forall s: Section ensures SectionPath(s) in SectionFiles(k, x) && SectionFiles(k, x)[SectionPath(s)] == TextOf(k, x, s) {
      match s
      case CharactersFile =>
      case ChatsFile =>
      case MessagesFile =>
      case LorebooksFile =>
      case PresetsFile =>
    }
  }

  lemma ExportedSections(k: Codecs, x: Incoming, a: Assets, ids: seq<Id>)
    requires AllIntact(a, ids)
    ensures forall s: Section ::
              SectionPath(s) in Payload(k, x, a, ids) && Payload(k, x, a, ids)[SectionPath(s)] == TextOf(k, x, s)
  {
    hide TextOf, SectionFiles, Intact, AllIntact, Payload;
    SectionTexts(k, x);
    PayloadMeans(k, x, a, ids);
  }

  /** The entries of the section files that are there. */
  function SectionsFrom(files: map<Path, string>): (entries: seq<Entry>)
    requires forall s: Section :: SectionPath(s) in files
    ensures |entries| == 5 && forall i :: 0 <= i < 5 ==> entries[i] == SectionEntry(SECTIONS[i], files[SectionPath(SECTIONS[i])])
  {
    seq(5, i requires 0 <= i < 5 => SectionEntry(SECTIONS[i], files[SectionPath(SECTIONS[i])]))
  }

  lemma SectionEntriesOf(k: Codecs, x: Incoming, a: Assets, ids: seq<Id>)
    requires AllIntact(a, ids)
    ensures forall s: Section :: SectionPath(s) in Payload(k, x, a, ids)
    ensures SectionsFrom(Payload(k, x, a, ids)) == SectionEntries(k, x)
  {
    hide TextOf, Payload, AllIntact, SectionEntry;
    ExportedSections(k, x, a, ids);
    assert SectionsFrom(Payload(k, x, a, ids)) == SectionEntries(k, x);
  }

  // ---------------------------------------------------------------- when an export verifies

  /** The limits on a manifest and its paths that verification enforces and the export does not. */
  predicate Fits(k: Codecs, x: Incoming, a: Assets, ids: seq<Id>)
    requires AllIntact(a, ids)
  {
    && k.manifestLen(ManifestOf(k, x, a, ids)) <= MAX_MANIFEST_BYTES
    && forall i :: 0 <= i < |ids| ==> |P.ASSETS_PREFIX| + ByteLen(a.registry[ids[i]].key) <= P.MAX_RELATIVE_KEY_LEN
  }

  lemma SectionsListed(k: Codecs, x: Incoming)
    ensures DistinctPaths(SectionEntries(k, x)) && forall e :: e in SectionEntries(k, x) ==> e.path.SectionPath?
  {
    hide TextOf, ByteLen;
    var es := SectionEntries(k, x);
    forall i, j | 0 <= i < j < 5 ensures es[i].path != es[j].path {
      assert SectionIndex(SECTIONS[i]) == i && SectionIndex(SECTIONS[j]) == j;
    }
  }

  lemma SectionListed(k: Codecs, x: Incoming, s: Section) returns (e: Entry)
    ensures e in SectionEntries(k, x) && e.path == SectionPath(s)
  {
    hide TextOf, ByteLen;
    e := SectionEntries(k, x)[SectionIndex(s)];
  }

  function SectionIndex(s: Section): (i: nat)
    ensures i < 5 && SECTIONS[i] == s
  {
    match s
    case CharactersFile => 0
    case ChatsFile => 1
    case MessagesFile => 2
    case LorebooksFile => 3
    case PresetsFile => 4
  }

  lemma SectionsMatch(k: Codecs, x: Incoming, a: Assets, ids: seq<Id>)
    requires AllIntact(a, ids)
    ensures forall e :: e in SectionEntries(k, x) ==> Matches(Payload(k, x, a, ids), e)
  {
    ExportedSections(k, x, a, ids);
    hide Printed, Payload, Intact, AllIntact, ByteLen;
  }

  lemma AssetsMatch(k: Codecs, x: Incoming, a: Assets, ids: seq<Id>)
    requires AllIntact(a, ids) && KeysAreUnique(a) && Increasing(ids)
    ensures DistinctPaths(AssetEntries(a, ids))
    ensures forall e :: e in AssetEntries(a, ids) ==> e.path.AssetPath? && Matches(Payload(k, x, a, ids), e)
  {
    PayloadMeans(k, x, a, ids);
    hide SectionFiles, Payload, P.IsValidKey, ByteLen;
    forall i | 0 <= i < |ids| ensures Matches(Payload(k, x, a, ids), AssetEntries(a, ids)[i]) {
      assert Intact(a, ids[i]) && AssetPath(KeysOf(a, ids)[i]) in Payload(k, x, a, ids);
    }
    forall i, j | 0 <= i < j < |ids| ensures AssetEntries(a, ids)[i].path != AssetEntries(a, ids)[j].path {
      assert ids[i] != ids[j];
    }
  }

  lemma DistinctTogether(a: seq<Entry>, b: seq<Entry>)
    requires DistinctPaths(a) && DistinctPaths(b)
    requires (forall e :: e in a ==> e.path.AssetPath?) && forall e :: e in b ==> e.path.SectionPath?
    ensures DistinctPaths(a + b)
  {
    forall i, j | 0 <= i < j < |a + b| ensures (a + b)[i].path != (a + b)[j].path {
      assert (a + b)[i] in (if i < |a| then a else b) && (a + b)[j] in (if j < |a| then a else b);
    }
  }

  /** The manifest of an export tells the truth about its files. */
  lemma ManifestHolds(k: Codecs, x: Incoming, a: Assets, ids: seq<Id>)
    requires AllIntact(a, ids) && KeysAreUnique(a) && Increasing(ids)
    ensures InventoryHolds(Payload(k, x, a, ids), ManifestOf(k, x, a, ids).inventory)
  {
    hide *;
    EntriesMatch(k, x, a, ids);
    ManifestCovers(k, x, a, ids);
    ManifestParts(k, x, a, ids);
    HoldsByParts(Payload(k, x, a, ids), ManifestOf(k, x, a, ids).inventory);
  }

  lemma ManifestParts(k: Codecs, x: Incoming, a: Assets, ids: seq<Id>)
    requires AllIntact(a, ids)
    ensures ManifestOf(k, x, a, ids).inventory == AssetEntries(a, ids) + SectionEntries(k, x)
  {
    hide SectionEntries, P.IsValidKey, ByteLen;
  }

  lemma HoldsByParts(files: map<Path, string>, inventory: seq<Entry>)
    requires DistinctPaths(inventory) && forall e :: e in inventory ==> !e.path.Stray? && Matches(files, e)
    requires forall p :: p in files ==> exists e :: e in inventory && e.path == p
    ensures InventoryHolds(files, inventory)
  {
    hide Matches, DistinctPaths;
  }

  lemma EntriesMatch(k: Codecs, x: Incoming, a: Assets, ids: seq<Id>)
    requires AllIntact(a, ids) && KeysAreUnique(a) && Increasing(ids)
    ensures var inventory := ManifestOf(k, x, a, ids).inventory;
      DistinctPaths(inventory) && forall e :: e in inventory ==> !e.path.Stray? && Matches(Payload(k, x, a, ids), e)
  {
    SectionsListed(k, x);
    SectionsMatch(k, x, a, ids);
    AssetsMatch(k, x, a, ids);
    ManifestParts(k, x, a, ids);
    DistinctTogether(AssetEntries(a, ids), SectionEntries(k, x));
    hide AssetEntries, SectionEntries, ManifestOf, Matches, DistinctPaths, Payload, AllIntact, KeysAreUnique, Increasing;
  }

  /** Every file is listed. */
  lemma ManifestCovers(k: Codecs, x: Incoming, a: Assets, ids: seq<Id>)
    requires AllIntact(a, ids)
    ensures forall p :: p in Payload(k, x, a, ids) ==> exists e :: e in ManifestOf(k, x, a, ids).inventory && e.path == p
  {
    SectionsListed(k, x);
    PayloadMeans(k, x, a, ids);
    ManifestParts(k, x, a, ids);
    hide SectionFiles, Payload, AllIntact, SectionEntries, ManifestOf, DistinctPaths;
    var files, inventory := Payload(k, x, a, ids), AssetEntries(a, ids) + SectionEntries(k, x);
    forall p | p in files ensures exists e :: e in inventory && e.path == p {
      if p.SectionPath? {
        var e := SectionListed(k, x, p.section);
        assert e in inventory;
      } else {
        var i :| 0 <= i < |ids| && p.key == KeysOf(a, ids)[i];
        assert inventory[i] == AssetEntry(a, ids[i]) && inventory[i] in inventory;
      }
    }
  }

  /** Section names are keys; asset paths are, unless they are too long. */
  lemma ManifestPaths(k: Codecs, x: Incoming, a: Assets, ids: seq<Id>)
    requires AllIntact(a, ids)
    ensures PathsValid(ManifestOf(k, x, a, ids).inventory) <==>
      forall i :: 0 <= i < |ids| ==> |P.ASSETS_PREFIX| + ByteLen(a.registry[ids[i]].key) <= P.MAX_RELATIVE_KEY_LEN
  {
    hide *;
    ManifestParts(k, x, a, ids);
    SectionsListed(k, x);
    AssetPathsFit(a, ids);
    PathsTogether(AssetEntries(a, ids), SectionEntries(k, x));
  }

  lemma SectionPathIsKey(s: Section)
    ensures P.IsValidKey(Logical(SectionPath(s)))
  {
    hide P.IsValidKey, ByteLen;
    P.FileNameIsKey(SectionWord(s), "ndjson");
  }

  lemma AssetPathFits(a: Assets, id: Id)
    requires Intact(a, id)
    ensures P.IsValidKey(Logical(AssetPath(a.registry[id].key))) <==> |P.ASSETS_PREFIX| + ByteLen(a.registry[id].key) <= P.MAX_RELATIVE_KEY_LEN
  {
    hide P.IsValidKey, ByteLen;
    P.AssetKey(a.registry[id].key);
  }

  lemma AssetPathsFit(a: Assets, ids: seq<Id>)
    requires AllIntact(a, ids)
    ensures PathsValid(AssetEntries(a, ids)) <==>
      forall i :: 0 <= i < |ids| ==> |P.ASSETS_PREFIX| + ByteLen(a.registry[ids[i]].key) <= P.MAX_RELATIVE_KEY_LEN
    ensures forall e :: e in AssetEntries(a, ids) ==> e.path.AssetPath?
  {
    hide P.IsValidKey, ByteLen, Logical, Intact;
    var entries := AssetEntries(a, ids);
    forall i | 0 <= i < |ids|
      ensures entries[i].path == AssetPath(a.registry[ids[i]].key) && entries[i] in entries
      ensures P.IsValidKey(Logical(entries[i].path)) <==> |P.ASSETS_PREFIX| + ByteLen(a.registry[ids[i]].key) <= P.MAX_RELATIVE_KEY_LEN
    {
      AssetPathFits(a, ids[i]);
    }
  }

  lemma PathsTogether(assets: seq<Entry>, sections: seq<Entry>)
    requires forall e :: e in sections ==> e.path.SectionPath?
    ensures PathsValid(assets + sections) <==> PathsValid(assets)
  {
    hide P.IsValidKey, Logical;
    forall e | e in sections ensures P.IsValidKey(Logical(e.path)) {
      SectionPathIsKey(e.path.section);
    }
  }

  /**
   * An export verifies exactly when its records are within the line bounds, its manifest within the
   * parse bound, and its assets' paths within the length of a key; the export checks none of these.
   */
  lemma ExportVerifies(k: Codecs, x: Incoming, a: Assets, ids: seq<Id>)
    requires AllSound(k) && AllIntact(a, ids) && KeysAreUnique(a) && Increasing(ids)
    ensures Verified(ExportOf(k, x, a, ids), k.manifestLen) <==> AllWithinBounds(k, x) && Fits(k, x, a, ids)
  {
    hide Verified, Fits, SectionsHold, AllWithinBounds, IsSound, AllIntact, KeysAreUnique, Increasing, Payload;
    ExportSections(k, x, a, ids);
    ManifestFits(k, x, a, ids);
  }

  lemma ManifestFits(k: Codecs, x: Incoming, a: Assets, ids: seq<Id>)
    requires AllIntact(a, ids) && KeysAreUnique(a) && Increasing(ids)
    ensures Verified(ExportOf(k, x, a, ids), k.manifestLen) <==> SectionsHold(Payload(k, x, a, ids), CountsOf(x)) && Fits(k, x, a, ids)
  {
    ManifestHolds(k, x, a, ids);
    ManifestPaths(k, x, a, ids);
    hide AssetEntries, SectionEntries, Payload, PathsValid, InventoryHolds, SectionsHold, KeysAreUnique, Increasing, ByteLen, P.IsValidKey;
  }

  lemma ExportSections(k: Codecs, x: Incoming, a: Assets, ids: seq<Id>)
    requires AllSound(k) && AllIntact(a, ids)
    ensures SectionsHold(Payload(k, x, a, ids), CountsOf(x)) <==> AllWithinBounds(k, x)
  {
    ExportedSections(k, x, a, ids);
    hide SectionHolds, WithinBounds, Printed, IsSound, Payload, AllIntact, KeysAreUnique;
    var files := Payload(k, x, a, ids);
    PrintedSection(k.character, x.characters, files, CharactersFile);
    PrintedSection(k.chat, x.chats, files, ChatsFile);
    PrintedSection(k.message, x.messages, files, MessagesFile);
    PrintedSection(k.lorebook, x.lorebooks, files, LorebooksFile);
    PrintedSection(k.preset, x.presets, files, PresetsFile);
  }

  // ---------------------------------------------------------------- exports that succeed and never verify

  function Letters(n: nat): (word: string)
    ensures |word| == n && P.IsLower(word)
  {
    seq(n, i => 'a')
  }

  /** A key of 506 bytes. */
  function LongKey(): string {
    Letters(253) + "/" + Letters(252)
  }

  lemma LongKeyIsKey()
    ensures P.IsValidKey(LongKey()) && ByteLen(LongKey()) == 506
  {
    P.WordIsKey(Letters(253));
    P.WordIsKey(Letters(252));
    hide P.IsValidKey, ByteLen, Letters;
    P.NestedKey(Letters(253), Letters(252));
    P.JoinedLength(Letters(253), Letters(252));
  }

  /** One character whose avatar has a long key: the export succeeds, and can never be verified or imported. */
  lemma LongKeyNeverVerifies(k: Codecs, x: Incoming)
    requires AllSound(k)
    ensures var t := EMPTY.(characters := map[1 := Character(Some(1), "")]);
      var a := Assets(map[1 := AssetRow(LongKey(), Digest(""), 0)], map[LongKey() := ""]);
      && Refers(t, [1]) && KeysAreUnique(a) && AllIntact(a, [1])
      && !Verified(ExportOf(k, x, a, [1]), k.manifestLen)
  {
    LongKeyIsKey();
    var t := EMPTY.(characters := map[1 := Character(Some(1), "")]);
    assert t.characters[1].avatar == Some(1);
    hide P.IsValidKey, LongKey, Verified, ExportOf, AllWithinBounds;
    var a := Assets(map[1 := AssetRow(LongKey(), Digest(""), 0)], map[LongKey() := ""]);
    assert AllIntact(a, [1]);
    ExportVerifies(k, x, a, [1]);
    assert a.registry[[1][0]].key == LongKey();
  }

  const MANY := 16_384

  function Letter(i: nat): (c: char)
    requires i < 26
    ensures 'a' <= c <= 'z'
  {
    ('a' as int + i) as char
  }

  /** Short keys, a different one for each number. */
  function NumberedKey(i: nat): (key: string)
    requires i < MANY
    ensures P.IsLower(key) && |key| == 8
  {
    "asset" + [Letter(i / 676), Letter(i / 26 % 26), Letter(i % 26)]
  }

  lemma NumberedKeysDiffer(i: nat, j: nat)
    requires i < MANY && j < MANY && NumberedKey(i) == NumberedKey(j)
    ensures i == j
  {
    KeyLetters(i);
    KeyLetters(j);
    hide NumberedKey;
    SameDigits(i, j);
  }

  lemma KeyLetters(i: nat)
    requires i < MANY
    ensures NumberedKey(i)[5] as int == 'a' as int + i / 676
    ensures NumberedKey(i)[6] as int == 'a' as int + i / 26 % 26
    ensures NumberedKey(i)[7] as int == 'a' as int + i % 26
  {
  }

  lemma SameDigits(i: nat, j: nat)
    requires i / 676 == j / 676 && i / 26 % 26 == j / 26 % 26 && i % 26 == j % 26
    ensures i == j
  {
    assert i / 26 == i / 676 * 26 + i / 26 % 26 && j / 26 == j / 676 * 26 + j / 26 % 26;
  }

  function ManyCharacters(): map<Id, Character> {
    map id: Id | 0 <= id < MANY :: Character(Some(id), "")
  }

  function ManyAssets(): Assets {
    Assets(map id: Id | 0 <= id < MANY :: AssetRow(NumberedKey(id), Digest(""), 0),
           map id: Id | 0 <= id < MANY :: NumberedKey(id) := "")
  }

  function FirstIds(): (ids: seq<Id>)
    ensures |ids| == MANY && Increasing(ids) && forall i :: 0 <= i < MANY ==> ids[i] == i
  {
    seq(MANY, i => i)
  }

  lemma ManyAssetsIntact()
    ensures KeysAreUnique(ManyAssets()) && AllIntact(ManyAssets(), FirstIds())
  {
    var a := ManyAssets();
    forall id | 0 <= id < MANY ensures Intact(a, id) {
      P.WordIsKey(NumberedKey(id));
      assert a.registry[id] == AssetRow(NumberedKey(id), Digest(""), 0);
    }
    hide P.IsValidKey, NumberedKey;
    forall i, j | i in a.registry && j in a.registry && a.registry[i].key == a.registry[j].key ensures i == j {
      NumberedKeysDiffer(i, j);
    }
  }

  lemma ManyReferred()
    ensures Refers(EMPTY.(characters := ManyCharacters()), FirstIds())
  {
    var t, ids := EMPTY.(characters := ManyCharacters()), FirstIds();
    forall id: Id ensures id in ids <==> Referenced(t, id) {
      if id < MANY {
        assert ids[id] == id && t.characters[id].avatar == Some(id);
      }
    }
  }

  /**
   * 16384 characters with an avatar each: every inventory entry carries a checksum of 64 characters, so
   * the manifest is over the parse bound. The export succeeds, and can never be verified or imported.
   */
  lemma ManyAvatarsNeverVerify(k: Codecs, x: Incoming)
    requires AllSound(k) && forall m :: k.manifestLen(m) >= 64 * |m.inventory|
    ensures Refers(EMPTY.(characters := ManyCharacters()), FirstIds())
    ensures KeysAreUnique(ManyAssets()) && AllIntact(ManyAssets(), FirstIds())
    ensures !Verified(ExportOf(k, x, ManyAssets(), FirstIds()), k.manifestLen)
  {
    ManyReferred();
    ManyAssetsIntact();
    hide ManyAssets, FirstIds, AllIntact, KeysAreUnique, Increasing, Verified, ExportOf, AllWithinBounds, ManyCharacters, SectionEntry;
    ExportVerifies(k, x, ManyAssets(), FirstIds());
    assert |ManifestOf(k, x, ManyAssets(), FirstIds()).inventory| == MANY + 5;
  }

  lemma ReadSections(k: Codecs, x: Incoming, files: map<Path, string>)
    requires forall s: Section :: SectionPath(s) in files && files[SectionPath(s)] == TextOf(k, x, s)
    ensures SectionText(files, CharactersFile) == Printed(k.character, x.characters)
    ensures SectionText(files, ChatsFile) == Printed(k.chat, x.chats)
    ensures SectionText(files, MessagesFile) == Printed(k.message, x.messages)
    ensures SectionText(files, LorebooksFile) == Printed(k.lorebook, x.lorebooks)
    ensures SectionText(files, PresetsFile) == Printed(k.preset, x.presets)
  {
    hide Printed;
  }

  /** Reading an exported container gives its records back, up to the checks on them. */
  lemma ExportReads(k: Codecs, x: Incoming, a: Assets, ids: seq<Id>)
    requires AllSound(k) && AllIntact(a, ids) && KeysAreUnique(a) && Increasing(ids)
    requires AllWithinBounds(k, x) && Fits(k, x, a, ids)
    ensures Checked(k, ExportOf(k, x, a, ids)) == Screened(x)
  {
    hide Verified, Printed, Parsed, Screened, AllWithinBounds, Fits, IsSound, Payload, AssetEntries, SectionEntries;
    hide AllIntact, KeysAreUnique, Increasing;
    ExportVerifies(k, x, a, ids);
    ExportedSections(k, x, a, ids);
    ReadSections(k, x, Payload(k, x, a, ids));
    PrintParse(k.character, x.characters, |x.characters|);
    PrintParse(k.chat, x.chats, |x.chats|);
    PrintParse(k.message, x.messages, |x.messages|);
    PrintParse(k.lorebook, x.lorebooks, |x.lorebooks|);
    PrintParse(k.preset, x.presets, |x.presets|);
  }

  lemma AscendingDistinct<V>(recs: seq<Rec<V>>)
    requires Ascending(recs)
    ensures Distinct(recs)
  {
  }

  lemma ListsDistinct(t: Tables, x: Incoming, said: seq<Rec<Message>>)
    requires Lists(t, x, said)
    ensures AllDistinct(x) && Distinct(said)
  {
    hide TableOf;
    AscendingDistinct(said);
  }

  lemma {:induction false} NoFault(messages: seq<Rec<WireMessage>>)
    ensures MessageFault(messages).None? <==>
      forall i :: 0 <= i < |messages| ==> IsRole(messages[i].row.role) && messages[i].row.sequence <= I64_MAX
  {
    if messages != [] {
      NoFault(messages[1..]);
      if MessageFault(messages).None? {
        forall i | 0 <= i < |messages| ensures IsRole(messages[i].row.role) && messages[i].row.sequence <= I64_MAX {
          assert i > 0 ==> messages[i] == messages[1..][i - 1];
        }
      }
    }
  }

  /** The listed messages are the rows of the table. */
  lemma ListedMessages(t: Tables, x: Incoming, said: seq<Rec<Message>>)
    requires Lists(t, x, said)
    ensures forall i :: 0 <= i < |said| ==> said[i].id in t.messages && t.messages[said[i].id] == said[i].row
    ensures forall m :: m in t.messages ==> exists i :: 0 <= i < |said| && said[i].id == m
    ensures x.messages == WireRows(said)
  {
    AscendingDistinct(said);
    TableOfIndexed(said);
    hide TableOf, Distinct, Ascending;
  }

  /** Which exported databases pass the checks of an import: those without a negative message sequence. */
  lemma ExportScreens(t: Tables, x: Incoming, said: seq<Rec<Message>>)
    requires Lists(t, x, said) && Storable(t)
    ensures Screened(x).Ok? <==> forall m :: m in t.messages ==> t.messages[m].sequence >= 0
    ensures Screened(x).Ok? ==> Screened(x).value == x
  {
    hide Lists, IsRole, MessageFault;
    ListsDistinct(t, x, said);
    ListedMessages(t, x, said);
    NoFault(x.messages);
    hide AllDistinct, Distinct;
    assert forall i :: 0 <= i < |said| ==> IsRole(x.messages[i].row.role);
    assert forall i :: 0 <= i < |said| ==> (x.messages[i].row.sequence <= I64_MAX <==> said[i].row.sequence >= 0);
    if MessageFault(x.messages).None? {
      forall m | m in t.messages ensures t.messages[m].sequence >= 0 {
        var i :| 0 <= i < |said| && said[i].id == m;
        assert x.messages[i].row.sequence <= I64_MAX;
      }
    }
  }

  /** The records of a consistent database are all kept. */
  lemma AllKept(t: Tables, x: Incoming, said: seq<Rec<Message>>)
    requires Lists(t, x, said) && Consistent(t)
    ensures KeptChats(x) == x.chats && KeptMessages(x) == x.messages && Orphans(x) == []
  {
    ListsDistinct(t, x, said);
    ListedMessages(t, x, said);
    TableOfMeans(x.characters);
    TableOfMeans(x.chats);
    hide TableOf, Distinct, Ascending, AllDistinct;
    assert forall r :: r in x.chats ==> r.row.character in Ids(x.characters);
    MessagesInListedChats(t, x, said);
    hide Lists, Consistent, Ids;
    ChatsOfMeans(x.chats, Ids(x.characters));
    MessagesOfMeans(x.messages, Ids(x.chats));
    hide ChatsOf, MessagesOf;
    KeptOrOrphan(x.chats, x.messages, Ids(x.characters), Ids(x.chats));
  }

  lemma MessagesInListedChats(t: Tables, x: Incoming, said: seq<Rec<Message>>)
    requires Lists(t, x, said) && Consistent(t) && t.chats.Keys == Ids(x.chats)
    ensures forall r :: r in x.messages ==> r.row.chat in Ids(x.chats)
  {
    ListedMessages(t, x, said);
    hide Lists, Ids;
    forall r | r in x.messages ensures r.row.chat in Ids(x.chats) {
      var i :| 0 <= i < |said| && x.messages[i] == r;
      assert said[i].id in t.messages;
    }
  }

  /** Reading the wire form back undoes writing it, when no sequence is negative. */
  lemma WireRoundTrip(said: seq<Rec<Message>>)
    requires forall i :: 0 <= i < |said| ==> said[i].row.sequence >= 0
    ensures ToRows(WireRows(said)) == said
  {
  }

  lemma MergeIntoEmpty<V>(m: map<Id, V>, policy: Policy)
    ensures Merged(map[], m, policy) == m
  {
  }

  /** Importing the records of a consistent database into an empty one reproduces every table. */
  lemma ImportIntoEmpty(t: Tables, x: Incoming, said: seq<Rec<Message>>, policy: Policy)
    requires Lists(t, x, said) && Consistent(t) && !policy.Remap?
    requires forall m :: m in t.messages ==> t.messages[m].sequence >= 0
    ensures Imported(EMPTY, x, policy) == t
  {
    AllKept(t, x, said);
    ListsDistinct(t, x, said);
    TableOfIndexed(said);
    WireRoundTrip(said);
    hide TableOf, KeptChats, KeptMessages, ToRows, WireRows, Merged, Distinct;
    MergeIntoEmpty(t.characters, policy);
    MergeIntoEmpty(t.chats, policy);
    MergeIntoEmpty(t.messages, policy);
    MergeIntoEmpty(t.lorebooks, policy);
    MergeIntoEmpty(t.presets, policy);
  }

  /**
   * The round trip. A container exported from a consistent database imports into an empty one exactly
   * when it verifies and no message sequence is negative; under `Reject` and `Replace` it then
   * reproduces every exported table, with no orphans and nothing skipped.
   */
  lemma RoundTrip(k: Codecs, t: Tables, x: Incoming, said: seq<Rec<Message>>, a: Assets, ids: seq<Id>, policy: Policy)
    requires AllSound(k) && Lists(t, x, said) && Consistent(t) && Storable(t) && !policy.Remap?
    requires AllIntact(a, ids) && KeysAreUnique(a) && Increasing(ids)
    ensures Checked(k, ExportOf(k, x, a, ids)).Ok? <==>
      AllWithinBounds(k, x) && Fits(k, x, a, ids) && forall m :: m in t.messages ==> t.messages[m].sequence >= 0
    ensures Checked(k, ExportOf(k, x, a, ids)).Ok? ==>
      var y := Checked(k, ExportOf(k, x, a, ids)).value;
      y == x && Imported(EMPTY, y, policy) == t && Orphans(y) == [] && MissingAll(y, EMPTY) == Total(y)
  {
    ExportVerifies(k, x, a, ids);
    ExportScreens(t, x, said);
    if AllWithinBounds(k, x) && Fits(k, x, a, ids) {
      ExportReads(k, x, a, ids);
      hide *;
      if Screened(x).Ok? {
        ImportIntoEmpty(t, x, said, policy);
        AllKept(t, x, said);
        AllMissing(x);
      }
    } else {
      hide AllWithinBounds, Fits, Verified, ExportOf;
    }
  }

  lemma {:induction false} MissingFromNothing<V>(recs: seq<Rec<V>>)
    ensures Missing(recs, {}) == |recs|
  {
    if recs != [] {
      MissingFromNothing(recs[..|recs| - 1]);
    }
  }

  lemma AllMissing(x: Incoming)
    requires KeptChats(x) == x.chats && KeptMessages(x) == x.messages
    ensures MissingAll(x, EMPTY) == Total(x)
  {
    hide KeptChats, KeptMessages, Missing, ToRows;
    assert EMPTY.characters.Keys == {} && EMPTY.chats.Keys == {} && EMPTY.messages.Keys == {};
    assert EMPTY.lorebooks.Keys == {} && EMPTY.presets.Keys == {};
    MissingFromNothing(x.characters);
    MissingFromNothing(x.chats);
    MissingFromNothing(ToRows(x.messages));
    MissingFromNothing(x.lorebooks);
    MissingFromNothing(x.presets);
  }

  // ---------------------------------------------------------------- the code

  method Smallest(ids: set<Id>) returns (least: Id)
    requires ids != {}
    ensures least in ids && forall i :: i in ids ==> least <= i
  {
    least :| least in ids;
    var todo := ids - {least};
    while todo != {}
      invariant todo <= ids && least in ids && forall i :: i in ids && i !in todo ==> least <= i
      decreases todo
    {
      var i :| i in todo;
      todo := todo - {i};
      if i < least {
        least := i;
      }
    }
  }

  /** `SELECT ... ORDER BY id` */
  method ReadTable<V>(table: map<Id, V>) returns (recs: seq<Rec<V>>)
    ensures IsListing(recs, table)
  {
    recs := [];
    var todo := table.Keys;
    while todo != {}
      invariant todo <= table.Keys && Ascending(recs)
      invariant TableOf(recs).Keys == table.Keys - todo
      invariant forall id :: id in TableOf(recs) ==> TableOf(recs)[id] == table[id]
      invariant forall i, id :: 0 <= i < |recs| && id in todo ==> recs[i].id < id
      decreases todo
    {
      var id := Smallest(todo);
      var more := recs + [Rec(id, table[id])];
      assert more[..|recs|] == recs;
      recs := more;
      todo := todo - {id};
    }
    assert TableOf(recs) == table;
  }

  /** Puts ids in order, each once. */
  method SortIds(wanted: set<Id>) returns (ids: seq<Id>)
    ensures Increasing(ids) && forall id :: id in ids <==> id in wanted
  {
    ids := [];
    var todo := wanted;
    while todo != {}
      invariant todo <= wanted && Increasing(ids) && forall id :: id in ids <==> id in wanted - todo
      invariant forall a, b :: a in ids && b in todo ==> a < b
      decreases todo
    {
      var id := Smallest(todo);
      assert forall i :: 0 <= i < |ids| ==> ids[i] in ids;
      ids, todo := ids + [id], todo - {id};
    }
  }

  /** The rows of a table whose JSON columns are parsed on the way; the first that fails ends the export. */
  method ReadParsed<V>(table: map<Id, V>, broken: set<Id>) returns (r: Result<seq<Rec<V>>, ExportError>)
    ensures r.Ok? <==> table.Keys !! broken
    ensures r.Ok? ==> IsListing(r.value, table)
    ensures r.Err? ==> r.error.Unreadable? && r.error.id in table && r.error.id in broken
  {
    var recs := ReadTable(table);
    ListedIds(recs, table);
    hide IsListing;
    for i := 0 to |recs|
      invariant forall j :: 0 <= j < i ==> recs[j].id !in broken
    {
      if recs[i].id in broken {
        return Err(Unreadable(recs[i].id));
      }
    }
    return Ok(recs);
  }

  lemma ListedIds<V>(recs: seq<Rec<V>>, table: map<Id, V>)
    requires IsListing(recs, table)
    ensures forall id :: id in table <==> exists i :: 0 <= i < |recs| && recs[i].id == id
  {
    AscendingDistinct(recs);
    TableOfIndexed(recs);
    hide TableOf, Distinct, Ascending;
  }

  /** The avatars of all characters, in order, are the assets they refer to. */
  lemma ReferredIds(t: Tables, referenced: set<Id>, ids: seq<Id>)
    requires referenced == set c | c in t.characters && t.characters[c].avatar.Some? :: t.characters[c].avatar.value
    requires Increasing(ids) && forall id :: id in ids <==> id in referenced
    ensures Refers(t, ids)
  {
    forall id ensures id in ids <==> Referenced(t, id) {
      if id in referenced {
        var c :| c in t.characters && t.characters[c].avatar.Some? && t.characters[c].avatar.value == id;
        assert t.characters[c].avatar == Some(id);
      }
    }
  }

  lemma AllReferredIntact(t: Tables, a: Assets, ids: seq<Id>)
    requires Refers(t, ids)
    ensures AllIntact(a, ids) <==> forall id :: Referenced(t, id) ==> Intact(a, id)
  {
    hide Referenced, Increasing, Intact;
    assert forall i :: 0 <= i < |ids| ==> ids[i] in ids;
  }

  lemma ExportIs(k: Codecs, x: Incoming, a: Assets, ids: seq<Id>)
    requires AllIntact(a, ids)
    ensures ExportOf(k, x, a, ids) == Container(Payload(k, x, a, ids),
              Some(Manifest(FORMAT_VERSION, CountsOf(x), AssetEntries(a, ids) + SectionEntries(k, x))))
  {
    hide Payload, AssetEntries, SectionEntries, AllIntact;
  }

  /** The live database an export reads, with its asset registry and asset files. */
  class Source {
    const db: Database
    const broken: Broken
    const assets: Assets

    constructor (db: Database, broken: Broken, assets: Assets)
      ensures this.db == db && this.broken == broken && this.assets == assets
    {
      this.db, this.broken, this.assets := db, broken, assets;
    }

    /** Every JSON column parses. */
    predicate AllReadable()
      reads db
    {
      db.characters.Keys !! broken.characters && db.lorebooks.Keys !! broken.lorebooks && db.presets.Keys !! broken.presets
    }

    /** Why asset `id` is refused. */
    function Refusal(id: Id): ExportError {
      if id in assets.registry then AssetDamaged(id) else AssetNotRegistered(id)
    }

    /** Copies one referenced asset, checking size and checksum after the copy. */
    method CopyAsset(id: Id, files: map<Path, string>) returns (r: Result<(map<Path, string>, Entry), ExportError>)
      ensures r.Ok? <==> Intact(assets, id)
      ensures r.Ok? ==> var key := assets.registry[id].key;
        r.value == (files[AssetPath(key) := assets.files[key]], AssetEntry(assets, id))
      ensures r.Err? ==> r.error == Refusal(id)
    {
      if id !in assets.registry {
        return Err(AssetNotRegistered(id));
      }
      var row := assets.registry[id];
      if !P.IsValidKey(row.key) || row.key !in assets.files {
        return Err(AssetDamaged(id));
      }
      var bytes := assets.files[row.key];
      var copied := files[AssetPath(row.key) := bytes];
      if ByteLen(bytes) != row.size || Digest(bytes) != row.sum {
        return Err(AssetDamaged(id));
      }
      return Ok((copied, Entry(AssetPath(row.key), row.size, row.sum)));
    }

    /** Copies every referenced asset into the container, in id order. */
    method CopyAssets(ids: seq<Id>, sections: map<Path, string>, ghost k: Codecs, ghost x: Incoming)
      returns (r: Result<(map<Path, string>, seq<Entry>), ExportError>)
      requires sections == SectionFiles(k, x)
      ensures r.Ok? <==> AllIntact(assets, ids)
      ensures r.Ok? ==> r.value == (Payload(k, x, assets, ids), AssetEntries(assets, ids))
      ensures r.Err? ==> exists id :: id in ids && !Intact(assets, id) && r.error == Refusal(id)
    {
      hide SectionFiles, Intact, Payload, AssetEntries;
      NoAssets(k, x, assets);
      var files, inventory: seq<Entry> := sections, [];
      assert ids[..0] == [];
      for i := 0 to |ids|
        invariant AllIntact(assets, ids[..i])
        invariant files == Payload(k, x, assets, ids[..i]) && inventory == AssetEntries(assets, ids[..i])
      {
        assert ids[i] in ids && AllIntact(assets, ids[..i + 1]) <==> Intact(assets, ids[i]);
        var asset := CopyAsset(ids[i], files);
        if asset.Err? {
          return Err(asset.error);
        }
        MorePayload(k, x, assets, ids[..i], ids[i]);
        assert ids[..i + 1] == ids[..i] + [ids[i]];
        files, inventory := asset.value.0, inventory + [asset.value.1];
      }
      assert ids[..|ids|] == ids;
      return Ok((files, inventory));
    }

    /**
     * `create_export`: sections, then the referenced assets, then the inventory of both, and last the
     * manifest. `x` and `said` name the records it wrote, `ids` the assets.
     */
    method CreateExport(k: Codecs, dest: Destination)
      returns (r: Result<Container, ExportError>, ghost x: Incoming, ghost said: seq<Rec<Message>>, ghost ids: seq<Id>)
      requires KeysAreUnique(assets)
      ensures r.Ok? <==> (dest.Absent? || dest == Directory(0)) && AllReadable() &&
                         forall id :: Referenced(db.T(), id) ==> Intact(assets, id)
      ensures r.Ok? ==> Lists(db.T(), x, said) && Refers(db.T(), ids) && AllIntact(assets, ids)
      ensures r.Ok? ==> r.value == ExportOf(k, x, assets, ids)
    {
      hide Lists, SectionFiles, Intact, Refers, AllIntact, Referenced, KeysAreUnique, Payload, AssetEntries, SectionEntries, ExportOf;
      x, said, ids := Incoming([], [], [], [], []), [], [];
      if dest.NotADirectory? {
        return Err(DestinationNotADirectory), x, said, ids;
      }
      if dest.Directory? && dest.entries > 0 {
        return Err(DestinationNotEmpty), x, said, ids;
      }
      var read, rows := ReadAll();
      if read.Err? {
        return Err(read.error), x, said, ids;
      }
      var records := read.value;
      x, said := records, rows;
      var sections := WriteSections(k, records);
      var referenced := set c | c in db.characters && db.characters[c].avatar.Some? :: db.characters[c].avatar.value;
      var order := SortIds(referenced);
      ids := order;
      ReferredIds(db.T(), referenced, order);
      var copied := CopyAssets(order, sections, k, records);
      AllReferredIntact(db.T(), assets, order);
      if copied.Err? {
        return Err(copied.error), x, said, ids;
      }
      SectionEntriesOf(k, records, assets, order);
      var inventory := ListSections(copied.value.0, copied.value.1);
      ExportIs(k, records, assets, order);
      r := Ok(Container(copied.value.0, Some(Manifest(FORMAT_VERSION, CountsOf(records), inventory))));
    }

    /** Adds the five section files to the inventory. */
    method ListSections(files: map<Path, string>, listed: seq<Entry>) returns (inventory: seq<Entry>)
      requires forall s: Section :: SectionPath(s) in files
      ensures inventory == listed + SectionsFrom(files)
    {
      hide SectionEntry;
      inventory := listed;
      ghost var all := SectionsFrom(files);
      for i := 0 to |SECTIONS|
        invariant inventory == listed + all[..i]
      {
        inventory := inventory + [SectionEntry(SECTIONS[i], files[SectionPath(SECTIONS[i])])];
        assert all[..i + 1] == all[..i] + [all[i]];
      }
      assert all[..5] == all;
    }

    method ReadAll() returns (r: Result<Incoming, ExportError>, said: seq<Rec<Message>>)
      ensures r.Ok? <==> AllReadable()
      ensures r.Ok? ==> Lists(db.T(), r.value, said)
    {
      hide IsListing;
      said := [];
      var characters := ReadParsed(db.characters, broken.characters);
      if characters.Err? {
        return Err(characters.error), said;
      }
      var chats := ReadTable(db.chats);
      said := ReadTable(db.messages);
      var lorebooks := ReadParsed(db.lorebooks, broken.lorebooks);
      if lorebooks.Err? {
        return Err(lorebooks.error), said;
      }
      var presets := ReadParsed(db.presets, broken.presets);
      if presets.Err? {
        return Err(presets.error), said;
      }
      r := Ok(Incoming(characters.value, chats, WireRows(said), lorebooks.value, presets.value));
    }

    /** The five section files. */
    method WriteSections(k: Codecs, x: Incoming) returns (files: map<Path, string>)
      ensures files == SectionFiles(k, x)
    {
      var a := WriteNdjson(k.character, x.characters);
      var b := WriteNdjson(k.chat, x.chats);
      var c := WriteNdjson(k.message, x.messages);
      var d := WriteNdjson(k.lorebook, x.lorebooks);
      var e := WriteNdjson(k.preset, x.presets);
      files := map[SectionPath(CharactersFile) := a, SectionPath(ChatsFile) := b, SectionPath(MessagesFile) := c,
                   SectionPath(LorebooksFile) := d, SectionPath(PresetsFile) := e];
    }
  }
}
