/**
 * Backup containers: building one step by step, publishing it by a rename, verifying, listing and
 * restoring it. The process can be killed before any file operation (`fuel`).
 */
module Backup {
  import opened Base
  import opened Text
  import opened Paths

  const MAX_BACKUPS := 16
  const MAX_BACKUP_BYTES := 1_073_741_824
  const MANIFEST_MAX_BYTES := 1_048_576
  const STORAGE_FORMAT := 1
  const MIN_DIRECT_SCHEMA := 1
  const CURRENT_SCHEMA := 4
  const TMP_GRACE_SECONDS := 86_400

  const DB_PATH := "database.sqlite"

  /** File contents; `revision` is there for a sound database of that schema revision. */
  datatype Blob = Blob(bytes: string, revision: Option<int>)

  datatype Entry = Entry(path: string, size: int, sum: Digest<string>)

  datatype Manifest = Manifest(version: int, storageFormat: int, revision: int, created: string)

  /** A container directory. The checksums are written before the manifest, the manifest last. */
  datatype Box = Box(files: map<string, Blob>, checksums: Option<seq<Entry>>, manifest: Option<Manifest>, modified: int)

  /** Container directories: published ones, and provisional ones under a name of their own. */
  datatype Name = Final(id: string) | Tmp(id: string, sequence: nat)

  /** A registry row of the snapshot. */
  datatype Pin = Pin(key: string, sum: Digest<string>, size: int)

  datatype Snapshot = Snapshot(image: string, revision: int, pins: seq<Pin>, created: string)

  /** What listing and verification report; the inventory stands for the checksum of its bytes. */
  datatype Record = Record(id: string, size: int, checksum: seq<Entry>)

  datatype BackupError = InvalidId | QuotaExceeded | AssetDamaged | NameTaken | Unreadable(id: string)

  datatype Creation = Done(record: Record) | Failed(error: BackupError) | Killed

  function TotalSize(inventory: seq<Entry>): int {
    if inventory == [] then 0 else TotalSize(inventory[..|inventory| - 1]) + inventory[|inventory| - 1].size
  }

  predicate IsLogicalPath(path: string) {
    path == DB_PATH || (ASSETS_PREFIX <= path && IsValidKey(path[|ASSETS_PREFIX|..]))
  }

  predicate Matches(files: map<string, Blob>, e: Entry) {
    e.path in files && ByteLen(files[e.path].bytes) == e.size && Digest(files[e.path].bytes) == e.sum
  }

  /** What `verify_backup` demands; `encoded` is the length of a serialized inventory. */
  ghost predicate Verified(b: Box, encoded: seq<Entry> -> nat) {
    && b.manifest.Some? && b.manifest.value.version == 1 && b.manifest.value.storageFormat == STORAGE_FORMAT
    && b.checksums.Some? && encoded(b.checksums.value) <= MANIFEST_MAX_BYTES
    && var inventory := b.checksums.value;
       && (forall e :: e in inventory ==> e.size >= 0 && IsLogicalPath(e.path) && IsValidKey(e.path) && Matches(b.files, e))
       && (exists e :: e in inventory && e.path == DB_PATH)
       && TotalSize(inventory) <= MAX_BACKUP_BYTES
       && DB_PATH in b.files && b.files[DB_PATH].revision.Some?
       && MIN_DIRECT_SCHEMA <= b.files[DB_PATH].revision.value <= CURRENT_SCHEMA
       && b.files[DB_PATH].revision.value == b.manifest.value.revision
  }

  /** A published container carries everything its inventory names. */
  predicate Complete(b: Box) {
    b.manifest.Some? && b.checksums.Some? && forall e :: e in b.checksums.value ==> Matches(b.files, e)
  }

  function Ids(dirs: map<Name, Box>): set<string> {
    set n | n in dirs && n.Final? :: n.id
  }

  // ---------------------------------------------------------------- what a build produces

  function DbEntry(s: Snapshot): Entry {
    Entry(DB_PATH, ByteLen(s.image), Digest(s.image))
  }

  function PinEntry(p: Pin): Entry {
    Entry(ASSETS_PREFIX + p.key, p.size, p.sum)
  }

  function Inventory(s: Snapshot, n: nat): seq<Entry>
    requires n <= |s.pins|
  {
    if n == 0 then [DbEntry(s)] else Inventory(s, n - 1) + [PinEntry(s.pins[n - 1])]
  }

  /** The live file of a pin is as the registry says. */
  predicate PinHolds(p: Pin, live: map<string, string>) {
    IsValidKey(p.key) && p.key in live && ByteLen(live[p.key]) == p.size && Digest(live[p.key]) == p.sum
  }

  ghost predicate PinsHold(s: Snapshot, live: map<string, string>) {
    forall i :: 0 <= i < |s.pins| ==> PinHolds(s.pins[i], live)
  }

  function Read(live: map<string, string>, key: string): Blob {
    Blob(if key in live then live[key] else "", None)
  }

  /** The database image and the first `n` pinned assets, nothing else. */
  function Content(s: Snapshot, live: map<string, string>, n: nat): map<string, Blob>
    requires n <= |s.pins|
  {
    if n == 0 then map[DB_PATH := Blob(s.image, Some(s.revision))]
    else Content(s, live, n - 1)[ASSETS_PREFIX + s.pins[n - 1].key := Read(live, s.pins[n - 1].key)]
  }

  function BuiltBox(s: Snapshot, live: map<string, string>, now: int): Box {
    Box(Content(s, live, |s.pins|), Some(Inventory(s, |s.pins|)),
        Some(Manifest(1, STORAGE_FORMAT, s.revision, s.created)), now)
  }

  /** Registered assets have keys of their own. */
  predicate DistinctPins(s: Snapshot) {
    forall i, j :: 0 <= i < j < |s.pins| ==> s.pins[i].key != s.pins[j].key
  }

  /** The limits that verification enforces and creation does not. */
  ghost predicate WithinLimits(s: Snapshot, encoded: seq<Entry> -> nat) {
    && TotalSize(Inventory(s, |s.pins|)) <= MAX_BACKUP_BYTES
    && encoded(Inventory(s, |s.pins|)) <= MANIFEST_MAX_BYTES
    && forall i :: 0 <= i < |s.pins| ==> |ASSETS_PREFIX| + ByteLen(s.pins[i].key) <= MAX_RELATIVE_KEY_LEN
  }

  lemma AssetPathsDiffer(a: string, b: string)
    ensures ASSETS_PREFIX + a == ASSETS_PREFIX + b ==> a == b
    ensures ASSETS_PREFIX + a != DB_PATH
  {
    assert (ASSETS_PREFIX + a)[|ASSETS_PREFIX|..] == a && (ASSETS_PREFIX + b)[|ASSETS_PREFIX|..] == b;
    assert (ASSETS_PREFIX + a)[0] == 'a' && DB_PATH[0] == 'd';
  }

  lemma {:induction false} ContentMeans(s: Snapshot, live: map<string, string>, n: nat)
    requires n <= |s.pins| && DistinctPins(s)
    ensures DB_PATH in Content(s, live, n) && Content(s, live, n)[DB_PATH] == Blob(s.image, Some(s.revision))
    ensures forall i :: 0 <= i < n ==>
              var path := PinEntry(s.pins[i]).path;
              path in Content(s, live, n) && Content(s, live, n)[path] == Read(live, s.pins[i].key)
    ensures forall p :: p in Content(s, live, n) && p != DB_PATH ==> exists i :: 0 <= i < n && p == PinEntry(s.pins[i]).path
  {
    if n > 0 {
      ContentMeans(s, live, n - 1);
      hide Read;
      forall i | 0 <= i < n - 1 ensures PinEntry(s.pins[i]).path != PinEntry(s.pins[n - 1]).path {
        AssetPathsDiffer(s.pins[i].key, s.pins[n - 1].key);
      }
      AssetPathsDiffer(s.pins[n - 1].key, "");
    }
  }

  lemma {:induction false} InventoryMeans(s: Snapshot, n: nat)
    requires n <= |s.pins|
    ensures forall e :: e in Inventory(s, n) <==> e == DbEntry(s) || exists i :: 0 <= i < n && e == PinEntry(s.pins[i])
    ensures DbEntry(s) in Inventory(s, n)
  {
    if n > 0 {
      InventoryMeans(s, n - 1);
    }
  }

  lemma DatabaseIsKey()
    ensures IsValidKey(DB_PATH)
  {
    FileNameIsKey("database", "sqlite");
    assert "database" + "." + "sqlite" == DB_PATH;
  }

  /** Whether an asset's path in the container is a key again depends only on its length. */
  lemma AssetPathValid(key: string)
    requires IsValidKey(key)
    ensures IsLogicalPath(ASSETS_PREFIX + key)
    ensures IsValidKey(ASSETS_PREFIX + key) <==> |ASSETS_PREFIX| + ByteLen(key) <= MAX_RELATIVE_KEY_LEN
  {
    hide *;
    AssetKey(key);
    KeyIsLogical(key);
  }

  lemma KeyIsLogical(key: string)
    requires IsValidKey(key)
    ensures IsLogicalPath(ASSETS_PREFIX + key)
  {
    hide IsValidKey;
    PrefixParts(key);
  }

  /**
   * A built container verifies exactly when it keeps the limits that only verification checks: the total
   * size, the length of the inventory file, and the length of each asset's path inside the container.
   */
  lemma BuiltVerifies(s: Snapshot, live: map<string, string>, now: int, encoded: seq<Entry> -> nat)
    requires DistinctPins(s) && PinsHold(s, live) && MIN_DIRECT_SCHEMA <= s.revision <= CURRENT_SCHEMA
    ensures Verified(BuiltBox(s, live, now), encoded) <==> WithinLimits(s, encoded)
    ensures Complete(BuiltBox(s, live, now))
  {
    hide *;
    InventoryMatches(s, live, now);
    InventoryPaths(s, live);
    DbListed(s, live);
    BoxParts(s, live, now);
    VerifiedParts(BuiltBox(s, live, now), Inventory(s, |s.pins|), encoded);
    LimitParts(s, encoded);
  }

  lemma BoxParts(s: Snapshot, live: map<string, string>, now: int)
    ensures var b := BuiltBox(s, live, now);
      b.files == Content(s, live, |s.pins|) && b.checksums == Some(Inventory(s, |s.pins|)) &&
      b.manifest == Some(Manifest(1, STORAGE_FORMAT, s.revision, s.created))
  {
  }

  lemma LimitParts(s: Snapshot, encoded: seq<Entry> -> nat)
    ensures WithinLimits(s, encoded) <==>
      && TotalSize(Inventory(s, |s.pins|)) <= MAX_BACKUP_BYTES
      && encoded(Inventory(s, |s.pins|)) <= MANIFEST_MAX_BYTES
      && forall i :: 0 <= i < |s.pins| ==> |ASSETS_PREFIX| + ByteLen(s.pins[i].key) <= MAX_RELATIVE_KEY_LEN
  {
    hide Inventory, TotalSize, ByteLen;
  }

  lemma VerifiedParts(b: Box, inventory: seq<Entry>, encoded: seq<Entry> -> nat)
    requires b.checksums == Some(inventory) && b.manifest.Some? && b.manifest.value.version == 1
    requires b.manifest.value.storageFormat == STORAGE_FORMAT
    requires forall e :: e in inventory ==> e.size >= 0 && IsLogicalPath(e.path) && Matches(b.files, e)
    requires exists e :: e in inventory && e.path == DB_PATH
    requires DB_PATH in b.files && b.files[DB_PATH].revision == Some(b.manifest.value.revision)
    requires MIN_DIRECT_SCHEMA <= b.manifest.value.revision <= CURRENT_SCHEMA
    ensures Verified(b, encoded) <==>
      && (forall e :: e in inventory ==> IsValidKey(e.path))
      && TotalSize(inventory) <= MAX_BACKUP_BYTES && encoded(inventory) <= MANIFEST_MAX_BYTES
    ensures Complete(b)
  {
    hide IsLogicalPath, IsValidKey, Matches, TotalSize;
  }

  lemma DbListed(s: Snapshot, live: map<string, string>)
    requires DistinctPins(s)
    ensures exists e :: e in Inventory(s, |s.pins|) && e.path == DB_PATH
    ensures DB_PATH in Content(s, live, |s.pins|) && Content(s, live, |s.pins|)[DB_PATH].revision == Some(s.revision)
  {
    ContentMeans(s, live, |s.pins|);
    InventoryMeans(s, |s.pins|);
    DbEntryPath(s);
    hide *;
    assert DbEntry(s) in Inventory(s, |s.pins|);
  }

  lemma DbEntryPath(s: Snapshot)
    ensures DbEntry(s).path == DB_PATH
  {
  }

  lemma InventoryMatches(s: Snapshot, live: map<string, string>, now: int)
    requires DistinctPins(s) && PinsHold(s, live)
    ensures forall e :: e in Inventory(s, |s.pins|) ==> e.size >= 0 && Matches(BuiltBox(s, live, now).files, e)
  {
    ContentMeans(s, live, |s.pins|);
    InventoryMeans(s, |s.pins|);
    hide Content, Inventory, IsValidKey, ByteLen, DistinctPins;
    forall e | e in Inventory(s, |s.pins|) ensures e.size >= 0 && Matches(BuiltBox(s, live, now).files, e) {
      if e != DbEntry(s) {
        var i :| 0 <= i < |s.pins| && e == PinEntry(s.pins[i]);
        assert PinHolds(s.pins[i], live);
      }
    }
  }

  /** The paths of an inventory are logical paths, and keys unless one is too long. */
  lemma InventoryPaths(s: Snapshot, live: map<string, string>)
    requires PinsHold(s, live)
    ensures forall e :: e in Inventory(s, |s.pins|) ==> IsLogicalPath(e.path)
    ensures (forall e :: e in Inventory(s, |s.pins|) ==> IsValidKey(e.path)) <==>
              forall i :: 0 <= i < |s.pins| ==> |ASSETS_PREFIX| + ByteLen(s.pins[i].key) <= MAX_RELATIVE_KEY_LEN
  {
    DatabaseIsKey();
    InventoryMeans(s, |s.pins|);
    DbIsLogical();
    forall i | 0 <= i < |s.pins|
      ensures PinEntry(s.pins[i]) in Inventory(s, |s.pins|) && IsLogicalPath(PinEntry(s.pins[i]).path)
      ensures IsValidKey(PinEntry(s.pins[i]).path) <==> |ASSETS_PREFIX| + ByteLen(s.pins[i].key) <= MAX_RELATIVE_KEY_LEN
    {
      assert PinHolds(s.pins[i], live);
      hide *;
      assert PinEntry(s.pins[i]).path == ASSETS_PREFIX + s.pins[i].key by { PinPath(s.pins[i]); }
      AssetPathValid(s.pins[i].key);
    }
    hide Inventory, IsValidKey, IsLogicalPath, ByteLen, PinHolds;
  }

  lemma PinPath(p: Pin)
    ensures PinEntry(p).path == ASSETS_PREFIX + p.key
  {
  }

  lemma DbIsLogical()
    ensures IsLogicalPath(DB_PATH)
  {
  }
}
