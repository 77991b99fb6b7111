/** Verifying a container, and restoring it through a staged candidate. */
module BackupRestore {
  import opened Base
  import opened Text
  import opened Paths
  import opened Backup
  import R = Restore

  lemma NoSize()
    ensures TotalSize([]) == 0
  {
  }

  lemma SizeMore(inventory: seq<Entry>, i: nat)
    requires i < |inventory|
    ensures TotalSize(inventory[..i + 1]) == TotalSize(inventory[..i]) + inventory[i].size && inventory[i] in inventory
  {
    TakeMore(inventory, i);
  }

  /** `verify_backup`; on success the total size, which together with the inventory makes its record. */
  method VerifyBackup(b: Box, encoded: seq<Entry> -> nat) returns (size: Option<int>)
    ensures size.Some? <==> Verified(b, encoded)
    ensures size.Some? ==> b.checksums.Some? && size.value == TotalSize(b.checksums.value)
  {
    hide IsValidKey, IsLogicalPath, ByteLen, Matches, TotalSize;
    NoSize();
    if b.manifest.None? || b.manifest.value.version != 1 || b.manifest.value.storageFormat != STORAGE_FORMAT {
      return None;
    }
    if b.checksums.None? || encoded(b.checksums.value) > MANIFEST_MAX_BYTES {
      return None;
    }
    var inventory := b.checksums.value;
    var total, databases := 0, 0;
    assert inventory[..0] == [];
    for i := 0 to |inventory|
      invariant total == TotalSize(inventory[..i]) && databases >= 0
      invariant forall j :: 0 <= j < i ==> inventory[j].size >= 0 && IsLogicalPath(inventory[j].path)
      invariant databases > 0 <==> exists j :: 0 <= j < i && inventory[j].path == DB_PATH
    {
      var e := inventory[i];
      SizeMore(inventory, i);
      if e.size < 0 || !IsLogicalPath(e.path) {
        return None;
      }
      if e.path == DB_PATH {
        databases := databases + 1;
      }
      total := total + e.size;
    }
    assert inventory[..|inventory|] == inventory;
    if databases == 0 {
      assert forall e :: e in inventory ==> e.path != DB_PATH;
      return None;
    }
    if total > MAX_BACKUP_BYTES {
      return None;
    }
    for i := 0 to |inventory|
      invariant forall j :: 0 <= j < i ==> IsValidKey(inventory[j].path) && Matches(b.files, inventory[j])
    {
      var e := inventory[i];
      assert e in inventory;
      if !IsValidKey(e.path) || !Matches(b.files, e) {
        return None;
      }
    }
    if DB_PATH !in b.files || b.files[DB_PATH].revision.None? {
      return None;
    }
    var revision := b.files[DB_PATH].revision.value;
    if !(MIN_DIRECT_SCHEMA <= revision <= CURRENT_SCHEMA) || revision != b.manifest.value.revision {
      return None;
    }
    assert exists e :: e in inventory && e.path == DB_PATH;
    return Some(total);
  }

  /** The files the inventory names, as they go into a candidate. */
  function Staged(b: Box): R.Dir
    requires Complete(b)
  {
    map p | p in b.files && (exists e :: e in b.checksums.value && e.path == p) :: R.Bytes(b.files[p].bytes)
  }

  /** `copy_container_into_candidate`: every inventoried file, checked again after the copy. */
  method CopyContainer(b: Box) returns (files: R.Dir)
    requires Complete(b)
    ensures files == Staged(b)
  {
    hide ByteLen;
    var inventory := b.checksums.value;
    files := map[];
    for i := 0 to |inventory|
      invariant forall p :: p in files <==> p in b.files && exists e :: e in inventory[..i] && e.path == p
      invariant forall p :: p in files ==> files[p] == R.Bytes(b.files[p].bytes)
    {
      var e := inventory[i];
      assert e in inventory && Matches(b.files, e);
      assert inventory[..i + 1] == inventory[..i] + [e];
      files := files[e.path := R.Bytes(b.files[e.path].bytes)];
    }
    assert inventory[..|inventory|] == inventory;
  }

  /** A created container stages the snapshot and exactly the pinned assets. */
  lemma StagedIsSnapshot(s: Snapshot, live: map<string, string>, now: int, path: string)
    requires DistinctPins(s) && PinsHold(s, live) && Complete(BuiltBox(s, live, now))
    ensures var files := Staged(BuiltBox(s, live, now));
      && DB_PATH in files && files[DB_PATH] == R.Bytes(s.image)
      && (forall i :: 0 <= i < |s.pins| ==>
            var p := PinEntry(s.pins[i]).path;
            p in files && s.pins[i].key in live && files[p] == R.Bytes(live[s.pins[i].key]))
      && (path in files <==> path == DB_PATH || exists i :: 0 <= i < |s.pins| && path == PinEntry(s.pins[i]).path)
  {
    var b := BuiltBox(s, live, now);
    ContentMeans(s, live, |s.pins|);
    InventoryMeans(s, |s.pins|);
    DbEntryPath(s);
    hide Content, Inventory, PinEntry, DbEntry, IsValidKey, ByteLen, DistinctPins, Matches;
    assert b.files == Content(s, live, |s.pins|) && b.checksums == Some(Inventory(s, |s.pins|));
    forall i | 0 <= i < |s.pins|
      ensures PinEntry(s.pins[i]) in b.checksums.value && s.pins[i].key in live
    {
      assert PinHolds(s.pins[i], live);
    }
  }

  lemma VerifiedComplete(b: Box, encoded: seq<Entry> -> nat)
    requires Verified(b, encoded)
    ensures Complete(b)
  {
    hide IsValidKey, IsLogicalPath, Matches;
  }

  /** A verified container stages a database, and nothing under the names a candidate keeps for itself. */
  lemma StagedHasDb(b: Box, encoded: seq<Entry> -> nat)
    requires Verified(b, encoded) && Complete(b)
    ensures R.HasDb(Staged(b)) && R.READY !in Staged(b) && R.LOCK !in Staged(b)
  {
    hide IsValidKey, ByteLen;
    if R.READY in Staged(b) {
      var e :| e in b.checksums.value && e.path == R.READY;
      assert IsLogicalPath(e.path);
      DotIsNotLogical(R.READY);
    }
    if R.LOCK in Staged(b) {
      var e :| e in b.checksums.value && e.path == R.LOCK;
      assert IsLogicalPath(e.path);
      DotIsNotLogical(R.LOCK);
    }
  }

  lemma DotIsNotLogical(path: string)
    requires path != "" && path[0] == '.'
    ensures !IsLogicalPath(path)
  {
    hide IsValidKey;
    assert DB_PATH[0] == 'd' && ASSETS_PREFIX[0] == 'a';
  }

  lemma RestoredFiles(o: R.Tree, t: R.Tree, root: R.Name, c: R.Name, files: R.Dir)
    requires c in o.dirs && R.READY !in files && R.LOCK !in files
    requires o.dirs[c] - {R.READY} == files[R.LOCK := R.Bytes("")] && R.At(t, root) == R.Data(o.dirs[c])
    ensures R.At(t, root) - {R.READY} == files
  {
    var d := o.dirs[c];
    assert (d - {R.LOCK}) - {R.READY} == (d - {R.READY}) - {R.LOCK};
    assert files[R.LOCK := R.Bytes("")] - {R.LOCK} == files;
  }

  lemma KeptFrom(before: R.Tree, o: R.Tree, root: R.Name, t: R.Tree)
    requires R.At(o, root) == R.At(before, root) && R.Kept(o, root, t)
    ensures R.Kept(before, root, t)
  {
    var ms :| R.IsNewest(t, ms) && R.At(t, R.Previous(ms)) == R.At(o, root);
    assert R.IsNewest(t, ms) && R.At(t, R.Previous(ms)) == R.At(before, root);
  }

  /** What opening the candidate makes of its database: one of an older revision is migrated by `upgrade`. */
  function Opened(b: Box, upgrade: string -> string): R.Dir
    requires Complete(b) && DB_PATH in b.files && b.files[DB_PATH].revision.Some?
  {
    if b.files[DB_PATH].revision.value == CURRENT_SCHEMA then Staged(b)
    else Staged(b)[DB_PATH := R.Bytes(upgrade(b.files[DB_PATH].bytes))]
  }

  lemma VerifiedDb(b: Box, encoded: seq<Entry> -> nat)
    requires Verified(b, encoded)
    ensures DB_PATH in b.files && b.files[DB_PATH].revision.Some?
  {
    hide IsValidKey, IsLogicalPath, Matches, TotalSize;
  }

  /**
   * `restore_backup`: verify, stage a candidate, copy, open it (its lease file, the removal of all
   * previous roots but the newest, the migration), finalize, activate. `o` is the tree the activation
   * started from.
   */
  method RestoreBackup(d: R.Disk, root: R.Name, id: nat, b: Box, encoded: seq<Entry> -> nat, upgrade: string -> string)
    returns (r: R.Result, ghost o: R.Tree, ghost marked: bool)
    requires d.Valid() && root.Root? && d.marker.None?
    modifies d
    ensures d.Valid()
    ensures r == R.Refused ==> !Verified(b, encoded) && unchanged(d)
    ensures r == R.Done ==>
      && Verified(b, encoded) && Complete(b) && DB_PATH in b.files && b.files[DB_PATH].revision.Some?
      && R.At(d.T(), root) - {R.READY} == Opened(b, upgrade)
      && (R.HasDb(R.At(old(d.T()), root)) ==> R.Kept(old(d.T()), root, d.T()))
    ensures r != R.Done && !marked ==> R.At(d.T(), root) == R.At(old(d.T()), root) && d.marker.None?
    ensures r != R.Done && marked ==> R.Launchable(o, root, R.Candidate(id)) && R.Pending(o, root, R.Candidate(id), d.T())
    ensures old(d.fuel).None? && Verified(b, encoded) && R.Candidate(id) !in old(d.dirs) ==> r == R.Done
  {
    hide Verified, ByteLen, IsValidKey, IsLogicalPath, Matches;
    o, marked := d.T(), false;
    var size := VerifyBackup(b, encoded);
    if size.None? {
      return R.Refused, o, false;
    }
    VerifiedComplete(b, encoded);
    VerifiedDb(b, encoded);
    var files := CopyContainer(b);
    StagedHasDb(b, encoded);
    ghost var before := d.T();
    r := StageAndOpen(d, root, id, b, files, upgrade);
    if r != R.Done {
      return r, o, false;
    }
    r := d.FinalizeCandidate(id);
    if r != R.Done {
      return r, o, false;
    }
    o := d.T();
    assert R.At(o, root) == R.At(before, root);
    assert R.Unmarked(o) == o;
    r, marked := d.Activate(root, R.Candidate(id));
    if r == R.Done {
      RestoredFiles(o, d.T(), root, R.Candidate(id), Opened(b, upgrade));
      if R.HasDb(R.At(before, root)) {
        KeptFrom(before, o, root, d.T());
      }
    }
  }

  /** `stage_and_check_candidate`, without the integrity checks. */
  method StageAndOpen(d: R.Disk, root: R.Name, id: nat, b: Box, files: R.Dir, upgrade: string -> string) returns (r: R.Result)
    requires d.Valid() && root.Root? && d.marker.None?
    requires Complete(b) && DB_PATH in b.files && b.files[DB_PATH].revision.Some? && files == Staged(b)
    requires R.HasDb(files) && R.READY !in files && R.LOCK !in files
    modifies d
    ensures d.Valid() && d.marker.None? && r != R.Refused
    ensures R.At(d.T(), root) == R.At(old(d.T()), root) && (root in old(d.dirs) <==> root in d.dirs)
    ensures r == R.Done ==>
      && R.Candidate(id) in d.dirs && d.dirs[R.Candidate(id)] == Opened(b, upgrade)[R.LOCK := R.Bytes("")]
      && R.HasDb(Opened(b, upgrade)) && R.READY !in Opened(b, upgrade) && R.LOCK !in Opened(b, upgrade)
    ensures old(d.fuel).None? ==> d.fuel.None? && (r == R.Done <==> R.Candidate(id) !in old(d.dirs))
  {
    hide Complete, Matches, Staged;
    var c := R.Candidate(id);
    r := d.StageCandidate(id, files);
    if r != R.Done {
      return;
    }
    var alive := d.Rewrite(c, files[R.LOCK := R.Bytes("")]);
    if !alive {
      return R.Killed;
    }
    alive := d.Prune();
    if !alive {
      return R.Killed;
    }
    if b.files[DB_PATH].revision.value != CURRENT_SCHEMA {
      var migrated := files[DB_PATH := R.Bytes(upgrade(b.files[DB_PATH].bytes))];
      alive := d.Rewrite(c, migrated[R.LOCK := R.Bytes("")]);
      if !alive {
        return R.Killed;
      }
    }
  }
}
