/** The backup operations over the backups directory and, for a restore, the data root's parent. */
module BackupStore {
  import opened Base
  import opened Text
  import opened Paths
  import opened Backup

  // ---------------------------------------------------------------- directory names

  const SUFFIX := ".neotavern-backup"
  const TMP_MARKER := ".neotavern-backup.tmp-"

  predicate StandsAt(s: string, i: nat, part: string) {
    i + |part| <= |s| && s[i..i + |part|] == part
  }

  predicate Contains(s: string, part: string) {
    exists i :: 0 <= i <= |s| && StandsAt(s, i, part)
  }

  /** What a listing takes a directory for. */
  datatype Sighting = Provisional | Listed(id: string) | Ignored

  function Classify(name: string): Sighting {
    if Contains(name, TMP_MARKER) then Provisional
    else if |name| >= |SUFFIX| && name[|name| - |SUFFIX|..] == SUFFIX then Listed(name[..|name| - |SUFFIX|])
    else Ignored
  }

  /** The entry of the backups directory that a relative path lies in. */
  function TopLevel(path: string): string {
    Split(path, '/')[0]
  }

  /** A listing looks at single names only, and takes a name with the marker for a leftover. */
  predicate IsListable(id: string) {
    '/' !in id && !Contains(id, TMP_MARKER)
  }

  /** A published container is listed under its id exactly if the id is listable; the key grammar does not demand it. */
  lemma ListedUnderItsId(id: string)
    ensures Classify(TopLevel(id + SUFFIX)) == Listed(id) <==> IsListable(id)
    ensures '/' !in id && Contains(id, TMP_MARKER) ==> Classify(TopLevel(id + SUFFIX)) == Provisional
  {
    var name := id + SUFFIX;
    if '/' in id {
      SplitParts(name, '/');
      assert TopLevel(name) in Split(name, '/');
      assert forall i :: 0 <= i < |TopLevel(name)| ==> TopLevel(name)[i] in TopLevel(name);
    } else {
      SuffixHasNoSlash();
      UntilOf(name, '/', "");
      MarkerInId(id);
      assert name[|name| - |SUFFIX|..] == SUFFIX && name[..|name| - |SUFFIX|] == id;
    }
  }

  lemma SuffixHasNoSlash()
    ensures '/' !in SUFFIX
  {
  }

  /** The marker cannot reach into the suffix. */
  lemma MarkerInId(id: string)
    ensures Contains(id + SUFFIX, TMP_MARKER) <==> Contains(id, TMP_MARKER)
  {
    hide StandsAt;
    if Contains(id + SUFFIX, TMP_MARKER) {
      var i :| 0 <= i <= |id + SUFFIX| && StandsAt(id + SUFFIX, i, TMP_MARKER);
      MarkerBeforeSuffix(id, i);
    }
    if Contains(id, TMP_MARKER) {
      var i :| 0 <= i <= |id| && StandsAt(id, i, TMP_MARKER);
      StandsLonger(id, i);
    }
  }

  lemma StandsLonger(id: string, i: nat)
    requires StandsAt(id, i, TMP_MARKER)
    ensures StandsAt(id + SUFFIX, i, TMP_MARKER)
  {
    SliceOfFront(id, i, i + |TMP_MARKER|);
  }

  lemma SliceOfFront(id: string, i: nat, j: nat)
    requires i <= j <= |id|
    ensures (id + SUFFIX)[i..j] == id[i..j]
  {
  }

  lemma MarkerBeforeSuffix(id: string, i: nat)
    requires StandsAt(id + SUFFIX, i, TMP_MARKER)
    ensures i <= |id| && StandsAt(id, i, TMP_MARKER)
  {
    MarkerEnds(id + SUFFIX, i);
    NoMarkerEndInSuffix(id, i + |TMP_MARKER| - 1);
    SliceOfFront(id, i, i + |TMP_MARKER|);
  }

  /** The marker ends in `p-`. */
  lemma MarkerEnds(name: string, i: nat)
    requires StandsAt(name, i, TMP_MARKER)
    ensures |TMP_MARKER| == 22 && i + 22 <= |name| && name[i + 20] == 'p' && name[i + 21] == '-'
  {
    assert name[i..i + 22][20] == 'p' && name[i..i + 22][21] == '-';
  }

  /** In the suffix the only hyphen follows an `n`. */
  lemma NoMarkerEndInSuffix(id: string, last: nat)
    requires 1 <= last < |id + SUFFIX| && (id + SUFFIX)[last] == '-' && (id + SUFFIX)[last - 1] == 'p'
    ensures last < |id|
  {
    if last >= |id| {
      SuffixAt(id, last - |id|);
    }
  }

  lemma SuffixAt(id: string, k: nat)
    requires k < |SUFFIX|
    ensures (id + SUFFIX)[|id| + k] == '-' ==> k > 0 && (id + SUFFIX)[|id| + k - 1] != 'p'
  {
    SuffixHyphen();
    assert (id + SUFFIX)[|id| + k] == SUFFIX[k];
    assert k > 0 ==> (id + SUFFIX)[|id| + k - 1] == SUFFIX[k - 1];
  }

  lemma SuffixHyphen()
    ensures SUFFIX[0] != '-' && forall k :: 0 < k < |SUFFIX| && SUFFIX[k] == '-' ==> SUFFIX[k - 1] != 'p'
  {
  }

  /**
   * What a creation under `id` makes a listing see besides a container: when the first component of a
   * path looks like a container, a directory of that name, without a manifest of its own.
   */
  function Shadow(id: string): set<string> {
    if '/' in id && Classify(TopLevel(id + SUFFIX)).Listed? then {Classify(TopLevel(id + SUFFIX)).id} else {}
  }

  /** Every directory that looks like a container is one. */
  predicate NoHollow(dirs: map<Name, Box>, hollow: set<string>) {
    forall x :: x in hollow ==> Final(x) in dirs
  }

  /** For instance `x.neotavern-backup/y` casts the shadow `x`. */
  lemma NestedIdCastsShadow(x: string, y: string)
    requires '/' !in x && !Contains(x, TMP_MARKER)
    ensures Shadow(x + SUFFIX + "/" + y) == {x}
  {
    var id := x + SUFFIX + "/" + y;
    SuffixHasNoSlash();
    assert id + SUFFIX == (x + SUFFIX) + ['/'] + (y + SUFFIX);
    assert id[|x + SUFFIX|] == '/';
    SplitCons(x + SUFFIX, '/', y + SUFFIX);
    ListedUnderItsId(x);
    UntilOf(x + SUFFIX, '/', "");
  }

  /** The leftovers among the containers that no listing shows are removed like provisional ones. */
  predicate IsLeftover(id: string, b: Box, clock: int) {
    '/' !in id && clock - b.modified > TMP_GRACE_SECONDS
  }

  function Swept(unlisted: map<string, Box>, clock: int): map<string, Box> {
    map id | id in unlisted && !IsLeftover(id, unlisted[id], clock) :: unlisted[id]
  }

  lemma SweptFrom(unlisted: map<string, Box>, clock: int)
    ensures forall id :: id in Swept(unlisted, clock) ==> id in unlisted && Swept(unlisted, clock)[id] == unlisted[id]
  {
  }

  // ---------------------------------------------------------------- the store

  /** Published containers whose inventory file the bounded reader refuses. */
  ghost predicate Readable(dirs: map<Name, Box>, encoded: seq<Entry> -> nat) {
    forall n :: n in dirs && n.Final? && dirs[n].checksums.Some? ==> encoded(dirs[n].checksums.value) <= MANIFEST_MAX_BYTES
  }

  /** `records` lists each published container once, as it is. */
  ghost predicate Lists(records: seq<Record>, dirs: map<Name, Box>) {
    && (forall i, j :: 0 <= i < j < |records| ==> records[i].id != records[j].id)
    && (forall r :: r in records ==> Final(r.id) in dirs && dirs[Final(r.id)].checksums == Some(r.checksum) && r.size == TotalSize(r.checksum))
    && (forall n :: n in dirs && n.Final? ==> exists r :: r in records && r.id == n.id)
  }

  /** Published containers are the same ones, unchanged. */
  ghost predicate SamePublished(a: map<Name, Box>, b: map<Name, Box>) {
    forall n: Name :: n.Final? ==> (n in a <==> n in b) && (n in a ==> a[n] == b[n])
  }

  /** No container is published under `id` yet. */
  predicate IsFree(id: string, dirs: map<Name, Box>, unlisted: map<string, Box>) {
    if IsListable(id) then Final(id) !in dirs else id !in unlisted
  }

  /** Container `b` was published as `id`, where a listing finds it or not, and nothing else changed. */
  ghost predicate Adds(id: string, b: Box, dirs: map<Name, Box>, unlisted: map<string, Box>,
                       dirs': map<Name, Box>, unlisted': map<string, Box>)
  {
    if IsListable(id) then SamePublished(dirs', dirs[Final(id) := b]) && unlisted' == unlisted
    else SamePublished(dirs, dirs') && unlisted' == unlisted[id := b]
  }

  datatype BuildEnd = Built | Damaged | Cut

  class Backups {
    var dirs: map<Name, Box>
    /** Containers published under ids that no listing shows. */
    var unlisted: map<string, Box>
    /** Names of the directories that lie on the path of a container published deeper. */
    var hollow: set<string>
    var clock: int
    var sequence: nat
    var fuel: Option<nat>
    /** Length of a serialized inventory. */
    const encoded: seq<Entry> -> nat

    /** Every published container is complete, there are at most `MAX_BACKUPS`, and provisional names are used up in order. */
    ghost predicate Valid()
      reads this
    {
      && (forall n :: n in dirs && n.Final? ==> Complete(dirs[n]) && IsListable(n.id))
      && (forall id :: id in unlisted ==> Complete(unlisted[id]) && !IsListable(id))
      && |Ids(dirs)| <= MAX_BACKUPS
      && (forall n :: n in dirs && n.Tmp? ==> n.sequence < sequence)
    }

    constructor (encoded: seq<Entry> -> nat)
      ensures Valid() && dirs == map[] && unlisted == map[] && hollow == {} && this.encoded == encoded
    {
      dirs, unlisted, hollow, clock, sequence, fuel := map[], map[], {}, 0, 0, None;
      this.encoded := encoded;
    }

    method Step() returns (alive: bool)
      modifies this`fuel
      ensures alive <==> old(fuel) != Some(0)
      ensures fuel == Spent(old(fuel))
    {
      alive, fuel := fuel != Some(0), Spent(fuel);
    }

    /** `list_backups`: provisional directories are never listed, and removed once a day old. */
    method List() returns (r: Result<seq<Record>, BackupError>)
      requires Valid()
      modifies this`dirs, this`unlisted
      ensures Valid() && SamePublished(old(dirs), dirs)
      ensures forall n :: n in dirs ==> n in old(dirs) && dirs[n] == old(dirs)[n]
      ensures unlisted == if r.Ok? then Swept(old(unlisted), clock) else old(unlisted)
      ensures r.Ok? <==> Readable(dirs, encoded) && NoHollow(dirs, hollow)
      ensures r.Ok? ==> Lists(r.value, dirs)
      ensures r.Ok? ==> forall n :: n in dirs ==> !IsStale(n, dirs[n], clock)
    {
      hide TotalSize, Matches, Seen, Swept, Scanned, Valid;
      ScanStarts(dirs, clock);
      if x :| x in hollow && Final(x) !in dirs {
        return Err(Unreadable(x));
      }
      assert NoHollow(dirs, hollow);
      hide SamePublished, Lists, Readable, NoHollow;
      NoneSeen(dirs, encoded);
      var records: seq<Record> := [];
      var todo := dirs.Keys;
      while todo != {}
        invariant Valid() && unlisted == old(unlisted) && todo <= old(dirs).Keys
        invariant Scanned(old(dirs), dirs, todo, clock) && Seen(records, dirs, todo, encoded)
        decreases todo
      {
        var n :| n in todo;
        ghost var before, rest := dirs, todo;
        todo := todo - {n};
        var found := Look(n);
        ScanOn(old(dirs), before, dirs, rest, n, clock);
        if found.Some? {
          var inventory := found.value.checksums.value;
          if encoded(inventory) > MANIFEST_MAX_BYTES {
            UnreadableContainer(dirs, n, encoded);
            ScanMeans(old(dirs), dirs, todo, clock);
            SameHollow(old(dirs), dirs, hollow);
            return Err(Unreadable(n.id));
          }
          SeeFinal(records, dirs, rest, n, encoded);
          records := records + [Record(n.id, TotalSize(inventory), inventory)];
        } else {
          SkipOther(records, before, dirs, rest, n, encoded);
        }
      }
      ScanMeans(old(dirs), dirs, {}, clock);
      SameHollow(old(dirs), dirs, hollow);
      SeenAll(records, dirs, encoded);
      Sweep();
      r := Ok(records);
    }

    method Sweep()
      requires Valid()
      modifies this`unlisted
      ensures Valid() && unlisted == Swept(old(unlisted), clock)
    {
      hide IsListable, Complete;
      SweptFrom(unlisted, clock);
      unlisted := Swept(unlisted, clock);
    }

    /** One directory of the scan: the container if it is a published one; a stale provisional one is removed. */
    method Look(n: Name) returns (found: Option<Box>)
      requires Valid()
      modifies this`dirs
      ensures Valid()
      ensures found.Some? <==> n in old(dirs) && n.Final?
      ensures found.Some? ==> n in dirs && found.value == dirs[n] && found.value.checksums.Some?
      ensures dirs == if n in old(dirs) && IsStale(n, old(dirs)[n], clock) then old(dirs) - {n} else old(dirs)
    {
      if n !in dirs {
        return None;
      }
      if n.Final? {
        return Some(dirs[n]);
      }
      hide IsListable, Matches;
      if '/' !in n.id && clock - dirs[n].modified > TMP_GRACE_SECONDS {
        SameIds(dirs, dirs - {n});
        dirs := dirs - {n};
      }
      return None;
    }

    /**
     * `create_backup`. The snapshot has been taken and checked; `live` are the files of the data root's
     * assets directory.
     */
    method Create(id: string, s: Snapshot, live: map<string, string>) returns (r: Creation)
      requires Valid() && DistinctPins(s) && MIN_DIRECT_SCHEMA <= s.revision <= CURRENT_SCHEMA
      modifies this
      ensures Valid()
      ensures forall n :: n in old(dirs) && n.Final? ==> n in dirs && dirs[n] == old(dirs)[n]
      ensures hollow == old(hollow) || hollow == old(hollow) + Shadow(id)
      ensures r.Done? ==> NoHollow(old(dirs), old(hollow)) && hollow == old(hollow) + Shadow(id)
      ensures !NoHollow(old(dirs), old(hollow)) ==> !r.Done? && !NoHollow(dirs, hollow)
      ensures r.Done? && (exists x :: x in Shadow(id) && Final(x) !in old(dirs)) ==> !NoHollow(dirs, hollow)
      ensures r.Done? ==>
        && IsValidKey(id) && PinsHold(s, live) && IsFree(id, old(dirs), Swept(old(unlisted), clock))
        && Adds(id, BuiltBox(s, live, clock), old(dirs), Swept(old(unlisted), clock), dirs, unlisted)
        && r.record == Record(id, TotalSize(Inventory(s, |s.pins|)), Inventory(s, |s.pins|))
      ensures !r.Done? ==> SamePublished(old(dirs), dirs) && (unlisted == old(unlisted) || unlisted == Swept(old(unlisted), clock))
      ensures old(fuel).None? ==>
        (r.Done? <==> IsValidKey(id) && Readable(old(dirs), encoded) && NoHollow(old(dirs), old(hollow)) && |Ids(old(dirs))| < MAX_BACKUPS && PinsHold(s, live) &&
                      IsFree(id, old(dirs), Swept(old(unlisted), clock)))
    {
      hide IsListable, Swept, PinsHold, BuiltBox, Inventory, TotalSize, Complete, Shadow, NoHollow, Adds, IsFree;
      if !IsValidKey(id) {
        return Failed(InvalidId);
      }
      hide SamePublished, Readable, Lists, Ids;
      var existing := List();
      SameIds(old(dirs), dirs);
      ghost var listed, swept := dirs, unlisted;
      SamePublishedMeans(old(dirs), listed, hollow, id, swept, encoded);
      if existing.Err? {
        return Failed(existing.error);
      }
      ListedCount(existing.value, dirs);
      if |existing.value| >= MAX_BACKUPS {
        return Failed(QuotaExceeded);
      }
      r := Produce(id, s, live);
      if r.Done? {
        AddsMeans(id, BuiltBox(s, live, clock), old(dirs), listed, swept, dirs, unlisted, old(hollow));
      } else {
        SamePublishedAgain(old(dirs), listed, dirs);
      }
    }

    /** Builds under a provisional name and publishes by renaming, unless the name is taken. */
    method Produce(id: string, s: Snapshot, live: map<string, string>) returns (r: Creation)
      requires Valid() && DistinctPins(s) && MIN_DIRECT_SCHEMA <= s.revision <= CURRENT_SCHEMA && |Ids(dirs)| < MAX_BACKUPS
      modifies this`dirs, this`unlisted, this`hollow, this`sequence, this`fuel
      ensures hollow == old(hollow) || hollow == old(hollow) + Shadow(id)
      ensures r.Done? ==> hollow == old(hollow) + Shadow(id)
      ensures Valid() && (r.Done? || r.Killed? || r.Failed?)
      ensures r.Done? ==>
        && PinsHold(s, live) && IsFree(id, old(dirs), old(unlisted))
        && Adds(id, BuiltBox(s, live, clock), old(dirs), old(unlisted), dirs, unlisted)
        && r.record == Record(id, TotalSize(Inventory(s, |s.pins|)), Inventory(s, |s.pins|))
      ensures !r.Done? ==> SamePublished(old(dirs), dirs) && unlisted == old(unlisted)
      ensures old(fuel).None? ==> (r.Done? <==> PinsHold(s, live) && IsFree(id, old(dirs), old(unlisted)))
    {
      hide IsListable, PinsHold, BuiltBox, Ids, Complete, Inventory, TotalSize, DistinctPins, Shadow, Adds, IsFree;
      var tmp := Tmp(id, sequence);
      sequence := sequence + 1;
      var alive := Step();
      if !alive {
        return Killed;
      }
      hollow := hollow + Shadow(id);
      r := Deliver(tmp, id, s, live);
    }

    /** Fills the provisional directory and publishes it. */
    method Deliver(tmp: Name, id: string, s: Snapshot, live: map<string, string>) returns (r: Creation)
      requires Valid() && DistinctPins(s) && MIN_DIRECT_SCHEMA <= s.revision <= CURRENT_SCHEMA && |Ids(dirs)| < MAX_BACKUPS
      requires tmp.Tmp? && tmp !in dirs && tmp.sequence < sequence
      modifies this`dirs, this`unlisted, this`fuel
      ensures Valid()
      ensures r.Done? ==>
        && PinsHold(s, live) && IsFree(id, old(dirs), old(unlisted))
        && Adds(id, BuiltBox(s, live, clock), old(dirs), old(unlisted), dirs, unlisted)
        && r.record == Record(id, TotalSize(Inventory(s, |s.pins|)), Inventory(s, |s.pins|))
      ensures !r.Done? ==> SamePublished(old(dirs), dirs) && unlisted == old(unlisted)
      ensures old(fuel).None? ==> (r.Done? <==> PinsHold(s, live) && IsFree(id, old(dirs), old(unlisted)))
    {
      hide IsListable, PinsHold, BuiltBox, Ids, Complete, Inventory, TotalSize, DistinctPins, Verified, WithinLimits, Adds, IsFree;
      ghost var before := dirs;
      var built := Build(tmp, s, live);
      assert SameBut(before, dirs, tmp);
      DropTmp(before, dirs, tmp);
      if built.Cut? {
        return Killed;
      }
      if built.Damaged? {
        dirs := dirs - {tmp};
        DropTmp(before, dirs, tmp);
        return Failed(AssetDamaged);
      }
      var alive := Step();
      if !alive {
        return Killed;
      }
      BuiltVerifies(s, live, clock, encoded);
      var free := Publish(tmp, id, before);
      return if free then Done(Record(id, TotalSize(Inventory(s, |s.pins|)), Inventory(s, |s.pins|))) else Failed(NameTaken);
    }

    /** Renames a filled provisional directory to its final name, or drops it when that is taken. */
    method Publish(tmp: Name, id: string, ghost before: map<Name, Box>) returns (free: bool)
      requires Valid() && tmp.Tmp? && tmp in dirs && Complete(dirs[tmp]) && SameBut(before, dirs, tmp)
      requires |Ids(dirs)| < MAX_BACKUPS
      modifies this`dirs, this`unlisted
      ensures Valid() && (free <==> IsFree(id, before, old(unlisted)))
      ensures free ==> Adds(id, old(dirs)[tmp], before, old(unlisted), dirs, unlisted)
      ensures !free ==> SamePublished(before, dirs) && unlisted == old(unlisted)
    {
      hide IsListable, Ids, Complete;
      var box := dirs[tmp];
      DropTmp(before, dirs, tmp);
      free := if IsListable(id) then Final(id) !in dirs else id !in unlisted;
      if free && IsListable(id) {
        PublishOne(before, dirs, tmp, id);
        dirs := (dirs - {tmp})[Final(id) := box];
        return;
      }
      if free {
        unlisted := unlisted[id := box];
      }
      dirs := dirs - {tmp};
      DropTmp(before, dirs, tmp);
    }

    /** Writes the provisional directory's next state. */
    method Put(tmp: Name, box: Box) returns (alive: bool)
      modifies this`dirs, this`fuel
      ensures dirs == if alive then old(dirs)[tmp := box] else old(dirs)
      ensures old(fuel).None? ==> alive && fuel.None?
    {
      alive := Step();
      if alive {
        dirs := dirs[tmp := box];
      }
    }

    /** `build_container` in the provisional directory: database, assets, inventory, manifest. */
    method Build(tmp: Name, s: Snapshot, live: map<string, string>) returns (end: BuildEnd)
      requires tmp.Tmp? && tmp !in dirs
      modifies this`dirs, this`fuel
      ensures dirs == old(dirs) || (tmp in dirs && dirs == old(dirs)[tmp := dirs[tmp]])
      ensures end.Built? ==> tmp in dirs && PinsHold(s, live) && dirs[tmp] == BuiltBox(s, live, clock)
      ensures end.Damaged? ==> !PinsHold(s, live)
      ensures old(fuel).None? ==> !end.Cut? && fuel.None?
    {
      var inventory;
      end, inventory := CopyFiles(tmp, s, live);
      if !end.Built? {
        return;
      }
      hide PinsHold, Content, Inventory;
      var box := dirs[tmp];
      var alive := Put(tmp, box.(checksums := Some(inventory)));
      if !alive { return Cut; }
      alive := Put(tmp, box.(checksums := Some(inventory), manifest := Some(Manifest(1, STORAGE_FORMAT, s.revision, s.created))));
      if !alive { return Cut; }
    }

    /** Copies the database and every pinned asset, checking each copy, and draws up the inventory. */
    method CopyFiles(tmp: Name, s: Snapshot, live: map<string, string>) returns (end: BuildEnd, inventory: seq<Entry>)
      requires tmp !in dirs
      modifies this`dirs, this`fuel
      ensures dirs == old(dirs) || (tmp in dirs && dirs == old(dirs)[tmp := dirs[tmp]])
      ensures end.Built? ==> PinsHold(s, live) && inventory == Inventory(s, |s.pins|)
      ensures end.Built? ==> tmp in dirs && dirs[tmp] == Box(Content(s, live, |s.pins|), None, None, clock)
      ensures end.Damaged? ==> !PinsHold(s, live)
      ensures old(fuel).None? ==> !end.Cut? && fuel.None?
    {
      hide PinHolds, DbEntry, PinEntry, Read;
      inventory := [];
      var files: map<string, Blob> := map[];
      var alive := Put(tmp, Box(files, None, None, clock));
      if !alive { return Cut, []; }
      files := map[DB_PATH := Blob(s.image, Some(s.revision))];
      alive := Put(tmp, Box(files, None, None, clock));
      if !alive { return Cut, []; }
      inventory := [DbEntry(s)];
      for i := 0 to |s.pins|
        invariant dirs == old(dirs)[tmp := Box(files, None, None, clock)] && files == Content(s, live, i)
        invariant inventory == Inventory(s, i)
        invariant forall j :: 0 <= j < i ==> PinHolds(s.pins[j], live)
        invariant old(fuel).None? ==> fuel.None?
      {
        var pin := s.pins[i];
        var found := CheckedRead(pin, live);
        if found.None? {
          return Damaged, inventory;
        }
        files := files[ASSETS_PREFIX + pin.key := found.value];
        alive := Put(tmp, Box(files, None, None, clock));
        if !alive { return Cut, inventory; }
        inventory := inventory + [PinEntry(pin)];
      }
      end := Built;
    }

    /** One asset, if it is there and as registered; the copy is checked in the provisional directory. */
    method CheckedRead(pin: Pin, live: map<string, string>) returns (blob: Option<Blob>)
      ensures blob.Some? <==> PinHolds(pin, live)
      ensures blob.Some? ==> blob.value == Read(live, pin.key)
    {
      if !IsValidKey(pin.key) || pin.key !in live {
        return None;
      }
      if ByteLen(live[pin.key]) != pin.size || Digest(live[pin.key]) != pin.sum {
        return None;
      }
      return Some(Read(live, pin.key));
    }
  }

  /** `records` lists each published container outside `todo`, and the bounded reader accepts those. */
  ghost predicate Seen(records: seq<Record>, dirs: map<Name, Box>, todo: set<Name>, encoded: seq<Entry> -> nat) {
    && (forall i, j :: 0 <= i < j < |records| ==> records[i].id != records[j].id)
    && (forall r :: r in records ==> Final(r.id) in dirs && Final(r.id) !in todo)
    && (forall r :: r in records ==> dirs[Final(r.id)].checksums == Some(r.checksum) && r.size == TotalSize(r.checksum))
    && (forall n :: n in dirs && n.Final? && n !in todo ==>
          (exists r :: r in records && r.id == n.id) &&
          (dirs[n].checksums.Some? ==> encoded(dirs[n].checksums.value) <= MANIFEST_MAX_BYTES))
  }

  /** A provisional directory that a listing removes. */
  predicate IsStale(n: Name, b: Box, clock: int) {
    n.Tmp? && '/' !in n.id && clock - b.modified > TMP_GRACE_SECONDS
  }

  /** Outside `todo` no stale directory is left, and nothing else is gone. */
  ghost predicate Scanned(before: map<Name, Box>, dirs: map<Name, Box>, todo: set<Name>, clock: int) {
    && (forall n :: n in dirs ==> n in before && dirs[n] == before[n])
    && (forall n :: n in before && n !in dirs ==> n.Tmp?)
    && (forall n :: n in dirs && n !in todo ==> !IsStale(n, dirs[n], clock))
  }

  lemma ScanStarts(dirs: map<Name, Box>, clock: int)
    ensures Scanned(dirs, dirs, dirs.Keys, clock) && SamePublished(dirs, dirs)
  {
  }

  lemma ScanOn(before: map<Name, Box>, dirs: map<Name, Box>, dirs': map<Name, Box>, todo: set<Name>, n: Name, clock: int)
    requires Scanned(before, dirs, todo, clock)
    requires dirs' == if n in dirs && IsStale(n, dirs[n], clock) then dirs - {n} else dirs
    ensures Scanned(before, dirs', todo - {n}, clock)
  {
    hide IsStale;
    if n in dirs && IsStale(n, dirs[n], clock) {
      StaleIsTmp(n, dirs[n], clock);
    }
  }

  lemma StaleIsTmp(n: Name, b: Box, clock: int)
    requires IsStale(n, b, clock)
    ensures n.Tmp?
  {
  }

  lemma ScanMeans(before: map<Name, Box>, dirs: map<Name, Box>, todo: set<Name>, clock: int)
    requires Scanned(before, dirs, todo, clock)
    ensures SamePublished(before, dirs) && forall n :: n in dirs ==> n in before && dirs[n] == before[n]
    ensures todo == {} ==> forall n :: n in dirs ==> !IsStale(n, dirs[n], clock)
  {
    hide IsStale;
  }

  lemma SameHollow(a: map<Name, Box>, b: map<Name, Box>, hollow: set<string>)
    requires SamePublished(a, b)
    ensures NoHollow(a, hollow) <==> NoHollow(b, hollow)
  {
  }

  lemma UnreadableContainer(dirs: map<Name, Box>, n: Name, encoded: seq<Entry> -> nat)
    requires n in dirs && n.Final? && dirs[n].checksums.Some? && encoded(dirs[n].checksums.value) > MANIFEST_MAX_BYTES
    ensures !Readable(dirs, encoded)
  {
  }

  lemma NoneSeen(dirs: map<Name, Box>, encoded: seq<Entry> -> nat)
    ensures Seen([], dirs, dirs.Keys, encoded)
  {
  }

  lemma SeenAll(records: seq<Record>, dirs: map<Name, Box>, encoded: seq<Entry> -> nat)
    requires Seen(records, dirs, {}, encoded)
    ensures Readable(dirs, encoded) && Lists(records, dirs)
  {
    hide TotalSize;
  }

  lemma SkipOther(records: seq<Record>, before: map<Name, Box>, dirs: map<Name, Box>, todo: set<Name>, n: Name, encoded: seq<Entry> -> nat)
    requires Seen(records, before, todo, encoded) && (dirs == before || (n.Tmp? && dirs == before - {n})) && !(n in before && n.Final?)
    ensures Seen(records, dirs, todo - {n}, encoded)
  {
    hide TotalSize;
    forall r | r in records
      ensures Final(r.id) in dirs && Final(r.id) !in todo - {n} && dirs[Final(r.id)] == before[Final(r.id)]
    {
      assert Final(r.id) in before && Final(r.id) != n;
    }
  }

  lemma SeeFinal(records: seq<Record>, dirs: map<Name, Box>, todo: set<Name>, n: Name, encoded: seq<Entry> -> nat)
    requires Seen(records, dirs, todo, encoded) && n.Final? && n in dirs && n in todo && dirs[n].checksums.Some?
    requires encoded(dirs[n].checksums.value) <= MANIFEST_MAX_BYTES
    ensures Seen(records + [Record(n.id, TotalSize(dirs[n].checksums.value), dirs[n].checksums.value)], dirs, todo - {n}, encoded)
  {
    hide TotalSize;
    var record := Record(n.id, TotalSize(dirs[n].checksums.value), dirs[n].checksums.value);
    var more := records + [record];
    forall i | 0 <= i < |records| ensures records[i].id != record.id {
      assert records[i] in records && Final(records[i].id) !in todo;
    }
    forall m | m in dirs && m.Final? && m !in todo - {n} ensures exists r :: r in more && r.id == m.id {
      if m == n {
        assert more[|records|] == record && record in more;
      } else {
        var r :| r in records && r.id == m.id;
        assert r in more;
      }
    }
  }

  lemma SamePublishedMeans(a: map<Name, Box>, b: map<Name, Box>, hollow: set<string>, id: string, unlisted: map<string, Box>,
                           encoded: seq<Entry> -> nat)
    requires SamePublished(a, b)
    ensures Readable(a, encoded) <==> Readable(b, encoded)
    ensures (NoHollow(a, hollow) <==> NoHollow(b, hollow)) && (IsFree(id, a, unlisted) <==> IsFree(id, b, unlisted))
    ensures forall n :: n in a && n.Final? ==> n in b && b[n] == a[n]
  {
    hide IsListable;
  }

  lemma SamePublishedAgain(a: map<Name, Box>, b: map<Name, Box>, c: map<Name, Box>)
    requires SamePublished(a, b) && SamePublished(b, c)
    ensures SamePublished(a, c) && forall n :: n in a && n.Final? ==> n in c && c[n] == a[n]
  {
  }

  /** What a creation published, seen from before the listing that preceded it; and what its shadow does. */
  lemma AddsMeans(id: string, b: Box, before: map<Name, Box>, listed: map<Name, Box>, swept: map<string, Box>,
                  dirs: map<Name, Box>, unlisted: map<string, Box>, hollow: set<string>)
    requires SamePublished(before, listed) && IsFree(id, listed, swept) && Adds(id, b, listed, swept, dirs, unlisted)
    ensures IsFree(id, before, swept) && Adds(id, b, before, swept, dirs, unlisted)
    ensures forall n :: n in before && n.Final? ==> n in dirs && dirs[n] == before[n]
    ensures (exists x :: x in Shadow(id) && Final(x) !in before) ==> !NoHollow(dirs, hollow + Shadow(id))
  {
    hide Classify, TopLevel;
    if x :| x in Shadow(id) && Final(x) !in before {
      assert '/' in id && !IsListable(id);
      assert x in hollow + Shadow(id) && Final(x) !in dirs;
    }
  }

  lemma SameIds(a: map<Name, Box>, b: map<Name, Box>)
    requires SamePublished(a, b)
    ensures Ids(a) == Ids(b)
  {
    forall id ensures id in Ids(a) <==> id in Ids(b) {
      assert id in Ids(a) ==> Final(id) in a;
      assert id in Ids(b) ==> Final(id) in b;
      assert Final(id) in a ==> Final(id).id in Ids(a);
      assert Final(id) in b ==> Final(id).id in Ids(b);
    }
  }

  /** A listing has as many records as there are published containers. */
  lemma ListedCount(records: seq<Record>, dirs: map<Name, Box>)
    requires Lists(records, dirs)
    ensures |records| == |Ids(dirs)|
  {
    var ids := set r | r in records :: r.id;
    assert ids == Ids(dirs) by {
      forall id | id in Ids(dirs) ensures id in ids {
        assert Final(id) in dirs;
        var r :| r in records && r.id == id;
      }
      forall id | id in ids ensures id in Ids(dirs) {
        var r :| r in records && r.id == id;
        assert Final(r.id).id in Ids(dirs);
      }
    }
    RecordCount(records);
  }

  lemma {:induction false} RecordCount(records: seq<Record>)
    requires forall i, j :: 0 <= i < j < |records| ==> records[i].id != records[j].id
    ensures |set r | r in records :: r.id| == |records|
  {
    if records != [] {
      var init, last := records[..|records| - 1], records[|records| - 1];
      RecordCount(init);
      var a, b := set r | r in init :: r.id, set r | r in records :: r.id;
      assert last.id !in a;
      assert records == init + [last];
      assert b == a + {last.id};
    }
  }

  ghost predicate SameBut(before: map<Name, Box>, after: map<Name, Box>, tmp: Name) {
    forall n: Name :: n != tmp ==> (n in before <==> n in after) && (n in before ==> before[n] == after[n])
  }

  /** Whatever happened to the provisional directory, the published ones are the same. */
  lemma DropTmp(before: map<Name, Box>, after: map<Name, Box>, tmp: Name)
    requires tmp.Tmp? && SameBut(before, after, tmp)
    ensures SamePublished(before, after) && Ids(before) == Ids(after)
  {
    SameIds(before, after);
  }

  lemma InIds(dirs: map<Name, Box>, id: string)
    ensures id in Ids(dirs) <==> Final(id) in dirs
  {
    assert Final(id) in dirs ==> Final(id).id in Ids(dirs);
  }

  /** Publishing adds one id. */
  lemma PublishOne(before: map<Name, Box>, after: map<Name, Box>, tmp: Name, id: string)
    requires tmp.Tmp? && tmp in after && SameBut(before, after, tmp) && Final(id) !in after
    ensures var published := (after - {tmp})[Final(id) := after[tmp]];
      && Ids(published) == Ids(before) + {id} && |Ids(published)| <= |Ids(before)| + 1
      && SamePublished(published, before[Final(id) := after[tmp]])
  {
    var published := (after - {tmp})[Final(id) := after[tmp]];
    PublishedNames(before, after, tmp, id);
    hide Ids, SameBut;
    forall k ensures k in Ids(published) <==> k in Ids(before) + {id} {
      InIds(published, k);
      InIds(before, k);
    }
  }

  lemma PublishedNames(before: map<Name, Box>, after: map<Name, Box>, tmp: Name, id: string)
    requires tmp.Tmp? && tmp in after && SameBut(before, after, tmp) && Final(id) !in after
    ensures var published := (after - {tmp})[Final(id) := after[tmp]];
      && SamePublished(published, before[Final(id) := after[tmp]])
      && forall k: string :: Final(k) in published <==> Final(k) in before || k == id
  {
  }
}
