/**
 * The asset store: immutable files under the assets directory, their registry, and the collection of
 * orphans. Each file operation and each registry transaction is one step, and the process can be
 * killed before any of them (`fuel`, as in the restore protocol).
 */
module Assets {
  import opened Base
  import opened Text
  import opened Paths

  const GC_MAX_DEPTH := 8

  datatype Row = Row(kind: string, key: string, sum: Digest<string>, size: nat)

  datatype Stored = Stored(content: string, modified: int)

  datatype AssetError = InvalidKey | Conflict | NotFound

  datatype Result = Done | Failed(error: AssetError) | Killed

  /** `validate_kind` */
  predicate IsKind(kind: string) {
    && 1 <= |kind| <= 64 && 'a' <= kind[0] <= 'z'
    && forall i :: 1 <= i < |kind| ==> 'a' <= kind[i] <= 'z' || '0' <= kind[i] <= '9' || kind[i] == '.' || kind[i] == '-'
  }

  /** Where the file of a valid key lives, below the assets directory. */
  function FileOf(key: string): (path: Path)
    requires IsValidKey(key)
    ensures |path| >= 1
  {
    JoinedKeyComesBack([], key);
    JoinChecked([], key).value
  }

  predicate IsHidden(name: string) {
    name != "" && name[0] == '.'
  }

  /** What a collection removes: walkable, unregistered, and at least `grace` old. */
  predicate Doomed(path: Path, file: Stored, referenced: set<string>, now: int, grace: nat) {
    && 1 <= |path| <= GC_MAX_DEPTH && (forall i :: 0 <= i < |path| ==> !IsHidden(path[i]))
    && RelativeKeyOf([], path) !in referenced && now - file.modified >= grace
  }

  function Keys(registry: map<string, Row>): set<string> {
    set id | id in registry :: registry[id].key
  }

  /** The file a row describes is there, unchanged. */
  predicate Backed(row: Row, files: map<Path, Stored>) {
    && IsValidKey(row.key) && FileOf(row.key) in files
    && Digest(files[FileOf(row.key)].content) == row.sum && ByteLen(files[FileOf(row.key)].content) == row.size
  }

  predicate UniqueKeys(registry: map<string, Row>) {
    forall a, b :: a in registry && b in registry && registry[a].key == registry[b].key ==> a == b
  }

  predicate Intact(registry: map<string, Row>, files: map<Path, Stored>) {
    UniqueKeys(registry) && forall id :: id in registry ==> Backed(registry[id], files)
  }

  /** Different keys have different files. */
  lemma FilesDiffer(a: string, b: string)
    requires IsValidKey(a) && IsValidKey(b) && FileOf(a) == FileOf(b)
    ensures a == b
  {
    JoinedKeyComesBack([], a);
    JoinedKeyComesBack([], b);
  }

  // ---------------------------------------------------------------- what a publish leaves

  /** The file renamed over whatever was at its path; then the row, or no file at all when the row is refused. */
  function PublishedFiles(registry: map<string, Row>, files: map<Path, Stored>, id: string, key: string, file: Stored): map<Path, Stored>
    requires IsValidKey(key)
  {
    if id in registry || key in Keys(registry) then files - {FileOf(key)} else files[FileOf(key) := file]
  }

  /**
   * Publishing under a key that is already registered destroys the registered file: the rename replaces
   * it and the refused row takes it away. Every registered asset keeps its file exactly when the key is new.
   */
  lemma PublishOverRegisteredKey(registry: map<string, Row>, files: map<Path, Stored>, id: string, key: string, file: Stored)
    requires Intact(registry, files) && IsValidKey(key)
    ensures Intact(registry, PublishedFiles(registry, files, id, key, file)) <==> key !in Keys(registry)
  {
    var after := PublishedFiles(registry, files, id, key, file);
    if key in Keys(registry) {
      var owner :| owner in registry && registry[owner].key == key;
      assert !Backed(registry[owner], after);
    } else {
      forall other | other in registry ensures Backed(registry[other], after) {
        assert Backed(registry[other], files);
        if FileOf(registry[other].key) == FileOf(key) {
          FilesDiffer(registry[other].key, key);
        }
      }
    }
  }

  class AssetStore {
    var registry: map<string, Row>
    var files: map<Path, Stored>
    var temps: map<(string, nat), string>
    var clock: int
    var fuel: Option<nat>

    predicate Valid()
      reads this
    {
      Intact(registry, files)
    }

    constructor ()
      ensures Valid() && registry == map[] && files == map[]
    {
      registry, files, temps, clock, fuel := map[], map[], map[], 0, None;
    }

    method Step() returns (alive: bool)
      modifies this`fuel
      ensures alive <==> old(fuel) != Some(0)
      ensures fuel == Spent(old(fuel))
    {
      alive, fuel := fuel != Some(0), Spent(fuel);
    }

    /** A temporary name nobody uses: the counter goes up until one is free. */
    method FreeTemp(id: string) returns (counter: nat)
      ensures (id, counter) !in temps
    {
      counter := 0;
      ghost var taken: set<(string, nat)> := {};
      while (id, counter) in temps
        invariant taken <= temps.Keys && (forall t :: t in taken ==> t.0 == id && t.1 < counter) && |taken| == counter
        decreases |temps.Keys| - counter
      {
        taken := taken + {(id, counter)};
        SubsetSize(taken, temps.Keys);
        counter := counter + 1;
      }
    }

    /** Content to a temporary file, then a rename over `path`. */
    method WriteFile(id: string, path: Path, content: string) returns (alive: bool)
      modifies this`files, this`temps, this`fuel
      ensures files == if alive then old(files)[path := Stored(content, clock)] else old(files)
      ensures alive ==> temps == old(temps)
      ensures old(fuel).None? ==> alive && fuel.None?
    {
      var counter := FreeTemp(id);
      alive := Step();
      if !alive { return; }
      temps := temps[(id, counter) := content];
      alive := Step();
      if !alive { return; }
      temps := temps - {(id, counter)};
      files := files[path := Stored(content, clock)];
    }

    /** `publish_asset`. Nothing checks that the key is new before its file is replaced. */
    method Publish(id: string, kind: string, key: string, content: string) returns (r: Result)
      requires Valid()
      modifies this
      ensures key !in Keys(old(registry)) || !IsValidKey(key) || !IsKind(kind) ==> Valid()
      ensures registry == (if r == Done then old(registry)[id := Row(kind, key, Digest(content), ByteLen(content))] else old(registry))
      ensures r == Done ==> id !in old(registry) && key !in Keys(old(registry)) && IsValidKey(key) && IsKind(kind)
      ensures IsValidKey(key) && IsKind(kind) && (r == Done || r.Failed?) ==>
        && files == PublishedFiles(old(registry), old(files), id, key, Stored(content, clock))
        && (Valid() <==> key !in Keys(old(registry)))
      ensures forall p :: p in old(files) && (!IsValidKey(key) || p != FileOf(key)) ==> p in files && files[p] == old(files)[p]
      ensures r.Failed? ==> r.error == if IsValidKey(key) && IsKind(kind) then Conflict else InvalidKey
      ensures old(fuel).None? ==>
        (r == Done <==> IsValidKey(key) && IsKind(kind) && id !in old(registry) && key !in Keys(old(registry))) && r != Killed
    {
      if !IsValidKey(key) || !IsKind(kind) {
        return Failed(InvalidKey);
      }
      hide Intact, FileOf, KeyFault, Keys, PublishedFiles;
      ghost var file := Stored(content, clock);
      PublishOverRegisteredKey(registry, files, id, key, file);
      if key !in Keys(registry) {
        FreshKeySafe(registry, files, key, file);
      }
      PublishedOnly(registry, files, id, key, file);
      r := Place(id, Row(kind, key, Digest(content), ByteLen(content)), content);
      if r == Done {
        PublishedRow(old(registry), old(files), id, registry[id], file);
      }
    }

    /** The file first, then the row; a refused row takes the file away again. */
    method Place(id: string, row: Row, content: string) returns (r: Result)
      requires IsValidKey(row.key)
      modifies this
      ensures clock == old(clock) && (r == Done || r == Failed(Conflict) || r == Killed)
      ensures registry == if r == Done then old(registry)[id := row] else old(registry)
      ensures r != Killed ==> files == PublishedFiles(old(registry), old(files), id, row.key, Stored(content, clock))
      ensures r == Killed ==> files == old(files) || files == old(files)[FileOf(row.key) := Stored(content, clock)]
      ensures r == Done ==> id !in old(registry) && row.key !in Keys(old(registry))
      ensures r == Failed(Conflict) ==> id in old(registry) || row.key in Keys(old(registry))
      ensures old(fuel).None? ==> r != Killed
    {
      hide FileOf, KeyFault, Keys;
      var alive := WriteFile(id, FileOf(row.key), content);
      if !alive { return Killed; }
      alive := Step();
      if !alive { return Killed; }
      if id in registry || row.key in Keys(registry) {
        alive := Step();
        if !alive { return Killed; }
        files := files - {FileOf(row.key)};
        DropNew(old(files), FileOf(row.key), Stored(content, clock));
        return Failed(Conflict);
      }
      registry := registry[id := row];
      return Done;
    }

    /** `delete_asset`: the row first, then the file. */
    method Delete(id: string) returns (r: Result)
      requires Valid()
      modifies this
      ensures Valid() && (r == Failed(NotFound) <==> id !in old(registry) && old(fuel) != Some(0))
      ensures registry == (if r == Killed && registry == old(registry) then old(registry) else old(registry) - {id})
      ensures r == Done ==> id in old(registry) && IsValidKey(old(registry)[id].key) &&
                            files == old(files) - {FileOf(old(registry)[id].key)}
      ensures r != Done ==> files == old(files)
      ensures old(fuel).None? ==> r != Killed
    {
      var alive := Step();
      if !alive { return Killed; }
      if id !in registry {
        assert registry - {id} == registry;
        return Failed(NotFound);
      }
      var key := registry[id].key;
      DeleteSafe(registry, files, id);
      registry := registry - {id};
      alive := Step();
      if !alive { return Killed; }
      files := files - {FileOf(key)};
      return Done;
    }

    /** `gc_orphans`: `removed` are the keys it deleted, `missing` the registered keys without a file. */
    method GcOrphans(grace: nat) returns (done: bool, removed: seq<string>, missing: set<string>)
      modifies this`files, this`fuel
      ensures old(Valid()) ==> Valid() && missing == {}
      ensures Cleaned(old(files), files, removed, [], Keys(registry), clock, grace)
      ensures done ==> forall p :: p in files ==> !Doomed(p, files[p], Keys(registry), clock, grace)
      ensures done ==> forall k :: k in missing <==> k in Keys(registry) && (!IsValidKey(k) || FileOf(k) !in files)
      ensures old(fuel).None? ==> done
    {
      var referenced := Keys(registry);
      done, removed := Walk([], 0, referenced, grace);
      if Intact(registry, old(files)) {
        SpareReferenced(registry, old(files), files, clock, grace);
      }
      missing := {};
      if !done {
        return;
      }
      forall p | p in files ensures !Doomed(p, files[p], referenced, clock, grace) {
        assert p != [] ==> [] < p;
      }
      var todo := referenced;
      while todo != {}
        invariant todo <= referenced
        invariant forall k :: k in missing <==> k in referenced && k !in todo && (!IsValidKey(k) || FileOf(k) !in files)
        decreases todo
      {
        var key :| key in todo;
        todo := todo - {key};
        if !IsValidKey(key) || FileOf(key) !in files {
          missing := missing + {key};
        }
      }
      if Intact(registry, files) {
        NoneMissing(registry, files);
      }
    }

    /** Names of the entries of directory `dir`. */
    function Entries(dir: Path): set<string>
      reads this`files
    {
      set p | p in files && dir < p :: p[|dir|]
    }

    /** `walk_assets`, below `dir`. */
    method Walk(dir: Path, depth: nat, referenced: set<string>, grace: nat) returns (done: bool, removed: seq<string>)
      requires depth == |dir| && forall i :: 0 <= i < |dir| ==> !IsHidden(dir[i])
      modifies this`files, this`fuel
      ensures Cleaned(old(files), files, removed, dir, referenced, clock, grace)
      ensures done ==> Clear(files, dir, {}, referenced, clock, grace)
      ensures old(fuel).None? ==> done && fuel.None?
      decreases GC_MAX_DEPTH - depth
    {
      removed := [];
      NothingCleaned(files, dir, referenced, clock, grace);
      if depth >= GC_MAX_DEPTH {
        return true, [];
      }
      ghost var start := files;
      var names := Entries(dir);
      hide Cleaned, Clear, Doomed;
      AllNamed(files, dir, names, referenced, clock, grace);
      while names != {}
        invariant Cleaned(start, files, removed, dir, referenced, clock, grace)
        invariant Clear(files, dir, names, referenced, clock, grace)
        invariant old(fuel).None? ==> fuel.None?
        decreases names
      {
        var name :| name in names;
        ghost var before := files;
        ghost var earlier := removed;
        if !IsHidden(name) {
          var path := dir + [name];
          var here;
          done, here := CollectFile(path, referenced, grace);
          CleanedMore(start, files, earlier, here, before, dir, path, referenced, clock, grace);
          removed := removed + here;
          if !done {
            return;
          }
          ghost var mid, soFar := files, removed;
          var more;
          done, more := Walk(path, depth + 1, referenced, grace);
          CleanedMore(start, files, soFar, more, mid, dir, path, referenced, clock, grace);
          removed := removed + more;
          if !done {
            return;
          }
          ClearMore(before, mid, files, dir, name, names, here, more, referenced, clock, grace);
        } else {
          ClearHidden(files, dir, name, names, referenced, clock, grace);
        }
        names := names - {name};
      }
      done := true;
    }

    /** The file branch of the walk, for one entry. */
    method CollectFile(path: Path, referenced: set<string>, grace: nat) returns (done: bool, removed: seq<string>)
      requires 1 <= |path| <= GC_MAX_DEPTH && forall i :: 0 <= i < |path| ==> !IsHidden(path[i])
      modifies this`files, this`fuel
      ensures Cleaned(old(files), files, removed, path[..|path| - 1], referenced, clock, grace)
      ensures files == old(files) || files == old(files) - {path}
      ensures done && path in files ==> !Doomed(path, files[path], referenced, clock, grace)
      ensures old(fuel).None? ==> done && fuel.None?
    {
      removed := [];
      if path !in files {
        return true, [];
      }
      done := Step();
      if done && RelativeKeyOf([], path) !in referenced && clock - files[path].modified >= grace {
        files := files - {path};
        removed := [RelativeKeyOf([], path)];
      }
    }
  }

  /** From `a` to `b` only doomed files below `dir` went, and `removed` names them. */
  ghost predicate Cleaned(a: map<Path, Stored>, b: map<Path, Stored>, removed: seq<string>, dir: Path,
                          referenced: set<string>, now: int, grace: nat)
  {
    && (forall p :: p in b ==> p in a && b[p] == a[p])
    && (forall p :: p in a && p !in b ==> dir < p && Doomed(p, a[p], referenced, now, grace) && RelativeKeyOf([], p) in removed)
    && (forall k :: k in removed ==> exists p :: p in a && p !in b && p != [] && RelativeKeyOf([], p) == k)
  }

  /** Below `dir`, in the entries not in `names`, nothing is doomed. */
  ghost predicate Clear(files: map<Path, Stored>, dir: Path, names: set<string>, referenced: set<string>, now: int, grace: nat) {
    forall p :: p in files && dir < p && p[|dir|] !in names ==> !Doomed(p, files[p], referenced, now, grace)
  }

  lemma NothingCleaned(files: map<Path, Stored>, dir: Path, referenced: set<string>, now: int, grace: nat)
    ensures Cleaned(files, files, [], dir, referenced, now, grace)
    ensures |dir| >= GC_MAX_DEPTH ==> Clear(files, dir, {}, referenced, now, grace)
  {
  }

  lemma AllNamed(files: map<Path, Stored>, dir: Path, names: set<string>, referenced: set<string>, now: int, grace: nat)
    requires forall p :: p in files && dir < p ==> p[|dir|] in names
    ensures Clear(files, dir, names, referenced, now, grace)
  {
  }

  /** Collections compose. */
  lemma CleanedMore(a: map<Path, Stored>, c: map<Path, Stored>, first: seq<string>, second: seq<string>, b: map<Path, Stored>,
                    dir: Path, path: Path, referenced: set<string>, now: int, grace: nat)
    requires Cleaned(a, b, first, dir, referenced, now, grace) && dir < path
    requires Cleaned(b, c, second, path, referenced, now, grace) || Cleaned(b, c, second, path[..|path| - 1], referenced, now, grace)
    requires path[..|path| - 1] == dir
    ensures Cleaned(a, c, first + second, dir, referenced, now, grace)
  {
    hide Doomed;
    forall k | k in first + second ensures exists p :: p in a && p !in c && p != [] && RelativeKeyOf([], p) == k {
      if k in first {
        var p :| p in a && p !in b && p != [] && RelativeKeyOf([], p) == k;
        assert p !in c;
      } else {
        var p :| p in b && p !in c && p != [] && RelativeKeyOf([], p) == k;
        assert p in a;
      }
    }
  }

  /** An entry that was collected and walked holds nothing doomed. */
  lemma ClearMore(before: map<Path, Stored>, mid: map<Path, Stored>, after: map<Path, Stored>, dir: Path, name: string,
                  names: set<string>, here: seq<string>, more: seq<string>, referenced: set<string>, now: int, grace: nat)
    requires Clear(before, dir, names, referenced, now, grace)
    requires Cleaned(before, mid, here, dir, referenced, now, grace)
    requires Cleaned(mid, after, more, dir + [name], referenced, now, grace)
    requires dir + [name] in mid ==> !Doomed(dir + [name], mid[dir + [name]], referenced, now, grace)
    requires Clear(after, dir + [name], {}, referenced, now, grace)
    ensures Clear(after, dir, names - {name}, referenced, now, grace)
  {
    hide Doomed;
    forall p | p in after && dir < p && p[|dir|] !in names - {name} ensures !Doomed(p, after[p], referenced, now, grace) {
      assert p in mid && p in before;
      if p[|dir|] == name {
        assert dir + [name] <= p;
        if p != dir + [name] {
          assert dir + [name] < p;
        }
      }
    }
  }

  lemma ClearHidden(files: map<Path, Stored>, dir: Path, name: string, names: set<string>, referenced: set<string>, now: int, grace: nat)
    requires Clear(files, dir, names, referenced, now, grace) && IsHidden(name)
    ensures Clear(files, dir, names - {name}, referenced, now, grace)
  {
  }

  lemma NoneMissing(registry: map<string, Row>, files: map<Path, Stored>)
    requires Intact(registry, files)
    ensures forall k :: k in Keys(registry) ==> IsValidKey(k) && FileOf(k) in files
  {
    forall k | k in Keys(registry) ensures IsValidKey(k) && FileOf(k) in files {
      var id :| id in registry && registry[id].key == k;
      assert Backed(registry[id], files);
    }
  }

  lemma {:induction false} SubsetSize<T>(a: set<T>, b: set<T>)
    requires a <= b
    ensures |a| <= |b|
  {
    if a != {} {
      var x :| x in a;
      SubsetSize(a - {x}, b - {x});
    }
  }

  /** A new key's file is nobody else's. */
  lemma FreshKeySafe(registry: map<string, Row>, files: map<Path, Stored>, key: string, file: Stored)
    requires Intact(registry, files) && IsValidKey(key) && key !in Keys(registry)
    ensures Intact(registry, files[FileOf(key) := file]) && Intact(registry, files[FileOf(key) := file] - {FileOf(key)})
  {
    forall id | id in registry ensures FileOf(registry[id].key) != FileOf(key) {
      assert Backed(registry[id], files);
      if FileOf(registry[id].key) == FileOf(key) {
        FilesDiffer(registry[id].key, key);
      }
    }
  }

  lemma DropNew(files: map<Path, Stored>, path: Path, file: Stored)
    ensures files[path := file] - {path} == files - {path}
  {
  }

  /** No other file is touched. */
  lemma PublishedOnly(registry: map<string, Row>, files: map<Path, Stored>, id: string, key: string, file: Stored)
    requires IsValidKey(key)
    ensures forall p :: p in files && p != FileOf(key) ==>
              p in PublishedFiles(registry, files, id, key, file) && PublishedFiles(registry, files, id, key, file)[p] == files[p]
  {
    hide FileOf, KeyFault, Keys;
  }

  /** The new row describes the file just written. */
  lemma PublishedRow(registry: map<string, Row>, files: map<Path, Stored>, id: string, row: Row, file: Stored)
    requires Intact(registry, files) && id !in registry && IsValidKey(row.key) && row.key !in Keys(registry)
    requires row.sum == Digest(file.content) && row.size == ByteLen(file.content)
    ensures Intact(registry[id := row], PublishedFiles(registry, files, id, row.key, file))
  {
    FreshKeySafe(registry, files, row.key, file);
    assert PublishedFiles(registry, files, id, row.key, file) == files[FileOf(row.key) := file];
    hide Intact, FileOf, KeyFault, Keys;
    RowSafe(registry, files[FileOf(row.key) := file], id, row);
  }

  /** A row for a file that is there. */
  lemma RowSafe(registry: map<string, Row>, files: map<Path, Stored>, id: string, row: Row)
    requires Intact(registry, files) && id !in registry && row.key !in Keys(registry) && Backed(row, files)
    ensures Intact(registry[id := row], files)
  {
    forall other | other in registry ensures registry[other].key != row.key {
      assert registry[other].key in Keys(registry);
    }
  }

  /** Without its row, an asset's file is nobody's. */
  lemma DeleteSafe(registry: map<string, Row>, files: map<Path, Stored>, id: string)
    requires Intact(registry, files) && id in registry
    ensures IsValidKey(registry[id].key)
    ensures Intact(registry - {id}, files) && Intact(registry - {id}, files - {FileOf(registry[id].key)})
  {
    assert Backed(registry[id], files);
    forall other | other in registry && other != id ensures FileOf(registry[other].key) != FileOf(registry[id].key) {
      assert Backed(registry[other], files);
      if FileOf(registry[other].key) == FileOf(registry[id].key) {
        FilesDiffer(registry[other].key, registry[id].key);
      }
    }
  }

  /** Removing only doomed files keeps every registered one. */
  lemma SpareReferenced(registry: map<string, Row>, files: map<Path, Stored>, after: map<Path, Stored>, now: int, grace: nat)
    requires Intact(registry, files)
    requires forall p :: p in after ==> p in files && after[p] == files[p]
    requires forall p :: p in files && p !in after ==> Doomed(p, files[p], Keys(registry), now, grace)
    ensures Intact(registry, after)
  {
    forall id | id in registry ensures Backed(registry[id], after) {
      assert Backed(registry[id], files);
      var key := registry[id].key;
      JoinedKeyComesBack([], key);
      assert RelativeKeyOf([], FileOf(key)) == key;
      assert key in Keys(registry);
    }
  }
}
