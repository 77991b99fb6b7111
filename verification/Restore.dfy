/**
 * Staged restore: candidate activation next to a data root, and the resolution every open runs.
 *
 * The disk is the directory that holds the data root. Each primitive operation is one step, and
 * the process can be killed before any of them: `fuel` is the number of steps it has left, and
 * without a value it is not killed. A directory is a map from path to file, and removing a tree
 * takes one step per file.
 */
module Restore {
  import opened Base

  /** A file: ordinary bytes, or a ready marker naming the bytes of the database it was made for. */
  datatype File = Bytes(data: string) | Checksum(of: File)

  type Dir = map<string, File>

  /** Children of the parent directory, told apart by their prefixes. */
  datatype Name = Root(name: string) | Candidate(id: nat) | Previous(ms: nat)

  datatype Tree = Tree(dirs: map<Name, Dir>, marker: Option<Name>)

  const DB := "database.sqlite"
  const READY := ".neotavern-candidate-ready"
  const LOCK := ".neotavern.lock"

  /** Everything but the lease lock file. */
  function Data(d: Dir): Dir {
    d - {LOCK}
  }

  /** What the data root at `n` holds; an absent one holds nothing. */
  function At(t: Tree, n: Name): Dir {
    if n in t.dirs then Data(t.dirs[n]) else map[]
  }

  predicate HasDb(d: Dir) {
    DB in d
  }

  /** `candidate_is_ready`: the marker written last matches the database. */
  predicate IsReady(t: Tree, c: Name) {
    c in t.dirs && READY in t.dirs[c] && HasDb(t.dirs[c]) && t.dirs[c][READY] == Checksum(t.dirs[c][DB])
  }

  // ---------------------------------------------------------------- what a completed resolution does

  /** Previous roots in `t`. */
  function PreviousOf(t: Tree): set<nat> {
    set n | n in t.dirs && n.Previous? :: n.ms
  }

  predicate IsNewest(t: Tree, ms: nat) {
    ms in PreviousOf(t) && forall k :: k in PreviousOf(t) ==> k <= ms
  }

  function Renamed(t: Tree, from: Name, to: Name): Tree
    requires from in t.dirs
  {
    t.(dirs := (t.dirs - {from})[to := t.dirs[from]])
  }

  function Without(t: Tree, n: Name): Tree {
    t.(dirs := t.dirs - {n})
  }

  /** A root with a database becomes the previous root `ms`; one without is removed. */
  function SetAside(t: Tree, root: Name, ms: nat): Tree {
    if root !in t.dirs then t
    else if HasDb(t.dirs[root]) then Renamed(t, root, Previous(ms))
    else Without(t, root)
  }

  /** Pending intent settled: the swap is completed, or a useless candidate is dropped. */
  function Settled(t: Tree, root: Name, ms: nat): Tree {
    match t.marker
    case None => t
    case Some(c) =>
      if !c.Candidate? then t.(marker := None)
      else if IsReady(t, c) then
        var aside := SetAside(t, root, ms);
        if c in aside.dirs then Renamed(aside, c, root).(marker := None) else aside
      else Without(t, c).(marker := None)
  }

  /** All previous roots but the newest are gone. */
  predicate IsPruned(t: Tree, t': Tree) {
    && t'.marker == t.marker
    && (forall n :: n in t'.dirs ==> n in t.dirs && t'.dirs[n] == t.dirs[n])
    && (forall n :: n in t.dirs && n !in t'.dirs ==> n.Previous? && !IsNewest(t, n.ms))
    && (forall n :: n in t'.dirs && n.Previous? ==> IsNewest(t, n.ms))
  }

  // ---------------------------------------------------------------- the states of one activation

  /** An activation of `c` over `root` may start from `o`: no intent pending, the candidate complete. */
  predicate Launchable(o: Tree, root: Name, c: Name) {
    o.marker.None? && root.Root? && c.Candidate? && IsReady(o, c)
  }

  /** The tree without the intent it may record. */
  function Unmarked(t: Tree): Tree {
    t.(marker := None)
  }

  /** The newest previous root holds what `root` held in `o`. */
  ghost predicate Kept(o: Tree, root: Name, t: Tree) {
    exists ms :: IsNewest(t, ms) && At(t, Previous(ms)) == At(o, root)
  }

  /** Nothing but the root, the candidate and previous roots is touched. */
  ghost predicate OthersSame(o: Tree, root: Name, c: Name, t: Tree) {
    forall n: Name :: n != root && n != c && !n.Previous? ==>
      (n in t.dirs <==> n in o.dirs) && (n in t.dirs ==> t.dirs[n] == o.dirs[n])
  }

  /** The intent is not recorded: the old root is the root. */
  ghost predicate Untouched(o: Tree, root: Name, c: Name, t: Tree) {
    t.marker.None? && At(t, root) == At(o, root) && OthersSame(o, root, c, t)
  }

  /**
   * The intent is recorded. Before the swap the candidate is complete and the old root is in place,
   * or set aside, or (having no database) going; after it the candidate is the root.
   */
  ghost predicate Pending(o: Tree, root: Name, c: Name, t: Tree)
    requires c in o.dirs
  {
    && t.marker == Some(c) && OthersSame(o, root, c, t)
    && if c in t.dirs then
         && t.dirs[c] == o.dirs[c]
         && (At(t, root) == At(o, root) || (!HasDb(At(t, root)) && (HasDb(At(o, root)) ==> Kept(o, root, t))))
       else At(t, root) == Data(o.dirs[c]) && (HasDb(At(o, root)) ==> Kept(o, root, t))
  }

  /** The candidate is the root, and an old root with a database is the newest previous one. */
  ghost predicate Activated(o: Tree, root: Name, c: Name, t: Tree)
    requires c in o.dirs
  {
    && t.marker.None? && OthersSame(o, root, c, t) && c !in t.dirs
    && At(t, root) == Data(o.dirs[c]) && (HasDb(At(o, root)) ==> Kept(o, root, t))
  }

  predicate Later(t: Tree, ms: nat) {
    forall n :: n in t.dirs && n.Previous? ==> n.ms < ms
  }

  /** Setting a root aside keeps what it held, as the newest previous root. */
  lemma AsideKeeps(t: Tree, root: Name, ms: nat)
    requires !root.Previous? && Later(t, ms) && HasDb(At(t, root))
    ensures var a := SetAside(t, root, ms);
      IsNewest(a, ms) && At(a, Previous(ms)) == At(t, root) && root !in a.dirs
  {
    var a := SetAside(t, root, ms);
    assert Previous(ms) in a.dirs;
    assert Previous(ms).ms in PreviousOf(a);
  }

  /** Changing directories that are not previous roots keeps the newest one. */
  lemma KeptStays(o: Tree, root: Name, t: Tree, t': Tree)
    requires Kept(o, root, t)
    requires forall n: Name :: n.Previous? ==> (n in t.dirs <==> n in t'.dirs) && (n in t.dirs ==> t.dirs[n] == t'.dirs[n])
    ensures Kept(o, root, t')
  {
    var ms :| IsNewest(t, ms) && At(t, Previous(ms)) == At(o, root);
    assert PreviousOf(t') == PreviousOf(t) by {
      forall k ensures k in PreviousOf(t) <==> k in PreviousOf(t') {
        assert k in PreviousOf(t) ==> Previous(k) in t'.dirs;
        assert k in PreviousOf(t') ==> Previous(k) in t.dirs;
      }
    }
    assert IsNewest(t', ms);
  }

  /** Whatever step an activation was cut at, one completed resolution finishes it. */
  lemma ResolutionConverges(o: Tree, root: Name, c: Name, t: Tree, ms: nat)
    requires Launchable(o, root, c) && Pending(o, root, c, t) && Later(t, ms)
    ensures Activated(o, root, c, Settled(t, root, ms))
  {
    var s := Settled(t, root, ms);
    SettledShape(o, root, c, t, ms);
    if HasDb(At(o, root)) {
      SettledKeeps(o, root, c, t, ms);
    }
    hide Settled, Kept, Pending, Launchable;
  }

  /** The candidate is the root, and nothing else but previous roots has changed. */
  lemma SettledShape(o: Tree, root: Name, c: Name, t: Tree, ms: nat)
    requires Launchable(o, root, c) && Pending(o, root, c, t)
    ensures var s := Settled(t, root, ms);
      s.marker.None? && c !in s.dirs && OthersSame(o, root, c, s) && At(s, root) == Data(o.dirs[c])
  {
    hide Kept;
    if c in t.dirs {
      assert IsReady(t, c);
    }
  }

  /** An old root with a database ends as the newest previous root. */
  lemma SettledKeeps(o: Tree, root: Name, c: Name, t: Tree, ms: nat)
    requires Launchable(o, root, c) && Pending(o, root, c, t) && Later(t, ms) && HasDb(At(o, root))
    ensures Kept(o, root, Settled(t, root, ms))
  {
    hide OthersSame;
    var s := Settled(t, root, ms);
    if c !in t.dirs {
      KeptStays(o, root, t, s);
    } else {
      assert IsReady(t, c);
      var aside := SetAside(t, root, ms);
      if HasDb(At(t, root)) {
        AsideKeeps(t, root, ms);
        assert Kept(o, root, aside);
      } else {
        KeptStays(o, root, t, aside);
      }
      KeptStays(o, root, aside, s);
    }
  }

  /**
   * The marker does not say which root it is for: a resolution run for another directory `x` of the
   * same parent gives the candidate to `x`, and the intended root keeps what it had.
   */
  lemma MarkerServesAnyRoot(t: Tree, root: Name, x: Name, c: Name, ms: nat)
    requires t.marker == Some(c) && c.Candidate? && IsReady(t, c) && Later(t, ms)
    requires root.Root? && !x.Previous? && x != c
    ensures var s := Settled(t, x, ms);
      && s.marker.None? && c !in s.dirs && At(s, x) == Data(t.dirs[c])
      && (x != root ==> At(s, root) == At(t, root))
      && (At(t, root) != Data(t.dirs[c]) ==> (At(s, root) == Data(t.dirs[c]) <==> x == root))
  {
    var aside := SetAside(t, x, ms);
    assert c in aside.dirs && aside.dirs[c] == t.dirs[c];
  }

  // ---------------------------------------------------------------- the code

  datatype Result = Done | Refused | Failed | Killed

  class Disk {
    var dirs: map<Name, Dir>
    var marker: Option<Name>
    var clock: nat
    var fuel: Option<nat>

    ghost function T(): Tree
      reads this`dirs, this`marker
    {
      Tree(dirs, marker)
    }

    /** Previous roots carry past clock readings. */
    ghost predicate Valid()
      reads this`dirs, this`marker, this`clock
    {
      Later(T(), clock)
    }

    constructor (dirs: map<Name, Dir>, marker: Option<Name>, clock: nat)
      requires Later(Tree(dirs, marker), clock)
      ensures Valid() && T() == Tree(dirs, marker) && fuel.None?
    {
      this.dirs, this.marker, this.clock, this.fuel := dirs, marker, clock, None;
    }

    /** One step; false when the process is killed before it. */
    method Step() returns (alive: bool)
      modifies this`fuel
      ensures alive <==> old(fuel) != Some(0)
      ensures fuel == Spent(old(fuel))
    {
      alive, fuel := fuel != Some(0), Spent(fuel);
    }

    /** A clock that never gives the same reading twice. */
    method Millis() returns (ms: nat)
      modifies this`clock
      ensures old(clock) <= ms < clock
    {
      var elapsed: nat :| elapsed >= 0;
      ms := clock + elapsed;
      clock := ms + 1;
    }

    /** `remove_dir_all`: file by file, then the directory. */
    method RemoveTree(n: Name) returns (alive: bool)
      modifies this`dirs, this`fuel
      ensures old(fuel).None? ==> alive && fuel.None?
      ensures alive ==> dirs == old(dirs) - {n}
      ensures !alive ==> n in old(dirs) && n in dirs && dirs == old(dirs)[n := dirs[n]]
      ensures !alive ==> PartOf(dirs[n], old(dirs)[n])
    {
      if n !in dirs {
        assert dirs == dirs - {n};
        return true;
      }
      var left := dirs[n];
      assert dirs == dirs[n := left];
      while left != map[]
        invariant dirs == old(dirs)[n := left] && PartOf(left, old(dirs)[n])
        invariant old(fuel).None? ==> fuel.None?
        decreases left.Keys
      {
        alive := Step();
        if !alive {
          return;
        }
        var f :| f in left;
        assert (left - {f}).Keys == left.Keys - {f};
        left := left - {f};
        dirs := dirs[n := left];
      }
      alive := Step();
      if alive {
        dirs := dirs - {n};
      }
    }

    /** `rename` of a directory to a name that is free. */
    method Rename(from: Name, to: Name) returns (alive: bool)
      requires from in dirs && to !in dirs
      modifies this`dirs, this`fuel
      ensures old(fuel).None? ==> alive && fuel.None?
      ensures T() == if alive then Renamed(old(T()), from, to) else old(T())
    {
      alive := Step();
      if alive {
        dirs := (dirs - {from})[to := dirs[from]];
      }
    }

    /** Temporary file, then a rename over the marker. */
    method WriteMarker(c: Name) returns (alive: bool)
      modifies this`marker, this`fuel
      ensures old(fuel).None? ==> alive && fuel.None?
      ensures alive <==> old(fuel).None? || old(fuel).value >= 2
      ensures marker == if alive then Some(c) else old(marker)
    {
      alive := Step();
      if alive {
        alive := Step();
      }
      if alive {
        marker := Some(c);
      }
    }

    method RemoveMarker() returns (alive: bool)
      modifies this`marker, this`fuel
      ensures old(fuel).None? ==> alive && fuel.None?
      ensures marker == if alive then None else old(marker)
    {
      alive := Step();
      if alive {
        marker := None;
      }
    }

    /** `retain_or_discard_previous`; a kill can leave a root without database partly removed. */
    method RetainOrDiscard(root: Name) returns (alive: bool, ghost ms: nat)
      requires Valid() && root.Root?
      modifies this`dirs, this`clock, this`fuel
      ensures Valid() && old(clock) <= clock && Later(old(T()), ms)
      ensures old(fuel).None? ==> alive && fuel.None?
      ensures alive ==> T() == SetAside(old(T()), root, ms)
      ensures !alive ==> T() == old(T()) || (root in dirs && dirs == old(dirs)[root := dirs[root]] && !HasDb(dirs[root]) && !HasDb(At(old(T()), root)))
    {
      ms := clock;
      if root !in dirs {
        return true, ms;
      }
      if DB in dirs[root] {
        var now := Millis();
        ms := now;
        alive := Rename(root, Previous(now));
      } else {
        alive := RemoveTree(root);
      }
    }

    /** `activate`. `marked` tells whether the intent was recorded; an older intent is overwritten by it. */
    method Activate(root: Name, c: Name) returns (r: Result, ghost marked: bool)
      requires Valid() && root.Root? && c.Candidate?
      modifies this
      ensures Valid() && old(clock) <= clock
      ensures r == Refused <==> !IsReady(old(T()), c)
      ensures r == Refused ==> unchanged(this) && !marked
      ensures r != Refused ==>
        Launchable(Unmarked(old(T())), root, c) && (marked <==> old(fuel).None? || old(fuel).value >= 2) &&
        (if !marked then r == Killed && T() == old(T())
         else if r == Done then Activated(Unmarked(old(T())), root, c, T())
         else r == Killed && Pending(Unmarked(old(T())), root, c, T()))
      ensures old(fuel).None? ==> r == Done || r == Refused
    {
      ghost var o := Unmarked(T());
      if !(c in dirs && READY in dirs[c] && DB in dirs[c] && dirs[c][READY] == Checksum(dirs[c][DB])) {
        return Refused, false;
      }
      var alive := WriteMarker(c);
      if !alive {
        return Killed, false;
      }
      ghost var noted := T();
      alive, r, marked := false, Killed, true;
      ghost var ms;
      alive, ms := RetainOrDiscard(root);
      if !alive {
        CutShort(o, root, c, noted, T());
        return;
      }
      HalfWay(o, root, c, noted, ms);
      alive := Rename(c, root);
      if !alive {
        return;
      }
      ResolutionConverges(o, root, c, noted, ms);
      ghost var swapped := T();
      assert swapped == Settled(noted, root, ms).(marker := Some(c));
      SwapPends(o, root, c, swapped);
      alive := RemoveMarker();
      if alive {
        r := Done;
      }
    }

    /** `prune_previous_dirs`: newest first, all but the first removed. */
    method Prune() returns (alive: bool)
      requires Valid()
      modifies this`dirs, this`fuel
      ensures Valid() && SpareNewest(old(T()), T())
      ensures old(fuel).None? ==> alive && fuel.None?
      ensures alive ==> IsPruned(old(T()), T())
    {
      var stale := set n | n in dirs && n.Previous? :: n.ms;
      assert stale == PreviousOf(T());
      if stale == {} {
        return true;
      }
      var newest := Largest(stale);
      stale := stale - {newest};
      PruneStarts(T(), newest, stale);
      hide Later, SpareNewest, Pruning, IsPruned, IsNewest;
      while stale != {}
        invariant Valid() && SpareNewest(old(T()), T()) && Pruning(old(T()), T(), newest, stale)
        invariant old(fuel).None? ==> fuel.None?
        decreases stale
      {
        var ms := Largest(stale);
        ghost var before := T();
        alive := RemoveTree(Previous(ms));
        PruneOne(old(T()), before, T(), newest, stale, ms, clock);
        if !alive {
          return;
        }
        stale := stale - {ms};
      }
      alive := true;
      PruneEnds(old(T()), T(), newest);
    }

    /** Creates the root directory if needed, and its lock file. */
    method Acquire(root: Name) returns (alive: bool)
      requires Valid() && root.Root?
      modifies this`dirs, this`fuel
      ensures Valid() && (old(fuel).None? ==> alive && fuel.None?)
      ensures At(T(), root) == At(old(T()), root) && SameBut(old(T()), T(), root)
      ensures old(OnePrevious(T())) ==> OnePrevious(T())
      ensures alive ==> root in dirs && LOCK in dirs[root]
    {
      alive := Step();
      if !alive {
        return;
      }
      if root !in dirs {
        dirs := dirs[root := map[]];
      }
      alive := Step();
      if !alive {
        return;
      }
      dirs := dirs[root := dirs[root][LOCK := Bytes("")]];
    }

    /** The pending intent, as `resolve_pending_restore` settles it. */
    method Settle(root: Name) returns (r: Result, ghost ms: nat)
      requires Valid() && root.Root? && marker.Some? && root != marker.value
      modifies this
      ensures Valid() && Later(old(T()), ms)
      ensures r == Done || r == Killed
      ensures old(fuel).None? ==> r == Done && fuel.None?
      ensures marker.None? || marker == old(marker)
      ensures r == Done ==> T() == Settled(old(T()), root, ms)
      ensures forall o, c :: Launchable(o, root, c) && Pending(o, root, c, old(T())) ==>
                if r == Done then Activated(o, root, c, T()) else Pending(o, root, c, T())
    {
      ghost var t := T();
      var c := marker.value;
      ms := clock;
      var alive := true;
      if c.Candidate? {
        if c in dirs && READY in dirs[c] && DB in dirs[c] && dirs[c][READY] == Checksum(dirs[c][DB]) {
          alive, ms := RetainOrDiscard(root);
          forall o | Launchable(o, root, c) && Pending(o, root, c, t) ensures
            (!alive ==> Pending(o, root, c, T())) && (alive ==> Pending(o, root, c, SetAside(t, root, ms)) && root !in dirs)
          {
            CutShort(o, root, c, t, if alive then t else T());
            HalfWay(o, root, c, t, ms);
          }
          if !alive {
            return Killed, ms;
          }
          alive := Rename(c, root);
          if !alive {
            return Killed, ms;
          }
        } else {
          alive := RemoveTree(c);
          if !alive {
            return Killed, ms;
          }
        }
      }
      ghost var swapped := T();
      forall o | Launchable(o, root, c) && Pending(o, root, c, t) ensures Activated(o, root, c, swapped.(marker := None)) {
        ResolutionConverges(o, root, c, t, ms);
      }
      forall o | Launchable(o, root, c) && Pending(o, root, c, t) ensures Pending(o, root, c, swapped) {
        SwapPends(o, root, c, swapped);
      }
      alive := RemoveMarker();
      r := if alive then Done else Killed;
    }

    /** `resolve_pending_restore`: settle the intent, then prune. */
    method Resolve(root: Name) returns (r: Result)
      requires Valid() && root.Root? && marker != Some(root)
      modifies this
      ensures Valid() && (r == Done || r == Killed) && (old(fuel).None? ==> r == Done && fuel.None?)
      ensures marker.None? || marker == old(marker)
      ensures r == Done ==> marker.None? && OnePrevious(T())
      ensures root in old(dirs) && old(marker).None? ==> root in dirs
      ensures r == Done ==> exists ms :: Later(old(T()), ms) && IsPruned(Settled(old(T()), root, ms), T())
      ensures forall o, c :: Launchable(o, root, c) ==> Progress(o, root, c, old(T()), T(), r == Done)
    {
      ghost var t := T();
      ghost var ms := clock;
      if marker.Some? {
        r, ms := Settle(root);
        if r != Done {
          return;
        }
      }
      ghost var settled := T();
      var alive := Prune();
      r := if alive then Done else Killed;
      forall o, c | Launchable(o, root, c) ensures Progress(o, root, c, t, T(), alive) {
        SpareKeeps(o, root, c, settled, T());
      }
    }

    /** The part of `open` before the database: lease, resolution and, after a pending swap, the lease again. */
    method Open(root: Name) returns (r: Result)
      requires Valid() && root.Root? && marker != Some(root)
      modifies this
      ensures Valid() && (r == Done || r == Killed) && (old(fuel).None? ==> r == Done && fuel.None?)
      ensures forall o, c :: Launchable(o, root, c) ==> Progress(o, root, c, old(T()), T(), r == Done)
      ensures marker.None? || marker == old(marker)
      ensures r == Done ==> marker.None? && root in dirs && OnePrevious(T())
    {
      ghost var t := T();
      var alive := Acquire(root);
      ghost var leased := T();
      forall o, c | Launchable(o, root, c) ensures Progress(o, root, c, t, leased, false) {
        LeaseKeeps(o, root, c, t, leased);
      }
      if !alive {
        return Killed;
      }
      var pending := marker.Some?;
      r := Resolve(root);
      ghost var resolved := T();
      if r == Done && pending {
        alive := Acquire(root);
        r := if alive then Done else Killed;
      }
      forall o, c | Launchable(o, root, c) ensures Progress(o, root, c, t, T(), r == Done) {
        assert Progress(o, root, c, t, leased, false) && Progress(o, root, c, leased, resolved, r == Done);
        LeaseKeeps(o, root, c, resolved, T());
      }
    }

    /** Copies every file into a directory just created. */
    method CopyInto(c: Name, files: Dir) returns (alive: bool)
      requires c in dirs && dirs[c] == map[]
      modifies this`dirs, this`fuel
      ensures old(fuel).None? ==> alive && fuel.None?
      ensures dirs.Keys == old(dirs).Keys && dirs == old(dirs)[c := dirs[c]] && PartOf(dirs[c], files)
      ensures alive ==> dirs[c] == files
    {
      var copied, left: set<string> := dirs[c], files.Keys;
      assert dirs == dirs[c := copied];
      while left != {}
        invariant dirs == old(dirs)[c := copied] && PartOf(copied, files) && left == files.Keys - copied.Keys
        invariant old(fuel).None? ==> fuel.None?
        decreases left
      {
        alive := Step();
        if !alive {
          return;
        }
        var f :| f in left;
        copied := copied[f := files[f]];
        dirs := dirs[c := copied];
        left := left - {f};
      }
      alive := true;
      assert forall f :: f in files ==> f !in left;
    }

    /** `stage_candidate` and the copy: a new directory with the given files, not yet ready. */
    method StageCandidate(id: nat, files: Dir) returns (r: Result)
      requires Valid() && READY !in files
      modifies this
      ensures Valid() && marker == old(marker)
      ensures forall n :: n in old(dirs) ==> n in dirs && dirs[n] == old(dirs)[n]
      ensures forall n :: n in dirs && n !in old(dirs) ==> n == Candidate(id) && READY !in dirs[n]
      ensures r == Done ==> Candidate(id) in dirs && dirs[Candidate(id)] == files
      ensures r != Refused && (r == Failed <==> Candidate(id) in old(dirs))
      ensures old(fuel).None? ==> fuel.None? && r != Killed
    {
      var c := Candidate(id);
      if c in dirs {
        return Failed;
      }
      var alive := Step();
      if !alive {
        return Killed;
      }
      dirs := dirs[c := map[]];
      alive := CopyInto(c, files);
      return if alive then Done else Killed;
    }

    /** Replaces the contents of a directory that is no previous root. */
    method Rewrite(c: Name, files: Dir) returns (alive: bool)
      requires Valid() && c in dirs && !c.Previous?
      modifies this`dirs, this`fuel
      ensures Valid() && dirs == if alive then old(dirs)[c := files] else old(dirs)
      ensures old(fuel).None? ==> alive && fuel.None?
    {
      alive := Step();
      if alive {
        dirs := dirs[c := files];
      }
    }

    /** `finalize_candidate`: the ready marker, which is written last. */
    method FinalizeCandidate(id: nat) returns (r: Result)
      requires Valid() && Candidate(id) in dirs && READY !in dirs[Candidate(id)]
      modifies this`dirs, this`fuel
      ensures Valid()
      ensures r != Done ==> dirs == old(dirs)
      ensures r == Done ==> Candidate(id) in dirs && dirs == old(dirs)[Candidate(id) := dirs[Candidate(id)]] && IsReady(T(), Candidate(id))
      ensures r == Done ==> dirs[Candidate(id)] - {READY} == old(dirs)[Candidate(id)]
      ensures r != Refused && (r == Failed <==> !HasDb(old(dirs)[Candidate(id)]))
      ensures old(fuel).None? ==> fuel.None? && r != Killed
    {
      var c := Candidate(id);
      var files := dirs[c];
      if DB !in files {
        return Failed;
      }
      var alive := Step();
      if alive {
        alive := Step();
      }
      if !alive {
        return Killed;
      }
      dirs := dirs[c := files[READY := Checksum(files[DB])]];
      assert dirs[c] - {READY} == files;
      return Done;
    }

    /**
     * Builds a candidate next to the root: stage, copy every file, finalize. The ready marker comes
     * last, so a candidate whose building was cut short is never taken for a complete one.
     */
    method BuildCandidate(id: nat, files: Dir) returns (r: Result)
      requires Valid() && READY !in files
      modifies this
      ensures Valid() && marker == old(marker)
      ensures forall n :: n in old(dirs) ==> n in dirs && dirs[n] == old(dirs)[n]
      ensures forall n :: n in dirs && n !in old(dirs) ==> n == Candidate(id)
      ensures r == Done ==> IsReady(T(), Candidate(id)) && dirs[Candidate(id)] - {READY} == files
      ensures r != Done ==> forall n :: IsReady(T(), n) ==> IsReady(old(T()), n)
      ensures r != Refused && (r == Failed <== Candidate(id) in old(dirs))
      ensures old(fuel).None? ==> fuel.None? && (r == Done <==> Candidate(id) !in old(dirs) && HasDb(files))
    {
      r := StageCandidate(id, files);
      if r == Done {
        hide Later;
        r := FinalizeCandidate(id);
      }
    }
  }

  /**
   * Activation under any schedule of kills: the first process dies after `kills[0]` steps of the
   * activation, the next ones after `kills[i]` steps of their open, and then one is not killed.
   * Once that open is through, no intent is left, at most one previous root is, and the candidate is
   * the root exactly if the intent had been recorded; otherwise the old root is, untouched. If an
   * earlier activation was still pending, the new intent replaces it, or else that one is finished.
   */
  method ActivateAndReopen(d: Disk, root: Name, c: Name, kills: seq<nat>)
    requires d.Valid() && Launchable(Unmarked(d.T()), root, c) && d.marker != Some(root)
    modifies d
    ensures d.Valid() && d.marker.None? && root in d.dirs && OnePrevious(d.T())
    ensures if kills == [] || kills[0] >= 2 then Activated(Unmarked(old(d.T())), root, c, d.T())
            else if old(d.marker).None? then Untouched(old(d.T()), root, c, d.T())
            else forall o, b :: Launchable(o, root, b) && Pending(o, root, b, old(d.T())) ==> Activated(o, root, b, d.T())
  {
    ghost var t, o := d.T(), Unmarked(d.T());
    d.fuel := if kills == [] then None else Some(kills[0]);
    var r;
    ghost var marked;
    r, marked := d.Activate(root, c);
    assert !marked && t.marker.None? ==> Untouched(t, root, c, d.T());
    var i := 1;
    while i < |kills|
      invariant d.Valid() && d.marker != Some(root)
      invariant if marked then Pending(o, root, c, d.T()) || Activated(o, root, c, d.T())
                else if t.marker.None? then Untouched(t, root, c, d.T())
                else forall p, b :: Launchable(p, root, b) && Pending(p, root, b, t) ==> Pending(p, root, b, d.T()) || Activated(p, root, b, d.T())
    {
      d.fuel := Some(kills[i]);
      r := d.Open(root);
      i := i + 1;
    }
    d.fuel := None;
    r := d.Open(root);
  }

  /**
   * How a step of recovery may move an activation on: an unrecorded one stays unrecorded, a finished one
   * finished, and a recorded one is finished at the latest when the recovery is.
   */
  ghost predicate Progress(o: Tree, root: Name, c: Name, t: Tree, t': Tree, finished: bool)
    requires c in o.dirs
  {
    && (Untouched(o, root, c, t) ==> Untouched(o, root, c, t'))
    && (Activated(o, root, c, t) ==> Activated(o, root, c, t'))
    && (Pending(o, root, c, t) ==> Activated(o, root, c, t') || (!finished && Pending(o, root, c, t')))
  }

  ghost predicate SameBut(t: Tree, t': Tree, root: Name) {
    forall n: Name :: n != root ==> (n in t.dirs <==> n in t'.dirs) && (n in t.dirs ==> t.dirs[n] == t'.dirs[n])
  }

  /** At most one previous root is kept. */
  predicate OnePrevious(t: Tree) {
    forall n, m :: n in t.dirs && m in t.dirs && n.Previous? && m.Previous? ==> n == m
  }

  /** Taking the lease touches only the root's lock file. */
  lemma LeaseKeeps(o: Tree, root: Name, c: Name, t: Tree, t': Tree)
    requires Launchable(o, root, c) && t'.marker == t.marker
    requires At(t', root) == At(t, root) && SameBut(t, t', root)
    ensures Progress(o, root, c, t, t', false)
  {
    if Kept(o, root, t) {
      KeptStays(o, root, t, t');
    }
  }

  /** Pruning, complete or not, keeps the phase of an activation. */
  lemma SpareKeeps(o: Tree, root: Name, c: Name, t: Tree, t': Tree)
    requires Launchable(o, root, c) && SpareNewest(t, t')
    ensures Progress(o, root, c, t, t', false)
  {
    if Kept(o, root, t) {
      var ms :| IsNewest(t, ms) && At(t, Previous(ms)) == At(o, root);
      assert Previous(ms) in t.dirs;
      assert IsNewest(t', ms);
      assert Previous(ms) in t'.dirs;
    }
  }

  /** Between two removals: the newest previous root and those in `stale` are left, the rest is as it was. */
  ghost predicate Pruning(o: Tree, t: Tree, newest: nat, stale: set<nat>) {
    && newest !in stale && Previous(newest) in t.dirs && IsNewest(o, newest) && t.marker == o.marker
    && (forall n: Name :: n.Previous? && n in t.dirs ==> n.ms == newest || n.ms in stale)
    && (forall n: Name :: n.Previous? && n.ms in stale ==> n in t.dirs)
    && (forall n: Name :: n in t.dirs ==> n in o.dirs && t.dirs[n] == o.dirs[n])
    && (forall n: Name :: n in o.dirs && n !in t.dirs ==> n.Previous? && n.ms != newest)
  }

  lemma PruneStarts(o: Tree, newest: nat, stale: set<nat>)
    requires IsNewest(o, newest) && stale == PreviousOf(o) - {newest}
    ensures SpareNewest(o, o) && Pruning(o, o, newest, stale)
  {
    assert Previous(newest) in o.dirs;
    forall n: Name | n.Previous? && n in o.dirs ensures n.ms == newest || n.ms in stale {
      assert n.ms in PreviousOf(o);
    }
  }

  /** A removal that is through, or was cut short. */
  lemma PruneOne(o: Tree, t: Tree, t': Tree, newest: nat, stale: set<nat>, ms: nat, clock: nat)
    requires SpareNewest(o, t) && Pruning(o, t, newest, stale) && ms in stale && Later(t, clock) && t'.marker == t.marker
    requires t'.dirs == t.dirs - {Previous(ms)} || (Previous(ms) in t'.dirs && t'.dirs == t.dirs[Previous(ms) := t'.dirs[Previous(ms)]])
    ensures SpareNewest(o, t') && Later(t', clock)
    ensures t'.dirs == t.dirs - {Previous(ms)} ==> Pruning(o, t', newest, stale - {ms})
  {
    assert Previous(ms) in t.dirs && Previous(ms) in o.dirs;
    assert t'.dirs - {Previous(ms)} == t.dirs - {Previous(ms)};
    SpareOne(o, t, t', newest, ms);
    hide SpareNewest, IsNewest;
  }

  lemma PruneEnds(o: Tree, t: Tree, newest: nat)
    requires SpareNewest(o, t) && Pruning(o, t, newest, {})
    ensures IsPruned(o, t)
  {
    assert newest in PreviousOf(o);
    forall n | n in o.dirs && n !in t.dirs ensures n.Previous? && !IsNewest(o, n.ms) {
      assert n.ms in PreviousOf(o);
    }
  }

  /** Removing all or part of one stale previous root spares the newest. */
  lemma SpareOne(o: Tree, t: Tree, t': Tree, newest: nat, ms: nat)
    requires SpareNewest(o, t) && IsNewest(o, newest) && ms != newest && Previous(ms) in o.dirs
    requires t'.marker == t.marker && t'.dirs - {Previous(ms)} == t.dirs - {Previous(ms)}
    ensures SpareNewest(o, t')
  {
    forall n: Name | n != Previous(ms) ensures (n in t'.dirs <==> n in t.dirs) && (n in t.dirs ==> t'.dirs[n] == t.dirs[n]) {
      assert n in t'.dirs <==> n in t'.dirs - {Previous(ms)};
      assert n in t.dirs <==> n in t.dirs - {Previous(ms)};
      if n in t.dirs {
        assert (t'.dirs - {Previous(ms)})[n] == (t.dirs - {Previous(ms)})[n];
      }
    }
    forall k | IsNewest(o, k) ensures k == newest && IsNewest(t', k) && t'.dirs[Previous(k)] == o.dirs[Previous(k)] {
      assert IsNewest(t, k);
      assert Previous(k) in t.dirs;
      assert Previous(k) in t'.dirs;
      assert Previous(k).ms in PreviousOf(t');
      forall j | j in PreviousOf(t') ensures j <= k {
        assert Previous(j) in t'.dirs;
        assert j != ms ==> Previous(j) in t.dirs && Previous(j).ms in PreviousOf(t);
        assert Previous(ms).ms in PreviousOf(o);
      }
    }
  }

  /** Of the previous roots, the newest is still there and whole; the rest of the tree is as it was. */
  ghost predicate SpareNewest(t: Tree, t': Tree) {
    && t'.marker == t.marker
    && (forall n: Name :: !n.Previous? ==> (n in t.dirs <==> n in t'.dirs) && (n in t.dirs ==> t.dirs[n] == t'.dirs[n]))
    && (forall k :: IsNewest(t, k) ==> IsNewest(t', k) && t'.dirs[Previous(k)] == t.dirs[Previous(k)])
  }

  method Largest(xs: set<nat>) returns (m: nat)
    requires xs != {}
    ensures m in xs && forall x :: x in xs ==> x <= m
  {
    m :| m in xs;
    var rest := xs - {m};
    while rest != {}
      invariant rest <= xs && m in xs
      invariant forall x :: x in xs && x !in rest ==> x <= m
      decreases rest
    {
      var x :| x in rest;
      rest := rest - {x};
      if x > m {
        m := x;
      }
    }
  }

  predicate PartOf(d: Dir, whole: Dir) {
    forall f :: f in d ==> f in whole && d[f] == whole[f]
  }

  /** A kill while the root is being set aside leaves the intent to be completed. */
  lemma CutShort(o: Tree, root: Name, c: Name, t: Tree, t': Tree)
    requires Launchable(o, root, c) && Pending(o, root, c, t) && c in t.dirs && t'.marker == t.marker
    requires t' == t || (root in t'.dirs && t'.dirs == t.dirs[root := t'.dirs[root]] && !HasDb(t'.dirs[root]) && !HasDb(At(t, root)))
    ensures Pending(o, root, c, t')
  {
    if HasDb(At(o, root)) && t' != t {
      KeptStays(o, root, t, t');
    }
  }

  /** So does a kill right after it was set aside. */
  lemma HalfWay(o: Tree, root: Name, c: Name, t: Tree, ms: nat)
    requires Launchable(o, root, c) && Pending(o, root, c, t) && c in t.dirs && Later(t, ms)
    ensures Pending(o, root, c, SetAside(t, root, ms)) && c in SetAside(t, root, ms).dirs && root !in SetAside(t, root, ms).dirs
  {
    var aside := SetAside(t, root, ms);
    if HasDb(At(o, root)) {
      if HasDb(At(t, root)) {
        AsideKeeps(t, root, ms);
        assert Kept(o, root, aside);
      } else {
        KeptStays(o, root, t, aside);
      }
    }
  }

  /** And so does a kill between the swap and the removal of the marker. */
  lemma SwapPends(o: Tree, root: Name, c: Name, t: Tree)
    requires c in o.dirs && t.marker == Some(c) && Activated(o, root, c, t.(marker := None))
    ensures Pending(o, root, c, t)
  {
    if HasDb(At(o, root)) {
      KeptStays(o, root, t.(marker := None), t);
    }
  }
}
