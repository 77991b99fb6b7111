/**
 * Schema migrations: the ordered list, the ledger, and the open that brings a database up to date. A
 * migration is one transaction, and the process can be killed before any of them (`fuel`).
 */
module Migrations {
  import opened Base

  /** `sql` lists the schema objects the migration creates; creating one that exists is an error. */
  datatype Migration = Migration(id: nat, sql: seq<string>, checksum: Digest<seq<string>>, low: bool, transactional: bool)

  datatype MigrateError =
    | ForeignDatabase | UnsupportedFormat(format: int) | SchemaTooNew | SchemaTooOld | ChecksumMismatch(id: int) | Corrupt(expected: int, found: int)
    | Failed(id: int) | SnapshotRequired(id: int) | Tampered(id: int)

  const STORAGE_FORMAT := 1

  /** What `inspect` finds besides the revision: no file yet, another application's file, a storage format. */
  datatype Inspection = Inspection(absent: bool, foreign: bool, format: Option<int>)

  predicate IsOurs(found: Inspection) {
    !found.foreign && (found.format.Some? ==> found.format.value == STORAGE_FORMAT)
  }

  datatype Result = Done | Refused(error: MigrateError) | Killed

  function Created(sql: seq<string>): set<string> {
    set o | o in sql
  }

  function Objects(ms: seq<Migration>, n: nat): set<string>
    requires n <= |ms|
  {
    if n == 0 then {} else Objects(ms, n - 1) + Created(ms[n - 1].sql)
  }

  function LedgerOf(ms: seq<Migration>, n: nat): map<nat, Digest<seq<string>>>
    requires n <= |ms|
  {
    if n == 0 then map[] else LedgerOf(ms, n - 1)[n := ms[n - 1].checksum]
  }

  /** No object is created twice. */
  predicate NewObjects(sql: seq<string>, existing: set<string>) {
    (forall i :: 0 <= i < |sql| ==> sql[i] !in existing) && forall i, j :: 0 <= i < j < |sql| ==> sql[i] != sql[j]
  }

  /** A well-formed list: ids 1, 2, ..., honest checksums, no object created twice. */
  predicate Declared(ms: seq<Migration>) {
    |ms| >= 1 && forall i :: 0 <= i < |ms| ==>
      && ms[i].id == i + 1 && ms[i].checksum == Digest(ms[i].sql) && NewObjects(ms[i].sql, Objects(ms, i))
  }

  /** Every migration is applied in one transaction. */
  predicate Atomic(ms: seq<Migration>) {
    forall i :: 0 <= i < |ms| ==> ms[i].transactional
  }

  /** No migration after revision `from`, up to revision `to`, asks for a verified snapshot. */
  predicate AllLow(ms: seq<Migration>, from: nat, to: nat)
    requires from <= to <= |ms|
  {
    forall i :: from <= i < to ==> ms[i].low
  }

  /** What holds of every declared migration: low risk, and applied in one transaction. */
  predicate AllSafe(ms: seq<Migration>) {
    Atomic(ms) && AllLow(ms, 0, |ms|)
  }

  /** Where a migration towards `to` may stop: at `to`, before a risky migration, or where it was killed. */
  predicate Stopped(ms: seq<Migration>, r: Result, n: nat, to: nat)
    requires n <= to <= |ms|
  {
    match r
    case Done => n == to
    case Refused(e) => n < to && !ms[n].low && e == SnapshotRequired(n + 1)
    case Killed => n < to
  }

  /** Every ledger row is declared, with the declared checksum; missing rows are not noticed. */
  predicate LedgerHolds(ms: seq<Migration>, ledger: map<nat, Digest<seq<string>>>) {
    forall id :: id in ledger ==> 1 <= id <= |ms| && ledger[id] == ms[id - 1].checksum
  }

  /** The error names a ledger row that is undeclared or has another checksum. */
  predicate Mismatch(ms: seq<Migration>, ledger: map<nat, Digest<seq<string>>>, e: MigrateError) {
    && e.ChecksumMismatch? && e.id >= 0 && e.id in ledger
    && !(1 <= e.id <= |ms| && ledger[e.id] == ms[e.id - 1].checksum)
  }

  lemma {:induction false} LedgerOfMeans(ms: seq<Migration>, n: nat)
    requires n <= |ms|
    ensures forall id :: id in LedgerOf(ms, n) <==> 1 <= id <= n
    ensures forall id :: 1 <= id <= n ==> LedgerOf(ms, n)[id] == ms[id - 1].checksum
  {
    if n > 0 {
      LedgerOfMeans(ms, n - 1);
    }
  }

  /** What is committed of a database. */
  datatype State = State(objects: set<string>, ledger: map<nat, Digest<seq<string>>>, version: int)

  /** A state that `n` migrations lead to. */
  predicate IsAt(ms: seq<Migration>, s: State, n: nat) {
    n <= |ms| && s == State(Objects(ms, n), LedgerOf(ms, n), n)
  }

  class Connection {
    const ms: seq<Migration>
    var objects: set<string>
    var ledger: map<nat, Digest<seq<string>>>
    var version: int
    var progress: seq<nat>
    var fuel: Option<nat>

    function S(): State
      reads this
    {
      State(objects, ledger, version)
    }

    constructor (ms: seq<Migration>, s: State)
      ensures this.ms == ms && S() == s && fuel.None? && progress == []
    {
      this.ms := ms;
      objects, ledger, version, progress, fuel := s.objects, s.ledger, s.version, [], None;
    }

    /** The next commit; false when the process is killed before it. */
    method Commit() returns (alive: bool)
      modifies this`fuel
      ensures alive <==> old(fuel) != Some(0)
      ensures fuel == Spent(old(fuel))
    {
      alive, fuel := fuel != Some(0), Spent(fuel);
    }

    /** `execute_batch`: None when some object already exists. */
    method Execute(sql: seq<string>) returns (result: Option<set<string>>)
      ensures result.Some? <==> NewObjects(sql, objects)
      ensures result.Some? ==> result.value == objects + Created(sql)
    {
      var made := objects;
      for i := 0 to |sql|
        invariant made == objects + Created(sql[..i])
        invariant NewObjects(sql[..i], objects)
      {
        if sql[i] in made {
          assert sql[i] !in objects ==> sql[i] in sql[..i];
          return None;
        }
        assert sql[..i + 1] == sql[..i] + [sql[i]];
        made := made + {sql[i]};
      }
      assert sql[..|sql|] == sql;
      return Some(made);
    }

    /** `fresh_install`, on an empty database: the whole schema and every ledger row in one transaction. */
    method FreshInstall() returns (r: Result)
      requires Declared(ms) && S() == State({}, map[], 0)
      modifies this
      ensures r == Done || r == Killed
      ensures r == Done ==> IsAt(ms, S(), |ms|)
      ensures r == Killed ==> S() == old(S())
      ensures old(fuel).None? ==> r == Done && fuel.None?
    {
      hide Objects, LedgerOf, Declared;
      var made, rows, ids := WholeSchema(ms);
      progress := progress + ids;
      var alive := Commit();
      if !alive {
        return Killed;
      }
      objects, ledger, version := made, rows, |ms|;
      return Done;
    }

    /** `verify_ledger` */
    method VerifyLedger() returns (fault: Option<MigrateError>)
      ensures fault.None? <==> LedgerHolds(ms, ledger)
      ensures fault.Some? ==> Mismatch(ms, ledger, fault.value)
    {
      var todo := ledger.Keys;
      while todo != {}
        invariant todo <= ledger.Keys
        invariant forall id :: id in ledger && id !in todo ==> 1 <= id <= |ms| && ledger[id] == ms[id - 1].checksum
        decreases todo
      {
        var id :| id in todo;
        todo := todo - {id};
        if !(1 <= id <= |ms|) || ledger[id] != ms[id - 1].checksum {
          return Some(ChecksumMismatch(id));
        }
      }
      return None;
    }

    /** `apply_transactional`: schema, ledger row and version together, or nothing. */
    method ApplyTransactional(m: Migration) returns (r: Result)
      modifies this`objects, this`ledger, this`version, this`fuel
      ensures r == Done ==>
                NewObjects(m.sql, old(objects)) && S() == State(old(objects) + Created(m.sql), old(ledger)[m.id := m.checksum], m.id)
      ensures r != Done ==> S() == old(S())
      ensures r.Refused? ==> r.error == Failed(m.id) && (!NewObjects(m.sql, old(objects)) || m.id in old(ledger))
      ensures old(fuel).None? ==> fuel.None? && !r.Killed?
    {
      var made := Execute(m.sql);
      if made.None? || m.id in ledger {
        return Refused(Failed(m.id));
      }
      var alive := Commit();
      if !alive {
        return Killed;
      }
      objects, ledger, version := made.value, ledger[m.id := m.checksum], m.id;
      return Done;
    }

    /** `apply_non_transactional`: the schema first, then ledger row and version. */
    method ApplyNonTransactional(m: Migration) returns (r: Result)
      modifies this`objects, this`ledger, this`version, this`fuel
      ensures r == Done ==> S() == State(old(objects) + Created(m.sql), old(ledger)[m.id := m.checksum], m.id)
      ensures r == Killed ==> S() == old(S()) || S() == State(old(objects) + Created(m.sql), old(ledger), old(version))
      ensures !NewObjects(m.sql, old(objects)) ==> r == Refused(Failed(m.id)) && S() == old(S())
      ensures r.Refused? ==> r.error == Failed(m.id) && (NewObjects(m.sql, old(objects)) ==>
        m.id in old(ledger) && S() == State(old(objects) + Created(m.sql), old(ledger), old(version)))
      ensures old(fuel).None? ==> fuel.None? && !r.Killed?
    {
      var made := Execute(m.sql);
      if made.None? {
        return Refused(Failed(m.id));
      }
      var alive := Commit();
      if !alive {
        return Killed;
      }
      objects := made.value;
      if m.id in ledger {
        return Refused(Failed(m.id));
      }
      alive := Commit();
      if !alive {
        return Killed;
      }
      ledger, version := ledger[m.id := m.checksum], m.id;
      return Done;
    }

    /** `migrate` from `from` (exclusive) to `to`, with its own checks. */
    method Migrate(from: nat, to: nat) returns (r: Result)
      requires Declared(ms) && from <= to <= |ms|
      modifies this
      ensures old(version) != from <==> r.Refused? && r.error.Corrupt?
      ensures old(version) != from ==> r == Refused(Corrupt(from, old(version))) && S() == old(S())
      ensures Atomic(ms) && IsAt(ms, old(S()), from) ==>
        exists n :: from <= n <= to && IsAt(ms, S(), n) && AllLow(ms, from, n) && Stopped(ms, r, n, to)
      ensures old(fuel).None? ==> !r.Killed?
    {
      hide Objects, LedgerOf, NewObjects, Created;
      var id := from + 1;
      while id <= to
        invariant from + 1 <= id <= to + 1
        invariant if id == from + 1 then S() == old(S()) else version == id - 1 && old(version) == from
        invariant AllLow(ms, from, id - 1)
        invariant Atomic(ms) && IsAt(ms, old(S()), from) ==> IsAt(ms, S(), id - 1)
        invariant old(fuel).None? ==> fuel.None?
      {
        var m := ms[id - 1];
        progress := progress + [id];
        if version != id - 1 {
          return Refused(Corrupt(id - 1, version));
        }
        if Digest(m.sql) != m.checksum {
          return Refused(Tampered(id));
        }
        if !m.low {
          return Refused(SnapshotRequired(id));
        }
        OneMore(ms, id);
        if m.transactional {
          r := ApplyTransactional(m);
        } else {
          r := ApplyNonTransactional(m);
        }
        if r != Done {
          return;
        }
        id := id + 1;
      }
      if version != to {
        return Refused(Corrupt(to, version));
      }
      return Done;
    }

    /** The part of `open` that concerns the schema: fresh install, compatibility window, ledger, migrations. */
    method Open(found: Inspection) returns (r: Result)
      requires Declared(ms) && (found.absent ==> S() == State({}, map[], 0))
      modifies this
      ensures found.absent ==> (r == Done || r == Killed) && if r == Done then IsAt(ms, S(), |ms|) else S() == old(S())
      ensures !found.absent && !IsOurs(found) ==> r == Refused(if found.foreign then ForeignDatabase else UnsupportedFormat(found.format.value)) && S() == old(S())
      ensures !found.absent && IsOurs(found) && old(version) > |ms| ==> r == Refused(SchemaTooNew) && S() == old(S())
      ensures !found.absent && IsOurs(found) && old(version) < 1 ==> r == Refused(SchemaTooOld) && S() == old(S())
      ensures !found.absent && IsOurs(found) && 1 <= old(version) <= |ms| && !LedgerHolds(ms, old(ledger)) ==>
        r.Refused? && Mismatch(ms, old(ledger), r.error) && S() == old(S())
      ensures !found.absent && IsOurs(found) && Atomic(ms) && 1 <= old(version) <= |ms| && IsAt(ms, old(S()), old(version)) ==>
        exists n :: old(version) <= n <= |ms| && IsAt(ms, S(), n) && AllLow(ms, old(version), n) && Stopped(ms, r, n, |ms|)
      ensures old(fuel).None? ==> !r.Killed?
    {
      if found.absent {
        r := FreshInstall();
        return;
      }
      if found.foreign {
        return Refused(ForeignDatabase);
      }
      if found.format.Some? && found.format.value != STORAGE_FORMAT {
        return Refused(UnsupportedFormat(found.format.value));
      }
      if version > |ms| {
        return Refused(SchemaTooNew);
      }
      if version < 1 {
        return Refused(SchemaTooOld);
      }
      var fault := VerifyLedger();
      if fault.Some? {
        if IsAt(ms, S(), version) {
          LedgerOfMeans(ms, version);
        }
        return Refused(fault.value);
      }
      r := Migrate(version, |ms|);
    }
  }

  /** All objects and all ledger rows of a list. */
  method WholeSchema(ms: seq<Migration>) returns (made: set<string>, rows: map<nat, Digest<seq<string>>>, ids: seq<nat>)
    requires Declared(ms)
    ensures made == Objects(ms, |ms|) && rows == LedgerOf(ms, |ms|)
    ensures |ids| == |ms| && forall i :: 0 <= i < |ids| ==> ids[i] == i + 1
  {
    hide Objects, LedgerOf, Declared, Created;
    made, rows, ids := {}, map[], [];
    NoneYet(ms);
    for i := 0 to |ms|
      invariant made == Objects(ms, i) && rows == LedgerOf(ms, i)
      invariant |ids| == i && forall j :: 0 <= j < i ==> ids[j] == j + 1
    {
      OneMore(ms, i + 1);
      ids := ids + [ms[i].id];
      made := made + Created(ms[i].sql);
      rows := rows[ms[i].id := ms[i].checksum];
    }
  }

  lemma NoneYet(ms: seq<Migration>)
    ensures Objects(ms, 0) == {} && LedgerOf(ms, 0) == map[]
  {
  }

  /** The next declared migration always applies, and leads one further. */
  lemma OneMore(ms: seq<Migration>, id: nat)
    requires Declared(ms) && 1 <= id <= |ms|
    ensures NewObjects(ms[id - 1].sql, Objects(ms, id - 1)) && id !in LedgerOf(ms, id - 1)
    ensures Objects(ms, id) == Objects(ms, id - 1) + Created(ms[id - 1].sql)
    ensures LedgerOf(ms, id) == LedgerOf(ms, id - 1)[id := ms[id - 1].checksum]
    ensures ms[id - 1].id == id && Digest(ms[id - 1].sql) == ms[id - 1].checksum
  {
    LedgerOfMeans(ms, id - 1);
    hide Created;
  }

  /**
   * From any committed revision, opens killed at any transaction boundaries (`kills[i]` is how many
   * transactions the i-th open commits) and then one that is not killed end exactly where a fresh
   * install ends: same schema objects, ledger ids 1..N with the declared checksums, version N.
   */
  method OpenUntilDone(db: Connection, kills: seq<nat>)
    requires Declared(db.ms) && AllSafe(db.ms) && 1 <= db.version <= |db.ms| && IsAt(db.ms, db.S(), db.version)
    modifies db
    ensures IsAt(db.ms, db.S(), |db.ms|)
    ensures forall id :: id in db.ledger <==> 1 <= id <= db.version
    ensures forall id :: id in db.ledger ==> db.ledger[id] == db.ms[id - 1].checksum
  {
    for i := 0 to |kills|
      invariant 1 <= db.version <= |db.ms| && IsAt(db.ms, db.S(), db.version)
    {
      db.fuel := Some(kills[i]);
      var r := db.Open(Inspection(false, false, Some(STORAGE_FORMAT)));
    }
    db.fuel := None;
    var r := db.Open(Inspection(false, false, Some(STORAGE_FORMAT)));
    LedgerOfMeans(db.ms, |db.ms|);
  }

  /** A fresh install and a migrated database are the same state. */
  method FreshEqualsMigrated(ms: seq<Migration>, s: State, kills: seq<nat>) returns (fresh_: State, migrated: State)
    requires Declared(ms) && AllSafe(ms) && 1 <= s.version <= |ms| && IsAt(ms, s, s.version)
    ensures fresh_ == migrated
  {
    var a := new Connection(ms, State({}, map[], 0));
    var r := a.FreshInstall();
    var b := new Connection(ms, s);
    OpenUntilDone(b, kills);
    return a.S(), b.S();
  }

  /**
   * The resume gap of a migration outside a transaction: killed between its commits, after its schema
   * is there and before its ledger row is, it can never be applied again if it creates anything.
   */
  lemma NonTransactionalGap(m: Migration, s: State)
    requires NewObjects(m.sql, s.objects)
    ensures NewObjects(m.sql, s.objects + Created(m.sql)) <==> m.sql == []
  {
    if m.sql != [] {
      assert m.sql[0] in s.objects + Created(m.sql);
    }
  }
}
