/**
 * The rows of PowerDNS's `records` table and of the exporter's `cs_mapping`
 * table, and the SQL statements the exporter issues against them.
 *
 * Columns that carry no logic (ttl, prio, change_date, ordername, auth) are
 * not modelled.  Column comparison is exact string equality.
 */
module Tables {
  import opened Wrappers
  import opened Text

  datatype RType = A | AAAA | PTR

  /** A `records` row: (name, type, content, domain_id). */
  datatype Record = Record(name: string, rtype: RType, content: string, domainId: int)

  /** A `cs_mapping` row: (uuid, record, ipaddress); None is SQL NULL. */
  datatype MappingRow = MappingRow(uuid: string, record: string, ipaddress: Option<string>)

  datatype Tables = Tables(records: seq<Record>, mapping: seq<MappingRow>)

  /**
   * The unique key that `REPLACE INTO records` replaces on.  The stock
   * PowerDNS schema has none besides the auto-increment id, so REPLACE acts as
   * INSERT (NoUniqueKey); a deployment may add one on (name, type, domain_id).
   * Which one holds is an assumption of the model, not a fact it proves.
   */
  datatype ReplaceKey = NoUniqueKey | NameTypeDomain

  /** The statements the exporter issues. */
  datatype Stmt =
    | DeleteByName(name: string)                      // DELETE FROM records WHERE name = %s
    | DeleteByNameContent(name: string, content: string)  // ... WHERE name = %s AND content = %s
    | Replace(rec: Record)                            // REPLACE INTO records ...
    | InsertIgnore(row: MappingRow)                   // INSERT IGNORE INTO cs_mapping ...
    | DeleteMappingOf(uuid: string)                   // DELETE FROM cs_mapping WHERE uuid = %s

  /** The rows of `s` that `keep` accepts, in order. */
  function Filter<T(!new)>(s: seq<T>, keep: T -> bool): (r: seq<T>)
    ensures forall x :: x in r <==> x in s && keep(x)
    ensures forall x :: multiset(r)[x] == if keep(x) then multiset(s)[x] else 0
  {
    if s == [] then []
    else
      assert s == [s[0]] + s[1..];
      (if keep(s[0]) then [s[0]] else []) + Filter(s[1..], keep)
  }

  predicate SameKey(a: Record, b: Record) {
    a.name == b.name && a.rtype == b.rtype && a.domainId == b.domainId
  }

  /**
   * Whether two mapping rows violate UNIQUE(uuid, record, ipaddress).  In
   * MySQL NULL never equals NULL, so a row with a NULL address collides with
   * nothing.
   */
  predicate Collides(a: MappingRow, b: MappingRow) {
    a.uuid == b.uuid && a.record == b.record && a.ipaddress.Some? && b.ipaddress.Some?
    && a.ipaddress.value == b.ipaddress.value
  }

  /** The effect of one statement on the two tables. */
  function Exec(t: Tables, s: Stmt, key: ReplaceKey): Tables {
    match s
    case DeleteByName(name) =>
      t.(records := Filter(t.records, (r: Record) => r.name != name))
    case DeleteByNameContent(name, content) =>
      t.(records := Filter(t.records, (r: Record) => !(r.name == name && r.content == content)))
    case Replace(rec) =>
      var kept := if key == NameTypeDomain then Filter(t.records, (r: Record) => !SameKey(r, rec)) else t.records;
      t.(records := kept + [rec])
    case InsertIgnore(row) =>
      if exists m :: m in t.mapping && Collides(row, m) then t else t.(mapping := t.mapping + [row])
    case DeleteMappingOf(uuid) =>
      t.(mapping := Filter(t.mapping, (m: MappingRow) => m.uuid != uuid))
  }

  /** The effect of a sequence of statements, in order. */
  function Run(t: Tables, plan: seq<Stmt>, key: ReplaceKey): Tables
    decreases |plan|
  {
    if plan == [] then t else Run(Exec(t, plan[0], key), plan[1..], key)
  }

  lemma {:induction false} RunAppend(t: Tables, p: seq<Stmt>, q: seq<Stmt>, key: ReplaceKey)
    ensures Run(t, p + q, key) == Run(Run(t, p, key), q, key)
    decreases |p|
  {
    if p == [] {
      assert p + q == q;
    } else {
      assert (p + q)[1..] == p[1..] + q;
      RunAppend(Exec(t, p[0], key), p[1..], q, key);
    }
  }

  /** Running one more statement after a plan. */
  lemma RunSnoc(t: Tables, p: seq<Stmt>, s: Stmt, key: ReplaceKey)
    ensures Run(t, p + [s], key) == Exec(Run(t, p, key), s, key)
  {
    RunAppend(t, p, [s], key);
    assert [s][1..] == [];
  }

  /** After INSERT IGNORE the row is in the table: either it was added or an identical row was there. */
  lemma InsertIgnoreStores(t: Tables, row: MappingRow, key: ReplaceKey)
    ensures row in Exec(t, InsertIgnore(row), key).mapping
    ensures Exec(t, InsertIgnore(row), key).records == t.records
  {
    if m :| m in t.mapping && Collides(row, m) {
      assert m == row;
    }
  }

  /** A row whose address is NULL is always added, however often it is inserted. */
  lemma InsertIgnoreNullAppends(t: Tables, row: MappingRow, key: ReplaceKey)
    requires row.ipaddress.None?
    ensures Exec(t, InsertIgnore(row), key).mapping == t.mapping + [row]
  {
  }

  /** Inserting a row that carries an address a second time changes nothing. */
  lemma {:induction false} FilterKeepsAll<T(!new)>(s: seq<T>, keep: T -> bool)
    requires forall x :: x in s ==> keep(x)
    ensures Filter(s, keep) == s
  {
    if s != [] {
      FilterKeepsAll(s[1..], keep);
    }
  }

  /**
   * Writing a record whose key is new, followed by its NULL-address mapping
   * row, appends one to each table under either key.
   */
  lemma WriteFresh(t: Tables, rec: Record, row: MappingRow, key: ReplaceKey)
    requires forall r :: r in t.records ==> !SameKey(r, rec)
    requires row.ipaddress.None?
    ensures Run(t, [Replace(rec), InsertIgnore(row)], key) == Tables(t.records + [rec], t.mapping + [row])
  {
    FilterKeepsAll(t.records, (r: Record) => !SameKey(r, rec));
    var t1 := Exec(t, Replace(rec), key);
    assert t1 == Tables(t.records + [rec], t.mapping);
    InsertIgnoreNullAppends(t1, row, key);
    RunSnoc(t, [Replace(rec)], InsertIgnore(row), key);
    RunSnoc(t, [], Replace(rec), key);
    assert [Replace(rec)] + [InsertIgnore(row)] == [Replace(rec), InsertIgnore(row)];
  }

  lemma InsertIgnoreAddressIdempotent(t: Tables, row: MappingRow, key: ReplaceKey)
    requires row.ipaddress.Some?
    ensures Exec(Exec(t, InsertIgnore(row), key), InsertIgnore(row), key) == Exec(t, InsertIgnore(row), key)
  {
    var t1 := Exec(t, InsertIgnore(row), key);
    InsertIgnoreStores(t, row, key);
    assert row in t1.mapping && Collides(row, row);
  }

  /** True when no statement of the plan deletes mapping rows. */
  predicate KeepsMapping(plan: seq<Stmt>) {
    forall s :: s in plan ==> !s.DeleteMappingOf?
  }

  /**
   * A plan that deletes no mapping rows keeps every mapping row there was
   * and leaves every row it inserts in the table.
   */
  lemma {:induction false} MappingPersists(t: Tables, plan: seq<Stmt>, key: ReplaceKey)
    requires KeepsMapping(plan)
    ensures forall m :: m in t.mapping ==> m in Run(t, plan, key).mapping
    ensures forall row :: InsertIgnore(row) in plan ==> row in Run(t, plan, key).mapping
    decreases |plan|
  {
    if plan != [] {
      var t1 := Exec(t, plan[0], key);
      assert forall m :: m in t.mapping ==> m in t1.mapping;
      if plan[0].InsertIgnore? {
        InsertIgnoreStores(t, plan[0].row, key);
      }
      assert plan == [plan[0]] + plan[1..];
      MappingPersists(t1, plan[1..], key);
      forall row | InsertIgnore(row) in plan ensures row in Run(t, plan, key).mapping {
        if InsertIgnore(row) != plan[0] {
          assert plan == [plan[0]] + plan[1..];
          assert InsertIgnore(row) in plan[1..];
        }
      }
    }
  }

  /** How many times the plan inserts exactly `row` into `cs_mapping`. */
  function CountInserts(plan: seq<Stmt>, row: MappingRow): nat
    decreases |plan|
  {
    if plan == [] then 0
    else (if plan[0] == InsertIgnore(row) then 1 else 0) + CountInserts(plan[1..], row)
  }

  /**
   * A plan that deletes no mapping rows adds one copy of a NULL-address row
   * for each time it inserts it: INSERT IGNORE does not deduplicate such rows.
   */
  lemma {:induction false} NullRowsAccumulate(t: Tables, plan: seq<Stmt>, row: MappingRow, key: ReplaceKey)
    requires KeepsMapping(plan)
    requires row.ipaddress.None?
    ensures multiset(Run(t, plan, key).mapping)[row] == multiset(t.mapping)[row] + CountInserts(plan, row)
    decreases |plan|
  {
    if plan != [] {
      var t1 := Exec(t, plan[0], key);
      assert multiset(t1.mapping)[row] == multiset(t.mapping)[row] + (if plan[0] == InsertIgnore(row) then 1 else 0) by {
        match plan[0]
        case InsertIgnore(r) =>
          if r.ipaddress.None? {
            assert t1.mapping == t.mapping + [r];
          } else {
            assert r != row;
          }
        case _ =>
      }
      assert plan == [plan[0]] + plan[1..];
      NullRowsAccumulate(t1, plan[1..], row, key);
    }
  }

  /** How many times the plan writes exactly `r` into `records`. */
  function CountReplaces(plan: seq<Stmt>, r: Record): nat
    decreases |plan|
  {
    if plan == [] then 0
    else (if plan[0] == Replace(r) then 1 else 0) + CountReplaces(plan[1..], r)
  }

  /** True when the statement does not delete the record `r`. */
  predicate SparesStmt(s: Stmt, r: Record) {
    match s
    case DeleteByName(name) => name != r.name
    case DeleteByNameContent(name, content) => !(name == r.name && content == r.content)
    case _ => true
  }

  /** True when no statement of the plan deletes the record `r`. */
  predicate Spares(plan: seq<Stmt>, r: Record) {
    forall s :: s in plan ==> SparesStmt(s, r)
  }

  lemma ExecRecordCount(t: Tables, s: Stmt, r: Record)
    requires SparesStmt(s, r)
    ensures multiset(Exec(t, s, NoUniqueKey).records)[r] == multiset(t.records)[r] + (if s == Replace(r) then 1 else 0)
  {
    match s
    case Replace(rec) =>
      assert Exec(t, s, NoUniqueKey).records == t.records + [rec];
    case _ =>
  }

  /**
   * Without a unique key REPLACE INTO only ever adds: a plan that never
   * deletes `r` leaves one more copy of it for each time it writes it.
   */
  lemma {:induction false} RecordsAccumulate(t: Tables, plan: seq<Stmt>, r: Record)
    requires Spares(plan, r)
    ensures multiset(Run(t, plan, NoUniqueKey).records)[r] == multiset(t.records)[r] + CountReplaces(plan, r)
    decreases |plan|
  {
    if plan != [] {
      ExecRecordCount(t, plan[0], r);
      assert plan == [plan[0]] + plan[1..];
      RecordsAccumulate(Exec(t, plan[0], NoUniqueKey), plan[1..], r);
    }
  }

  lemma {:induction false} CountInsertsPositive(plan: seq<Stmt>, row: MappingRow)
    requires InsertIgnore(row) in plan
    ensures CountInserts(plan, row) >= 1
    decreases |plan|
  {
    if plan[0] != InsertIgnore(row) {
      assert plan == [plan[0]] + plan[1..];
      CountInsertsPositive(plan[1..], row);
    }
  }

  lemma {:induction false} CountReplacesPositive(plan: seq<Stmt>, r: Record)
    requires Replace(r) in plan
    ensures CountReplaces(plan, r) >= 1
    decreases |plan|
  {
    if plan[0] != Replace(r) {
      assert plan == [plan[0]] + plan[1..];
      CountReplacesPositive(plan[1..], r);
    }
  }

  /**
   * The statement leaves the record `r` in place: it deletes no record equal
   * to `r` and, under the (name, type, domain_id) key, replaces nothing on
   * r's key with a different record.
   */
  predicate KeepsRecord(s: Stmt, r: Record, key: ReplaceKey) {
    SparesStmt(s, r) && (key == NameTypeDomain && s.Replace? && SameKey(s.rec, r) ==> s.rec == r)
  }

  lemma ExecKeepsRecord(t: Tables, s: Stmt, r: Record, key: ReplaceKey)
    requires r in t.records && KeepsRecord(s, r, key)
    ensures r in Exec(t, s, key).records
  {
    match s
    case Replace(rec) =>
      if key == NameTypeDomain && !SameKey(r, rec) {
        assert r in Filter(t.records, (x: Record) => !SameKey(x, rec));
      }
    case _ =>
  }

  lemma {:induction false} RunKeepsRecord(t: Tables, plan: seq<Stmt>, r: Record, key: ReplaceKey)
    requires r in t.records
    requires forall s :: s in plan ==> KeepsRecord(s, r, key)
    ensures r in Run(t, plan, key).records
    decreases |plan|
  {
    if plan != [] {
      ExecKeepsRecord(t, plan[0], r, key);
      assert forall s :: s in plan[1..] ==> s in plan;
      RunKeepsRecord(Exec(t, plan[0], key), plan[1..], r, key);
    }
  }

  /** No statement of `plan` undoes a record written earlier in it. */
  predicate LaterKeep(plan: seq<Stmt>, key: ReplaceKey) {
    forall i, j :: 0 <= i < j < |plan| && plan[i].Replace? ==> KeepsRecord(plan[j], plan[i].rec, key)
  }

  lemma LaterKeepTail(plan: seq<Stmt>, key: ReplaceKey)
    requires plan != [] && LaterKeep(plan, key)
    ensures LaterKeep(plan[1..], key)
    ensures plan[0].Replace? ==> forall s :: s in plan[1..] ==> KeepsRecord(s, plan[0].rec, key)
  {
    var rest := plan[1..];
    forall i, j | 0 <= i < j < |rest| && rest[i].Replace?
      ensures KeepsRecord(rest[j], rest[i].rec, key)
    {
      assert rest[i] == plan[i + 1] && rest[j] == plan[j + 1];
    }
    if plan[0].Replace? {
      forall s | s in rest ensures KeepsRecord(s, plan[0].rec, key) {
        var j :| 0 <= j < |rest| && rest[j] == s;
        assert s == plan[j + 1];
      }
    }
  }

  /** Every record a plan writes is in `records` afterwards when no later statement removes it. */
  lemma {:induction false} WrittenRecordsRemain(t: Tables, plan: seq<Stmt>, key: ReplaceKey)
    requires LaterKeep(plan, key)
    ensures forall r :: Replace(r) in plan ==> r in Run(t, plan, key).records
    decreases |plan|
  {
    if plan != [] {
      var t1 := Exec(t, plan[0], key);
      var rest := plan[1..];
      assert Run(t, plan, key) == Run(t1, rest, key);
      LaterKeepTail(plan, key);
      WrittenRecordsRemain(t1, rest, key);
      if plan[0].Replace? {
        RunKeepsRecord(t1, rest, plan[0].rec, key);
      }
      forall r | Replace(r) in plan ensures r in Run(t1, rest, key).records {
        if Replace(r) != plan[0] {
          assert plan == [plan[0]] + rest;
          assert Replace(r) in rest;
        }
      }
    }
  }
}
