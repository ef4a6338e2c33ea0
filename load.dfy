// load.py: the loaders. Each maps the API records to the columns of one raw
// table and hands the list to `_insert_data`, which stamps, stringifies and
// inserts the records one at a time, counting successes and failures.
// `datetime.now()` is a parameter: `now(i)` is the time read for record `i`.

module Load {
  import opened Results
  import opened Json
  import opened Database
  import Sql

  const UsersTable := "users_raw"
  const SubscriptionsTable := "subscriptions_raw"
  const MessagesTable := "messages_raw"

  // ---------------------------------------------------------------------------
  // _insert_data

  /** `record['last_updated_at'] = str(datetime.now())`, done in place on the caller's dict. */
  function Stamped(r: Record, includeUpdateTime: bool, stamp: string): Record
  {
    if includeUpdateTime then Set(r, UpdatedAtColumn, Str(stamp)) else r
  }

  /** `{k: str(v) for k, v in record.items()}`: same keys in the same order, every value a `str`. */
  function Stringified(r: Record): (s: Record)
    ensures Keys(s) == Keys(r) && Sql.AllStr(s)
    ensures forall k :: 0 <= k < |r| ==> s[k].1 == Str(PyStr(r[k].1))
  {
    seq(|r|, k requires 0 <= k < |r| => (r[k].0, Str(PyStr(r[k].1))))
  }

  /** The dict `_insert_data` passes to `insert_record` for one record. */
  function Prepared(r: Record, includeUpdateTime: bool, stamp: string): Record
  {
    Stringified(Stamped(r, includeUpdateTime, stamp))
  }

  /** The outcome of every insert, in record order, and the tables afterwards. */
  datatype Batch = Batch(outcomes: seq<InsertOutcome>, tables: Tables)

  /**
   * The inserts `_insert_data` performs on the first `n` records: one
   * `insert_record` (which skips duplicates) per record, in order; an exception
   * is caught and the loop goes on.
   */
  function InsertBatch(db: Tables, name: string, data: seq<Record>, includeUpdateTime: bool, now: nat -> string, n: nat): (b: Batch)
    requires DbValid(db) && n <= |data|
    ensures |b.outcomes| == n
    ensures DbValid(b.tables) && Extends(db, b.tables)
  {
    if n == 0 then Batch([], db)
    else
      var prev := InsertBatch(db, name, data, includeUpdateTime, now, n - 1);
      var step := Insert(prev.tables, name, Prepared(data[n - 1], includeUpdateTime, now(n - 1)), true);
      ExtendsTrans(db, prev.tables, step.1);
      Batch(prev.outcomes + [step.0], step.1)
  }

  /** `failed_inserts`: inserts that raised. */
  function Failures(outcomes: seq<InsertOutcome>): nat
  {
    if outcomes == [] then 0
    else Failures(outcomes[..|outcomes| - 1]) + (if outcomes[|outcomes| - 1].Failed? then 1 else 0)
  }

  /** `successful_inserts`: inserts that did not raise, duplicates skipped included. */
  function Successes(outcomes: seq<InsertOutcome>): nat
  {
    if outcomes == [] then 0
    else Successes(outcomes[..|outcomes| - 1]) + (if outcomes[|outcomes| - 1].Failed? then 0 else 1)
  }

  /** Rows actually added. */
  function Inserts(outcomes: seq<InsertOutcome>): nat
  {
    if outcomes == [] then 0
    else Inserts(outcomes[..|outcomes| - 1]) + (if outcomes[|outcomes| - 1] == Inserted then 1 else 0)
  }

  /** Counting one more outcome. */
  lemma CountsNext(outcomes: seq<InsertOutcome>, outcome: InsertOutcome)
    ensures Successes(outcomes + [outcome]) == Successes(outcomes) + (if outcome.Failed? then 0 else 1)
    ensures Failures(outcomes + [outcome]) == Failures(outcomes) + (if outcome.Failed? then 1 else 0)
  {
    assert (outcomes + [outcome])[..|outcomes|] == outcomes;
  }

  /** Every record is counted once: `successful_inserts + failed_inserts == len(data)`. */
  lemma {:induction false} CountsAddUp(outcomes: seq<InsertOutcome>)
    ensures Successes(outcomes) + Failures(outcomes) == |outcomes|
    ensures Inserts(outcomes) <= Successes(outcomes)
  {
    if outcomes != [] {
      CountsAddUp(outcomes[..|outcomes| - 1]);
    }
  }

  /** No failure is counted exactly when no insert raised. */
  lemma {:induction false} NoFailures(outcomes: seq<InsertOutcome>)
    ensures Failures(outcomes) == 0 <==> forall k :: 0 <= k < |outcomes| ==> !outcomes[k].Failed?
  {
    if outcomes != [] {
      var init := outcomes[..|outcomes| - 1];
      NoFailures(init);
      assert forall k :: 0 <= k < |init| ==> init[k] == outcomes[k];
    }
  }

  /** A row of the table matches the dict on every column except `last_updated_at`. */
  predicate Persisted(db: Tables, name: string, r: Record)
  {
    name in db && Select(db[name].rows, Without(r, {UpdatedAtColumn})) != []
  }

  /** A matching row stays matching when rows are only appended. */
  lemma SelectKept(rows: seq<Row>, more: seq<Row>, c: Record)
    requires rows <= more && Select(rows, c) != []
    ensures Select(more, c) != []
  {
    var r := Select(rows, c)[0];
    assert r in Select(rows, c);
    assert r in more;
  }

  /** An insert that did not raise leaves a row matching the record, new or already there. */
  lemma InsertLeavesRow(db: Tables, name: string, r: Record)
    requires DbValid(db) && DistinctKeys(r) && !Insert(db, name, r, true).0.Failed?
    ensures Persisted(Insert(db, name, r, true).1, name, r)
  {
    if Insert(db, name, r, true).0 == Inserted {
      var t := db[name];
      var c := Without(r, {UpdatedAtColumn});
      NewRowMatches(t, r);
      SelectAppend(t.rows, NewRow(t, r), c);
    }
  }

  /**
   * After the first `k + 1 + extra` records, record `k`, unless it failed, is in the
   * table: a row holds its stringified values on every column except
   * `last_updated_at`, whether this batch inserted it or it was skipped as already
   * present. Later records never remove it.
   */
  lemma {:induction false} BatchPersists(db: Tables, name: string, data: seq<Record>, includeUpdateTime: bool, now: nat -> string, k: nat, extra: nat)
    requires DbValid(db) && k + 1 + extra <= |data| && DistinctKeys(data[k])
    requires !InsertBatch(db, name, data, includeUpdateTime, now, k + 1 + extra).outcomes[k].Failed?
    ensures Persisted(InsertBatch(db, name, data, includeUpdateTime, now, k + 1 + extra).tables, name, Prepared(data[k], includeUpdateTime, now(k)))
    decreases extra
  {
    if extra == 0 {
      BatchPersistsLast(db, name, data, includeUpdateTime, now, k);
    } else {
      var prev := InsertBatch(db, name, data, includeUpdateTime, now, k + extra);
      var b := InsertBatch(db, name, data, includeUpdateTime, now, k + 1 + extra);
      var c := Without(Prepared(data[k], includeUpdateTime, now(k)), {UpdatedAtColumn});
      assert prev.outcomes[k] == b.outcomes[k];
      BatchPersists(db, name, data, includeUpdateTime, now, k, extra - 1);
      SelectKept(prev.tables[name].rows, b.tables[name].rows, c);
    }
  }

  /** The record just processed, inserted or skipped as present, has its row. */
  lemma BatchPersistsLast(db: Tables, name: string, data: seq<Record>, includeUpdateTime: bool, now: nat -> string, k: nat)
    requires DbValid(db) && k < |data| && DistinctKeys(data[k])
    requires !InsertBatch(db, name, data, includeUpdateTime, now, k + 1).outcomes[k].Failed?
    ensures Persisted(InsertBatch(db, name, data, includeUpdateTime, now, k + 1).tables, name, Prepared(data[k], includeUpdateTime, now(k)))
  {
    var prev := InsertBatch(db, name, data, includeUpdateTime, now, k);
    var r := Prepared(data[k], includeUpdateTime, now(k));
    PreparedDistinct(data[k], includeUpdateTime, now(k));
    InsertLeavesRow(prev.tables, name, r);
  }

  /** Stamping and stringifying keep a dict's keys distinct. */
  lemma PreparedDistinct(r: Record, includeUpdateTime: bool, stamp: string)
    requires DistinctKeys(r)
    ensures DistinctKeys(Prepared(r, includeUpdateTime, stamp))
  {
    var s := Stamped(r, includeUpdateTime, stamp);
    if includeUpdateTime {
      SetDistinct(r, UpdatedAtColumn, Str(stamp));
    }
    var p := Prepared(r, includeUpdateTime, stamp);
    assert forall k :: 0 <= k < |p| ==> p[k].0 == Keys(p)[k] == Keys(s)[k] == s[k].0;
  }

  /** `d[key] = v` keeps a dict's keys distinct. */
  lemma SetDistinct(r: Record, key: string, v: Value)
    requires DistinctKeys(r)
    ensures DistinctKeys(Set(r, key, v))
  {
    var s := Set(r, key, v);
    var ks := Keys(s);
    forall a, b | 0 <= a < b < |s|
      ensures s[a].0 != s[b].0
    {
      assert s[a].0 == ks[a] && s[b].0 == ks[b];
      if b < |r| {
        assert ks[a] == Keys(r)[a] == r[a].0 && ks[b] == Keys(r)[b] == r[b].0;
      } else {
        assert !HasKey(r, key) && ks[b] == key;
        assert ks[a] == Keys(r)[a] == r[a].0;
      }
    }
  }

  /**
   * Only inserted records add rows, each to the named table: the table grows by
   * the number of inserts and every other table is left alone.
   */
  lemma {:induction false} BatchRows(db: Tables, name: string, data: seq<Record>, includeUpdateTime: bool, now: nat -> string, n: nat)
    requires DbValid(db) && name in db && n <= |data|
    ensures RowsCounted(db, name, InsertBatch(db, name, data, includeUpdateTime, now, n))
  {
    if n > 0 {
      BatchRows(db, name, data, includeUpdateTime, now, n - 1);
      BatchLastRows(db, name, data, includeUpdateTime, now, n);
    }
  }

  /** The table has grown by the inserts counted, and every other table is as it was. */
  predicate RowsCounted(db: Tables, name: string, b: Batch)
  {
    name in db && name in b.tables &&
    |b.tables[name].rows| == |db[name].rows| + Inserts(b.outcomes) &&
    forall other :: other in db && other != name ==> other in b.tables && b.tables[other] == db[other]
  }

  lemma BatchLastRows(db: Tables, name: string, data: seq<Record>, includeUpdateTime: bool, now: nat -> string, n: nat)
    requires DbValid(db) && name in db && 0 < n <= |data|
    requires RowsCounted(db, name, InsertBatch(db, name, data, includeUpdateTime, now, n - 1))
    ensures RowsCounted(db, name, InsertBatch(db, name, data, includeUpdateTime, now, n))
  {
    var prev := InsertBatch(db, name, data, includeUpdateTime, now, n - 1);
    var step := Insert(prev.tables, name, Prepared(data[n - 1], includeUpdateTime, now(n - 1)), true);
    var b := InsertBatch(db, name, data, includeUpdateTime, now, n);
    assert b == Batch(prev.outcomes + [step.0], step.1);
    assert b.outcomes[..n - 1] == prev.outcomes;
    assert Inserts(b.outcomes) == Inserts(prev.outcomes) + (if step.0 == Inserted then 1 else 0);
  }

  /** The columns an insert names are known to the table, and so are those it constrains on. */
  predicate Fits(t: Table, r: Record)
  {
    !t.autoId && (forall k :: 0 <= k < |r| ==> r[k].0 in t.columns)
  }

  /**
   * Inserting a non-empty stringified record into a table that has all its
   * columns never raises, when no value carries a quote or backslash into the SQL.
   */
  lemma InsertFits(db: Tables, name: string, r: Record)
    requires DbValid(db) && name in db && r != [] && Sql.AllStr(r) && Sql.UnquotedValues(r) && Fits(db[name], r)
    ensures !Insert(db, name, r, true).0.Failed?
  {
    var c := Without(r, {UpdatedAtColumn});
    assert ColumnsKnown(db[name], Keys(r));
    assert ColumnsKnown(db[name], Keys(c));
    assert Sql.InsertStatement(r, name).Ok?;
  }

  /** Stamping adds only `last_updated_at` and stringifying keeps the keys. */
  lemma PreparedFits(t: Table, r: Record, includeUpdateTime: bool, stamp: string)
    requires Fits(t, r) && UpdatedAtColumn in t.columns
    ensures Fits(t, Prepared(r, includeUpdateTime, stamp))
    ensures (includeUpdateTime || r != []) ==> Prepared(r, includeUpdateTime, stamp) != []
  {
    var s := Stamped(r, includeUpdateTime, stamp);
    var p := Prepared(r, includeUpdateTime, stamp);
    assert forall k :: 0 <= k < |r| ==> r[k].0 == Keys(r)[k];
    assert forall k :: 0 <= k < |s| ==> s[k].0 == Keys(s)[k];
    assert forall k :: 0 <= k < |p| ==> p[k].0 == Keys(p)[k] == Keys(s)[k];
  }

  /** The values `_insert_data` splices into the SQL for the first `n` records carry no quote or backslash. */
  predicate CleanSplices(data: seq<Record>, includeUpdateTime: bool, now: nat -> string, n: nat)
    requires n <= |data|
  {
    n == 0 ||
    (CleanSplices(data, includeUpdateTime, now, n - 1) &&
     Sql.UnquotedValues(Prepared(data[n - 1], includeUpdateTime, now(n - 1))))
  }

  /** A condition on every record is the recursive condition `BatchSucceeds` takes. */
  lemma {:induction false} CleanSplicesAll(data: seq<Record>, includeUpdateTime: bool, now: nat -> string, n: nat)
    requires n <= |data|
    requires forall k :: 0 <= k < n ==> Sql.UnquotedValues(Prepared(data[k], includeUpdateTime, now(k)))
    ensures CleanSplices(data, includeUpdateTime, now, n)
  {
    if n > 0 {
      CleanSplicesAll(data, includeUpdateTime, now, n - 1);
    }
  }

  /**
   * A batch whose records name only columns of the table (a table with a
   * `last_updated_at` column and no AUTO_INCREMENT id) reports no failure:
   * `_insert_data` returns True. Without the stamp, an empty record would fail,
   * and so would a value with a quote or backslash.
   */
  lemma {:induction false} BatchSucceeds(db: Tables, name: string, data: seq<Record>, includeUpdateTime: bool, now: nat -> string, n: nat)
    requires DbValid(db) && name in db && UpdatedAtColumn in db[name].columns && n <= |data|
    requires forall k :: 0 <= k < n ==> Fits(db[name], data[k]) && (includeUpdateTime || data[k] != [])
    requires CleanSplices(data, includeUpdateTime, now, n)
    ensures Failures(InsertBatch(db, name, data, includeUpdateTime, now, n).outcomes) == 0
  {
    if n > 0 {
      BatchSucceeds(db, name, data, includeUpdateTime, now, n - 1);
      BatchLastSucceeds(db, name, data, includeUpdateTime, now, n);
    }
  }

  lemma BatchLastSucceeds(db: Tables, name: string, data: seq<Record>, includeUpdateTime: bool, now: nat -> string, n: nat)
    requires DbValid(db) && name in db && UpdatedAtColumn in db[name].columns && 0 < n <= |data|
    requires Fits(db[name], data[n - 1]) && (includeUpdateTime || data[n - 1] != [])
    requires Sql.UnquotedValues(Prepared(data[n - 1], includeUpdateTime, now(n - 1)))
    requires Failures(InsertBatch(db, name, data, includeUpdateTime, now, n - 1).outcomes) == 0
    ensures Failures(InsertBatch(db, name, data, includeUpdateTime, now, n).outcomes) == 0
  {
    var prev := InsertBatch(db, name, data, includeUpdateTime, now, n - 1);
    var b := InsertBatch(db, name, data, includeUpdateTime, now, n);
    var p := Prepared(data[n - 1], includeUpdateTime, now(n - 1));
    PreparedFits(db[name], data[n - 1], includeUpdateTime, now(n - 1));
    assert Fits(prev.tables[name], p);
    InsertFits(prev.tables, name, p);
    assert b.outcomes[..n - 1] == prev.outcomes;
  }

  /**
   * One pass of `_insert_data`'s loop: stamp record `i`, stringify it and insert
   * it, counting a success or, when the insert raised, a failure.
   */
  method InsertNext(db: MySqlDb, name: string, data: seq<Record>, includeUpdateTime: bool, now: nat -> string,
                    i: nat, ghost db0: Tables, ghost prev: Batch, successes: nat, failures: nat)
    returns (outcome: InsertOutcome, successes': nat, failures': nat)
    requires db.Valid() && DbValid(db0) && i < |data|
    requires InsertBatch(db0, name, data, includeUpdateTime, now, i) == prev && prev.tables == db.tables
    requires successes == Successes(prev.outcomes) && failures == Failures(prev.outcomes)
    modifies db
    ensures db.Valid() && db.views == old(db.views)
    ensures InsertBatch(db0, name, data, includeUpdateTime, now, i + 1) == Batch(prev.outcomes + [outcome], db.tables)
    ensures successes' == Successes(prev.outcomes + [outcome]) && failures' == Failures(prev.outcomes + [outcome])
  {
    var record := data[i];
    if includeUpdateTime {
      record := Set(record, UpdatedAtColumn, Str(now(i)));
    }
    record := Stringified(record);
    outcome := db.InsertRecord(name, record, true);
    CountsNext(prev.outcomes, outcome);
    if outcome.Failed? {
      successes', failures' := successes, failures + 1;
    } else {
      successes', failures' := successes + 1, failures;
    }
  }

  /**
   * `_insert_data` over the connector: returns whether no insert failed and the
   * two counts.
   */
  method InsertData(db: MySqlDb, name: string, data: seq<Record>, includeUpdateTime: bool, now: nat -> string)
    returns (ok: bool, successes: nat, failures: nat)
    requires db.Valid()
    modifies db
    ensures db.Valid() && db.views == old(db.views)
    ensures var b := InsertBatch(old(db.tables), name, data, includeUpdateTime, now, |data|);
      db.tables == b.tables && successes == Successes(b.outcomes) && failures == Failures(b.outcomes)
    ensures successes + failures == |data|
    ensures ok <==> failures == 0
  {
    successes, failures := 0, 0;
    ghost var outcomes: seq<InsertOutcome> := [];
    var idx := 0;
    while idx < |data|
      invariant 0 <= idx <= |data|
      invariant db.Valid() && db.views == old(db.views)
      invariant InsertBatch(old(db.tables), name, data, includeUpdateTime, now, idx) == Batch(outcomes, db.tables)
      invariant successes == Successes(outcomes) && failures == Failures(outcomes)
    {
      var outcome;
      outcome, successes, failures :=
        InsertNext(db, name, data, includeUpdateTime, now, idx, old(db.tables), Batch(outcomes, db.tables), successes, failures);
      outcomes := outcomes + [outcome];
      idx := idx + 1;
    }
    assert |outcomes| == |data|;
    CountsAddUp(outcomes);
    ok := failures == 0;
  }

  // ---------------------------------------------------------------------------
  // insert_user_data

  /** The top-level fields `check_if_pii_data_present` inspects. */
  const PiiFields := ["city", "zipcode", "profession"]

  /** Each inspected field is falsy or an int (a mask id). */
  predicate PiiFree(r: Record)
  {
    forall f :: f in PiiFields ==> !Truthy(Get(r, f)) || IsPyInt(Get(r, f))
  }

  /** `check_if_pii_data_present`: True when no inspected field holds a raw value. */
  method CheckIfPiiDataPresent(r: Record) returns (removed: bool)
    ensures removed <==> PiiFree(r)
  {
    var i := 0;
    while i < |PiiFields|
      invariant 0 <= i <= |PiiFields|
      invariant forall j :: 0 <= j < i ==> !Truthy(Get(r, PiiFields[j])) || IsPyInt(Get(r, PiiFields[j]))
    {
      var value := Get(r, PiiFields[i]);
      if Truthy(value) && !IsPyInt(value) {
        return false;
      }
      i := i + 1;
    }
    return true;
  }

  /** The guard reads top-level keys only: whatever `profile` holds does not change its verdict. */
  lemma GuardIgnoresProfile(r: Record, v: Value)
    ensures PiiFree(Set(r, "profile", v)) <==> PiiFree(r)
  {
    SetEffect(r, "profile", v);
    assert forall f :: f in PiiFields ==> f != "profile";
  }

  /**
   * The row `insert_user_data` builds for one user record; it raises exactly when
   * `profile` is present but is not a dict (`None` included).
   */
  function UserRow(r: Record): (row: Result<Record>)
    ensures row.Err? <==> HasKey(r, "profile") && !Get(r, "profile").Obj?
    ensures row.Ok? ==> |row.value| == |UserColumnNames| == |UserSources| + |ProfileSources|
    ensures row.Ok? ==> GetDict(r, "profile").Ok?
    ensures row.Ok? ==> forall k :: 0 <= k < |UserSources| ==>
      row.value[k] == (UserSources[k].0, Get(r, UserSources[k].1))
    ensures row.Ok? ==> forall k :: 0 <= k < |ProfileSources| ==>
      row.value[|UserSources| + k] == (ProfileSources[k].0, Get(GetDict(r, "profile").value, ProfileSources[k].1))
  {
    match GetDict(r, "profile")
    case Err(m) => Err(m)
    case Ok(profile) =>
      Ok([("user_id", Get(r, "id")), ("created_at", Get(r, "createdAt")), ("updated_at", Get(r, "updatedAt")),
          ("city_id", Get(r, "city")), ("country", Get(r, "country")), ("zipcode_id", Get(r, "zipcode")),
          ("email", Get(r, "email")), ("birth_date", Get(r, "birthDate"))] +
         [("gender", Get(profile, "gender")), ("is_smoking", Get(profile, "isSmoking")),
          ("profession_id", Get(profile, "profession")), ("income", Get(profile, "income"))])
  }

  /** The `users_raw` columns, in table order, `last_updated_at` aside: the keys of the row's dict literal. */
  const UserColumnNames := ["user_id", "created_at", "updated_at", "city_id", "country", "zipcode_id",
                            "email", "birth_date", "gender", "is_smoking", "profession_id", "income"]

  /** The top-level key each of the first eight columns is read from. */
  const UserSources: seq<(string, string)> :=
    [("user_id", "id"), ("created_at", "createdAt"), ("updated_at", "updatedAt"), ("city_id", "city"),
     ("country", "country"), ("zipcode_id", "zipcode"), ("email", "email"), ("birth_date", "birthDate")]

  /** The key of the profile dict each of the last four columns is read from. */
  const ProfileSources: seq<(string, string)> :=
    [("gender", "gender"), ("is_smoking", "isSmoking"), ("profession_id", "profession"), ("income", "income")]

  /** The user row holds exactly the `users_raw` columns, in table order, `last_updated_at` aside. */
  lemma UserRowColumns(r: Record)
    requires UserRow(r).Ok?
    ensures Keys(UserRow(r).value) == UserColumnNames
  {
    var row := UserRow(r).value;
    assert forall k :: 0 <= k < |row| ==> Keys(row)[k] == row[k].0 == UserColumnNames[k];
  }

  /** Together with `last_updated_at`, those are the columns `users_raw` is created with. */
  lemma UserTableColumns()
    ensures UserColumnNames + [UpdatedAtColumn] == Schema()[UsersTable].columns
  {
    assert UsersTable in Schema();
  }

  /** Distinct column names make the row a proper dict. */
  lemma UserRowDistinct(r: Record)
    requires UserRow(r).Ok?
    ensures DistinctKeys(UserRow(r).value)
  {
    var row := UserRow(r).value;
    UserRowColumns(r);
    UserColumnNamesDistinct();
    assert forall k :: 0 <= k < |row| ==> row[k].0 == UserColumnNames[k];
  }

  lemma UserColumnNamesDistinct()
    ensures forall a, b :: 0 <= a < b < |UserColumnNames| ==> UserColumnNames[a] != UserColumnNames[b]
  {
    var n := UserColumnNames;
    // Length and first two characters tell the names apart.
    var sig := [(7, 'u', 's'), (10, 'c', 'r'), (10, 'u', 'p'), (7, 'c', 'i'), (7, 'c', 'o'), (10, 'z', 'i'),
                (5, 'e', 'm'), (10, 'b', 'i'), (6, 'g', 'e'), (10, 'i', 's'), (13, 'p', 'r'), (6, 'i', 'n')];
    assert forall k :: 0 <= k < 12 ==> sig[k] == (|n[k]|, n[k][0], n[k][1]);
    assert forall a, b :: 0 <= a < b < 12 ==> sig[a] != sig[b];
  }

  /** The pseudonymised columns take the top-level `city` and `zipcode` fields. */
  lemma UserRowMasked(r: Record)
    requires UserRow(r).Ok?
    ensures Get(UserRow(r).value, "city_id") == Get(r, "city")
    ensures Get(UserRow(r).value, "zipcode_id") == Get(r, "zipcode")
  {
    UserRowDistinct(r);
    GetDistinct(UserRow(r).value, 3);
    GetDistinct(UserRow(r).value, 5);
  }

  /** Without a profile, the four profile columns (the last four) hold None. */
  lemma UserRowNoProfile(r: Record)
    requires !HasKey(r, "profile")
    ensures UserRow(r).Ok?
    ensures Get(UserRow(r).value, "gender") == Null && Get(UserRow(r).value, "is_smoking") == Null
    ensures Get(UserRow(r).value, "profession_id") == Null && Get(UserRow(r).value, "income") == Null
  {
    var row := UserRow(r).value;
    assert row[8].1 == Get([], "gender") && row[9].1 == Get([], "isSmoking");
    assert row[10].1 == Get([], "profession") && row[11].1 == Get([], "income");
    UserRowDistinct(r);
    GetDistinct(row, 8);
    GetDistinct(row, 9);
    GetDistinct(row, 10);
    GetDistinct(row, 11);
  }

  /** `profession_id` comes from `profile.profession`, not from a top-level key. */
  lemma UserRowProfession(r: Record)
    requires UserRow(r).Ok? && HasKey(r, "profile")
    ensures Get(UserRow(r).value, "profession_id") == Get(Get(r, "profile").fields, "profession")
  {
    UserRowDistinct(r);
    GetDistinct(UserRow(r).value, 10);
  }

  /**
   * The guard misses a raw profession: it looks for a top-level `profession`,
   * while the row takes `profile.profession`, so an unmasked profession passes
   * the guard and reaches `profession_id`.
   */
  lemma GuardMissesNestedProfession(r: Record, profile: Record, profession: Value)
    requires PiiFree(r)
    ensures var leaked := Set(r, "profile", Obj(Set(profile, "profession", profession)));
      PiiFree(leaked) && UserRow(leaked).Ok? &&
      Get(UserRow(leaked).value, "profession_id") == profession
  {
    var p := Obj(Set(profile, "profession", profession));
    var leaked := Set(r, "profile", p);
    GuardIgnoresProfile(r, p);
    GetSet(r, "profile", p);
    HasKeySet(r, "profile", p, "profile");
    GetSet(profile, "profession", profession);
    UserRowProfession(leaked);
  }

  /** `check_if_pii_data_present` filtering `users_data`, order kept. */
  function Kept(users: seq<Record>): (kept: seq<Record>)
    ensures |kept| <= |users|
  {
    if users == [] then []
    else
      var n := |users| - 1;
      Kept(users[..n]) + (if PiiFree(users[n]) then [users[n]] else [])
  }

  /** A record is kept exactly when it passes the guard. */
  lemma {:induction false} KeptExactly(users: seq<Record>)
    ensures forall u :: u in Kept(users) ==> u in users && PiiFree(u)
    ensures forall u :: u in users && PiiFree(u) ==> u in Kept(users)
  {
    if users != [] {
      var n := |users| - 1;
      KeptExactly(users[..n]);
      assert users == users[..n] + [users[n]];
    }
  }

  /** `records_to_insert`: one row per kept user, in order; the first failing mapping raises. */
  function UserRows(users: seq<Record>): (rows: Result<seq<Record>>)
  {
    if users == [] then Ok([])
    else
      var n := |users| - 1;
      match UserRows(users[..n])
      case Err(m) => Err(m)
      case Ok(rows) =>
        if !PiiFree(users[n]) then Ok(rows)
        else match UserRow(users[n])
          case Err(m) => Err(m)
          case Ok(row) => Ok(rows + [row])
  }

  /** The rows are the kept users' rows, and the mapping fails exactly when some kept user's does. */
  lemma {:induction false} UserRowsOfKept(users: seq<Record>)
    ensures UserRows(users).Ok? <==> forall j :: 0 <= j < |Kept(users)| ==> UserRow(Kept(users)[j]).Ok?
    ensures UserRows(users).Ok? ==>
      |UserRows(users).value| == |Kept(users)| &&
      forall j :: 0 <= j < |Kept(users)| ==> UserRows(users).value[j] == UserRow(Kept(users)[j]).value
  {
    if users != [] {
      var n := |users| - 1;
      UserRowsOfKept(users[..n]);
      var kept := Kept(users[..n]);
      assert forall j :: 0 <= j < |kept| ==> Kept(users)[j] == kept[j];
      if PiiFree(users[n]) {
        assert Kept(users) == kept + [users[n]];
        assert Kept(users)[|kept|] == users[n];
      } else {
        assert Kept(users) == kept;
      }
    }
  }

  /**
   * The loop of `insert_user_data`: the guard's verdict and the row for each user
   * it keeps, in order; an exception while mapping ends it.
   */
  method MapUsers(users: seq<Record>) returns (rows: Result<seq<Record>>)
    ensures rows == UserRows(users)
  {
    var kept: seq<Record> := [];
    var i := 0;
    while i < |users|
      invariant 0 <= i <= |users|
      invariant UserRows(users[..i]) == Ok(kept)
    {
      assert users[..i + 1][..i] == users[..i];
      var removed := CheckIfPiiDataPresent(users[i]);
      if removed {
        var row := UserRow(users[i]);
        if row.Err? {
          UserRowsStopped(users, i + 1);
          return Err(row.msg);
        }
        kept := kept + [row.value];
      }
      i := i + 1;
    }
    assert users[..i] == users;
    return Ok(kept);
  }

  /**
   * `insert_user_data`: maps the users the guard keeps (an exception while mapping
   * ends it before anything is inserted) and loads them with timestamps.
   */
  method InsertUserData(db: MySqlDb, users: seq<Record>, now: nat -> string) returns (res: Result<bool>)
    requires db.Valid()
    modifies db
    ensures db.Valid() && db.views == old(db.views)
    ensures UserRows(users).Err? ==> res == Err(UserRows(users).msg) && db.tables == old(db.tables)
    ensures UserRows(users).Ok? ==>
      var b := InsertBatch(old(db.tables), UsersTable, UserRows(users).value, true, now, |UserRows(users).value|);
      res == Ok(Failures(b.outcomes) == 0) && db.tables == b.tables
  {
    var rows := MapUsers(users);
    if rows.Err? {
      return Err(rows.msg);
    }
    var ok, _, _ := InsertData(db, UsersTable, rows.value, true, now);
    return Ok(ok);
  }

  /** Once the mapping has raised, later users do not matter. */
  lemma {:induction false} UserRowsStopped(users: seq<Record>, i: nat)
    requires i <= |users| && UserRows(users[..i]).Err?
    ensures UserRows(users) == UserRows(users[..i])
    decreases |users|
  {
    if i < |users| {
      var n := |users| - 1;
      assert users[..n][..i] == users[..i];
      UserRowsStopped(users[..n], i);
    } else {
      assert users[..i] == users;
    }
  }

  /** A user record the guard rejects is dropped without a trace, wherever it stands. */
  lemma GuardDropsSilently(users: seq<Record>, u: Record)
    requires !PiiFree(u)
    ensures UserRows(users + [u]) == UserRows(users)
  {
    assert (users + [u])[..|users|] == users;
  }

  /**
   * On a warehouse whose `users_raw` table is as created, loading users never
   * counts a failure: every row names exactly the table's columns.
   */
  lemma UserLoadSucceeds(db: Tables, users: seq<Record>, now: nat -> string)
    requires DbValid(db) && UsersTable in db && db[UsersTable] == Schema()[UsersTable].(rows := db[UsersTable].rows)
    requires UserRows(users).Ok?
    requires CleanUsers(Kept(users), now)
    ensures Failures(InsertBatch(db, UsersTable, UserRows(users).value, true, now, |UserRows(users).value|).outcomes) == 0
  {
    var rows := UserRows(users).value;
    UserRowsFit(db, users);
    UserRowsClean(users, now);
    BatchSucceeds(db, UsersTable, rows, true, now, |rows|);
  }

  /** The condition on the kept users is the condition `BatchSucceeds` needs on the rows built from them. */
  lemma UserRowsClean(users: seq<Record>, now: nat -> string)
    requires UserRows(users).Ok? && CleanUsers(Kept(users), now)
    ensures CleanSplices(UserRows(users).value, true, now, |UserRows(users).value|)
  {
    var rows := UserRows(users).value;
    UserRowsOfKept(users);
    forall k | 0 <= k < |rows| ensures Sql.UnquotedValues(Prepared(rows[k], true, now(k))) {
      assert rows[k] == UserRow(Kept(users)[k]).value;
    }
    CleanSplicesAll(rows, true, now, |rows|);
  }

  /** Every row `UserRows` builds fits the `users` table of the schema. */
  lemma UserRowsFit(db: Tables, users: seq<Record>)
    requires UsersTable in db && db[UsersTable] == Schema()[UsersTable].(rows := db[UsersTable].rows)
    requires UserRows(users).Ok?
    ensures forall k :: 0 <= k < |UserRows(users).value| ==> Fits(db[UsersTable], UserRows(users).value[k])
  {
    var rows := UserRows(users).value;
    UserRowsOfKept(users);
    forall k | 0 <= k < |rows| ensures Fits(db[UsersTable], rows[k]) {
      UserRowFits(db, Kept(users)[k]);
    }
  }

  /** The row built from one user names only columns of the `users` table. */
  lemma UserRowFits(db: Tables, u: Record)
    requires UsersTable in db && db[UsersTable] == Schema()[UsersTable].(rows := db[UsersTable].rows)
    requires UserRow(u).Ok?
    ensures Fits(db[UsersTable], UserRow(u).value)
  {
    UserRowColumns(u);
    UserTableColumns();
    var row := UserRow(u).value;
    var columns := db[UsersTable].columns;
    assert columns == UserColumnNames + [UpdatedAtColumn];
    forall j | 0 <= j < |row| ensures row[j].0 in columns {
      assert row[j].0 == Keys(row)[j] == columns[j];
    }
  }

  /** The stamped, stringified row of every kept user carries no quote or backslash into the SQL. */
  predicate CleanUsers(kept: seq<Record>, now: nat -> string)
  {
    forall k :: 0 <= k < |kept| && UserRow(kept[k]).Ok? ==> Sql.UnquotedValues(Prepared(UserRow(kept[k]).value, true, now(k)))
  }

  // ---------------------------------------------------------------------------
  // insert_subscription_data and insert_message_data

  /** `{column: record.get(key), ...}` for the listed (column, key) pairs. */
  function Mapped(r: Record, columns: seq<(string, string)>): (row: Record)
    ensures |row| == |columns|
    ensures forall k :: 0 <= k < |columns| ==> row[k] == (columns[k].0, Get(r, columns[k].1))
  {
    seq(|columns|, k requires 0 <= k < |columns| => (columns[k].0, Get(r, columns[k].1)))
  }

  /** The row reads only the listed keys: any other field of the record is never loaded. */
  lemma MappedIgnores(r: Record, columns: seq<(string, string)>, key: string, v: Value)
    requires forall k :: 0 <= k < |columns| ==> columns[k].1 != key
    ensures Mapped(Set(r, key, v), columns) == Mapped(r, columns)
  {
    SetEffect(r, key, v);
  }

  /** The `subscriptions_raw` columns and the subscription keys they come from. */
  const SubscriptionColumns: seq<(string, string)> := [
    ("user_id", "user_id"), ("created_at", "createdAt"), ("start_date", "startDate"),
    ("end_date", "endDate"), ("status", "status"), ("amount", "amount")]

  /** The `messages_raw` columns and the message keys they come from. */
  const MessageColumns: seq<(string, string)> := [
    ("id", "id"), ("created_at", "createdAt"), ("receiver_id", "receiverId"), ("sender_id", "senderId")]

  /** A subscription row holds the `subscriptions_raw` columns in table order, `last_updated_at` aside. */
  lemma SubscriptionRowColumns(r: Record)
    ensures Keys(Mapped(r, SubscriptionColumns)) + [UpdatedAtColumn] == Schema()[SubscriptionsTable].columns
  {
    var row := Mapped(r, SubscriptionColumns);
    assert Keys(row) == ["user_id", "created_at", "start_date", "end_date", "status", "amount"] by {
      assert forall k :: 0 <= k < |row| ==> Keys(row)[k] == SubscriptionColumns[k].0;
    }
    assert SubscriptionsTable in Schema();
  }

  /** A message row holds each `messages_raw` column (in another order), `last_updated_at` aside. */
  lemma MessageRowColumns(r: Record)
    ensures forall c :: c in Keys(Mapped(r, MessageColumns)) + [UpdatedAtColumn] <==> c in Schema()[MessagesTable].columns
  {
    var row := Mapped(r, MessageColumns);
    assert Keys(row) == ["id", "created_at", "receiver_id", "sender_id"] by {
      assert forall k :: 0 <= k < |row| ==> Keys(row)[k] == MessageColumns[k].0;
    }
  }

  /** The message text never reaches the warehouse: the row does not depend on it. */
  lemma MessageTextIgnored(r: Record, text: Value)
    ensures Mapped(Set(r, "message", text), MessageColumns) == Mapped(r, MessageColumns)
  {
    MappedIgnores(r, MessageColumns, "message", text);
  }

  /** `[{...} for record in data]`, one row per record, in order. */
  method MapAll(data: seq<Record>, columns: seq<(string, string)>) returns (rows: seq<Record>)
    ensures |rows| == |data|
    ensures forall k :: 0 <= k < |data| ==> rows[k] == Mapped(data[k], columns)
  {
    rows := [];
    var i := 0;
    while i < |data|
      invariant 0 <= i <= |data| && |rows| == i
      invariant forall k :: 0 <= k < i ==> rows[k] == Mapped(data[k], columns)
    {
      rows := rows + [Mapped(data[i], columns)];
      i := i + 1;
    }
  }

  /** The rows of a batch of records under one column mapping. */
  function MappedAll(data: seq<Record>, columns: seq<(string, string)>): (rows: seq<Record>)
    ensures |rows| == |data|
    ensures forall k :: 0 <= k < |data| ==> rows[k] == Mapped(data[k], columns)
  {
    seq(|data|, k requires 0 <= k < |data| => Mapped(data[k], columns))
  }

  /** `insert_subscription_data` */
  method InsertSubscriptionData(db: MySqlDb, subscriptions: seq<Record>, now: nat -> string) returns (ok: bool)
    requires db.Valid()
    modifies db
    ensures db.Valid() && db.views == old(db.views)
    ensures var b := InsertBatch(old(db.tables), SubscriptionsTable, MappedAll(subscriptions, SubscriptionColumns), true, now, |subscriptions|);
      db.tables == b.tables && (ok <==> Failures(b.outcomes) == 0)
  {
    var rows := MapAll(subscriptions, SubscriptionColumns);
    assert rows == MappedAll(subscriptions, SubscriptionColumns);
    var done, _, _ := InsertData(db, SubscriptionsTable, rows, true, now);
    ok := done;
  }

  /** `insert_message_data` */
  method InsertMessageData(db: MySqlDb, messages: seq<Record>, now: nat -> string) returns (ok: bool)
    requires db.Valid()
    modifies db
    ensures db.Valid() && db.views == old(db.views)
    ensures var b := InsertBatch(old(db.tables), MessagesTable, MappedAll(messages, MessageColumns), true, now, |messages|);
      db.tables == b.tables && (ok <==> Failures(b.outcomes) == 0)
  {
    var rows := MapAll(messages, MessageColumns);
    assert rows == MappedAll(messages, MessageColumns);
    var done, _, _ := InsertData(db, MessagesTable, rows, true, now);
    ok := done;
  }

  /** `subscriptions_raw` is created with every column the subscription rows name, and no AUTO_INCREMENT id. */
  lemma SubscriptionTableColumns()
    ensures SubscriptionsTable in Schema() && !Schema()[SubscriptionsTable].autoId && UpdatedAtColumn in Schema()[SubscriptionsTable].columns
    ensures forall k :: 0 <= k < |SubscriptionColumns| ==> SubscriptionColumns[k].0 in Schema()[SubscriptionsTable].columns
  {
    var t := Schema()[SubscriptionsTable];
    assert t.columns == ["user_id", "created_at", "start_date", "end_date", "status", "amount", UpdatedAtColumn];
  }

  /** `messages_raw` is created with every column the message rows name, and no AUTO_INCREMENT id. */
  lemma MessageTableColumns()
    ensures MessagesTable in Schema() && !Schema()[MessagesTable].autoId && UpdatedAtColumn in Schema()[MessagesTable].columns
    ensures forall k :: 0 <= k < |MessageColumns| ==> MessageColumns[k].0 in Schema()[MessagesTable].columns
  {
    var t := Schema()[MessagesTable];
    assert t.columns == ["created_at", "receiver_id", "id", "sender_id", UpdatedAtColumn];
  }

  /**
   * On a warehouse whose `subscriptions_raw` table is as created, loading
   * subscriptions never counts a failure.
   */
  lemma SubscriptionLoadSucceeds(db: Tables, subscriptions: seq<Record>, now: nat -> string)
    requires DbValid(db) && SubscriptionsTable in db
    requires db[SubscriptionsTable] == Schema()[SubscriptionsTable].(rows := db[SubscriptionsTable].rows)
    requires CleanMapped(subscriptions, SubscriptionColumns, now, |subscriptions|)
    ensures Failures(InsertBatch(db, SubscriptionsTable, MappedAll(subscriptions, SubscriptionColumns), true, now, |subscriptions|).outcomes) == 0
  {
    SubscriptionTableColumns();
    var n := |subscriptions|;
    MappedLoadSucceeds(db, SubscriptionsTable, subscriptions, SubscriptionColumns, now, n);
  }

  /**
   * On a warehouse whose `messages_raw` table is as created, loading messages
   * never counts a failure.
   */
  lemma MessageLoadSucceeds(db: Tables, messages: seq<Record>, now: nat -> string)
    requires DbValid(db) && MessagesTable in db
    requires db[MessagesTable] == Schema()[MessagesTable].(rows := db[MessagesTable].rows)
    requires CleanMapped(messages, MessageColumns, now, |messages|)
    ensures Failures(InsertBatch(db, MessagesTable, MappedAll(messages, MessageColumns), true, now, |messages|).outcomes) == 0
  {
    MessageTableColumns();
    var n := |messages|;
    MappedLoadSucceeds(db, MessagesTable, messages, MessageColumns, now, n);
  }

  /**
   * Loading records under a column mapping never counts a failure when the
   * table has `last_updated_at`, every mapped column and no AUTO_INCREMENT id.
   */
  lemma MappedLoadSucceeds(db: Tables, name: string, data: seq<Record>, columns: seq<(string, string)>, now: nat -> string, n: nat)
    requires DbValid(db) && name in db && UpdatedAtColumn in db[name].columns && !db[name].autoId && n <= |data|
    requires forall k :: 0 <= k < |columns| ==> columns[k].0 in db[name].columns
    requires CleanMapped(data, columns, now, n)
    ensures Failures(InsertBatch(db, name, MappedAll(data, columns), true, now, n).outcomes) == 0
  {
    var rows := MappedAll(data, columns);
    forall k | 0 <= k < n ensures Sql.UnquotedValues(Prepared(rows[k], true, now(k))) {
      assert rows[k] == Mapped(data[k], columns);
    }
    CleanSplicesAll(rows, true, now, n);
    MappedAllFit(db[name], data, columns);
    BatchSucceeds(db, name, rows, true, now, n);
  }

  /** The stamped, stringified row of each of the first `n` records carries no quote or backslash into the SQL. */
  predicate CleanMapped(data: seq<Record>, columns: seq<(string, string)>, now: nat -> string, n: nat)
    requires n <= |data|
  {
    forall k :: 0 <= k < n ==> Sql.UnquotedValues(Prepared(Mapped(data[k], columns), true, now(k)))
  }

  /** Every mapped row fits such a table. */
  lemma MappedAllFit(t: Table, data: seq<Record>, columns: seq<(string, string)>)
    requires !t.autoId && forall k :: 0 <= k < |columns| ==> columns[k].0 in t.columns
    ensures forall k :: 0 <= k < |data| ==> Fits(t, MappedAll(data, columns)[k])
  {
    forall k | 0 <= k < |data| ensures Fits(t, MappedAll(data, columns)[k]) {
      MappedFits(t, data[k], columns);
    }
  }

  /** A row of listed table columns fits a table without an auto-increment id. */
  lemma MappedFits(t: Table, r: Record, columns: seq<(string, string)>)
    requires !t.autoId && forall k :: 0 <= k < |columns| ==> columns[k].0 in t.columns
    ensures Fits(t, Mapped(r, columns))
  {
    var row := Mapped(r, columns);
    assert forall j :: 0 <= j < |row| ==> row[j].0 == columns[j].0;
  }
}
