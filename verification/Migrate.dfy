/** The migration runner: a ledger of recorded versions with checksums, one transaction per
    migration, and a loop that works from a snapshot of the ledger. */
module Migrate {
  import opened Wrappers
  import opened Text

  datatype Migration = Migration(version: string, name: string, sql: string, checksum: string)

  /** The migrations committed so far, in order, and the rows of the migrations table. */
  datatype Database = Database(history: seq<Migration>, ledger: map<string, string>)

  /** Whether a statement text succeeds on the schema a history has built. */
  type Schema = (seq<Migration>, string) -> bool

  datatype MigrateError =
    | ChecksumMismatch(version: string)
    | StatementFailed(version: string)
    | DuplicateVersion
    | DatabaseFailed

  /******* What a run commits *******/

  /** The migrations of a list that a ledger does not record. */
  function Pending(list: seq<Migration>, ledger: map<string, string>): seq<Migration> {
    if list == [] then []
    else
      var n := |list| - 1;
      Pending(list[..n], ledger) + (if list[n].version in ledger then [] else [list[n]])
  }

  function Record(ledger: map<string, string>, ms: seq<Migration>): map<string, string> {
    if ms == [] then ledger
    else
      var n := |ms| - 1;
      Record(ledger, ms[..n])[ms[n].version := ms[n].checksum]
  }

  function Committed(db: Database, ms: seq<Migration>): Database {
    Database(db.history + ms, Record(db.ledger, ms))
  }

  /** Whether the i-th migration gets through: recorded with the same checksum, or not recorded,
      not committed a moment ago under the same version, and its statement succeeds. */
  predicate Passes(schema: Schema, db: Database, list: seq<Migration>, i: nat)
    requires i < |list|
  {
    var m := list[i];
    if m.version in db.ledger then db.ledger[m.version] == m.checksum
    else
      && schema(db.history + Pending(list[..i], db.ledger), m.sql)
      && forall j :: 0 <= j < i ==> list[j].version != m.version
  }

  predicate PassesUpto(schema: Schema, db: Database, list: seq<Migration>, k: nat)
    requires k <= |list|
  {
    forall i :: 0 <= i < k ==> Passes(schema, db, list, i)
  }

  /******* The runner *******/

  class Runner {
    const schema: Schema
    var history: seq<Migration>
    var ledger: map<string, string>

    function Db(): Database
      reads this
    {
      Database(history, ledger)
    }

    constructor (schema: Schema, db: Database)
      ensures this.schema == schema && Db() == db
    {
      this.schema := schema;
      history, ledger := db.history, db.ledger;
    }

    /** Reads the recorded versions row by row. */
    method Applied() returns (result: map<string, string>)
      ensures result == ledger
    {
      result := map[];
      var rows := ledger.Items;
      while rows != {}
        invariant rows <= ledger.Items
        invariant forall v :: v in result <==> v in ledger && (v, ledger[v]) !in rows
        invariant forall v :: v in result ==> result[v] == ledger[v]
        decreases |rows|
      {
        var row :| row in rows;
        rows := rows - {row};
        result := result[row.0 := row.1];
      }
    }

    /** One migration in one transaction, which the database may refuse: the statement, then the
        ledger row, whose version is its primary key.  A failure leaves nothing behind. */
    method Apply(m: Migration, refused: bool) returns (err: Option<MigrateError>)
      modifies this
      ensures err.None? <==> !refused && schema(old(history), m.sql) && m.version !in old(ledger)
      ensures err.Some? ==> !err.value.ChecksumMismatch?
      ensures Db() == if err.None? then Committed(old(Db()), [m]) else old(Db())
    {
      if refused { return Some(DatabaseFailed); }
      var tx := Database(history, ledger);
      if !schema(tx.history, m.sql) { return Some(StatementFailed(m.version)); }
      tx := tx.(history := tx.history + [m]);
      if m.version in tx.ledger { return Some(DuplicateVersion); }
      tx := tx.(ledger := tx.ledger[m.version := m.checksum]);
      RecordOne(ledger, m);
      history, ledger := tx.history, tx.ledger;
      return None;
    }

    /** Works through the list from one snapshot of the ledger; `done` is where it stopped.  What
        it committed is exactly the unrecorded migrations before that, in list order. */
    method Up(list: seq<Migration>, refused: nat -> bool) returns (err: Option<MigrateError>, ghost done: nat)
      modifies this
      ensures done <= |list| && (err.None? <==> done == |list|)
      ensures PassesUpto(schema, old(Db()), list, done)
      ensures done < |list| ==> refused(done) || !Passes(schema, old(Db()), list, done)
      ensures done < |list| ==> (err.value.ChecksumMismatch? <==> list[done].version in old(ledger))
      ensures Db() == Committed(old(Db()), Pending(list[..done], old(ledger)))
    {
      var applied := Applied();
      ghost var db := Db();
      done := 0;
      assert Committed(db, []) == db;
      hide Record, HasVersion;
      for i := 0 to |list|
        invariant done == i && PassesUpto(schema, db, list, i)
        invariant Db() == Committed(db, Pending(list[..i], db.ledger))
      {
        var m := list[i];
        PendingStep(list, i, db.ledger);
        assert Pending(list[..i], db.ledger) + [] == Pending(list[..i], db.ledger);
        if m.version in applied {
          if applied[m.version] != m.checksum { return Some(ChecksumMismatch(m.version)), i; }
        } else {
          RecordHas(db.ledger, Pending(list[..i], db.ledger), m.version);
          PendingVersions(list[..i], db.ledger, m.version);
          VersionsBefore(list, i, m.version);
          CommittedOneMore(db, Pending(list[..i], db.ledger), m);
          err := Apply(m, refused(i));
          if err.Some? { return err, i; }
        }
        done := i + 1;
      }
      return None, |list|;
    }
  }

  lemma RecordOne(ledger: map<string, string>, m: Migration)
    ensures Record(ledger, [m]) == ledger[m.version := m.checksum]
  {
    assert [m][..0] == [];
  }

  lemma PendingStep(list: seq<Migration>, i: nat, ledger: map<string, string>)
    requires i < |list|
    ensures Pending(list[..i + 1], ledger) ==
      Pending(list[..i], ledger) + (if list[i].version in ledger then [] else [list[i]])
  {
    assert list[..i + 1][..i] == list[..i];
  }

  lemma CommittedOneMore(db: Database, ms: seq<Migration>, m: Migration)
    ensures Committed(db, ms + [m]) == Committed(Committed(db, ms), [m])
  {
    assert (ms + [m])[..|ms|] == ms;
    RecordOne(Record(db.ledger, ms), m);
    Assoc(db.history, ms, [m]);
  }

  predicate HasVersion(ms: seq<Migration>, v: string) { exists i :: 0 <= i < |ms| && ms[i].version == v }

  lemma {:induction false} RecordHas(ledger: map<string, string>, ms: seq<Migration>, v: string)
    ensures v in Record(ledger, ms) <==> v in ledger || HasVersion(ms, v)
    ensures !HasVersion(ms, v) && v in ledger ==> Record(ledger, ms)[v] == ledger[v]
  {
    if ms != [] {
      var n := |ms| - 1;
      RecordHas(ledger, ms[..n], v);
      if HasVersion(ms[..n], v) {
        var i :| 0 <= i < n && ms[..n][i].version == v;
        assert ms[i].version == v;
      }
      assert forall i :: 0 <= i < n && ms[i].version == v ==> ms[..n][i].version == v;
    }
  }

  /** A version is pending when the ledger lacks it and the list has it. */
  lemma {:induction false} PendingVersions(list: seq<Migration>, ledger: map<string, string>, v: string)
    ensures HasVersion(Pending(list, ledger), v) <==> v !in ledger && HasVersion(list, v)
  {
    if list != [] {
      var n := |list| - 1;
      var before, last := Pending(list[..n], ledger), if list[n].version in ledger then [] else [list[n]];
      PendingVersions(list[..n], ledger, v);
      VersionOfConcat(before, last, v);
      VersionOfConcat(list[..n], [list[n]], v);
      assert list == list[..n] + [list[n]];
      assert HasVersion([list[n]], v) <==> list[n].version == v by { assert [list[n]][0] == list[n]; }
    }
  }

  lemma VersionOfConcat(a: seq<Migration>, b: seq<Migration>, v: string)
    ensures HasVersion(a + b, v) <==> HasVersion(a, v) || HasVersion(b, v)
  {
    if i :| 0 <= i < |a| && a[i].version == v { assert (a + b)[i].version == v; }
    if i :| 0 <= i < |b| && b[i].version == v { assert (a + b)[|a| + i].version == v; }
  }

  /******* When a run succeeds *******/

  predicate DistinctVersions(ms: seq<Migration>) { forall i, j :: 0 <= i < j < |ms| ==> ms[i].version != ms[j].version }

  /** Every recorded migration of the list has its recorded checksum. */
  predicate ChecksumsMatch(list: seq<Migration>, ledger: map<string, string>) {
    forall i :: 0 <= i < |list| && list[i].version in ledger ==> ledger[list[i].version] == list[i].checksum
  }

  /** Each statement succeeds after the ones before it. */
  predicate RunsInOrder(schema: Schema, history: seq<Migration>, ms: seq<Migration>) {
    forall j :: 0 <= j < |ms| ==> schema(history + ms[..j], ms[j].sql)
  }

  lemma PassesPrefix(schema: Schema, db: Database, list: seq<Migration>, k: nat)
    requires k <= |list|
    ensures PassesUpto(schema, db, list[..k], k) <==> PassesUpto(schema, db, list, k)
  {
    forall i | 0 <= i < k ensures Passes(schema, db, list[..k], i) <==> Passes(schema, db, list, i) {
      assert list[..k][..i] == list[..i];
    }
  }

  lemma AppendConditions(schema: Schema, history: seq<Migration>, ms: seq<Migration>, m: Migration)
    ensures DistinctVersions(ms + [m]) <==> DistinctVersions(ms) && !HasVersion(ms, m.version)
    ensures RunsInOrder(schema, history, ms + [m]) <==> RunsInOrder(schema, history, ms) && schema(history + ms, m.sql)
  {
    var all := ms + [m];
    if DistinctVersions(all) {
      forall i, j | 0 <= i < j < |ms|
        ensures ms[i].version != ms[j].version
      {
        assert all[i] == ms[i] && all[j] == ms[j];
      }
      forall i | 0 <= i < |ms| ensures ms[i].version != m.version { assert all[i] == ms[i] && all[|ms|] == m; }
    }
    forall j | 0 <= j < |ms| ensures all[..j] == ms[..j] && all[j] == ms[j] {}
    assert all[..|ms|] == ms && all[|ms|] == m;
    if RunsInOrder(schema, history, all) {
      forall j | 0 <= j < |ms|
        ensures schema(history + ms[..j], ms[j].sql)
      {
        assert schema(history + all[..j], all[j].sql);
      }
    }
  }

  lemma VersionsBefore(list: seq<Migration>, n: nat, v: string)
    requires n <= |list|
    ensures HasVersion(list[..n], v) <==> exists j :: 0 <= j < n && list[j].version == v
  {
    if j :| 0 <= j < n && list[j].version == v { assert list[..n][j].version == v; }
  }

  lemma MatchStep(list: seq<Migration>, ledger: map<string, string>)
    requires list != []
    ensures var n := |list| - 1;
      ChecksumsMatch(list, ledger) <==>
        (ChecksumsMatch(list[..n], ledger) &&
         (list[n].version in ledger ==> ledger[list[n].version] == list[n].checksum))
  {
    assert forall i :: 0 <= i < |list| - 1 ==> list[..|list| - 1][i] == list[i];
  }

  /** A run succeeds exactly when recorded checksums match, no unrecorded version repeats, and the
      unrecorded statements succeed in order.  In particular a list repeating an unrecorded
      version always fails. */
  lemma {:induction false} SucceedsExactly(schema: Schema, db: Database, list: seq<Migration>)
    ensures PassesUpto(schema, db, list, |list|) <==>
      (&& ChecksumsMatch(list, db.ledger) && DistinctVersions(Pending(list, db.ledger))
       && RunsInOrder(schema, db.history, Pending(list, db.ledger)))
  {
    if list != [] {
      var n := |list| - 1;
      var before, m, pending := list[..n], list[n], Pending(list[..n], db.ledger);
      SucceedsExactly(schema, db, before);
      PassesPrefix(schema, db, list, n);
      PassesOneMore(schema, db, list, n);
      MatchStep(list, db.ledger);
      assert list[..n + 1] == list;
      PendingStep(list, n, db.ledger);
      hide PassesUpto, ChecksumsMatch, DistinctVersions, RunsInOrder, Pending, HasVersion;
      if m.version in db.ledger {
        assert pending + [] == pending;
      } else {
        PendingVersions(before, db.ledger, m.version);
        VersionsBefore(list, n, m.version);
        AppendConditions(schema, db.history, pending, m);
      }
    }
  }

  lemma PassesOneMore(schema: Schema, db: Database, list: seq<Migration>, n: nat)
    requires n < |list|
    ensures PassesUpto(schema, db, list, n + 1) <==> PassesUpto(schema, db, list, n) && Passes(schema, db, list, n)
  {}

  /** Positions of a passing prefix are recorded with their checksums afterwards. */
  lemma {:induction false} PassedAreRecorded(schema: Schema, db: Database, list: seq<Migration>, k: nat)
    requires k <= |list| && PassesUpto(schema, db, list, k)
    ensures var ledger := Record(db.ledger, Pending(list[..k], db.ledger));
      forall i :: 0 <= i < k ==> list[i].version in ledger && ledger[list[i].version] == list[i].checksum
  {
    if k > 0 {
      var n, pending := k - 1, Pending(list[..k - 1], db.ledger);
      PassedAreRecorded(schema, db, list, n);
      PendingStep(list, n, db.ledger);
      assert Passes(schema, db, list, n);
      if list[n].version in db.ledger {
        PendingVersions(list[..n], db.ledger, list[n].version);
        RecordHas(db.ledger, pending, list[n].version);
        assert pending + [] == pending;
      } else {
        assert (pending + [list[n]])[..|pending|] == pending;
      }
    }
  }

  /** Resuming: from what a run of the list had committed before position k, a run of the same
      list passes everywhere if one from the start would, and ends in the same database.  With
      k == |list| this says a second run changes nothing; with a list repaired from k on, that
      re-running after a failure at k completes. */
  lemma ResumeCompletes(schema: Schema, db: Database, list: seq<Migration>, k: nat)
    requires k <= |list| && PassesUpto(schema, db, list, |list|)
    ensures var half := Committed(db, Pending(list[..k], db.ledger));
      && PassesUpto(schema, half, list, |list|)
      && Committed(half, Pending(list, half.ledger)) == Committed(db, Pending(list, db.ledger))
  {
    var half := Committed(db, Pending(list[..k], db.ledger));
    forall i | 0 <= i < |list| ensures Passes(schema, half, list, i) {
      ResumePasses(schema, db, list, k, i);
    }
    RestPending(schema, db, list, k, |list|);
    assert list[..|list|] == list;
    RecordConcat(db.ledger, Pending(list[..k], db.ledger), Pending(list, half.ledger));
    Assoc(db.history, Pending(list[..k], db.ledger), Pending(list, half.ledger));
  }

  lemma ResumePasses(schema: Schema, db: Database, list: seq<Migration>, k: nat, i: nat)
    requires k <= |list| && i < |list| && PassesUpto(schema, db, list, |list|)
    ensures Passes(schema, Committed(db, Pending(list[..k], db.ledger)), list, i)
  {
    var done := Pending(list[..k], db.ledger);
    var half, m := Committed(db, done), list[i];
    PassedAreRecorded(schema, db, list, k);
    RecordHas(db.ledger, done, m.version);
    PendingVersions(list[..k], db.ledger, m.version);
    VersionsBefore(list, k, m.version);
    assert Passes(schema, db, list, i);
    if i >= k && m.version !in half.ledger {
      RestPending(schema, db, list, k, i);
      Assoc(db.history, done, Pending(list[..i], half.ledger));
    }
  }

  /** What is still pending after position k of a passing list is what follows it there. */
  lemma {:induction false} RestPending(schema: Schema, db: Database, list: seq<Migration>, k: nat, i: nat)
    requires k <= i <= |list| && PassesUpto(schema, db, list, i)
    ensures var done := Pending(list[..k], db.ledger);
      Pending(list[..i], db.ledger) == done + Pending(list[..i], Record(db.ledger, done))
    decreases i
  {
    var done := Pending(list[..k], db.ledger);
    var ledger := Record(db.ledger, done);
    if i == k {
      NothingPending(schema, db, list, k, k);
      assert done + [] == done;
    } else {
      var n, m := i - 1, list[i - 1];
      RestPending(schema, db, list, k, n);
      PendingStep(list, n, db.ledger);
      PendingStep(list, n, ledger);
      RecordHas(db.ledger, done, m.version);
      PendingVersions(list[..k], db.ledger, m.version);
      assert Passes(schema, db, list, n);
      VersionsBefore(list, k, m.version);
      Assoc(done, Pending(list[..n], ledger), if m.version in ledger then [] else [m]);
    }
  }

  lemma {:induction false} NothingPending(schema: Schema, db: Database, list: seq<Migration>, k: nat, i: nat)
    requires i <= k <= |list| && PassesUpto(schema, db, list, k)
    ensures Pending(list[..i], Record(db.ledger, Pending(list[..k], db.ledger))) == []
  {
    if i > 0 {
      NothingPending(schema, db, list, k, i - 1);
      PassedAreRecorded(schema, db, list, k);
      PendingStep(list, i - 1, Record(db.ledger, Pending(list[..k], db.ledger)));
    }
  }

  lemma {:induction false} RecordConcat(ledger: map<string, string>, a: seq<Migration>, b: seq<Migration>)
    ensures Record(ledger, a + b) == Record(Record(ledger, a), b)
  {
    if b == [] {
      assert a + b == a;
    } else {
      var n := |b| - 1;
      RecordConcat(ledger, a, b[..n]);
      assert (a + b)[..|a + b| - 1] == a + b[..n];
    }
  }

  /** A list repaired after a failure at k passes from the failed database, and ends where one
      run of the repaired list from the start would have. */
  lemma RepairCompletes(schema: Schema, db: Database, list: seq<Migration>, repaired: seq<Migration>, k: nat)
    requires k <= |list| && k <= |repaired| && repaired[..k] == list[..k]
    requires PassesUpto(schema, db, repaired, |repaired|)
    ensures var failed := Committed(db, Pending(list[..k], db.ledger));
      && PassesUpto(schema, failed, repaired, |repaired|)
      && Committed(failed, Pending(repaired, failed.ledger)) == Committed(db, Pending(repaired, db.ledger))
  {
    ResumeCompletes(schema, db, repaired, k);
  }

  /******* Reading migrations from files *******/

  datatype File = File(name: string, isDir: bool, body: string)

  predicate IsMigration(f: File) { !f.isDir && HasSuffix(f.name, ".sql") }

  /** `001_init.sql` is version `001`, name `init`. */
  function ParseFile(f: File, checksum: string -> string): Migration {
    var cut := Cut(TrimSuffix(f.name, ".sql"), "_");
    Migration(cut.before, cut.after, f.body, checksum(f.body))
  }

  function ParseFiles(files: seq<File>, checksum: string -> string): seq<Migration> {
    if files == [] then []
    else
      var n := |files| - 1;
      ParseFiles(files[..n], checksum) + (if IsMigration(files[n]) then [ParseFile(files[n], checksum)] else [])
  }

  predicate SortedByVersion(ms: seq<Migration>) {
    forall i, j :: 0 <= i < j < |ms| ==> StringLe(ms[i].version, ms[j].version)
  }

  /** What a file gives: `v_n.sql` the migration n of version v, `v.sql` one of version v without a name, both
      with the text and its checksum; a directory or any other name gives none. */
  lemma FileReads(f: File, version: string, name: string, checksum: string -> string)
    requires '_' !in version
    ensures f.name == version + "_" + name + ".sql" ==>
      ParseFile(f, checksum) == Migration(version, name, f.body, checksum(f.body))
    ensures f.name == version + ".sql" ==>
      ParseFile(f, checksum) == Migration(version, "", f.body, checksum(f.body))
    ensures IsMigration(f) <==> !f.isDir && |f.name| >= 4 && f.name[|f.name| - 4..] == ".sql"
  {
    if f.name == version + "_" + name + ".sql" {
      var stem := version + "_" + name;
      assert f.name[|f.name| - 4..] == ".sql" && f.name[..|f.name| - 4] == stem;
      CutVersion(version, name, stem);
    }
    if f.name == version + ".sql" {
      assert f.name[|f.name| - 4..] == ".sql" && f.name[..|f.name| - 4] == version;
      NoCut(version);
    }
  }

  lemma CutVersion(version: string, name: string, stem: string)
    requires '_' !in version && stem == version + "_" + name
    ensures Cut(stem, "_") == CutResult(version, name, true)
  {
    assert stem[|version|..|version| + 1] == "_";
    forall i | 0 <= i < |version| ensures !OccursAt(stem, "_", i) { assert stem[i..i + 1][0] == version[i]; }
    FindAt(stem, "_", |version|);
    assert stem[..|version|] == version && stem[|version| + 1..] == name;
  }

  lemma NoCut(version: string)
    requires '_' !in version
    ensures Cut(version, "_") == CutResult(version, "", false)
  {
    forall i | 0 <= i < |version| ensures !OccursAt(version, "_", i) { assert version[i..i + 1][0] == version[i]; }
  }

  /** The migrations read are those of the files, in their order. */
  lemma {:induction false} FilesRead(files: seq<File>, checksum: string -> string, m: Migration)
    ensures m in ParseFiles(files, checksum) <==>
      exists i :: 0 <= i < |files| && IsMigration(files[i]) && m == ParseFile(files[i], checksum)
  {
    hide IsMigration, ParseFile;
    if files != [] {
      var n := |files| - 1;
      FilesRead(files[..n], checksum, m);
      assert forall i :: 0 <= i < n ==> files[..n][i] == files[i];
    }
  }

  /** One for each file that is a migration. */
  lemma {:induction false} FilesCount(files: seq<File>, checksum: string -> string)
    ensures |ParseFiles(files, checksum)| == |set i | 0 <= i < |files| && IsMigration(files[i])|
  {
    hide IsMigration, ParseFile;
    if files != [] {
      var n := |files| - 1;
      FilesCount(files[..n], checksum);
      var before := set i | 0 <= i < n && IsMigration(files[i]);
      assert before == set i | 0 <= i < |files[..n]| && IsMigration(files[..n][i]);
      assert (set i | 0 <= i < |files| && IsMigration(files[i])) ==
        if IsMigration(files[n]) then before + {n} else before;
    }
  }

  method FromFS(files: seq<File>, checksum: string -> string) returns (ms: seq<Migration>)
    ensures multiset(ms) == multiset(ParseFiles(files, checksum)) && SortedByVersion(ms)
  {
    ms := [];
    for i := 0 to |files|
      invariant ms == ParseFiles(files[..i], checksum)
    {
      assert files[..i + 1][..i] == files[..i];
      if files[i].isDir || !HasSuffix(files[i].name, ".sql") { continue; }
      ms := ms + [ParseFile(files[i], checksum)];
    }
    assert files[..|files|] == files;
    ms := SortMigrations(ms);
  }

  method SortMigrations(ms: seq<Migration>) returns (r: seq<Migration>)
    ensures multiset(r) == multiset(ms) && SortedByVersion(r)
  {
    r := [];
    for i := 0 to |ms|
      invariant multiset(r) == multiset(ms[..i]) && SortedByVersion(r)
    {
      assert ms[..i + 1] == ms[..i] + [ms[i]];
      PlaceSorted(ms[i], r);
      r := Place(ms[i], r);
    }
    assert ms[..|ms|] == ms;
  }

  function Place(m: Migration, ms: seq<Migration>): (r: seq<Migration>)
    ensures multiset(r) == multiset(ms) + multiset{m}
  {
    if ms == [] then [m]
    else if StringLe(m.version, ms[0].version) then [m] + ms
    else
      assert ms == [ms[0]] + ms[1..];
      [ms[0]] + Place(m, ms[1..])
  }

  lemma {:induction false} PlaceSorted(m: Migration, ms: seq<Migration>)
    requires SortedByVersion(ms)
    ensures SortedByVersion(Place(m, ms))
  {
    if ms != [] {
      if StringLe(m.version, ms[0].version) {
        forall j | 0 <= j < |ms| ensures StringLe(m.version, ms[j].version) {
          if j > 0 { StringLeTransitive(m.version, ms[0].version, ms[j].version); }
        }
      } else {
        StringLeTotal(m.version, ms[0].version);
        PlaceSorted(m, ms[1..]);
        var rest := Place(m, ms[1..]);
        forall j | 0 <= j < |rest| ensures StringLe(ms[0].version, rest[j].version) {
          assert rest[j] in multiset(rest);
          if rest[j] != m { assert rest[j] in ms[1..]; }
        }
      }
    }
  }

  lemma SameHead(a: seq<Migration>, b: seq<Migration>)
    requires a != [] && b != [] && multiset(a) == multiset(b) && SortedByVersion(a) && SortedByVersion(b)
    requires DistinctVersions(a)
    ensures a[0] == b[0]
  {
    assert b[0] in multiset(a) && a[0] in multiset(b);
    var i :| 0 <= i < |a| && a[i] == b[0];
    var j :| 0 <= j < |b| && b[j] == a[0];
    if i > 0 && j > 0 { StringLeAntisymmetric(a[0].version, b[0].version); }
  }

  lemma WithoutHead(a: seq<Migration>)
    requires a != []
    ensures multiset(a[1..]) == multiset(a) - multiset{a[0]}
  {
    FirstAndRest(a);
  }

  /** With distinct versions the list does not depend on the order the files were read in. */
  lemma {:induction false} OrderIsForced(a: seq<Migration>, b: seq<Migration>)
    requires multiset(a) == multiset(b) && SortedByVersion(a) && SortedByVersion(b) && DistinctVersions(a)
    ensures a == b
  {
    assert |multiset(a)| == |multiset(b)|;
    if a != [] {
      SameHead(a, b);
      WithoutHead(a);
      WithoutHead(b);
      FirstAndRest(a);
      FirstAndRest(b);
      OrderIsForced(a[1..], b[1..]);
    }
  }
}
