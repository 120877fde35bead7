/** Several migration runners on one database, each with its own, possibly stale, snapshot of the
    ledger.  A statement runs inside its transaction unseen; the commit inserts the ledger row,
    whose primary key is the version. */
module MigrateRunners {
  import opened Migrate

  datatype Phase =
    | Waiting
    | Working(snapshot: map<string, string>, next: nat)
    | InTransaction(snapshot: map<string, string>, next: nat)
    | Finished
    | Aborted

  datatype World = World(db: Database, phases: seq<Phase>)

  /** One runner's next step.  `ok` is what the database answers to the statement. */
  datatype Event =
    | TakeSnapshot(who: nat)
    | Compare(who: nat)
    | Execute(who: nat, ok: bool)
    | Commit(who: nat)
    | Finish(who: nat)
    | Crash(who: nat)

  type Lists = seq<seq<Migration>>

  predicate AtMigration(lists: Lists, p: Phase, who: nat) {
    who < |lists| && (p.Working? || p.InTransaction?) && p.next < |lists[who]|
  }

  predicate Enabled(lists: Lists, w: World, e: Event) {
    && |w.phases| == |lists| && e.who < |lists|
    && var p := w.phases[e.who];
      match e
      case TakeSnapshot(_) => p.Waiting?
      case Compare(_) => p.Working? && AtMigration(lists, p, e.who) && lists[e.who][p.next].version in p.snapshot
      case Execute(_, _) => p.Working? && AtMigration(lists, p, e.who) && lists[e.who][p.next].version !in p.snapshot
      case Commit(_) => p.InTransaction? && AtMigration(lists, p, e.who)
      case Finish(_) => p.Working? && p.next == |lists[e.who]|
      case Crash(_) => true
  }

  function Next(lists: Lists, w: World, e: Event): World
    requires Enabled(lists, w, e)
  {
    var p := w.phases[e.who];
    match e
    case TakeSnapshot(_) => w.(phases := w.phases[e.who := Working(w.db.ledger, 0)])
    case Compare(_) =>
      var m := lists[e.who][p.next];
      var next := if p.snapshot[m.version] == m.checksum then Working(p.snapshot, p.next + 1) else Aborted;
      w.(phases := w.phases[e.who := next])
    case Execute(_, ok) => w.(phases := w.phases[e.who := if ok then InTransaction(p.snapshot, p.next) else Aborted])
    case Commit(_) =>
      var m := lists[e.who][p.next];
      if m.version in w.db.ledger then w.(phases := w.phases[e.who := Aborted])
      else World(Committed(w.db, [m]), w.phases[e.who := Working(p.snapshot, p.next + 1)])
    case Finish(_) => w.(phases := w.phases[e.who := Finished])
    case Crash(_) => w.(phases := w.phases[e.who := Aborted])
  }

  predicate IsRun(lists: Lists, w: World, run: seq<Event>)
    decreases |run|
  {
    run == [] || (Enabled(lists, w, run[0]) && IsRun(lists, Next(lists, w, run[0]), run[1..]))
  }

  function After(lists: Lists, w: World, run: seq<Event>): World
    requires IsRun(lists, w, run)
    decreases |run|
  {
    if run == [] then w else After(lists, Next(lists, w, run[0]), run[1..])
  }

  /** All runners waiting on a database whose ledger records its history. */
  predicate Starts(lists: Lists, w: World) {
    |w.phases| == |lists| && Consistent(w.db) && forall i :: 0 <= i < |lists| ==> w.phases[i].Waiting?
  }

  /******* What every step keeps *******/

  /** The ledger is the projection of the committed history, which has no version twice. */
  predicate Consistent(db: Database) {
    db.ledger == Record(map[], db.history) && DistinctVersions(db.history)
  }

  /** A later database: more history, and every recorded checksum as it was. */
  predicate Extends(db: Database, later: Database) {
    && db.history <= later.history
    && forall v :: v in db.ledger ==> v in later.ledger && later.ledger[v] == db.ledger[v]
  }

  /** The first n migrations of a list are recorded with their checksums. */
  predicate RecordedUpto(list: seq<Migration>, n: nat, ledger: map<string, string>)
    requires n <= |list|
  {
    forall i :: 0 <= i < n ==> list[i].version in ledger && ledger[list[i].version] == list[i].checksum
  }

  /** What a runner knows: its snapshot was true, and what lies behind it is recorded. */
  predicate Knows(list: seq<Migration>, p: Phase, db: Database) {
    match p
    case Waiting => true
    case Aborted => true
    case Finished => RecordedUpto(list, |list|, db.ledger)
    case _ =>
      && p.next <= |list| && RecordedUpto(list, p.next, db.ledger)
      && (forall v :: v in p.snapshot ==> v in db.ledger && db.ledger[v] == p.snapshot[v])
      && (p.InTransaction? ==> p.next < |list| && list[p.next].version !in p.snapshot)
  }

  predicate Invariant(lists: Lists, w: World) {
    |w.phases| == |lists| && Consistent(w.db) && forall i :: 0 <= i < |lists| ==> Knows(lists[i], w.phases[i], w.db)
  }

  lemma CommitExtends(db: Database, m: Migration)
    requires Consistent(db) && m.version !in db.ledger
    ensures Consistent(Committed(db, [m])) && Extends(db, Committed(db, [m]))
    ensures Committed(db, [m]).ledger == db.ledger[m.version := m.checksum]
  {
    RecordOne(db.ledger, m);
    assert (db.history + [m])[..|db.history|] == db.history;
    RecordHas(map[], db.history, m.version);
    AppendConditions((h, s) => true, [], db.history, m);
  }

  lemma KnowsLater(list: seq<Migration>, p: Phase, db: Database, later: Database)
    requires Knows(list, p, db) && Extends(db, later)
    ensures Knows(list, p, later)
  {}

  lemma StepKeeps(lists: Lists, w: World, e: Event)
    requires Invariant(lists, w) && Enabled(lists, w, e)
    ensures Invariant(lists, Next(lists, w, e)) && Extends(w.db, Next(lists, w, e).db)
  {
    var next, p := Next(lists, w, e), w.phases[e.who];
    assert Knows(lists[e.who], p, w.db);
    if e.Commit? && lists[e.who][p.next].version !in w.db.ledger { CommitExtends(w.db, lists[e.who][p.next]); }
    forall i | 0 <= i < |lists| ensures Knows(lists[i], next.phases[i], next.db) {
      if i != e.who { KnowsLater(lists[i], w.phases[i], w.db, next.db); }
    }
  }

  /** Over every interleaving: the ledger stays the projection of the history, no version is
      committed twice, no recorded checksum changes, and a runner that finished has all of its
      list recorded with its checksums. */
  lemma {:induction false} RunKeeps(lists: Lists, w: World, run: seq<Event>)
    requires Invariant(lists, w) && IsRun(lists, w, run)
    ensures Invariant(lists, After(lists, w, run)) && Extends(w.db, After(lists, w, run).db)
    decreases |run|
  {
    if run != [] {
      var next := Next(lists, w, run[0]);
      StepKeeps(lists, w, run[0]);
      RunKeeps(lists, next, run[1..]);
      assert w.db.history <= next.db.history <= After(lists, next, run[1..]).db.history;
    }
  }

  lemma AnyInterleaving(lists: Lists, w: World, run: seq<Event>, who: nat)
    requires Starts(lists, w) && IsRun(lists, w, run) && who < |lists|
    ensures var end := After(lists, w, run);
      && Consistent(end.db) && Extends(w.db, end.db) && |end.phases| == |lists|
      && (end.phases[who].Finished? ==> RecordedUpto(lists[who], |lists[who]|, end.db.ledger))
  {
    RunKeeps(lists, w, run);
    assert Knows(lists[who], After(lists, w, run).phases[who], After(lists, w, run).db);
  }

  /** Every committed migration was there at the start or is from some runner's list. */
  lemma {:induction false} NothingElseCommitted(lists: Lists, w: World, run: seq<Event>, m: Migration)
    requires IsRun(lists, w, run) && m in After(lists, w, run).db.history
    ensures m in w.db.history || exists i :: 0 <= i < |lists| && m in lists[i]
    decreases |run|
  {
    if run != [] {
      var next := Next(lists, w, run[0]);
      NothingElseCommitted(lists, next, run[1..], m);
      if m in next.db.history && m !in w.db.history {
        assert m in lists[run[0].who];
      }
    }
  }

  /******* What a runner does with its snapshot *******/

  /** A run cut in two. */
  lemma {:induction false} RunSplit(lists: Lists, w: World, run: seq<Event>, n: nat)
    requires IsRun(lists, w, run) && n <= |run|
    ensures IsRun(lists, w, run[..n])
    ensures var here := After(lists, w, run[..n]);
      && IsRun(lists, here, run[n..]) && After(lists, here, run[n..]) == After(lists, w, run)
      && (n < |run| ==> Enabled(lists, here, run[n]) && IsRun(lists, w, run[..n + 1])
                        && After(lists, w, run[..n + 1]) == Next(lists, here, run[n]))
    decreases |run|
  {
    hide Enabled, Next;
    if n == 0 {
      assert run[..0] == [] && run[0..] == run;
      if run != [] { assert run[..1][1..] == [] && IsRun(lists, Next(lists, w, run[0]), []); }
    } else {
      RunSplit(lists, Next(lists, w, run[0]), run[1..], n - 1);
      assert run[..n][1..] == run[1..][..n - 1] && run[n..] == run[1..][n - 1..];
      if n < |run| { assert run[..n + 1][1..] == run[1..][..n]; }
    }
  }

  /** The last snapshot a runner took. */
  predicate SnapshotAt(run: seq<Event>, who: nat, k: nat) {
    k < |run| && run[k] == TakeSnapshot(who) && forall j :: k < j < |run| ==> run[j] != TakeSnapshot(who)
  }

  lemma NothingRun(lists: Lists, w: World)
    ensures IsRun(lists, w, []) && After(lists, w, []) == w
  {}

  /** A working runner's snapshot is the ledger as it was when the runner took it. */
  lemma {:induction false} SnapshotTaken(lists: Lists, w: World, run: seq<Event>, who: nat) returns (k: nat)
    requires Starts(lists, w) && IsRun(lists, w, run) && who < |lists|
    requires |After(lists, w, run).phases| == |lists|
    requires After(lists, w, run).phases[who].Working? || After(lists, w, run).phases[who].InTransaction?
    ensures SnapshotAt(run, who, k) && IsRun(lists, w, run[..k])
    ensures After(lists, w, run).phases[who].snapshot == After(lists, w, run[..k]).db.ledger
    decreases |run|
  {
    hide After, IsRun;
    NothingRun(lists, w);
    if run != [] {
      var m := |run| - 1;
      RunSplit(lists, w, run, m);
      assert run[..m + 1] == run;
      var before := After(lists, w, run[..m]);
      if run[m] == TakeSnapshot(who) {
        k := m;
      } else {
        assert before.phases[who].Working? || before.phases[who].InTransaction?;
        k := SnapshotTaken(lists, w, run[..m], who);
        assert run[..m][..k] == run[..k];
      }
    }
  }

  /** In any interleaving a runner goes by the ledger as it was at its snapshot: what was recorded there it
      compares, and passes exactly on the same checksum; what was not recorded there it executes. */
  lemma GoesBySnapshot(lists: Lists, w: World, run: seq<Event>, e: Event) returns (k: nat)
    requires Starts(lists, w) && IsRun(lists, w, run) && Enabled(lists, After(lists, w, run), e)
    requires e.Compare? || e.Execute?
    ensures SnapshotAt(run, e.who, k) && IsRun(lists, w, run[..k])
    ensures var ledger, p, next := After(lists, w, run[..k]).db.ledger, After(lists, w, run).phases[e.who],
      Next(lists, After(lists, w, run), e);
      var m := lists[e.who][p.next];
      if m.version in ledger then
        && e.Compare? && next.db == After(lists, w, run).db
        && (ledger[m.version] == m.checksum ==> next.phases[e.who].Working? && next.phases[e.who].next == p.next + 1)
        && (ledger[m.version] != m.checksum ==> next.phases[e.who].Aborted?)
      else
        && e.Execute? && next.db == After(lists, w, run).db
        && (e.ok ==> next.phases[e.who].InTransaction? && next.phases[e.who].next == p.next)
        && (!e.ok ==> next.phases[e.who].Aborted?)
  {
    k := SnapshotTaken(lists, w, run, e.who);
  }

  /** A version is recorded by the j-th event of a run. */
  predicate RecordsAt(lists: Lists, w: World, run: seq<Event>, j: nat, version: string) {
    j < |run| && run[j].Commit? && IsRun(lists, w, run[..j]) && IsRun(lists, w, run[..j + 1])
    && version !in After(lists, w, run[..j]).db.ledger && version in After(lists, w, run[..j + 1]).db.ledger
  }

  /** A version that is recorded at the end of a run and was not at a point was recorded since. */
  lemma {:induction false} RecordedSince(lists: Lists, w: World, run: seq<Event>, k: nat, version: string)
    returns (j: nat)
    requires IsRun(lists, w, run) && k <= |run| && IsRun(lists, w, run[..k])
    requires version !in After(lists, w, run[..k]).db.ledger && version in After(lists, w, run).db.ledger
    ensures k <= j && RecordsAt(lists, w, run, j, version)
    decreases |run|
  {
    assert run[..|run|] == run;
    var m := |run| - 1;
    RunSplit(lists, w, run, m);
    assert run[..m + 1] == run && run[..m][..k] == run[..k];
    if version in After(lists, w, run[..m]).db.ledger {
      j := RecordedSince(lists, w, run[..m], k, version);
      assert run[..m][..j] == run[..j] && run[..m][..j + 1] == run[..j + 1];
    } else {
      j := m;
    }
  }

  lemma RecordedStays(lists: Lists, w: World, run: seq<Event>, n: nat, version: string)
    requires Invariant(lists, w) && IsRun(lists, w, run) && n <= |run| && IsRun(lists, w, run[..n])
    requires version in After(lists, w, run[..n]).db.ledger
    ensures version in After(lists, w, run).db.ledger
  {
    RunSplit(lists, w, run, n);
    RunKeeps(lists, w, run[..n]);
    RunKeeps(lists, After(lists, w, run[..n]), run[n..]);
  }

  /** In any interleaving a commit finds its version not recorded at the runner's snapshot.  It fails exactly
      when some commit recorded the version between the snapshot and now; the loser then has no effect at
      all and stops, and otherwise the migration is in the history and its checksum in the ledger. */
  lemma LoserLeavesNothing(lists: Lists, w: World, run: seq<Event>, e: Event) returns (k: nat)
    requires Starts(lists, w) && IsRun(lists, w, run) && e.Commit? && Enabled(lists, After(lists, w, run), e)
    ensures SnapshotAt(run, e.who, k) && IsRun(lists, w, run[..k])
    ensures var before := After(lists, w, run);
      var p, next := before.phases[e.who], Next(lists, before, e);
      var m := lists[e.who][p.next];
      && m.version !in After(lists, w, run[..k]).db.ledger
      && (next.phases[e.who].Aborted? <==> exists j: nat :: k < j && RecordsAt(lists, w, run, j, m.version))
      && (next.phases[e.who].Aborted? ==> next.db == before.db && HasVersion(before.db.history, m.version))
      && (!next.phases[e.who].Aborted? ==>
            next.db == Database(before.db.history + [m], before.db.ledger[m.version := m.checksum]))
  {
    var before := After(lists, w, run);
    RunKeeps(lists, w, run);
    var p := before.phases[e.who];
    var m := lists[e.who][p.next];
    assert Knows(lists[e.who], p, before.db);
    k := SnapshotTaken(lists, w, run, e.who);
    RecordHas(map[], before.db.history, m.version);
    RecordOne(before.db.ledger, m);
    hide Knows, Invariant, Starts, SnapshotAt;
    if m.version in before.db.ledger {
      var j := RecordedSince(lists, w, run, k, m.version);
      assert run[k] == TakeSnapshot(e.who);
      assert k < j;
    }
    if j: nat :| k < j && RecordsAt(lists, w, run, j, m.version) {
      RecordedStays(lists, w, run, j + 1, m.version);
    }
  }

  /******* A runner by itself *******/

  /** A run of one runner that does not crash, whose statements are answered by the schema. */
  predicate Alone(schema: Schema, list: seq<Migration>, w: World, run: seq<Event>)
    decreases |run|
  {
    run == [] ||
    (&& Enabled([list], w, run[0]) && !run[0].Crash?
     && (run[0].Execute? ==> (run[0].ok <==> schema(w.db.history, list[w.phases[0].next].sql)))
     && Alone(schema, list, Next([list], w, run[0]), run[1..]))
  }

  lemma {:induction false} AloneIsRun(schema: Schema, list: seq<Migration>, w: World, run: seq<Event>)
    requires Alone(schema, list, w, run)
    ensures IsRun([list], w, run)
    decreases |run|
  {
    if run != [] { AloneIsRun(schema, list, Next([list], w, run[0]), run[1..]); }
  }

  /** Where a runner stands that has done its work on the first migrations of its list, and how many events
      it takes at most from there. */
  ghost predicate Stands(schema: Schema, db: Database, list: seq<Migration>, w: World, left: int) {
    |w.phases| == 1 &&
    match w.phases[0]
    case Waiting => w.db == db && left == 2 * |list| + 2
    case Working(snapshot, n) =>
      && n <= |list| && snapshot == db.ledger && PassesUpto(schema, db, list, n)
      && w.db == Committed(db, Pending(list[..n], db.ledger)) && left == 2 * (|list| - n) + 1
    case InTransaction(snapshot, n) =>
      && n < |list| && snapshot == db.ledger && PassesUpto(schema, db, list, n)
      && w.db == Committed(db, Pending(list[..n], db.ledger)) && left == 2 * (|list| - n)
      && list[n].version !in snapshot && schema(w.db.history, list[n].sql)
    case Finished =>
      PassesUpto(schema, db, list, |list|) && w.db == Committed(db, Pending(list, db.ledger)) && left == 0
    case Aborted =>
      left == 0 && exists n: nat :: n < |list| && StoppedAt(schema, db, list, w.db, n)
  }

  /** A run stopped at the n-th migration: what comes before passed and is committed, and it does not pass. */
  predicate StoppedAt(schema: Schema, db: Database, list: seq<Migration>, after: Database, n: nat)
    requires n < |list|
  {
    && PassesUpto(schema, db, list, n) && !Passes(schema, db, list, n)
    && after == Committed(db, Pending(list[..n], db.ledger))
  }

  /** The version is taken when it is committed exactly when an earlier migration of the list has it. */
  lemma TakenVersion(schema: Schema, db: Database, list: seq<Migration>, n: nat)
    requires n < |list| && list[n].version !in db.ledger
    ensures var w := Committed(db, Pending(list[..n], db.ledger));
      && (list[n].version in w.ledger <==> exists j :: 0 <= j < n && list[j].version == list[n].version)
      && (Passes(schema, db, list, n) <==> schema(w.history, list[n].sql) && list[n].version !in w.ledger)
      && Committed(w, [list[n]]) == Committed(db, Pending(list[..n + 1], db.ledger))
  {
    var done := Pending(list[..n], db.ledger);
    RecordHas(db.ledger, done, list[n].version);
    PendingVersions(list[..n], db.ledger, list[n].version);
    VersionsBefore(list, n, list[n].version);
    PendingStep(list, n, db.ledger);
    CommittedOneMore(db, done, list[n]);
  }

  /** Every event of a lone runner takes it one step further on. */
  lemma StepStands(schema: Schema, db: Database, list: seq<Migration>, w: World, e: Event, left: int)
    returns (less: int)
    requires Stands(schema, db, list, w, left) && Enabled([list], w, e) && !e.Crash?
    requires e.Execute? ==> (e.ok <==> schema(w.db.history, list[w.phases[0].next].sql))
    ensures 0 <= less < left && Stands(schema, db, list, Next([list], w, e), less)
  {
    hide Committed, Pending;
    var next := Next([list], w, e);
    match e {
      case TakeSnapshot(_) =>
        less := left - 1;
        NothingCommitted(db);
        assert list[..0] == [];
      case Compare(_) =>
        var n := w.phases[0].next;
        PendingStep(list, n, db.ledger);
        assert Pending(list[..n], db.ledger) + [] == Pending(list[..n], db.ledger);
        less := if next.phases[0].Working? then left - 2 else 0;
        if next.phases[0].Aborted? { assert StoppedAt(schema, db, list, next.db, n); }
      case Execute(_, ok) =>
        var n := w.phases[0].next;
        less := if ok then left - 1 else 0;
        TakenVersion(schema, db, list, n);
        if !ok { assert StoppedAt(schema, db, list, next.db, n); }
      case Commit(_) =>
        var n := w.phases[0].next;
        TakenVersion(schema, db, list, n);
        less := if next.phases[0].Working? then left - 1 else 0;
        if next.phases[0].Aborted? { assert StoppedAt(schema, db, list, next.db, n); }
      case Finish(_) =>
        less := 0;
        assert list[..|list|] == list;
    }
  }

  lemma NothingCommitted(db: Database)
    ensures Committed(db, Pending([], db.ledger)) == db
  {}

  lemma {:induction false} RunStands(schema: Schema, db: Database, list: seq<Migration>, w: World, run: seq<Event>,
                                     left: int)
    returns (less: int)
    requires Stands(schema, db, list, w, left) && Alone(schema, list, w, run)
    ensures IsRun([list], w, run) && 0 <= less && |run| <= left - less
    ensures Stands(schema, db, list, After([list], w, run), less)
    decreases |run|
  {
    AloneIsRun(schema, list, w, run);
    hide Enabled, Next, Committed, Pending;
    if run == [] {
      less := left;
    } else {
      less := StepStands(schema, db, list, w, run[0], left);
      less := RunStands(schema, db, list, Next([list], w, run[0]), run[1..], less);
    }
  }

  /** Until it has finished or stopped, a lone runner goes on. */
  lemma GoesOn(schema: Schema, db: Database, list: seq<Migration>, w: World, left: int) returns (e: Event)
    requires Stands(schema, db, list, w, left) && !w.phases[0].Finished? && !w.phases[0].Aborted?
    ensures Enabled([list], w, e) && !e.Crash?
    ensures e.Execute? ==> (e.ok <==> schema(w.db.history, list[w.phases[0].next].sql))
  {
    var p := w.phases[0];
    if p.Waiting? {
      e := TakeSnapshot(0);
    } else if p.InTransaction? {
      e := Commit(0);
    } else if p.next == |list| {
      e := Finish(0);
    } else if list[p.next].version in p.snapshot {
      e := Compare(0);
    } else {
      e := Execute(0, schema(w.db.history, list[p.next].sql));
    }
  }

  lemma {:induction false} RunsToTheEnd(schema: Schema, db: Database, list: seq<Migration>, w: World, left: int)
    returns (run: seq<Event>)
    requires Stands(schema, db, list, w, left)
    ensures Alone(schema, list, w, run) && IsRun([list], w, run)
    ensures |After([list], w, run).phases| == 1
    ensures After([list], w, run).phases[0].Finished? || After([list], w, run).phases[0].Aborted?
    decreases left
  {
    hide Committed, Pending, PassesUpto, Passes;
    if w.phases[0].Finished? || w.phases[0].Aborted? {
      run := [];
    } else {
      var e := GoesOn(schema, db, list, w, left);
      var less := StepStands(schema, db, list, w, e, left);
      var rest := RunsToTheEnd(schema, db, list, Next([list], w, e), less);
      run := [e] + rest;
      assert run[1..] == rest;
    }
  }

  /** A lone runner does what one call of `Up` does.  It takes at most two events a migration and two more.
      When it has finished, the whole list has passed and what the ledger did not record is committed; when it
      has stopped, that holds before the first migration that does not pass. */
  lemma AloneIsUp(schema: Schema, db: Database, list: seq<Migration>, run: seq<Event>)
    requires Alone(schema, list, World(db, [Waiting]), run)
    ensures IsRun([list], World(db, [Waiting]), run) && |run| <= 2 * |list| + 2
    ensures var end := After([list], World(db, [Waiting]), run);
      && |end.phases| == 1
      && (end.phases[0].Finished? ==>
            PassesUpto(schema, db, list, |list|) && end.db == Committed(db, Pending(list, db.ledger)))
      && (end.phases[0].Aborted? ==>
            exists n: nat :: n < |list| && PassesUpto(schema, db, list, n) && !Passes(schema, db, list, n)
                             && end.db == Committed(db, Pending(list[..n], db.ledger)))
  {
    hide Enabled, Next, Committed, Pending, Passes, PassesUpto;
    var less := RunStands(schema, db, list, World(db, [Waiting]), run, 2 * |list| + 2);
    var end := After([list], World(db, [Waiting]), run);
    if end.phases[0].Aborted? {
      var n: nat :| n < |list| && StoppedAt(schema, db, list, end.db, n);
    }
  }

  /** It can finish exactly when every migration of the list passes, and then it cannot stop short. */
  lemma AloneFinishesExactly(schema: Schema, db: Database, list: seq<Migration>)
    ensures var w := World(db, [Waiting]);
      && ((exists run :: Alone(schema, list, w, run) && IsRun([list], w, run) &&
                         After([list], w, run).phases == [Finished])
          <==> PassesUpto(schema, db, list, |list|))
      && ((exists run :: Alone(schema, list, w, run) && IsRun([list], w, run) &&
                         After([list], w, run).phases == [Aborted])
          <==> !PassesUpto(schema, db, list, |list|))
  {
    hide Enabled, Next, Committed, Pending, Passes;
    var w := World(db, [Waiting]);
    forall run | Alone(schema, list, w, run) && IsRun([list], w, run)
      ensures After([list], w, run).phases == [Finished] ==> PassesUpto(schema, db, list, |list|)
      ensures After([list], w, run).phases == [Aborted] ==> !PassesUpto(schema, db, list, |list|)
    {
      AloneIsUp(schema, db, list, run);
    }
    var run := RunsToTheEnd(schema, db, list, w, 2 * |list| + 2);
    var phases := After([list], w, run).phases;
    assert phases == [phases[0]];
  }
}
