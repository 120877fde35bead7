/** The cache under concurrency, critical section by critical section: a lookup reads under one
    lock and, when what it read has expired, deletes under another, by key. */
module CacheInterleaving {
  import opened Wrappers
  import opened Bytes
  import opened MemoryCache

  /** Where a caller of `Get` stands. */
  datatype Phase = Idle | Looked(key: string, found: Option<Entry>) | Dropping(key: string, seen: Entry)

  datatype State = State(entries: Entries, phases: seq<Phase>, clock: int)

  /** One critical section, or one reading of the clock by a caller between two of them. */
  datatype Event =
    | Store(key: string, entry: Entry)
    | Remove(key: string)
    | Look(who: nat, of: string)
    | Judge(who: nat, now: int)
    | Drop(who: nat)

  predicate Enabled(s: State, e: Event) {
    match e
    case Store(_, _) => true
    case Remove(_) => true
    case Look(who, _) => who < |s.phases| && s.phases[who].Idle?
    case Judge(who, now) => who < |s.phases| && s.phases[who].Looked? && s.clock <= now
    case Drop(who) => who < |s.phases| && s.phases[who].Dropping?
  }

  function Next(s: State, e: Event): State
    requires Enabled(s, e)
  {
    match e
    case Store(key, entry) => s.(entries := s.entries[key := entry])
    case Remove(key) => s.(entries := s.entries - {key})
    case Look(who, key) =>
      s.(phases := s.phases[who := Looked(key, if key in s.entries then Some(s.entries[key]) else None)])
    case Judge(who, now) =>
      var p := s.phases[who];
      var next := if p.found.Some? && Expired(p.found.value, now) then Dropping(p.key, p.found.value) else Idle;
      s.(phases := s.phases[who := next], clock := now)
    case Drop(who) => s.(entries := s.entries - {s.phases[who].key}, phases := s.phases[who := Idle])
  }

  /** What a judging caller returns. */
  function Returned(s: State, e: Event): Option<seq<byte>>
    requires e.Judge? && Enabled(s, e)
  {
    var p := s.phases[e.who];
    if p.found.Some? && !Expired(p.found.value, e.now) then Some(p.found.value.value) else None
  }

  /** An empty cache and idle callers, then the run; an event that cannot happen is passed over. */
  function After(callers: nat, run: seq<Event>): (s: State)
    ensures |s.phases| == callers
  {
    if run == [] then State(map[], seq(callers, _ => Idle), 0)
    else
      var s, e := After(callers, run[..|run| - 1]), run[|run| - 1];
      if Enabled(s, e) then Next(s, e) else s
  }

  /******* Where entries come from *******/

  predicate WasStored(run: seq<Event>, key: string, entry: Entry) {
    exists i :: 0 <= i < |run| && run[i] == Store(key, entry)
  }

  lemma WasStoredLater(run: seq<Event>, n: nat)
    requires n <= |run|
    ensures forall key, entry :: WasStored(run[..n], key, entry) ==> WasStored(run, key, entry)
  {
    forall key, entry | WasStored(run[..n], key, entry) ensures WasStored(run, key, entry) {
      var i :| 0 <= i < n && run[..n][i] == Store(key, entry);
      assert run[i] == Store(key, entry);
    }
  }

  /** Everything in the cache, and everything any caller has read, was stored under its key; and
      what a caller is about to drop had expired by the clock. */
  ghost predicate Sourced(run: seq<Event>, s: State) {
    && (forall key :: key in s.entries ==> WasStored(run, key, s.entries[key]))
    && (forall i :: 0 <= i < |s.phases| && s.phases[i].Looked? && s.phases[i].found.Some? ==>
          WasStored(run, s.phases[i].key, s.phases[i].found.value))
    && (forall i :: 0 <= i < |s.phases| && s.phases[i].Dropping? ==>
          WasStored(run, s.phases[i].key, s.phases[i].seen) && Expired(s.phases[i].seen, s.clock))
  }

  lemma {:induction false} AllSourced(callers: nat, run: seq<Event>)
    ensures Sourced(run, After(callers, run))
  {
    if run != [] {
      var n := |run| - 1;
      var s, next := After(callers, run[..n]), After(callers, run);
      AllSourced(callers, run[..n]);
      WasStoredLater(run, n);
      if run[n].Store? { assert WasStored(run, run[n].key, run[n].entry); }
    }
  }

  /** What a lookup returns: the value it read under its key, exactly when there was one and it has not
      expired at the reading of the clock.  That value was stored under the key. */
  lemma ReturnsStoredLive(callers: nat, run: seq<Event>, e: Event) returns (n: nat)
    requires e.Judge? && Enabled(After(callers, run), e)
    ensures n < |run| && run[n] == Look(e.who, After(callers, run).phases[e.who].key)
    ensures var key, read, result := After(callers, run).phases[e.who].key, After(callers, run[..n]).entries,
      Returned(After(callers, run), e);
      && (result.Some? <==> key in read && (read[key].expiresAt == 0 || e.now <= read[key].expiresAt))
      && (result.Some? ==> result.value == read[key].value && WasStored(run, key, read[key]))
  {
    var p := After(callers, run).phases[e.who];
    n := LookedAt(callers, run, e.who);
    AllSourced(callers, run);
  }

  /** A caller that has looked read the entry of its key as it was then, or found none. */
  lemma {:induction false} LookedAt(callers: nat, run: seq<Event>, who: nat) returns (n: nat)
    requires who < callers && After(callers, run).phases[who].Looked?
    ensures n < |run| && run[n] == Look(who, After(callers, run).phases[who].key)
    ensures var p, s := After(callers, run).phases[who], After(callers, run[..n]);
      p.found == if p.key in s.entries then Some(s.entries[p.key]) else None
  {
    var m := |run| - 1;
    var last := run[m];
    if last.Look? && last.who == who && Enabled(After(callers, run[..m]), last) {
      n := m;
    } else {
      n := LookedAt(callers, run[..m], who);
      assert run[..m][..n] == run[..n];
    }
  }

  /******* When an entry may vanish *******/

  predicate StoredAtMostOnce(run: seq<Event>) {
    forall i, j :: 0 <= i < j < |run| && run[i].Store? && run[j].Store? ==> run[i].key != run[j].key
  }

  /** When every key is stored at most once, an entry vanishes only if it was removed explicitly
      or had expired, although the lock is released between a lookup's read and its delete. */
  lemma VanishesOnlyExpired(callers: nat, run: seq<Event>, e: Event, key: string)
    requires Enabled(After(callers, run), e) && StoredAtMostOnce(run)
    requires var s := After(callers, run); key in s.entries && key !in Next(s, e).entries
    ensures e == Remove(key) ||
      (var s := After(callers, run); s.entries[key].expiresAt != 0 && s.clock > s.entries[key].expiresAt)
  {
    AllSourced(callers, run);
    var s := After(callers, run);
    if e.Drop? {
      var p := s.phases[e.who];
      var i :| 0 <= i < |run| && run[i] == Store(key, s.entries[key]);
      var j :| 0 <= j < |run| && run[j] == Store(key, p.seen);
      assert i == j;
    }
  }

  /** Nothing stored under a key: its entry stays as it was, or goes and does not come back. */
  lemma {:induction false} UnstoredStays(callers: nat, run: seq<Event>, n: nat, key: string)
    requires n <= |run|
    requires forall i :: n <= i < |run| ==> !(run[i].Store? && run[i].key == key)
    ensures key in After(callers, run).entries ==>
      key in After(callers, run[..n]).entries &&
        After(callers, run).entries[key] == After(callers, run[..n]).entries[key]
  {
    if n == |run| {
      assert run[..n] == run;
    } else {
      var m := |run| - 1;
      assert run[..m][..n] == run[..n];
      UnstoredStays(callers, run[..m], n, key);
    }
  }

  /** A caller about to drop a key looked at it, found that entry, and judged it expired. */
  lemma {:induction false} DropWasLooked(callers: nat, run: seq<Event>, who: nat) returns (n: nat)
    requires who < callers
    requires var p := After(callers, run).phases[who]; p.Dropping? || (p.Looked? && p.found.Some?)
    ensures n < |run| && run[n] == Look(who, After(callers, run).phases[who].key)
    ensures var p, s := After(callers, run).phases[who], After(callers, run[..n]);
      p.key in s.entries && s.entries[p.key] == if p.Dropping? then p.seen else p.found.value
  {
    var m := |run| - 1;
    var last := run[m];
    if last.Look? && last.who == who && Enabled(After(callers, run[..m]), last) {
      n := m;
    } else {
      n := DropWasLooked(callers, run[..m], who);
      assert run[..m][..n] == run[..n];
    }
  }

  /** An event of a run that sets or clears a key. */
  predicate Touches(callers: nat, run: seq<Event>, j: nat, key: string)
    requires j < |run|
  {
    match run[j]
    case Store(k, _) => k == key
    case Remove(k) => k == key
    case Drop(who) => Enabled(After(callers, run[..j]), run[j]) && After(callers, run[..j]).phases[who].key == key
    case _ => false
  }

  predicate LastStored(callers: nat, run: seq<Event>, i: nat, key: string, entry: Entry) {
    i < |run| && run[i] == Store(key, entry) && forall j :: i < j < |run| ==> !Touches(callers, run, j, key)
  }

  lemma TouchesBefore(callers: nat, run: seq<Event>, n: nat, j: nat, key: string)
    requires j < n <= |run|
    ensures Touches(callers, run[..n], j, key) <==> Touches(callers, run, j, key)
  {
    assert run[..n][..j] == run[..j];
  }

  lemma TouchedOrKept(callers: nat, run: seq<Event>, key: string)
    requires run != []
    ensures var m := |run| - 1;
      var before, after := After(callers, run[..m]).entries, After(callers, run).entries;
      if Touches(callers, run, m, key) then key in after <==> run[m].Store?
      else (key in after <==> key in before) && (key in after ==> after[key] == before[key])
    ensures run[|run| - 1].Store? && run[|run| - 1].key == key ==>
      key in After(callers, run).entries && After(callers, run).entries[key] == run[|run| - 1].entry
  {}

  /** The cache holds an entry exactly when the last event that touched its key stored it. */
  lemma {:induction false} HeldExactly(callers: nat, run: seq<Event>, key: string, entry: Entry)
    ensures var s := After(callers, run);
      (key in s.entries && s.entries[key] == entry) <==> exists i: nat :: LastStored(callers, run, i, key, entry)
  {
    if run != [] {
      hide After, Touches;
      var m := |run| - 1;
      HeldExactly(callers, run[..m], key, entry);
      TouchedOrKept(callers, run, key);
      StoreTouches(callers, run, m, key, entry);
      if Touches(callers, run, m, key) {
        assert run[m] == Store(key, entry) ==> LastStored(callers, run, m, key, entry);
      } else {
        forall i: nat
          ensures LastStored(callers, run[..m], i, key, entry) <==> LastStored(callers, run, i, key, entry)
        {
          LastStoredSame(callers, run, i, key, entry);
        }
      }
    }
  }

  lemma LastStoredSame(callers: nat, run: seq<Event>, i: nat, key: string, entry: Entry)
    requires run != [] && !Touches(callers, run, |run| - 1, key)
    ensures LastStored(callers, run[..|run| - 1], i, key, entry) <==> LastStored(callers, run, i, key, entry)
  {
    hide After;
    var m := |run| - 1;
    StoreTouches(callers, run, m, key, entry);
    hide Touches;
    forall j | 0 <= j < m { TouchesBefore(callers, run, m, j, key); }
  }

  lemma StoreTouches(callers: nat, run: seq<Event>, m: nat, key: string, entry: Entry)
    requires m < |run|
    ensures run[m] == Store(key, entry) ==> Touches(callers, run, m, key)
    ensures Touches(callers, run, m, key) && run[m].Store? ==> run[m].key == key
  {}

  /** In any run, a lookup's delete removes a live entry exactly when the key was stored again after
      the lookup's read, untouched since, and that entry has not expired. */
  lemma DropsWhatItRead(callers: nat, run: seq<Event>, e: Event) returns (n: nat)
    requires e.Drop? && Enabled(After(callers, run), e)
    ensures n < |run| && run[n] == Look(e.who, After(callers, run).phases[e.who].key)
    ensures var s := After(callers, run);
      var key := s.phases[e.who].key;
      (key in s.entries && !Expired(s.entries[key], s.clock)) <==>
        exists i: nat, entry :: n < i && LastStored(callers, run, i, key, entry) && !Expired(entry, s.clock)
  {
    n := DropWasLooked(callers, run, e.who);
    AllSourced(callers, run);
    hide After;
    var s := After(callers, run);
    var key := s.phases[e.who].key;
    if i: nat, entry :| n < i && LastStored(callers, run, i, key, entry) && !Expired(entry, s.clock) {
      HeldExactly(callers, run, key, entry);
    }
    if key in s.entries && !Expired(s.entries[key], s.clock) {
      HeldExactly(callers, run, key, s.entries[key]);
      var i: nat :| LastStored(callers, run, i, key, s.entries[key]);
      assert n < i by {
        if i < n { StoredBefore(callers, run, n, i, key, s.entries[key]); }
      }
    }
  }

  /** An entry last stored before a point was there at that point. */
  lemma StoredBefore(callers: nat, run: seq<Event>, n: nat, i: nat, key: string, entry: Entry)
    requires i < n <= |run| && LastStored(callers, run, i, key, entry)
    ensures key in After(callers, run[..n]).entries && After(callers, run[..n]).entries[key] == entry
  {
    hide After, Touches;
    forall j | 0 <= j < n { TouchesBefore(callers, run, n, j, key); }
    assert LastStored(callers, run[..n], i, key, entry);
    HeldExactly(callers, run[..n], key, entry);
  }

  /** Every event of the run can happen. */
  predicate Runs(callers: nat, run: seq<Event>) {
    forall i :: 0 <= i < |run| ==> Enabled(After(callers, run[..i]), run[i])
  }

  lemma OneMore(callers: nat, run: seq<Event>, e: Event, s: State)
    requires Runs(callers, run) && After(callers, run) == s && Enabled(s, e)
    ensures Runs(callers, run + [e]) && After(callers, run + [e]) == Next(s, e)
  {
    assert (run + [e])[..|run|] == run;
    forall i | 0 <= i < |run| ensures (run + [e])[..i] == run[..i] {}
  }

  /** The states of a lone caller who looks at an entry and judges it expired. */
  lemma ReadingStates(key: string, first: Entry, now: int)
    requires now >= 0 && Expired(first, now)
    ensures var entries := map[key := first];
      var s0, s1, s2 := State(map[], [Idle], 0), State(entries, [Idle], 0),
        State(entries, [Looked(key, Some(first))], 0);
      && After(1, []) == s0 && Next(s0, Store(key, first)) == s1
      && Enabled(s1, Look(0, key)) && Next(s1, Look(0, key)) == s2
      && Enabled(s2, Judge(0, now)) && Next(s2, Judge(0, now)) == State(entries, [Dropping(key, first)], now)
  {}

  lemma DroppingStates(key: string, first: Entry, second: Entry, now: int)
    ensures var s3, s4 := State(map[key := first], [Dropping(key, first)], now),
      State(map[key := second], [Dropping(key, first)], now);
      && Next(s3, Store(key, second)) == s4
      && Enabled(s4, Drop(0)) && key !in Next(s4, Drop(0)).entries
  {}

  /** It does happen, to every key: whatever is stored, unexpired, between a lookup's judging the
      key's entry expired and its delete is lost. */
  lemma SecondStoreIsLost(key: string, first: Entry, second: Entry, now: int)
    requires now >= 0 && Expired(first, now) && !Expired(second, now)
    ensures var run := [Store(key, first), Look(0, key), Judge(0, now), Store(key, second)];
      var s := After(1, run);
      && Runs(1, run) && Enabled(s, Drop(0))
      && key in s.entries && s.entries[key] == second && !Expired(second, s.clock) && key !in Next(s, Drop(0)).entries
  {
    ReadingStates(key, first, now);
    DroppingStates(key, first, second, now);
    assert Runs(1, []);
    assert forall s, k, e :: Enabled(s, Store(k, e));
    hide After, Expired, Runs, Next, Enabled;
    var a, b, c, d := Store(key, first), Look(0, key), Judge(0, now), Store(key, second);
    OneMore(1, [], a, After(1, []));
    assert [] + [a] == [a];
    OneMore(1, [a], b, After(1, [a]));
    assert [a] + [b] == [a, b];
    OneMore(1, [a, b], c, After(1, [a, b]));
    assert [a, b] + [c] == [a, b, c];
    OneMore(1, [a, b, c], d, After(1, [a, b, c]));
    assert [a, b, c] + [d] == [a, b, c, d];
  }
}
