/** The sliding-window rate limiter: one log of admitted attempts per key, compacted in place
    in its backing array on every call. */
module RateLimiter {
  /** The times later than a cutoff, in order. */
  function Kept(times: seq<int>, cutoff: int): (kept: seq<int>)
    ensures |kept| <= |times|
  {
    if times == [] then []
    else
      var n := |times| - 1;
      Kept(times[..n], cutoff) + (if times[n] > cutoff then [times[n]] else [])
  }

  /** Whether an attempt is admitted, and the log it leaves. */
  function Decide(limit: int, window: int, log: seq<int>, now: int): (bool, seq<int>) {
    var kept := Kept(log, now - window);
    if |kept| >= limit then (false, kept) else (true, kept + [now])
  }

  /******* The limiter *******/

  /** The first len elements of a backing array. */
  datatype Slice = Slice(buf: array<int>, len: nat)

  /** No log outgrows the limit, and no two logs share a backing array. */
  ghost predicate Separate(slices: map<string, Slice>, limit: int) {
    && (forall k :: k in slices ==> slices[k].len <= slices[k].buf.Length && slices[k].len <= limit)
    && (forall j, k :: j in slices && k in slices && j != k ==> slices[j].buf != slices[k].buf)
  }

  lemma SeparateOthers(slices: map<string, Slice>, limit: int, key: string)
    requires Separate(slices, limit) && key in slices
    ensures forall k :: k in slices && k != key ==> slices[k].buf != slices[key].buf
  {}

  lemma SeparateWith(slices: map<string, Slice>, limit: int, key: string, slice: Slice)
    requires Separate(slices, limit) && slice.len <= slice.buf.Length && slice.len <= limit
    requires forall k :: k in slices && k != key ==> slices[k].buf != slice.buf
    ensures Separate(slices[key := slice], limit)
  {}

  class Limiter {
    const limit: int
    const window: int
    var attempts: map<string, Slice>

    ghost predicate Valid()
      reads this
    {
      limit > 0 && window > 0 && Separate(attempts, limit)
    }

    ghost function Log(key: string): seq<int>
      requires Valid()
      reads this, set k | k in attempts :: attempts[k].buf
    {
      if key in attempts then attempts[key].buf[..attempts[key].len] else []
    }

    constructor (limit: int, window: int)
      ensures Valid() && attempts == map[]
      ensures this.limit == if limit <= 0 then 5 else limit
      ensures this.window == if window <= 0 then 60_000_000_000 else window
    {
      this.limit := if limit <= 0 then 5 else limit;
      this.window := if window <= 0 then MINUTE else window;
      attempts := map[];
    }

    /** The log of a key, empty for a new one. */
    method Recall(key: string) returns (slice: Slice)
      requires Valid()
      ensures slice.len <= slice.buf.Length && slice.len <= limit && slice.buf[..slice.len] == Log(key)
      ensures if key in attempts then slice == attempts[key] else fresh(slice.buf)
    {
      if key in attempts { return attempts[key]; }
      var none := new int[0];
      slice := Slice(none, 0);
    }

    method Allow(key: string, now: int) returns (ok: bool)
      requires Valid()
      modifies this`attempts, if key in attempts then {attempts[key].buf} else {}
      ensures Valid()
      ensures (ok, Log(key)) == Decide(limit, window, old(Log(key)), now)
      ensures forall k :: k != key ==> Log(k) == old(Log(k))
      ensures attempts.Keys == old(attempts.Keys) + {key}
    {
      hide Decide, Separate;
      var slice := Recall(key);
      if key in attempts { SeparateOthers(attempts, limit, key); }
      ghost var before := attempts;
      ok, slice := Weigh(slice, limit, window, now);
      SeparateWith(before, limit, key, slice);
      attempts := attempts[key := slice];
    }
  }

  /** Compacts a log, and logs the attempt if there is room under the limit. */
  method Weigh(slice: Slice, limit: int, window: int, now: int) returns (ok: bool, logged: Slice)
    requires slice.len <= slice.buf.Length && slice.len <= limit
    modifies slice.buf
    ensures logged.len <= logged.buf.Length && logged.len <= limit && (logged.buf == slice.buf || fresh(logged.buf))
    ensures (ok, logged.buf[..logged.len]) == Decide(limit, window, old(slice.buf[..slice.len]), now)
  {
    hide Kept;
    logged := Compact(slice, now - window);
    if logged.len >= limit { return false, logged; }
    logged := Append(logged, now);
    return true, logged;
  }

  const MINUTE: int := 60_000_000_000

  /** Moves the late elements to the front of the same backing array. */
  method Compact(slice: Slice, cutoff: int) returns (kept: Slice)
    requires slice.len <= slice.buf.Length
    modifies slice.buf
    ensures kept.buf == slice.buf && kept.len <= slice.len
    ensures kept.buf[..kept.len] == Kept(old(slice.buf[..slice.len]), cutoff)
  {
    hide Kept;
    var buf, n := slice.buf, 0;
    ghost var was := buf[..slice.len];
    NothingKept(cutoff);
    assert buf[..0] == [] == was[..0];
    for i := 0 to slice.len
      invariant n <= i && buf[..n] == Kept(was[..i], cutoff)
      invariant forall j :: i <= j < slice.len ==> buf[j] == was[j]
    {
      KeptOneMore(was, i, cutoff);
      if buf[i] > cutoff {
        ghost var front := buf[..n];
        buf[n] := buf[i];
        assert buf[..n] == front && buf[n] == was[i];
        assert buf[..n + 1] == buf[..n] + [buf[n]];
        n := n + 1;
      }
    }
    assert was[..slice.len] == was;
    kept := Slice(buf, n);
  }

  lemma NothingKept(cutoff: int)
    ensures Kept([], cutoff) == []
  {}

  lemma KeptOneMore(times: seq<int>, i: nat, cutoff: int)
    requires i < |times|
    ensures Kept(times[..i + 1], cutoff)
         == if times[i] > cutoff then Kept(times[..i], cutoff) + [times[i]] else Kept(times[..i], cutoff)
  {
    KeptAppend(times[..i], times[i], cutoff);
    assert times[..i + 1] == times[..i] + [times[i]];
    assert Kept(times[..i], cutoff) + [] == Kept(times[..i], cutoff);
  }

  /** Appends in place while the backing array has room, else in a larger copy. */
  method Append(slice: Slice, x: int) returns (r: Slice)
    requires slice.len <= slice.buf.Length
    modifies slice.buf
    ensures r.len == slice.len + 1 <= r.buf.Length && (r.buf == slice.buf || fresh(r.buf))
    ensures r.buf[..r.len] == old(slice.buf[..slice.len]) + [x]
  {
    var buf := slice.buf;
    if slice.len == buf.Length {
      buf := new int[2 * slice.len + 1];
      for i := 0 to slice.len
        invariant buf[..i] == slice.buf[..i] && slice.buf[..] == old(slice.buf[..])
        invariant fresh(buf) && buf.Length == 2 * slice.len + 1
      {
        buf[i] := slice.buf[i];
      }
    }
    buf[slice.len] := x;
    r := Slice(buf, slice.len + 1);
  }

  /******* Runs *******/

  datatype Attempt = Attempt(key: string, now: int)

  type Logs = map<string, seq<int>>

  function LogOf(logs: Logs, key: string): seq<int> { if key in logs then logs[key] else [] }

  /** The logs after a run of attempts on a fresh limiter. */
  function LogsAfter(limit: int, window: int, run: seq<Attempt>): Logs {
    if run == [] then map[]
    else
      var n := |run| - 1;
      var logs := LogsAfter(limit, window, run[..n]);
      logs[run[n].key := Decide(limit, window, LogOf(logs, run[n].key), run[n].now).1]
  }

  /** Whether the i-th attempt of a run is admitted. */
  predicate Admits(limit: int, window: int, run: seq<Attempt>, i: nat)
    requires i < |run|
  {
    Decide(limit, window, LogOf(LogsAfter(limit, window, run[..i]), run[i].key), run[i].now).0
  }

  /** Everything a key was ever admitted, nothing forgotten. */
  function Admitted(limit: int, window: int, run: seq<Attempt>, key: string): seq<int> {
    if run == [] then []
    else
      var n := |run| - 1;
      Admitted(limit, window, run[..n], key)
        + (if run[n].key == key && Admits(limit, window, run, n) then [run[n].now] else [])
  }

  /** How many times lie in the half-open window (from, to]. */
  function InWindow(times: seq<int>, from: int, to: int): nat {
    if times == [] then 0
    else
      var n := |times| - 1;
      InWindow(times[..n], from, to) + (if from < times[n] <= to then 1 else 0)
  }

  predicate Nondecreasing(run: seq<Attempt>) { forall i, j :: 0 <= i < j < |run| ==> run[i].now <= run[j].now }

  lemma KeptAppend(times: seq<int>, t: int, cutoff: int)
    ensures Kept(times + [t], cutoff) == Kept(times, cutoff) + (if t > cutoff then [t] else [])
  {
    assert (times + [t])[..|times|] == times;
  }

  lemma {:induction false} KeptKept(times: seq<int>, low: int, high: int)
    requires low <= high
    ensures Kept(Kept(times, low), high) == Kept(times, high)
  {
    if times != [] {
      var n := |times| - 1;
      KeptKept(times[..n], low, high);
      KeptAppend(Kept(times[..n], low), times[n], high);
      assert Kept(times[..n], low) + [] == Kept(times[..n], low) &&
        Kept(times[..n], high) + [] == Kept(times[..n], high);
    }
  }

  /** One more attempt, seen from a key. */
  lemma RunStep(limit: int, window: int, run: seq<Attempt>, key: string)
    requires run != []
    ensures var n := |run| - 1;
      var log, admitted := LogOf(LogsAfter(limit, window, run[..n]), key), Admitted(limit, window, run[..n], key);
      var (ok, next) := Decide(limit, window, log, run[n].now);
      && LogOf(LogsAfter(limit, window, run), key) == (if run[n].key == key then next else log)
      && Admitted(limit, window, run, key) == (if run[n].key == key && ok then admitted + [run[n].now] else admitted)
      && (run[n].key == key ==> (Admits(limit, window, run, n) <==> ok))
  {
    hide Decide;
    var admitted := Admitted(limit, window, run[..|run| - 1], key);
    assert admitted + [] == admitted;
  }

  /** What the limiter has forgotten can no longer count: after a run with a nondecreasing clock,
      the log and the full record agree beyond every cutoff a later call can use. */
  lemma {:induction false} LogRemembers(limit: int, window: int, run: seq<Attempt>, key: string, cutoff: int)
    requires Nondecreasing(run) && (run != [] ==> cutoff >= run[|run| - 1].now - window)
    ensures Kept(Admitted(limit, window, run, key), cutoff) == Kept(LogOf(LogsAfter(limit, window, run), key), cutoff)
  {
    if run != [] {
      hide Admitted, LogsAfter, Admits, LogOf, Kept, Decide;
      var n := |run| - 1;
      var before, now := run[..n], run[n].now;
      LogRemembers(limit, window, before, key, cutoff);
      RunStep(limit, window, run, key);
      DecideRemembers(limit, window, LogOf(LogsAfter(limit, window, before), key),
                      Admitted(limit, window, before, key), now, cutoff);
    }
  }

  lemma DecideRemembers(limit: int, window: int, log: seq<int>, admitted: seq<int>, now: int, cutoff: int)
    requires cutoff >= now - window && Kept(admitted, cutoff) == Kept(log, cutoff)
    ensures var (ok, next) := Decide(limit, window, log, now);
      Kept(if ok then admitted + [now] else admitted, cutoff) == Kept(next, cutoff)
  {
    hide Kept;
    KeptKept(log, now - window, cutoff);
    KeptAppend(Kept(log, now - window), now, cutoff);
    KeptAppend(admitted, now, cutoff);
  }

  lemma {:induction false} AdmittedBounded(limit: int, window: int, run: seq<Attempt>, key: string, t: int)
    requires forall i :: 0 <= i < |run| ==> run[i].now <= t
    ensures forall i :: 0 <= i < |Admitted(limit, window, run, key)| ==> Admitted(limit, window, run, key)[i] <= t
  {
    if run != [] { AdmittedBounded(limit, window, run[..|run| - 1], key, t); }
  }

  lemma {:induction false} KeptIsWindow(times: seq<int>, from: int, to: int)
    requires forall i :: 0 <= i < |times| ==> times[i] <= to
    ensures |Kept(times, from)| == InWindow(times, from, to)
  {
    if times != [] { KeptIsWindow(times[..|times| - 1], from, to); }
  }

  /** Under a nondecreasing clock an attempt is admitted exactly when fewer than `limit` admitted
      attempts of its key lie in its own window: the limiter forgets nothing that matters. */
  lemma AdmitsExactly(limit: int, window: int, run: seq<Attempt>, i: nat)
    requires Nondecreasing(run) && i < |run| && window > 0
    ensures var a := run[i];
      Admits(limit, window, run, i) <==>
        InWindow(Admitted(limit, window, run[..i], a.key), a.now - window, a.now) < limit
  {
    hide Admitted, LogsAfter, LogOf, InWindow, Kept;
    var a, before := run[i], run[..i];
    LogRemembers(limit, window, before, a.key, a.now - window);
    AdmittedBounded(limit, window, before, a.key, a.now);
    KeptIsWindow(Admitted(limit, window, before, a.key), a.now - window, a.now);
  }

  lemma {:induction false} WindowMoves(times: seq<int>, from: int, later: int, to: int, t: int)
    requires from <= later && forall i :: 0 <= i < |times| ==> times[i] <= to
    ensures InWindow(times, later, t) <= InWindow(times, from, to)
  {
    if times != [] { WindowMoves(times[..|times| - 1], from, later, to, t); }
  }

  lemma WindowAppend(times: seq<int>, x: int, from: int, to: int)
    ensures InWindow(times + [x], from, to) == InWindow(times, from, to) + (if from < x <= to then 1 else 0)
  {
    assert (times + [x])[..|times|] == times;
  }

  /** An admitted attempt finds room in its own window, and so in every window it lies in. */
  lemma AdmittedFits(limit: int, window: int, run: seq<Attempt>, t: int)
    requires Nondecreasing(run) && window > 0 && run != [] && Admits(limit, window, run, |run| - 1)
    requires run[|run| - 1].now <= t
    ensures InWindow(Admitted(limit, window, run[..|run| - 1], run[|run| - 1].key), t - window, t) < limit
  {
    var n := |run| - 1;
    var before, a := run[..n], run[n];
    assert forall i :: 0 <= i < |before| ==> before[i].now <= a.now;
    hide *;
    AdmitsExactly(limit, window, run, n);
    AdmittedBounded(limit, window, before, a.key, a.now);
    WindowMoves(Admitted(limit, window, before, a.key), a.now - window, t - window, a.now, t);
  }

  lemma WindowStep(limit: int, window: int, run: seq<Attempt>, key: string, t: int)
    requires Nondecreasing(run) && window > 0 && run != []
    requires InWindow(Admitted(limit, window, run[..|run| - 1], key), t - window, t) <= limit
    ensures InWindow(Admitted(limit, window, run, key), t - window, t) <= limit
  {
    hide *;
    var n := |run| - 1;
    RunStep(limit, window, run, key);
    WindowAppend(Admitted(limit, window, run[..n], key), run[n].now, t - window, t);
    if run[n].key == key && Admits(limit, window, run, n) && run[n].now <= t { AdmittedFits(limit, window, run, t); }
  }

  /** No half-open window ever holds more than `limit` admitted attempts of one key. */
  lemma {:induction false} NoWindowExceeds(limit: int, window: int, run: seq<Attempt>, key: string, t: int)
    requires Nondecreasing(run) && limit > 0 && window > 0
    ensures InWindow(Admitted(limit, window, run, key), t - window, t) <= limit
  {
    if run != [] {
      assert Nondecreasing(run[..|run| - 1]);
      hide *;
      NoWindowExceeds(limit, window, run[..|run| - 1], key, t);
      WindowStep(limit, window, run, key, t);
    }
  }

  /** Attempts of one key that are all admitted, by their places in a run. */
  predicate AdmittedAt(limit: int, window: int, run: seq<Attempt>, key: string, places: seq<nat>) {
    && (forall i :: 0 <= i < |places| ==>
          places[i] < |run| && run[places[i]].key == key && Admits(limit, window, run, places[i]))
    && forall i, j :: 0 <= i < j < |places| ==> places[i] < places[j]
  }

  lemma AdmitsBefore(limit: int, window: int, run: seq<Attempt>, n: nat, i: nat)
    requires i < n <= |run|
    ensures Admits(limit, window, run[..n], i) <==> Admits(limit, window, run, i)
  {
    assert run[..n][..i] == run[..i];
  }

  /** The places before the last attempt. */
  lemma PlacesBefore(limit: int, window: int, run: seq<Attempt>, key: string, places: seq<nat>)
    requires AdmittedAt(limit, window, run, key, places) && places != []
    ensures run != []
    ensures var n, last := |run| - 1, |places| - 1;
      if places[last] == n then
        AdmittedAt(limit, window, run[..n], key, places[..last]) && run[n].key == key && Admits(limit, window, run, n)
      else AdmittedAt(limit, window, run[..n], key, places)
  {
    hide Admits;
    var n, last := |run| - 1, |places| - 1;
    assert places[last] < |run|;
    forall i | 0 <= i < |places| && places[i] < n
      ensures run[..n][places[i]].key == key && Admits(limit, window, run[..n], places[i])
    {
      AdmitsBefore(limit, window, run, n, places[i]);
    }
    forall i | 0 <= i < last ensures places[i] < places[last] {}
  }

  lemma {:induction false} CountsThem(limit: int, window: int, run: seq<Attempt>, key: string, places: seq<nat>,
                                      from: int, to: int)
    requires AdmittedAt(limit, window, run, key, places)
    requires forall i :: 0 <= i < |places| ==> places[i] < |run| && from < run[places[i]].now <= to
    ensures |places| <= InWindow(Admitted(limit, window, run, key), from, to)
  {
    hide *;
    if places != [] {
      PlacesBefore(limit, window, run, key, places);
      var n, last := |run| - 1, |places| - 1;
      var before := if places[last] == n then places[..last] else places;
      assert forall i :: 0 <= i < |before| ==> before[i] == places[i];
      PlacesBelow(limit, window, run[..n], key, before);
      CountsThem(limit, window, run[..n], key, before, from, to);
      RunStep(limit, window, run, key);
      WindowAppend(Admitted(limit, window, run[..n], key), run[n].now, from, to);
    }
  }

  lemma PlacesBelow(limit: int, window: int, run: seq<Attempt>, key: string, places: seq<nat>)
    requires AdmittedAt(limit, window, run, key, places)
    ensures forall i :: 0 <= i < |places| ==> places[i] < |run|
  {}

  /** Of any limit + 1 admitted attempts of a key the last comes at least a window after the first. */
  lemma NoBurst(limit: int, window: int, run: seq<Attempt>, key: string, places: seq<nat>)
    requires Nondecreasing(run) && limit > 0 && window > 0
    requires AdmittedAt(limit, window, run, key, places) && |places| == limit + 1
    ensures run[places[limit]].now - run[places[0]].now >= window
  {
    hide Admits, InWindow, Admitted;
    var t := run[places[limit]].now;
    if t - run[places[0]].now < window {
      forall i | 0 <= i < |places| ensures t - window < run[places[i]].now <= t {
        assert places[0] <= places[i] <= places[limit];
      }
      CountsThem(limit, window, run, key, places, t - window, t);
      NoWindowExceeds(limit, window, run, key, t);
    }
  }

  /** The attempts of one key. */
  function Only(run: seq<Attempt>, key: string): seq<Attempt> {
    if run == [] then []
    else
      var n := |run| - 1;
      Only(run[..n], key) + (if run[n].key == key then [run[n]] else [])
  }

  /** Keys do not affect each other, whatever the clock: a key fares as if it were alone. */
  lemma {:induction false} KeysIndependent(limit: int, window: int, run: seq<Attempt>, key: string)
    ensures LogOf(LogsAfter(limit, window, run), key) == LogOf(LogsAfter(limit, window, Only(run, key)), key)
    ensures Admitted(limit, window, run, key) == Admitted(limit, window, Only(run, key), key)
  {
    if run != [] {
      var n := |run| - 1;
      KeysIndependent(limit, window, run[..n], key);
      var alone := Only(run[..n], key);
      RunStep(limit, window, run, key);
      if run[n].key == key {
        assert (alone + [run[n]])[..|alone|] == alone;
        RunStep(limit, window, alone + [run[n]], key);
      } else {
        assert alone + [] == alone;
      }
    }
  }

  /******* Callers entering out of order *******/

  /** The clock is read before the lock is taken, so a run's times may be in any order.  A limit of
      one is kept all the same: admitted times then lie a window apart. */
  predicate Apart(times: seq<int>, window: int) {
    forall i, j :: 0 <= i < j < |times| ==> times[j] >= times[i] + window
  }

  lemma {:induction false} ApartOncePerWindow(times: seq<int>, window: int, t: int)
    requires Apart(times, window) && window > 0
    ensures InWindow(times, t - window, t) <= 1
  {
    if times != [] {
      var n := |times| - 1;
      ApartOncePerWindow(times[..n], window, t);
      if t - window < times[n] <= t { NoneLate(times[..n], t - window, t); }
    }
  }

  lemma {:induction false} NoneLate(times: seq<int>, from: int, to: int)
    requires forall i :: 0 <= i < |times| ==> times[i] <= from
    ensures InWindow(times, from, to) == 0
  {
    if times != [] { NoneLate(times[..|times| - 1], from, to); }
  }

  lemma KeptOne(x: int, cutoff: int)
    ensures Kept([], cutoff) == [] && Kept([x], cutoff) == if x > cutoff then [x] else []
  {
    KeptAppend([], x, cutoff);
    assert [] + [x] == [x];
  }

  function LastOnly(times: seq<int>): seq<int> { if times == [] then [] else [times[|times| - 1]] }

  /** A limit of one admits the first attempt, and then those a window after the last admitted. */
  lemma DecideOne(window: int, admitted: seq<int>, now: int)
    ensures var late := admitted == [] || admitted[|admitted| - 1] <= now - window;
      Decide(1, window, LastOnly(admitted), now) == if late then (true, [now]) else (false, [admitted[|admitted| - 1]])
  {
    hide Kept;
    KeptOne(if admitted == [] then now else admitted[|admitted| - 1], now - window);
    assert [] + [now] == [now];
  }

  /** Under a limit of one the log is the last admitted time. */
  lemma {:induction false} OneIsLast(window: int, run: seq<Attempt>, key: string)
    requires window > 0
    ensures var log, admitted := LogOf(LogsAfter(1, window, run), key), Admitted(1, window, run, key);
      Apart(admitted, window) && log == LastOnly(admitted)
  {
    if run != [] {
      hide Admitted, LogsAfter, LogOf, Admits, Decide, Apart;
      var n := |run| - 1;
      OneIsLast(window, run[..n], key);
      RunStep(1, window, run, key);
      var admitted, now := Admitted(1, window, run[..n], key), run[n].now;
      DecideOne(window, admitted, now);
      ApartNow(admitted, now, window);
      assert LastOnly(admitted + [now]) == [now];
    }
  }

  lemma ApartNow(times: seq<int>, now: int, window: int)
    requires Apart(times, window) && window > 0
    ensures (times == [] || times[|times| - 1] <= now - window) ==> Apart(times + [now], window)
  {}

  /** The same attempt n times. */
  function Repeated(key: string, now: int, n: nat): seq<Attempt> { seq(n, _ => Attempt(key, now)) }

  lemma RepeatedMore(key: string, now: int, n: nat)
    ensures Repeated(key, now, n + 1) == Repeated(key, now, n) + [Attempt(key, now)]
  {}

  lemma NothingAdmitted(limit: int, window: int, key: string, now: int)
    ensures Repeated(key, now, 0) == []
    ensures LogOf(LogsAfter(limit, window, []), key) == [] == Admitted(limit, window, [], key) == Copies(now, 0)
  {}

  /** A run that breaks every limit above one: a burst, an attempt a window later, and then one whose
      clock was read just before that. */
  function Burst(limit: nat, window: int, key: string, start: int): seq<Attempt> {
    Repeated(key, start, limit) + [Attempt(key, start + window)] + [Attempt(key, start + window - 1)]
  }

  function Copies(x: int, n: nat): seq<int> { seq(n, _ => x) }

  lemma {:induction false} KeptCopies(x: int, n: nat, cutoff: int)
    ensures Kept(Copies(x, n), cutoff) == if x > cutoff then Copies(x, n) else []
  {
    if n > 0 {
      KeptCopies(x, n - 1, cutoff);
      KeptAppend(Copies(x, n - 1), x, cutoff);
      assert Copies(x, n) == Copies(x, n - 1) + [x];
    }
  }

  lemma {:induction false} CopiesInWindow(x: int, n: nat, from: int, to: int)
    requires from < x <= to
    ensures InWindow(Copies(x, n), from, to) == n
  {
    if n > 0 {
      CopiesInWindow(x, n - 1, from, to);
      WindowAppend(Copies(x, n - 1), x, from, to);
      assert Copies(x, n) == Copies(x, n - 1) + [x];
    }
  }

  /** The log and the record of a key after one more of its attempts. */
  lemma Extend(limit: int, window: int, run: seq<Attempt>, a: Attempt)
    ensures var log, admitted := LogOf(LogsAfter(limit, window, run), a.key), Admitted(limit, window, run, a.key);
      var (ok, next) := Decide(limit, window, log, a.now);
      && LogOf(LogsAfter(limit, window, run + [a]), a.key) == next
      && Admitted(limit, window, run + [a], a.key) == if ok then admitted + [a.now] else admitted
  {
    hide Decide;
    assert (run + [a])[..|run|] == run;
    RunStep(limit, window, run + [a], a.key);
  }

  lemma {:induction false} BurstAdmitted(limit: int, window: int, key: string, start: int, n: nat)
    requires n <= limit && window > 0
    ensures var run := Repeated(key, start, n);
      LogOf(LogsAfter(limit, window, run), key) == Admitted(limit, window, run, key) == Copies(start, n)
  {
    hide *;
    NothingAdmitted(limit, window, key, start);
    if n > 0 {
      BurstAdmitted(limit, window, key, start, n - 1);
      Extend(limit, window, Repeated(key, start, n - 1), Attempt(key, start));
      RepeatedMore(key, start, n - 1);
      DecideCopies(limit, window, start, n - 1);
    }
  }

  lemma DecideCopies(limit: int, window: int, x: int, n: nat)
    requires n < limit && window > 0
    ensures Decide(limit, window, Copies(x, n), x) == (true, Copies(x, n + 1)) && Copies(x, n) + [x] == Copies(x, n + 1)
  {
    hide Kept;
    KeptCopies(x, n, x - window);
  }

  /** The attempts of the burst, its window later, and the late one are all admitted. */
  lemma AllAdmitted(limit: int, window: int, key: string, start: int)
    requires limit >= 2 && window > 0
    ensures Admitted(limit, window, Burst(limit, window, key, start), key)
         == Copies(start, limit) + [start + window] + [start + window - 1]
  {
    hide Admitted, LogsAfter, LogOf, Kept;
    var burst, later, late := Repeated(key, start, limit), Attempt(key, start + window),
      Attempt(key, start + window - 1);
    BurstAdmitted(limit, window, key, start, limit);
    Extend(limit, window, burst, later);
    KeptCopies(start, limit, start);
    assert [] + [start + window] == [start + window];
    Extend(limit, window, burst + [later], late);
    KeptOne(start + window, start - 1);
  }

  lemma OutOfOrderExceeds(limit: int, window: int, key: string, start: int)
    requires limit >= 2 && window > 0
    ensures InWindow(Admitted(limit, window, Burst(limit, window, key, start), key), start - 1, start + window - 1) ==
      limit + 1
  {
    hide Admitted, Burst, InWindow;
    AllAdmitted(limit, window, key, start);
    CopiesInWindow(start, limit, start - 1, start + window - 1);
    WindowAppend(Copies(start, limit), start + window, start - 1, start + window - 1);
    WindowAppend(Copies(start, limit) + [start + window], start + window - 1, start - 1, start + window - 1);
  }

  /** How many admitted attempts of a key lie in the window ending at t. */
  function Count(limit: int, window: int, run: seq<Attempt>, key: string, t: int): nat {
    InWindow(Admitted(limit, window, run, key), t - window, t)
  }

  /** Callers entering in any order never exceed the limit exactly when the limit is one. */
  lemma AnyOrderExactly(limit: int, window: int)
    requires limit > 0 && window > 0
    ensures (forall run, key, t :: Count(limit, window, run, key, t) <= limit) <==> limit == 1
  {
    hide Admitted, InWindow, Burst;
    if limit == 1 {
      forall run, key, t ensures Count(limit, window, run, key, t) <= limit {
        OneIsLast(window, run, key);
        ApartOncePerWindow(Admitted(1, window, run, key), window, t);
      }
    } else {
      OutOfOrderExceeds(limit, window, "", 0);
      assert Count(limit, window, Burst(limit, window, "", 0), "", window - 1) == limit + 1;
    }
  }
}
