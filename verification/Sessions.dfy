/** The two session stores: one keeps a map, the other keeps encoded sessions in the expiring
    cache.  Both find a session exactly when it was created, not deleted, and not yet expired at
    the reading of the clock that decides. */
module Sessions {
  import opened Wrappers
  import opened Bytes
  import opened MemoryCache

  /** The actor is known by its encoding. */
  datatype Session = Session(id: string, actor: string, createdAt: int, expiresAt: int)

  type SessionMap = map<string, Session>

  datatype SessionError = SessionNotFound | Corrupt

  function Find(sessions: SessionMap, id: string, now: int): Result<Session, SessionError> {
    if id in sessions && now <= sessions[id].expiresAt then Success(sessions[id]) else Failure(SessionNotFound)
  }

  class MemorySessionStore {
    var sessions: SessionMap

    constructor ()
      ensures sessions == map[]
    {
      sessions := map[];
    }

    /** Two readings of the clock: for the expiry, then for the creation time. */
    method Create(id: string, actor: string, ttl: int, now: Instant, later: Instant) returns (session: Session)
      modifies this
      ensures session == Session(id, actor, later, now + ttl) && sessions == old(sessions)[id := session]
    {
      session := Session(id, actor, later, now + ttl);
      sessions := sessions[id := session];
    }

    method Get(id: string, now: Instant) returns (res: Result<Session, SessionError>)
      ensures res == Find(sessions, id, now)
      ensures res == if id in sessions && now <= sessions[id].expiresAt then Success(sessions[id])
                     else Failure(SessionNotFound)
    {
      if id !in sessions || now > sessions[id].expiresAt { return Failure(SessionNotFound); }
      return Success(sessions[id]);
    }

    method Delete(id: string)
      modifies this
      ensures sessions == old(sessions) - {id}
    {
      sessions := sessions - {id};
    }
  }

  /******* Sessions in a cache *******/

  datatype Codec = Codec(encode: Session -> seq<byte>, decode: seq<byte> -> Option<Session>)

  ghost predicate RoundTrips(c: Codec) { forall s :: c.decode(c.encode(s)) == Some(s) }

  function KeyOf(prefix: string, id: string): string { (if prefix == "" then "gomyadmin:session:" else prefix) + id }

  /** Keys are the prefix, or the default one, and the id. */
  lemma KeysDiffer(prefix: string, id: string, other: string)
    ensures KeyOf("", id) == "gomyadmin:session:" + id && (prefix != "" ==> KeyOf(prefix, id) == prefix + id)
    ensures KeyOf(prefix, id) == KeyOf(prefix, other) <==> id == other
  {
    var p := if prefix == "" then "gomyadmin:session:" else prefix;
    assert KeyOf(prefix, id)[|p|..] == id && KeyOf(prefix, other)[|p|..] == other;
  }

  /** What a lookup answers, the entries it leaves, and the reading that decided: the cache's own
      when the entry was gone or had expired there, else the one compared with the session. */
  function CacheGet(c: Codec, prefix: string, entries: Entries, id: string, first: int, last: int)
    : (Result<Session, SessionError>, Entries, int)
  {
    var (data, left) := Lookup(entries, KeyOf(prefix, id), first);
    if data.None? then (Failure(SessionNotFound), left, first)
    else
      match c.decode(data.value)
      case None => (Failure(Corrupt), left, first)
      case Some(s) =>
        if last > s.expiresAt then
          (Failure(SessionNotFound), left - {KeyOf(prefix, id)}, last) else (Success(s), left, last)
  }

  /** One id: an entry holds the session and expires no earlier; a missing entry means the session
      was never created, was deleted, or has expired. */
  ghost predicate Holds(c: Codec, prefix: string, entries: Entries, sessions: SessionMap, clock: int, id: string) {
    var key := KeyOf(prefix, id);
    if key in entries then
      && id in sessions && entries[key].value == c.encode(sessions[id])
      && (entries[key].expiresAt == NEVER || entries[key].expiresAt >= sessions[id].expiresAt)
    else id in sessions ==> sessions[id].expiresAt < clock
  }

  ghost predicate Represents(c: Codec, prefix: string, entries: Entries, sessions: SessionMap, clock: int) {
    forall id :: Holds(c, prefix, entries, sessions, clock, id)
  }

  lemma CreateRepresents(c: Codec, prefix: string, entries: Entries, sessions: SessionMap, clock: int, session: Session,
                         ttl: int, now: Instant, later: Instant)
    requires Represents(c, prefix, entries, sessions, clock) && clock <= now <= later && session.expiresAt == now + ttl
    ensures Represents(c, prefix, Stored(entries, KeyOf(prefix, session.id), c.encode(session), ttl, later),
                       sessions[session.id := session], later)
  {
    var key := KeyOf(prefix, session.id);
    var next, made := Stored(entries, key, c.encode(session), ttl, later), sessions[session.id := session];
    forall id ensures Holds(c, prefix, next, made, later, id) {
      KeysDiffer(prefix, session.id, id);
      assert Holds(c, prefix, entries, sessions, clock, id);
    }
  }

  lemma WithoutRepresents(c: Codec, prefix: string, entries: Entries, sessions: SessionMap, clock: int, id: string)
    requires Represents(c, prefix, entries, sessions, clock)
    ensures Represents(c, prefix, entries - {KeyOf(prefix, id)}, sessions - {id}, clock)
    ensures id in sessions && sessions[id].expiresAt < clock ==>
      Represents(c, prefix, entries - {KeyOf(prefix, id)}, sessions, clock)
  {
    forall other
      ensures Holds(c, prefix, entries - {KeyOf(prefix, id)}, sessions - {id}, clock, other)
      ensures id in sessions && sessions[id].expiresAt < clock ==>
        Holds(c, prefix, entries - {KeyOf(prefix, id)}, sessions, clock, other)
    {
      KeysDiffer(prefix, id, other);
      assert Holds(c, prefix, entries, sessions, clock, other);
    }
  }

  lemma TimePasses(c: Codec, prefix: string, entries: Entries, sessions: SessionMap, clock: int, now: int)
    requires Represents(c, prefix, entries, sessions, clock) && clock <= now
    ensures Represents(c, prefix, entries, sessions, now)
  {
    forall id
      ensures Holds(c, prefix, entries, sessions, now, id)
    {
      assert Holds(c, prefix, entries, sessions, clock, id);
    }
  }

  /** What the cache finds is the session; what it does not find is not there to be found. */
  lemma LookupMeans(c: Codec, prefix: string, entries: Entries, sessions: SessionMap, clock: int, id: string,
                    first: int)
    requires RoundTrips(c) && Represents(c, prefix, entries, sessions, clock) && clock <= first
    ensures var (data, left) := Lookup(entries, KeyOf(prefix, id), first);
      if data.Some? then left == entries && id in sessions && c.decode(data.value) == Some(sessions[id])
      else Find(sessions, id, first) == Failure(SessionNotFound) && Represents(c, prefix, left, sessions, first)
  {
    var key := KeyOf(prefix, id);
    assert Holds(c, prefix, entries, sessions, clock, id);
    if key in entries && !Expired(entries[key], first) {
      assert c.decode(c.encode(sessions[id])) == Some(sessions[id]);
    }
    TimePasses(c, prefix, entries, sessions, clock, first);
    WithoutRepresents(c, prefix, entries, sessions, first, id);
  }

  /** For every ttl and every two readings of a nondecreasing clock, the cache answers what the map
      answers at the deciding reading, and still represents the map afterwards. */
  lemma GetAgrees(c: Codec, prefix: string, entries: Entries, sessions: SessionMap, clock: int, id: string, first: int,
                  last: int)
    requires RoundTrips(c) && Represents(c, prefix, entries, sessions, clock) && clock <= first <= last
    ensures var (res, left, decided) := CacheGet(c, prefix, entries, id, first, last);
      && res == Find(sessions, id, decided) && (decided == first || decided == last)
      && Represents(c, prefix, left, sessions, decided)
  {
    LookupMeans(c, prefix, entries, sessions, clock, id, first);
    TimePasses(c, prefix, entries, sessions, clock, last);
    WithoutRepresents(c, prefix, entries, sessions, last, id);
  }

  class CacheSessionStore {
    const cache: Cache
    const prefix: string
    const codec: Codec
    /** What was created and not deleted, and the latest reading of the clock. */
    ghost var sessions: SessionMap
    ghost var clock: int

    ghost predicate Valid()
      reads this, cache, cache.Buffers()
    {
      RoundTrips(codec) && Represents(codec, prefix, cache.Contents(), sessions, clock)
    }

    constructor (cache: Cache, prefix: string, codec: Codec)
      requires RoundTrips(codec) && forall id :: KeyOf(prefix, id) !in cache.Contents()
      ensures Valid() && sessions == map[] && this.cache == cache && this.prefix == prefix && this.codec == codec
    {
      this.cache, this.prefix, this.codec := cache, prefix, codec;
      sessions, clock := map[], 0;
      new;
      forall id ensures Holds(codec, prefix, cache.Contents(), sessions, clock, id) {}
    }

    /** The session is stamped at one reading; the cache sets its own expiry at a later one. */
    method Create(id: string, actor: string, ttl: int, now: Instant, later: Instant) returns (session: Session)
      requires Valid() && clock <= now <= later
      modifies this, cache
      ensures Valid() && clock == later
      ensures session == Session(id, actor, now, now + ttl) && sessions == old(sessions)[id := session]
    {
      session := Session(id, actor, now, now + ttl);
      CreateRepresents(codec, prefix, cache.Contents(), sessions, clock, session, ttl, now, later);
      ghost var entries := cache.Contents();
      var text := codec.encode(session);
      var data := new byte[|text|](i requires 0 <= i < |text| => text[i]);
      assert data[..] == text && cache.Contents() == entries;
      cache.Set(KeyOf(prefix, id), data, ttl, later);
      sessions, clock := sessions[id := session], later;
    }

    method Get(id: string, first: Instant, last: Instant)
      returns (res: Result<Session, SessionError>, ghost decided: int)
      requires Valid() && clock <= first <= last
      modifies this, cache
      ensures Valid() && sessions == old(sessions) && clock == decided && (decided == first || decided == last)
      ensures res == Find(sessions, id, decided)
      ensures res == if id in sessions && decided <= sessions[id].expiresAt then Success(sessions[id])
                     else Failure(SessionNotFound)
    {
      hide Represents, KeyOf;
      LookupMeans(codec, prefix, cache.Contents(), sessions, clock, id, first);
      TimePasses(codec, prefix, cache.Contents(), sessions, clock, last);
      var key := KeyOf(prefix, id);
      var data := cache.Get(key, first);
      if data.None? {
        clock := first;
        return Failure(SessionNotFound), first;
      }
      clock := last;
      // A stored session always decodes.
      var session := codec.decode(data.value[..]).value;
      if last > session.expiresAt {
        Forget(id);
        return Failure(SessionNotFound), last;
      }
      return Success(session), last;
    }

    /** Drops the entry of an expired session. */
    method Forget(id: string)
      requires Valid() && id in sessions && sessions[id].expiresAt < clock
      modifies this, cache
      ensures Valid() && sessions == old(sessions) && clock == old(clock)
    {
      ghost var entries := cache.Contents();
      WithoutRepresents(codec, prefix, entries, sessions, clock, id);
      Delete(id);
      sessions := old(sessions);
      assert cache.Contents() == entries - {KeyOf(prefix, id)};
    }

    method Delete(id: string)
      requires Valid()
      modifies this, cache
      ensures Valid() && sessions == old(sessions) - {id} && clock == old(clock)
      ensures cache.Contents() == old(cache.Contents()) - {KeyOf(prefix, id)}
    {
      WithoutRepresents(codec, prefix, cache.Contents(), sessions, clock, id);
      cache.Delete(KeyOf(prefix, id));
      sessions := sessions - {id};
    }
  }

  /******* Whole runs *******/

  datatype Op = DoCreate(id: string, actor: string, ttl: int) | DoGet(id: string) | DoDelete(id: string)

  datatype Readings = Readings(first: Instant, last: Instant)

  /** What a caller sees; only the creation stamp may differ between the stores. */
  datatype Shown = Shown(id: string, actor: string, expiresAt: int)

  function Show(s: Session): (r: Shown)
    ensures r.id == s.id && r.actor == s.actor && r.expiresAt == s.expiresAt
  {
    Shown(s.id, s.actor, s.expiresAt)
  }

  function ShowResult(r: Result<Session, SessionError>): Result<Shown, SessionError> {
    match r case Success(s) => Success(Show(s)) case Failure(e) => Failure(e)
  }

  datatype Answer = Made(shown: Shown) | Found(result: Result<Shown, SessionError>) | Gone

  function MemoryStep(sessions: SessionMap, op: Op, r: Readings, decided: int): (next: (SessionMap, Answer))
    ensures op.DoCreate? ==> next.1 == Made(Shown(op.id, op.actor, r.first + op.ttl)) && op.id in next.0
    ensures op.DoGet? ==>
      next.0 == sessions &&
      next.1 == Found(if op.id in sessions && decided <= sessions[op.id].expiresAt
                      then Success(Shown(sessions[op.id].id, sessions[op.id].actor, sessions[op.id].expiresAt))
                      else Failure(SessionNotFound))
    ensures op.DoDelete? ==> op.id !in next.0
  {
    match op
    case DoCreate(id, actor, ttl) =>
      var s := Session(id, actor, r.last, r.first + ttl);
      (sessions[id := s], Made(Show(s)))
    case DoGet(id) => (sessions, Found(ShowResult(Find(sessions, id, decided))))
    case DoDelete(id) => (sessions - {id}, Gone)
  }

  function CachedStep(c: Codec, prefix: string, entries: Entries, op: Op, r: Readings): (Entries, Answer, int) {
    match op
    case DoCreate(id, actor, ttl) =>
      var s := Session(id, actor, r.first, r.first + ttl);
      (Stored(entries, KeyOf(prefix, id), c.encode(s), ttl, r.last), Made(Show(s)), r.last)
    case DoGet(id) =>
      var (res, left, decided) := CacheGet(c, prefix, entries, id, r.first, r.last);
      (left, Found(ShowResult(res)), decided)
    case DoDelete(id) => (entries - {KeyOf(prefix, id)}, Gone, r.last)
  }

  /** The clock never goes back, within a call or between calls. */
  predicate Ticks(clock: int, rs: seq<Readings>)
    decreases |rs|
  {
    rs == [] || (clock <= rs[0].first <= rs[0].last && Ticks(rs[0].last, rs[1..]))
  }

  function MemoryRun(sessions: SessionMap, ops: seq<Op>, rs: seq<Readings>, decided: seq<int>): seq<Answer>
    requires |ops| == |rs| == |decided|
    decreases |ops|
  {
    if ops == [] then []
    else
      var (next, answer) := MemoryStep(sessions, ops[0], rs[0], decided[0]);
      [answer] + MemoryRun(next, ops[1..], rs[1..], decided[1..])
  }

  /** The answers of a run, and the reading that decided each. */
  function CachedRun(c: Codec, prefix: string, entries: Entries, ops: seq<Op>,
                     rs: seq<Readings>): (r: (seq<Answer>, seq<int>))
    requires |ops| == |rs|
    ensures |r.0| == |r.1| == |ops|
    decreases |ops|
  {
    if ops == [] then ([], [])
    else
      var (next, answer, decided) := CachedStep(c, prefix, entries, ops[0], rs[0]);
      var (answers, times) := CachedRun(c, prefix, next, ops[1..], rs[1..]);
      ([answer] + answers, [decided] + times)
  }

  ghost predicate LookAlike(a: SessionMap, b: SessionMap) {
    a.Keys == b.Keys && forall id :: id in a ==> Show(a[id]) == Show(b[id])
  }

  /** Both stores give the same answers to every sequence of operations, for every ttl and every
      nondecreasing clock with several readings per call, each lookup compared at the reading that
      decided it. */
  lemma {:induction false} RunsAgree(c: Codec, prefix: string, entries: Entries, cached: SessionMap,
                                     sessions: SessionMap, clock: int, ops: seq<Op>, rs: seq<Readings>)
    requires RoundTrips(c) && |ops| == |rs| && Ticks(clock, rs)
    requires Represents(c, prefix, entries, cached, clock) && LookAlike(cached, sessions)
    ensures var (answers, decided) := CachedRun(c, prefix, entries, ops, rs);
      && MemoryRun(sessions, ops, rs, decided) == answers
      && forall i :: 0 <= i < |ops| ==> decided[i] == rs[i].first || decided[i] == rs[i].last
    decreases |ops|
  {
    if ops != [] {
      var op, r := ops[0], rs[0];
      var (next, answer, decided) := CachedStep(c, prefix, entries, op, r);
      var then_ := MemoryStep(sessions, op, r, decided).0;
      var cached' := StepAgrees(c, prefix, entries, cached, sessions, clock, op, r);
      TimePasses(c, prefix, next, cached', decided, r.last);
      RunsAgree(c, prefix, next, cached', then_, r.last, ops[1..], rs[1..]);
    }
  }

  lemma StepAgrees(c: Codec, prefix: string, entries: Entries, cached: SessionMap, sessions: SessionMap, clock: int,
                   op: Op, r: Readings)
    returns (cached': SessionMap)
    requires RoundTrips(c) && clock <= r.first <= r.last
    requires Represents(c, prefix, entries, cached, clock) && LookAlike(cached, sessions)
    ensures var (next, answer, decided) := CachedStep(c, prefix, entries, op, r);
      && MemoryStep(sessions, op, r, decided).1 == answer && (decided == r.first || decided == r.last)
      && Represents(c, prefix, next, cached', decided) && LookAlike(cached', MemoryStep(sessions, op, r, decided).0)
  {
    match op
    case DoCreate(id, actor, ttl) =>
      var s := Session(id, actor, r.first, r.first + ttl);
      CreateRepresents(c, prefix, entries, cached, clock, s, ttl, r.first, r.last);
      cached' := cached[id := s];
    case DoGet(id) =>
      GetAgrees(c, prefix, entries, cached, clock, id, r.first, r.last);
      cached' := cached;
    case DoDelete(id) =>
      TimePasses(c, prefix, entries, cached, clock, r.last);
      WithoutRepresents(c, prefix, entries, cached, r.last, id);
      cached' := cached - {id};
  }
}
