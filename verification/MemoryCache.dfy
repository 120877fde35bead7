/** The in-memory cache, one call at a time: values are copied in and out, an entry may expire,
    and an expired entry is dropped when it is looked up. */
module MemoryCache {
  import opened Wrappers
  import opened Bytes

  /** Nanoseconds; the zero time is never a clock reading. */
  type Instant = t: int | t > 0 witness 1

  /** The zero expiry, which never comes. */
  const NEVER: int := 0

  datatype Entry = Entry(value: seq<byte>, expiresAt: int)

  type Entries = map<string, Entry>

  predicate Expired(e: Entry, now: int) { e.expiresAt != NEVER && now > e.expiresAt }

  /** What a lookup finds, and the entries it leaves. */
  function Lookup(entries: Entries, key: string, now: int): (Option<seq<byte>>, Entries) {
    if key !in entries then (None, entries)
    else if Expired(entries[key], now) then (None, entries - {key})
    else (Some(entries[key].value), entries)
  }

  function Stored(entries: Entries, key: string, value: seq<byte>, ttl: int, now: Instant): Entries {
    entries[key := Entry(value, if ttl > 0 then now + ttl else NEVER)]
  }

  /** A value is found under its key until its time to live has passed, and for ever without one; other keys
      are not affected. */
  lemma StoredThenFound(entries: Entries, key: string, value: seq<byte>, ttl: int, stored: Instant, now: int,
                        other: string)
    ensures var after := Stored(entries, key, value, ttl, stored);
      && Lookup(after, key, now).0 == (if ttl > 0 && now > stored + ttl then None else Some(value))
      && Lookup(after, key, now).1 == (if ttl > 0 && now > stored + ttl then after - {key} else after)
      && (other != key ==> Lookup(after, other, now).0 == Lookup(entries, other, now).0)
  {}

  datatype Item = Item(value: array<byte>, expiresAt: int)

  class Cache {
    var items: map<string, Item>

    ghost function Buffers(): set<array<byte>>
      reads this
    {
      set k | k in items :: items[k].value
    }

    ghost function Contents(): Entries
      reads this, Buffers()
    {
      map k | k in items :: Entry(items[k].value[..], items[k].expiresAt)
    }

    constructor ()
      ensures Contents() == map[] && Buffers() == {}
    {
      items := map[];
    }

    method Get(key: string, now: Instant) returns (out: Option<array<byte>>)
      modifies this
      ensures Contents() == Lookup(old(Contents()), key, now).1 && Buffers() <= old(Buffers())
      ensures out.Some? ==> fresh(out.value) && Some(out.value[..]) == Lookup(old(Contents()), key, now).0
      ensures var entries := old(Contents());
        var expired := key in entries && entries[key].expiresAt != 0 && now > entries[key].expiresAt;
        && (out.Some? <==> key in entries && !expired) && (out.Some? ==> out.value[..] == entries[key].value)
        && Contents() == if expired then entries - {key} else entries
    {
      if key !in items { return None; }
      var it := items[key];
      if it.expiresAt != NEVER && now > it.expiresAt {
        Delete(key);
        return None;
      }
      var copied := Copy(it.value);
      return Some(copied);
    }

    method Set(key: string, value: array<byte>, ttl: int, now: Instant)
      modifies this
      ensures Contents() == Stored(old(Contents()), key, value[..], ttl, now)
      ensures Contents() == old(Contents())[key := Entry(value[..], if ttl > 0 then now + ttl else 0)]
      ensures fresh(Buffers() - old(Buffers())) && key in items && fresh(items[key].value)
    {
      var expiresAt := NEVER;
      if ttl > 0 { expiresAt := now + ttl; }
      var copied := Copy(value);
      items := items[key := Item(copied, expiresAt)];
    }

    method Delete(key: string)
      modifies this
      ensures Contents() == old(Contents()) - {key} && Buffers() <= old(Buffers())
    {
      items := items - {key};
    }
  }

  method Copy(a: array<byte>) returns (b: array<byte>)
    ensures fresh(b) && b[..] == a[..]
  {
    b := new byte[a.Length](i requires 0 <= i < a.Length reads a => a[i]);
  }
}
