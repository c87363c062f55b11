/**
  The in-memory counter store behind login lockout.  Entries are dropped lazily, when somebody asks
  for a key whose time has passed; `log` is the map that never forgets, in which an entry is simply
  invisible once its time has passed.  Every value the service stores is a number.
 */
module LoginAttemptStore {
  import opened Options

  datatype Kind = Lock | Rate | Fail | Lockouts

  /** `auth:<kind>:<email>`; no kind contains a colon, so distinct pairs give distinct keys. */
  datatype Key = Key(kind: Kind, email: string)

  datatype Entry = Entry(value: int, expiresAt: int)

  type Table = map<Key, Entry>

  /** What a reader sees of `key` at time `now`. */
  function Visible(m: Table, key: Key, now: int): Option<Entry> {
    if key in m && m[key].expiresAt > now then Some(m[key]) else None
  }

  function Set(m: Table, key: Key, value: int, ttlSeconds: nat, now: int): Table {
    m[key := Entry(value, now + ttlSeconds * 1000)]
  }

  function Incr(m: Table, key: Key, ttlSeconds: nat, now: int): Table {
    match Visible(m, key, now)
    case None => Set(m, key, 1, ttlSeconds, now)
    case Some(e) => m[key := Entry(e.value + 1, e.expiresAt)]
  }

  function Count(m: Table, key: Key, now: int): int {
    match Visible(m, key, now)
    case None => 0
    case Some(e) => e.value
  }

  /** Remaining whole seconds, rounded up. */
  function Ttl(m: Table, key: Key, now: int): Option<int> {
    match Visible(m, key, now)
    case None => None
    case Some(e) => Some((e.expiresAt - now + 999) / 1000)
  }

  /** The reported seconds are the least number of whole seconds after which the entry is gone. */
  lemma RetryAfterIsTight(m: Table, key: Key, now: int)
    requires Visible(m, key, now).Some?
    ensures Ttl(m, key, now).Some? && Ttl(m, key, now).value > 0
    ensures Visible(m, key, now + Ttl(m, key, now).value * 1000) == None
    ensures Visible(m, key, now + (Ttl(m, key, now).value - 1) * 1000).Some?
  {
    var left := m[key].expiresAt - now;
    var seconds := (left + 999) / 1000;
    assert seconds * 1000 >= left > (seconds - 1) * 1000;
  }

  class MemoryLoginAttemptStore {
    var data: Table
    ghost var log: Table
    ghost var clock: int

    /** The two maps differ only in entries that no reader can see any more. */
    ghost predicate Valid()
      reads this
    {
      && (forall k | k in data :: k in log && log[k] == data[k])
      && (forall k | k in log && k !in data :: log[k].expiresAt <= clock)
    }

    constructor (ghost now: int)
      ensures Valid() && log == map[] && clock == now
    {
      data, log, clock := map[], map[], now;
    }

    method Live(key: Key, now: int) returns (entry: Option<Entry>)
      requires Valid() && clock <= now
      modifies this
      ensures Valid() && clock == now && log == old(log)
      ensures entry == Visible(log, key, now)
      ensures entry.Some? ==> key in data && data[key] == entry.value
    {
      clock := now;
      if key in data {
        if data[key].expiresAt <= now {
          data := data - {key};
          return None;
        }
        return Some(data[key]);
      }
      return None;
    }

    method Increment(key: Key, ttlSeconds: nat, now: int) returns (value: int)
      requires Valid() && clock <= now
      modifies this
      ensures Valid() && clock == now
      ensures log == Incr(old(log), key, ttlSeconds, now)
      ensures value == Count(old(log), key, now) + 1
    {
      var entry := Live(key, now);
      if entry == None {
        data := data[key := Entry(1, now + ttlSeconds * 1000)];
        log := log[key := Entry(1, now + ttlSeconds * 1000)];
        return 1;
      }
      value := entry.value.value + 1;
      data := data[key := Entry(value, entry.value.expiresAt)];
      log := log[key := Entry(value, entry.value.expiresAt)];
    }

    method Get(key: Key, now: int) returns (value: Option<int>)
      requires Valid() && clock <= now
      modifies this
      ensures Valid() && clock == now && log == old(log)
      ensures value == match Visible(log, key, now) case None => None case Some(e) => Some(e.value)
    {
      var entry := Live(key, now);
      value := if entry == None then None else Some(entry.value.value);
    }

    method Put(key: Key, value: int, ttlSeconds: nat, now: int)
      requires Valid() && clock <= now
      modifies this
      ensures Valid() && clock == now && log == Set(old(log), key, value, ttlSeconds, now)
    {
      data := data[key := Entry(value, now + ttlSeconds * 1000)];
      log := log[key := Entry(value, now + ttlSeconds * 1000)];
      clock := now;
    }

    method Delete(keys: set<Key>)
      requires Valid()
      modifies this
      ensures Valid() && clock == old(clock) && log == old(log) - keys
    {
      data := data - keys;
      log := log - keys;
    }

    method TimeToLive(key: Key, now: int) returns (seconds: Option<int>)
      requires Valid() && clock <= now
      modifies this
      ensures Valid() && clock == now && log == old(log)
      ensures seconds == Ttl(log, key, now)
    {
      var entry := Live(key, now);
      seconds := if entry == None then None else Some((entry.value.expiresAt - now + 999) / 1000);
    }
  }
}
