/**
 * The session cache (pkg/cache/cache.go): a table from keys to values with the
 * time each entry was last set or read, and the sweep that drops idle entries.
 * The clock is the `now` parameter; the lock, the ticker goroutine and its
 * cancellation are not modelled.
 */
module SessionCache {

  /** An entry is dropped once it has been idle for longer than 15 minutes (in nanoseconds). */
  const IdleLimit: int := 15 * 60 * 1_000_000_000

  datatype Entry = Entry(value: string, lastCheck: int)

  predicate Idle(e: Entry, now: int)
  {
    now - e.lastCheck > IdleLimit
  }

  /** The table one sweep at time `now` leaves: the entries that are not idle. */
  function Swept(data: map<string, Entry>, now: int): map<string, Entry>
  {
    map k | k in data && !Idle(data[k], now) :: data[k]
  }

  class Cache {
    var data: map<string, Entry>

    /** `New`: an empty table. */
    constructor ()
      ensures data == map[]
    {
      data := map[];
    }

    /** `Get`: the value under `key` ("" when absent); a hit refreshes the entry's last-check stamp. */
    method Get(key: string, now: int) returns (value: string)
      modifies this
      ensures key !in old(data) ==> value == "" && data == old(data)
      ensures key in old(data) ==> value == old(data)[key].value && data == old(data)[key := Entry(value, now)]
    {
      if key !in data {
        return "";
      }
      var entry := data[key];
      data := data[key := entry.(lastCheck := now)];
      return entry.value;
    }

    /** `Set`: stores `value` under `key`, replacing any entry, stamped with `now`. */
    method Set(key: string, value: string, now: int)
      modifies this
      ensures data == old(data)[key := Entry(value, now)]
    {
      data := data[key := Entry(value, now)];
    }

    /** `Del`: removes `key`; every other entry stays as it was. */
    method Del(key: string)
      modifies this
      ensures data == old(data) - {key}
    {
      data := data - {key};
    }

    /** The body of one tick of `clean`: goes over the keys and deletes the idle entries. */
    method Sweep(now: int)
      modifies this
      ensures data == Swept(old(data), now)
      ensures forall k :: k in data ==> !Idle(data[k], now)
    {
      var pending := data.Keys;
      while pending != {}
        invariant pending <= old(data).Keys
        invariant data == map k | k in old(data) && (k in pending || !Idle(old(data)[k], now)) :: old(data)[k]
        decreases |pending|
      {
        var k :| k in pending;
        if Idle(data[k], now) {
          data := data - {k};
        }
        pending := pending - {k};
      }
    }
  }

  /** A key set at `now` survives every sweep up to 15 minutes later, with its value. */
  lemma SetSurvivesSweep(data: map<string, Entry>, key: string, value: string, now: int, later: int)
    requires later - now <= IdleLimit
    ensures key in Swept(data[key := Entry(value, now)], later)
    ensures Swept(data[key := Entry(value, now)], later)[key].value == value
  {
  }

  /** A second sweep at the same time removes nothing more. */
  lemma SweepIdempotent(data: map<string, Entry>, now: int)
    ensures Swept(Swept(data, now), now) == Swept(data, now)
  {
  }

  /** Sweeping only removes: every entry it keeps is unchanged, and none is added. */
  lemma SweepOnlyRemoves(data: map<string, Entry>, now: int)
    ensures Swept(data, now).Keys <= data.Keys
    ensures forall k :: k in Swept(data, now) ==> Swept(data, now)[k] == data[k]
  {
  }

  /** Reading an entry keeps it alive: after a hit at `now`, the next sweep within 15 minutes keeps it. */
  lemma GetKeepsAlive(data: map<string, Entry>, key: string, now: int, later: int)
    requires key in data && later - now <= IdleLimit
    ensures key in Swept(data[key := Entry(data[key].value, now)], later)
  {
  }
}
