/**
 The in-memory TTL store (crates/summer-auth/src/storage/memory.rs). `now` is the
 clock second at which a call runs. What a caller can observe is the live map:
 the entries that have not expired yet.
 */
module MemoryStorageModel {
  import opened Wrappers
  import opened SessionKeys

  const CLEANUP_INTERVAL := 100

  datatype DeviceInfo = DeviceInfo(rid: string, loginTime: int, loginIp: string, userAgent: string)

  // Device records are stored as JSON; writing and reading back is the identity.
  datatype Stored = Text(text: string) | DeviceRecord(info: DeviceInfo)

  datatype Entry = Entry(value: Stored, expiresAt: Option<int>)

  predicate IsExpired(e: Entry, now: int) {
    e.expiresAt.Some? && now > e.expiresAt.value
  }

  function Live(data: map<Key, Entry>, now: int): map<Key, Entry> {
    map k | k in data && !IsExpired(data[k], now) :: data[k]
  }

  function EntryFor(value: Stored, ttlSeconds: int, now: int): Entry {
    Entry(value, if ttlSeconds > 0 then Some(now + ttlSeconds) else None)
  }

  // What is live later was live before: time only removes entries.
  lemma LiveShrinks(data: map<Key, Entry>, early: int, late: int)
    requires early <= late
    ensures Live(Live(data, early), late) == Live(data, late)
  {
  }

  class MemoryStorage {
    var data: map<Key, Entry>
    var writeCount: nat

    constructor ()
      ensures data == map[] && writeCount == 0
    {
      data := map[];
      writeCount := 0;
    }

    // Removes exactly the expired entries, so nothing observable changes.
    method PurgeExpired(now: int)
      modifies this`data
      ensures data == Live(old(data), now)
      ensures Live(data, now) == Live(old(data), now)
    {
      data := map k | k in data && (data[k].expiresAt.None? || now <= data[k].expiresAt.value) :: data[k];
    }

    method MaybeCleanup(now: int)
      modifies this
      ensures data == if old(writeCount) % 100 == 0 then Live(old(data), now) else old(data)
      ensures Live(data, now) == Live(old(data), now)
      ensures writeCount == old(writeCount) + 1
    {
      var count := writeCount;
      writeCount := writeCount + 1;
      if count % CLEANUP_INTERVAL == 0 {
        PurgeExpired(now);
      }
    }

    method SetString(key: Key, value: Stored, ttlSeconds: int, now: int)
      modifies this
      ensures var expiry := if ttlSeconds > 0 then Some(now + ttlSeconds) else None;
              Live(data, now) == Live(old(data), now)[key := Entry(value, expiry)]
    {
      data := data[key := EntryFor(value, ttlSeconds, now)];
      assert Live(data, now) == Live(old(data), now)[key := EntryFor(value, ttlSeconds, now)];
      MaybeCleanup(now);
    }

    // An expired entry reads as absent and is removed on the way.
    method GetString(key: Key, now: int) returns (value: Option<Stored>)
      modifies this`data
      ensures value == if key in Live(old(data), now) then Some(Live(old(data), now)[key].value) else None
      ensures Live(data, now) == Live(old(data), now)
    {
      if key in data {
        if !IsExpired(data[key], now) {
          return Some(data[key].value);
        }
        data := data - {key};
      }
      return None;
    }

    method Delete(key: Key)
      modifies this`data
      ensures forall now :: Live(data, now) == Live(old(data), now) - {key}
    {
      data := data - {key};
    }

    // The live keys whose text starts with the prefix, each once, in the
    // unspecified order of a hash map.
    method KeysByPrefix(prefix: string, now: int) returns (keys: seq<Key>)
      ensures forall k :: k in keys <==> k in Live(data, now) && prefix <= KeyText(k)
      ensures forall i, j :: 0 <= i < j < |keys| ==> keys[i] != keys[j]
    {
      keys := [];
      var rest := data.Keys;
      while rest != {}
        invariant rest <= data.Keys
        invariant forall k :: k in keys <==> k in Live(data, now) && k !in rest && prefix <= KeyText(k)
        invariant forall i, j :: 0 <= i < j < |keys| ==> keys[i] != keys[j]
        decreases rest
      {
        var k :| k in rest;
        rest := rest - {k};
        if prefix <= KeyText(k) && (data[k].expiresAt.None? || now <= data[k].expiresAt.value) {
          keys := keys + [k];
        }
      }
    }

    method Exists(key: Key, now: int) returns (found: bool)
      ensures found <==> key in Live(data, now)
    {
      found := key in data && !IsExpired(data[key], now);
    }
  }
}
