/** The session manager over its store (crates/summer-auth/src/session/manager.rs). */
module SessionManagerModel {
  import opened Counting
  import opened Wrappers
  import opened Decimal
  import opened SessionKeys
  import opened MemoryStorageModel
  import opened SessionSpec

  type Dated = (Key, DeviceInfo)

  predicate Older(a: Dated, b: Dated) {
    a.1.loginTime <= b.1.loginTime
  }

  ghost predicate SortedByTime(v: seq<Dated>) {
    forall i, j :: 0 <= i < j < |v| ==> Older(v[i], v[j])
  }

  function KeySet(keys: seq<Key>): set<Key> {
    set k | k in keys
  }

  function KeysOf(v: seq<Dated>): (keys: seq<Key>)
    ensures |keys| == |v| && forall i :: 0 <= i < |v| ==> keys[i] == v[i].0
  {
    seq(|v|, i requires 0 <= i < |v| => v[i].0)
  }

  // Stable insertion into a sorted list, and the sort made of it.
  function Insert(v: seq<Dated>, x: Dated): seq<Dated> {
    if v == [] then [x]
    else
      var front, last := v[..|v| - 1], v[|v| - 1];
      if Older(last, x) then v + [x] else Insert(front, x) + [last]
  }

  function SortByTime(v: seq<Dated>): seq<Dated> {
    if v == [] then [] else Insert(SortByTime(v[..|v| - 1]), v[|v| - 1])
  }

  ghost predicate DistinctDevices(v: seq<Dated>) {
    forall i, j :: 0 <= i < j < |v| ==> v[i].0 != v[j].0
  }

  lemma AppendSorted(v: seq<Dated>, x: Dated)
    requires SortedByTime(v) && DistinctDevices(v)
    requires forall d :: d in v ==> Older(d, x) && d.0 != x.0
    ensures SortedByTime(v + [x]) && DistinctDevices(v + [x])
  {
    assert forall i :: 0 <= i < |v| ==> v[i] in v;
  }

  lemma {:induction false} InsertSorts(v: seq<Dated>, x: Dated)
    requires SortedByTime(v) && DistinctDevices(v) && forall d :: d in v ==> d.0 != x.0
    ensures SortedByTime(Insert(v, x)) && DistinctDevices(Insert(v, x))
    ensures |Insert(v, x)| == |v| + 1
    ensures forall d :: d in Insert(v, x) <==> d in v || d == x
  {
    if v != [] {
      var front, last := v[..|v| - 1], v[|v| - 1];
      assert v == front + [last];
      forall d | d in front
        ensures Older(d, last) && d.0 != last.0
      {
        var i :| 0 <= i < |front| && v[i] == d;
        assert Older(v[i], v[|v| - 1]);
      }
      if Older(last, x) {
        AppendSorted(v, x);
      } else {
        InsertSorts(front, x);
        AppendSorted(Insert(front, x), last);
      }
    }
  }

  lemma {:induction false} SortSorts(v: seq<Dated>)
    requires DistinctDevices(v)
    ensures SortedByTime(SortByTime(v)) && DistinctDevices(SortByTime(v)) && |SortByTime(v)| == |v|
    ensures forall d :: d in SortByTime(v) <==> d in v
  {
    if v != [] {
      var front, last := v[..|v| - 1], v[|v| - 1];
      assert v == front + [last];
      SortSorts(front);
      assert forall d :: d in front ==> d.0 != last.0;
      InsertSorts(SortByTime(front), last);
    }
  }

  lemma DevicesCount(v: seq<Dated>)
    requires DistinctDevices(v)
    ensures |KeySet(KeysOf(v))| == |v|
  {
    DistinctCount(KeysOf(v), KeySet(KeysOf(v)));
  }

  lemma KeysOfElements(v: seq<Dated>, k: Key)
    ensures k in KeySet(KeysOf(v)) <==> exists d :: d in v && d.0 == k
  {
    if k in KeySet(KeysOf(v)) {
      var i :| 0 <= i < |v| && KeysOf(v)[i] == k;
      assert v[i] in v;
    }
    if d :| d in v && d.0 == k {
      var i :| 0 <= i < |v| && v[i] == d;
      assert KeysOf(v)[i] == k;
    }
  }

  class SessionManager {
    const storage: MemoryStorage
    const cfg: AuthConfig

    constructor (storage: MemoryStorage, cfg: AuthConfig)
      ensures this.storage == storage && this.cfg == cfg
    {
      this.storage := storage;
      this.cfg := cfg;
    }

    // The store as callers see it.
    function Sessions(now: int): Store
      reads storage
    {
      Live(storage.data, now)
    }

    // Deletes one device record and the refresh key it names.
    method RemoveRecord(dk: Key, now: int)
      requires dk.DeviceKey?
      modifies storage
      ensures Sessions(now) == RemoveDevices(old(Sessions(now)), {dk})
    {
      var json := storage.GetString(dk, now);
      if json.Some? && json.value.DeviceRecord? {
        storage.Delete(RefreshKey(json.value.info.rid));
      }
      storage.Delete(dk);
    }

    method CleanupDevice(login: LoginId, device: string, now: int)
      modifies storage
      ensures Sessions(now) == RemoveDevices(old(Sessions(now)), {DeviceKey(login, device)})
    {
      RemoveRecord(DeviceKey(login, device), now);
    }

    // Deletes each listed device record with its refresh key.
    method RemoveAll(keys: seq<Key>, now: int)
      requires forall k :: k in keys ==> k.DeviceKey?
      modifies storage
      ensures Sessions(now) == RemoveDevices(old(Sessions(now)), KeySet(keys))
    {
      ghost var start := Sessions(now);
      assert RemoveDevices(start, {}) == start;
      for i := 0 to |keys|
        invariant Sessions(now) == RemoveDevices(start, KeySet(keys[..i]))
      {
        RemoveOneMore(start, keys, i);
        RemoveRecord(keys[i], now);
      }
      assert keys[..|keys|] == keys;
    }

    // The same, device by device, through the names read from the keys.
    method CleanupAll(login: LoginId, keys: seq<Key>, now: int)
      requires forall k :: k in keys ==> k.DeviceKey? && k.login == login
      modifies storage
      ensures Sessions(now) == RemoveDevices(old(Sessions(now)), KeySet(keys))
    {
      ghost var start := Sessions(now);
      assert RemoveDevices(start, {}) == start;
      for i := 0 to |keys|
        invariant Sessions(now) == RemoveDevices(start, KeySet(keys[..i]))
      {
        RemoveOneMore(start, keys, i);
        DeviceNameRoundTrip(keys[i].device);
        CleanupDevice(login, AsStr(DeviceFrom(keys[i].device)), now);
      }
      assert keys[..|keys|] == keys;
    }

    static lemma RemoveOneMore(s: Store, keys: seq<Key>, i: nat)
      requires i < |keys| && forall k :: k in keys ==> k.DeviceKey?
      ensures RemoveDevices(s, KeySet(keys[..i + 1]))
              == RemoveDevices(RemoveDevices(s, KeySet(keys[..i])), {keys[i]})
    {
      assert keys[..i + 1] == keys[..i] + [keys[i]];
      assert KeySet(keys[..i + 1]) == KeySet(keys[..i]) + {keys[i]};
      RemoveUnion(s, KeySet(keys[..i]), keys[i]);
    }

    static lemma RemoveUnion(s: Store, done: set<Key>, key: Key)
      requires key.DeviceKey? && forall k :: k in done ==> k.DeviceKey?
      ensures RemoveDevices(s, done + {key}) == RemoveDevices(RemoveDevices(s, done), {key})
    {
      var s1 := RemoveDevices(s, done);
      assert forall k: Key :: k.DeviceKey? && k !in done ==> (k in s1 <==> k in s);
      assert RefreshKeysOf(s, done + {key}) == RefreshKeysOf(s, done) + RefreshKeysOf(s, {key});
      if key !in done {
        assert RefreshKeysOf(s1, {key}) == RefreshKeysOf(s, {key});
      } else {
        assert done + {key} == done;
        assert RefreshKeysOf(s1, {key}) == {};
      }
    }

    method DeviceKeys(login: LoginId, now: int) returns (keys: seq<Key>)
      ensures KeySet(keys) == DeviceKeysOf(Sessions(now), login) && Distinct(keys)
      ensures |keys| == |DeviceKeysOf(Sessions(now), login)|
    {
      keys := storage.KeysByPrefix(DevicePrefix(login), now);
      forall k
        ensures DevicePrefix(login) <= KeyText(k) <==> k.DeviceKey? && k.login == login
      {
        DevicePrefixSelects(login, k);
      }
      assert KeySet(keys) == DeviceKeysOf(Sessions(now), login);
      DistinctCount(keys, KeySet(keys));
    }

    // Reads the records of the listed keys, each with its own key.
    method ReadRecords(keys: seq<Key>, now: int) returns (devices: seq<Dated>)
      requires Distinct(keys)
      modifies storage
      ensures Sessions(now) == old(Sessions(now)) && DistinctDevices(devices)
      ensures forall d :: d in devices <==>
                            && d.0 in keys && d.0 in Sessions(now) && Sessions(now)[d.0].value == DeviceRecord(d.1)
    {
      ghost var s := Sessions(now);
      devices := [];
      for i := 0 to |keys|
        invariant Sessions(now) == s && DistinctDevices(devices)
        invariant forall d :: d in devices <==>
                                d.0 in keys[..i] && d.0 in s && s[d.0].value == DeviceRecord(d.1)
      {
        var json := storage.GetString(keys[i], now);
        assert keys[i] !in keys[..i];
        assert keys[..i + 1] == keys[..i] + [keys[i]];
        assert forall d :: d in devices ==> d.0 != keys[i];
        if json.Some? && json.value.DeviceRecord? {
          devices := devices + [(keys[i], json.value.info)];
        }
      }
      assert keys[..|keys|] == keys;
    }

    ghost static predicate RecordList(s: Store, login: LoginId, devices: seq<Dated>) {
      && DistinctDevices(devices)
      && (forall d :: d in devices <==>
            d.0 in DeviceKeysOf(s, login) && s[d.0].value == DeviceRecord(d.1))
    }

    static lemma RecordListKeys(s: Store, login: LoginId, devices: seq<Dated>)
      requires RecordList(s, login, devices)
      ensures KeySet(KeysOf(devices)) == RecordsOf(s, login)
    {
      forall k
        ensures k in KeySet(KeysOf(devices)) <==> k in RecordsOf(s, login)
      {
        KeysOfElements(devices, k);
        if k in RecordsOf(s, login) {
          assert (k, s[k].value.info) in devices;
        }
      }
    }

    // The first `count` of the sorted records are oldest.
    static lemma OldestFirst(s: Store, login: LoginId, sorted: seq<Dated>, count: nat, e: Key, k: Key)
      requires RecordList(s, login, sorted) && SortedByTime(sorted) && count <= |sorted|
      requires e in KeySet(KeysOf(sorted[..count])) && k in RecordsOf(s, login) - KeySet(KeysOf(sorted[..count]))
      ensures e in RecordsOf(s, login) && LoginTime(s, e) <= LoginTime(s, k)
    {
      KeysOfElements(sorted[..count], e);
      var i :| 0 <= i < count && sorted[i].0 == e;
      assert sorted[i] in sorted;
      var d := (k, s[k].value.info);
      assert d in sorted;
      var j :| 0 <= j < |sorted| && sorted[j] == d;
      assert j >= count by {
        KeysOfElements(sorted[..count], k);
        assert forall m :: 0 <= m < count ==> sorted[..count][m] in sorted[..count];
        assert forall m :: 0 <= m < count ==> sorted[..count][m].0 != k;
      }
      assert Older(sorted[i], sorted[j]);
    }

    static lemma OldestEvicted(
        cfg: AuthConfig, s: Store, login: LoginId, devices: seq<Dated>, sorted: seq<Dated>, count: nat)
      requires sorted == SortByTime(devices) && RecordList(s, login, devices)
      requires cfg.maxDevices > 0 && |DeviceKeysOf(s, login)| >= cfg.maxDevices
      requires count == if |devices| + 1 >= cfg.maxDevices then |devices| + 1 - cfg.maxDevices else 0
      ensures count <= |sorted| && Evicts(cfg, s, login, KeySet(KeysOf(sorted[..count])))
    {
      SortSorts(devices);
      RecordListKeys(s, login, devices);
      DevicesCount(devices);
      var evicted := KeySet(KeysOf(sorted[..count]));
      DevicesCount(sorted[..count]);
      forall e | e in evicted
        ensures e in RecordsOf(s, login)
      {
        KeysOfElements(sorted[..count], e);
      }
      forall e, k | e in evicted && k in RecordsOf(s, login) - evicted
        ensures LoginTime(s, e) <= LoginTime(s, k)
      {
        OldestFirst(s, login, sorted, count, e, k);
      }
    }

    // Sessions that may not stay beside a new one.
    method EndConcurrentSessions(login: LoginId, device: string, now: int)
      modifies storage
      ensures Sessions(now) == AfterConcurrency(cfg, old(Sessions(now)), login, device)
    {
      if cfg.concurrentLogin {
        CleanupDevice(login, device, now);
      } else {
        var keys := DeviceKeys(login, now);
        assert forall k :: k in keys ==> k in KeySet(keys);
        CleanupAll(login, keys, now);
      }
    }

    lemma NothingToEvict(s: Store, login: LoginId)
      requires cfg.maxDevices == 0 || |DeviceKeysOf(s, login)| < cfg.maxDevices
      ensures Evicts(cfg, s, login, {}) && RemoveDevices(s, {}) == s
    {
    }

    static lemma RecordsHaveDeviceKeys(s: Store, login: LoginId, keys: seq<Key>, devices: seq<Dated>)
      requires KeySet(keys) == DeviceKeysOf(s, login) && DistinctDevices(devices)
      requires forall d :: d in devices <==> d.0 in keys && d.0 in s && s[d.0].value == DeviceRecord(d.1)
      ensures RecordList(s, login, devices)
      ensures forall d :: d in devices ==> d.0.DeviceKey?
    {
      assert forall k :: k in keys <==> k in KeySet(keys);
    }

    static lemma OldestAreDevices(devices: seq<Dated>, count: nat)
      requires DistinctDevices(devices) && count <= |SortByTime(devices)|
      requires forall d :: d in devices ==> d.0.DeviceKey?
      ensures forall k :: k in KeysOf(SortByTime(devices)[..count]) ==> k.DeviceKey?
    {
      SortSorts(devices);
      var sorted := SortByTime(devices);
      assert forall i :: 0 <= i < count ==> sorted[i] in sorted;
    }

    // Makes room for one more device when the limit is reached.
    method EvictOldest(login: LoginId, now: int) returns (ghost evicted: set<Key>)
      modifies storage
      ensures Evicts(cfg, old(Sessions(now)), login, evicted)
      ensures Sessions(now) == RemoveDevices(old(Sessions(now)), evicted)
    {
      hide RecordsOf, RemoveDevices, Evicts, RecordList, DistinctDevices, KeySet, DeviceKeysOf, SortByTime;
      ghost var base := Sessions(now);
      if cfg.maxDevices > 0 {
        var keys := DeviceKeys(login, now);
        if |keys| >= cfg.maxDevices {
          var devices := ReadRecords(keys, now);
          var sorted := SortByTime(devices);
          var toRemove := if |devices| + 1 >= cfg.maxDevices then |devices| + 1 - cfg.maxDevices else 0;
          RecordsHaveDeviceKeys(base, login, keys, devices);
          OldestEvicted(cfg, base, login, devices, sorted, toRemove);
          OldestAreDevices(devices, toRemove);
          var oldest := KeysOf(sorted[..toRemove]);
          RemoveAll(oldest, now);
          return KeySet(oldest);
        }
      }
      NothingToEvict(base, login);
      return {};
    }

    method HandleDevicePolicy(login: LoginId, device: string, now: int)
      modifies storage
      ensures var base := AfterConcurrency(cfg, old(Sessions(now)), login, device);
              exists evicted :: Evicts(cfg, base, login, evicted) && Sessions(now) == RemoveDevices(base, evicted)
    {
      hide AfterConcurrency, Evicts, RemoveDevices;
      EndConcurrentSessions(login, device, now);
      ghost var evicted := EvictOldest(login, now);
    }

    method Login(login: LoginId, device: string, loginIp: string, userAgent: string, nowMs: int, rid: string)
      returns (pair: TokenPair)
      modifies storage
      ensures var now := Seconds(nowMs);
              && pair == TokenPair(IssueAccess(cfg, login, device, now), IssueRefresh(cfg, login, rid, now))
              && LoginEffect(
                   cfg, old(Sessions(now)), login, device, DeviceInfo(rid, nowMs, loginIp, userAgent), now,
                   Sessions(now))
    {
      var now := Seconds(nowMs);
      HandleDevicePolicy(login, device, now);
      var accessClaims := IssueAccess(cfg, login, device, now);
      var refreshClaims := IssueRefresh(cfg, login, rid, now);
      storage.SetString(RefreshKey(rid), Text(RefreshValue(login, device)), cfg.refreshTimeout, now);
      var info := DeviceInfo(rid, nowMs, loginIp, userAgent);
      storage.SetString(DeviceKey(login, device), DeviceRecord(info), cfg.refreshTimeout, now);
      return TokenPair(accessClaims, refreshClaims);
    }

    method Logout(login: LoginId, device: string, now: int)
      modifies storage
      ensures Sessions(now) == LogoutEffect(cfg, old(Sessions(now)), login, device, now)
    {
      CleanupDevice(login, device, now);
      storage.SetString(DenyKey(login), RefreshDeny(now), cfg.accessTimeout, now);
    }

    method LogoutAll(login: LoginId, now: int)
      modifies storage
      ensures Sessions(now) == LogoutAllEffect(cfg, old(Sessions(now)), login, now)
    {
      var keys := DeviceKeys(login, now);
      assert forall k :: k in keys ==> k in KeySet(keys);
      RemoveAll(keys, now);
      storage.SetString(DenyKey(login), RefreshDeny(now), cfg.accessTimeout, now);
    }

    method Refresh(claims: RefreshClaims, now: int, newRid: string) returns (result: Result<TokenPair, AuthError>)
      modifies storage
      ensures var target := RefreshTarget(old(Sessions(now)), claims, now);
              if target.Ok? then
                var (login, device) := target.value;
                && result == Ok(
                     TokenPair(IssueAccess(cfg, login, device, now), IssueRefresh(cfg, login, newRid, now)))
                && Sessions(now) == RotateEffect(cfg, old(Sessions(now)), login, device, claims.rid, newRid, now)
              else
                result == Err(target.error) && Sessions(now) == old(Sessions(now))
    {
      hide Encode, Decode, AfterLastColon, AsStr, DeviceFrom;
      if claims.exp < now {
        return Err(RefreshTokenExpired);
      }
      var login := Decode(claims.sub);
      if login.None? {
        return Err(InvalidRefreshToken);
      }
      var rk := RefreshKey(claims.rid);
      var refreshValue := storage.GetString(rk, now);
      if refreshValue.None? || !refreshValue.value.Text? {
        return Err(InvalidRefreshToken);
      }
      var deviceStr := AfterLastColon(refreshValue.value.text);
      if deviceStr.None? {
        return Err(InvalidRefreshToken);
      }
      var device := DeviceFrom(deviceStr.value);
      DeviceNameRoundTrip(deviceStr.value);
      var deny := storage.GetString(DenyKey(login.value), now);
      if deny.Some? && deny.value == BANNED {
        return Err(AccountBanned);
      }
      var access := IssueAccess(cfg, login.value, AsStr(device), now);
      var refresh := IssueRefresh(cfg, login.value, newRid, now);
      storage.SetString(RefreshKey(newRid), Text(RefreshValue(login.value, AsStr(device))), cfg.refreshTimeout, now);
      storage.Delete(rk);
      var dk := DeviceKey(login.value, AsStr(device));
      var json := storage.GetString(dk, now);
      if json.Some? && json.value.DeviceRecord? {
        var info := json.value.info.(rid := newRid);
        storage.SetString(dk, DeviceRecord(info), cfg.refreshTimeout, now);
      }
      return Ok(TokenPair(access, refresh));
    }

    method ValidateToken(claims: AccessClaims, now: int) returns (result: Result<LoginId, AuthError>)
      modifies storage
      ensures Sessions(now) == old(Sessions(now))
      ensures result == Validate(cfg, old(Sessions(now)), claims, now)
    {
      if claims.exp < now {
        return Err(TokenExpired);
      }
      var login := Decode(claims.sub);
      if login.None? {
        return Err(InvalidToken);
      }
      if cfg.perRequestDenyCheck {
        var deny := storage.GetString(DenyKey(login.value), now);
        if deny.Some? {
          if deny.value == BANNED {
            return Err(AccountBanned);
          }
          if !deny.value.Text? || !("refresh:" <= deny.value.text) {
            return Err(InvalidToken);
          }
          var denyTs := ParseI64(deny.value.text[8..]);
          if denyTs.None? {
            return Err(InvalidToken);
          }
          if claims.iat <= denyTs.value {
            return Err(RefreshRequired);
          }
        }
      }
      return Ok(login.value);
    }

    method BanUser(login: LoginId, now: int)
      modifies storage
      ensures Sessions(now) == BanEffect(old(Sessions(now)), login, now)
    {
      var keys := DeviceKeys(login, now);
      assert forall k :: k in keys ==> k in KeySet(keys);
      RemoveAll(keys, now);
      storage.SetString(DenyKey(login), BANNED, BAN_SECONDS, now);
    }

    method UnbanUser(login: LoginId, now: int)
      modifies storage
      ensures Sessions(now) == old(Sessions(now)) - {DenyKey(login)}
    {
      storage.Delete(DenyKey(login));
    }

    method ForceRefresh(login: LoginId, now: int)
      modifies storage
      ensures Sessions(now) == ForceRefreshEffect(cfg, old(Sessions(now)), login, now)
    {
      storage.SetString(DenyKey(login), RefreshDeny(now), cfg.accessTimeout, now);
    }
  }
}
