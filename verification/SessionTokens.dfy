/**
 Over every run a refresh token works once and a user stays within the device limit, whatever the
 devices are called (crates/summer-auth/src/session/manager.rs:172-222, 324-411).
 */
module SessionTokens {
  import opened Counting
  import opened SessionKeys
  import opened MemoryStorageModel
  import opened SessionSpec
  import opened SessionRuns

  // Stored refresh keys and issued refresh tokens carry used ids; device keys hold device records.
  ghost predicate Sound(w: World) {
    && (forall rid :: RefreshKey(rid) in w.store ==> rid in w.rids)
    && (forall c :: c in w.refresh ==> c.rid in w.rids)
    && OnlyRecords(w.store)
  }

  ghost predicate OnlyRecords(s: Store) {
    forall k: Key :: k.DeviceKey? && k in s ==> s[k].value.DeviceRecord?
  }

  lemma RemovalIsSound(s: Store, keys: set<Key>)
    requires OnlyRecords(s)
    ensures OnlyRecords(RemoveDevices(s, keys))
    ensures forall rid :: RefreshKey(rid) in RemoveDevices(s, keys) ==> RefreshKey(rid) in s
  {
  }

  // The store after a login holds no refresh key but old ones and the new one, and device records only.
  lemma LoginIsSound(
      cfg: AuthConfig, s: Store, u: LoginId, d: string, info: DeviceInfo, now: int, s': Store)
    requires OnlyRecords(s) && LoginEffect(cfg, s, u, d, info, now, s')
    ensures OnlyRecords(s')
    ensures forall rid :: RefreshKey(rid) in s' ==> RefreshKey(rid) in s || rid == info.rid
  {
    var base := AfterConcurrency(cfg, s, u, d);
    var evicted :| Evicts(cfg, base, u, evicted)
      && s' == WithSession(cfg, RemoveDevices(base, evicted), u, d, info, now);
    hide Evicts, RemoveDevices;
    RemovalIsSound(s, if cfg.concurrentLogin then {DeviceKey(u, d)} else DeviceKeysOf(s, u));
    RemovalIsSound(base, evicted);
  }

  lemma OldIsSound(w: World, now: int)
    requires Sound(w)
    ensures OnlyRecords(Live(w.store, now)) && forall rid :: RefreshKey(rid) in Live(w.store, now) ==> rid in w.rids
  {
  }

  lemma StepKeepsSound(cfg: AuthConfig, w: World, ev: Event, w': World)
    requires Sound(w) && Step(cfg, w, ev, w')
    ensures Sound(w')
  {
    var now := Seconds(ev.nowMs);
    var s := Live(w.store, now);
    OldIsSound(w, now);
    match ev.op
    case Login(u, d, ip, agent, rid) =>
      hide LoginEffect, Live, OnlyRecords;
      LoginIsSound(cfg, s, u, d, DeviceInfo(rid, ev.nowMs, ip, agent), now, w'.store);
    case Refresh(claims, newRid) =>
      hide RefreshTarget, Live;
    case _ =>
      hide Live, RefreshKeysOf, RefreshTarget, LoginEffect;
  }

  lemma {:induction false} RunIsSound(cfg: AuthConfig, worlds: seq<World>, events: seq<Event>, j: nat)
    requires Run(cfg, worlds, events) && j < |worlds|
    ensures Sound(worlds[j])
  {
    if j > 0 {
      RunIsSound(cfg, worlds, events, j - 1);
      StepKeepsSound(cfg, worlds[j - 1], events[j - 1], worlds[j]);
    }
  }

  // ----- each refresh token works once -----

  // A refresh id that was used and is no longer stored.
  ghost predicate Gone(w: World, rid: string) {
    rid in w.rids && RefreshKey(rid) !in w.store
  }

  lemma StepKeepsGone(cfg: AuthConfig, w: World, ev: Event, w': World, rid: string)
    requires Step(cfg, w, ev, w') && Gone(w, rid)
    ensures Gone(w', rid)
  {
    var now := Seconds(ev.nowMs);
    var s := Live(w.store, now);
    if ev.op.Login? {
      var op := ev.op;
      var base := AfterConcurrency(cfg, s, op.login, op.device);
      var evicted :| Evicts(cfg, base, op.login, evicted)
        && w'.store == WithSession(cfg, RemoveDevices(base, evicted), op.login, op.device,
             DeviceInfo(op.rid, ev.nowMs, op.loginIp, op.userAgent), now);
    }
  }

  lemma SuccessUsesUp(cfg: AuthConfig, w: World, ev: Event, w': World)
    requires Step(cfg, w, ev, w') && Succeeds(w, ev)
    requires Sound(w)
    ensures Gone(w', ev.op.claims.rid)
  {
  }

  lemma {:induction false} GoneStays(
      cfg: AuthConfig, worlds: seq<World>, events: seq<Event>, i: nat, j: nat, rid: string)
    requires Run(cfg, worlds, events) && i <= j < |worlds| && Gone(worlds[i], rid)
    ensures Gone(worlds[j], rid)
  {
    if i < j {
      GoneStays(cfg, worlds, events, i, j - 1, rid);
      StepKeepsGone(cfg, worlds[j - 1], events[j - 1], worlds[j], rid);
    }
  }

  // After one success, every later refresh with the same token id fails.
  lemma RefreshSucceedsOnce(cfg: AuthConfig, worlds: seq<World>, events: seq<Event>, i: nat, j: nat)
    requires Run(cfg, worlds, events) && i < j < |events|
    requires Succeeds(worlds[i], events[i])
    requires events[j].op.Refresh? && events[j].op.claims.rid == events[i].op.claims.rid
    ensures !Succeeds(worlds[j], events[j])
  {
    RunIsSound(cfg, worlds, events, i);
    SuccessUsesUp(cfg, worlds[i], events[i], worlds[i + 1]);
    GoneStays(cfg, worlds, events, i + 1, j, events[i].op.claims.rid);
  }

  // ----- device limit -----

  ghost predicate WithinLimit(cfg: AuthConfig, s: Store) {
    cfg.maxDevices > 0 ==> forall u :: |DeviceKeysOf(s, u)| <= cfg.maxDevices
  }

  lemma ShrinkKeepsLimit(cfg: AuthConfig, s: Store, s': Store)
    requires WithinLimit(cfg, s)
    requires forall k: Key :: k.DeviceKey? && k in s' ==> k in s
    ensures WithinLimit(cfg, s')
  {
    forall u
      ensures |DeviceKeysOf(s', u)| <= |DeviceKeysOf(s, u)|
    {
      SubsetIsSmaller(DeviceKeysOf(s', u), DeviceKeysOf(s, u));
    }
  }

  lemma PartCount<T>(a: set<T>, part: set<T>)
    requires part <= a
    ensures |a - part| + |part| == |a|
  {
    assert a == (a - part) + part;
  }

  lemma AllKeysAreRecords(s: Store, u: LoginId)
    requires OnlyRecords(s)
    ensures DeviceKeysOf(s, u) == RecordsOf(s, u)
  {
  }

  lemma KeysAfterRemoval(s: Store, u: LoginId, keys: set<Key>)
    ensures DeviceKeysOf(RemoveDevices(s, keys), u) == DeviceKeysOf(s, u) - keys
  {
  }

  lemma EvictionMakesRoom(cfg: AuthConfig, s: Store, u: LoginId, evicted: set<Key>)
    requires OnlyRecords(s) && Evicts(cfg, s, u, evicted) && cfg.maxDevices > 0
    ensures |DeviceKeysOf(RemoveDevices(s, evicted), u)| + 1 <= cfg.maxDevices
  {
    AllKeysAreRecords(s, u);
    KeysAfterRemoval(s, u, evicted);
    hide RemoveDevices, DeviceKeysOf, RecordsOf, OnlyRecords;
    PartCount(DeviceKeysOf(s, u), evicted);
  }

  lemma OneMoreDevice(cfg: AuthConfig, s: Store, u: LoginId, d: string, info: DeviceInfo, now: int, v: LoginId)
    ensures DeviceKeysOf(WithSession(cfg, s, u, d, info, now), v)
            == DeviceKeysOf(s, v) + (if v == u then {DeviceKey(u, d)} else {})
  {
  }

  lemma LoginKeepsLimit(
      cfg: AuthConfig, s: Store, u: LoginId, d: string, info: DeviceInfo, now: int, s': Store)
    requires OnlyRecords(s) && WithinLimit(cfg, s) && LoginEffect(cfg, s, u, d, info, now, s')
    ensures WithinLimit(cfg, s')
  {
    var base := AfterConcurrency(cfg, s, u, d);
    assert OnlyRecords(base);
    var evicted :| Evicts(cfg, base, u, evicted)
      && s' == WithSession(cfg, RemoveDevices(base, evicted), u, d, info, now);
    var kept := RemoveDevices(base, evicted);
    ShrinkKeepsLimit(cfg, s, kept);
    hide RemoveDevices, DeviceKeysOf, OnlyRecords, Evicts, WithSession, LoginEffect;
    if cfg.maxDevices > 0 {
      EvictionMakesRoom(cfg, base, u, evicted);
      forall v
        ensures |DeviceKeysOf(s', v)| <= cfg.maxDevices
      {
        OneMoreDevice(cfg, kept, u, d, info, now, v);
      }
    }
  }

  lemma StepKeepsLimit(cfg: AuthConfig, w: World, ev: Event, w': World)
    requires Sound(w) && Step(cfg, w, ev, w') && WithinLimit(cfg, w.store)
    ensures WithinLimit(cfg, w'.store)
  {
    var now := Seconds(ev.nowMs);
    var s := Live(w.store, now);
    assert OnlyRecords(s);
    hide WithinLimit, OnlyRecords;
    ShrinkKeepsLimit(cfg, w.store, s);
    match ev.op
    case Login(u, d, ip, agent, rid) =>
      LoginKeepsLimit(cfg, s, u, d, DeviceInfo(rid, ev.nowMs, ip, agent), now, w'.store);
    case _ =>
      ShrinkKeepsLimit(cfg, s, w'.store);
  }

  // A user never has more live devices than the configured maximum.
  lemma {:induction false} DeviceLimitHolds(
      cfg: AuthConfig, worlds: seq<World>, events: seq<Event>, j: nat)
    requires Run(cfg, worlds, events) && j < |worlds|
    ensures WithinLimit(cfg, worlds[j].store)
  {
    if j > 0 {
      DeviceLimitHolds(cfg, worlds, events, j - 1);
      RunIsSound(cfg, worlds, events, j - 1);
      StepKeepsLimit(cfg, worlds[j - 1], events[j - 1], worlds[j]);
    } else {
      assert forall u :: DeviceKeysOf(worlds[0].store, u) == {};
    }
  }
}
