/**
 The life of a session, told by the operations alone: which records and refresh keys an operation takes
 away, how a refresh token is answered until its session ends, and which access tokens are accepted
 (crates/summer-auth/src/session/manager.rs:155-222, 281-411, 416-489).
 */
module SessionLife {
  import opened SessionKeys
  import opened MemoryStorageModel
  import opened SessionSpec
  import opened SessionRuns
  import opened SessionTokens
  import opened SessionPairs

  // ----- what revoking removes -----

  // The device records an operation takes away: one, all of a user, or none.
  ghost predicate Drops(op: Op, k: Key) {
    k.DeviceKey? && (op == Logout(k.login, k.device) || op == LogoutAll(k.login) || op == Ban(k.login))
  }

  // Such a record, or the refresh key it holds.
  ghost predicate Dropped(s: Store, op: Op, k: Key) {
    Drops(op, k) || (k.RefreshKey? && exists dk :: Drops(op, dk) && Names(s, dk, k.rid))
  }

  // Logout, logout_all, ban, unban and force_refresh remove exactly those; every other device record
  // and refresh key of every user stays as it is.
  lemma RevokingRemovesExactly(cfg: AuthConfig, w: World, ev: Event, w': World, k: Key)
    requires Step(cfg, w, ev, w') && !ev.op.Login? && !ev.op.Refresh? && !k.DenyKey?
    ensures var s := Live(w.store, Seconds(ev.nowMs));
            && (k in w'.store <==> k in s && !Dropped(s, ev.op, k))
            && (k in w'.store ==> w'.store[k] == s[k])
  {
    var s := Live(w.store, Seconds(ev.nowMs));
    hide Live;
    if k.RefreshKey? {
      if dk :| Drops(ev.op, dk) && Names(s, dk, k.rid) {
        assert k !in w'.store;
      } else {
        assert forall dk :: dk in s && Drops(ev.op, dk) && s[dk].value.DeviceRecord? ==>
            Names(s, dk, s[dk].value.info.rid);
        assert k in s ==> k in w'.store;
      }
    }
  }

  // ----- used ids -----

  ghost predicate RecordsAreUsed(w: World) {
    forall k, rid :: Names(w.store, k, rid) ==> rid in w.rids
  }

  lemma StepKeepsUsed(cfg: AuthConfig, w: World, ev: Event, w': World)
    requires Step(cfg, w, ev, w') && RecordsAreUsed(w)
    ensures RecordsAreUsed(w')
  {
    var now := Seconds(ev.nowMs);
    var s := Live(w.store, now);
    LiveIsSubset(w.store, now);
    forall k, rid | Names(w'.store, k, rid)
      ensures rid in w'.rids
    {
      hide Live, RefreshKeysOf, DeviceKeysOf;
      match ev.op
      case Login(u, d, ip, agent, newRid) =>
        var base := AfterConcurrency(cfg, s, u, d);
        var info := DeviceInfo(newRid, ev.nowMs, ip, agent);
        var evicted :| Evicts(cfg, base, u, evicted)
          && w'.store == WithSession(cfg, RemoveDevices(base, evicted), u, d, info, now);
        assert Names(s, k, rid) || rid == newRid;
      case Refresh(c, newRid) =>
        hide RefreshTarget;
        assert Names(s, k, rid) || rid == newRid;
      case _ =>
        RevokingRemovesExactly(cfg, w, ev, w', k);
        assert Names(s, k, rid);
    }
  }

  lemma {:induction false} RunKeepsUsed(cfg: AuthConfig, worlds: seq<World>, events: seq<Event>, j: nat)
    requires Run(cfg, worlds, events) && j < |worlds|
    ensures RecordsAreUsed(worlds[j])
  {
    if j > 0 {
      RunKeepsUsed(cfg, worlds, events, j - 1);
      StepKeepsUsed(cfg, worlds[j - 1], events[j - 1], worlds[j]);
    }
  }

  // After logout the device record is gone, and no refresh with the token whose id it held ever
  // succeeds again, whatever the devices are called.
  lemma LoggedOutForGood(
      cfg: AuthConfig, worlds: seq<World>, events: seq<Event>, i: nat, j: nat, u: LoginId, d: string)
    requires Run(cfg, worlds, events) && i < j < |events| && events[i].op == Logout(u, d)
    requires events[j].op.Refresh?
    requires Names(Live(worlds[i].store, Seconds(events[i].nowMs)), DeviceKey(u, d), events[j].op.claims.rid)
    ensures DeviceKey(u, d) !in worlds[i + 1].store
    ensures !Succeeds(worlds[j], events[j])
  {
    var rid := events[j].op.claims.rid;
    assert Step(cfg, worlds[i], events[i], worlds[i + 1]);
    RunKeepsUsed(cfg, worlds, events, i);
    LiveIsSubset(worlds[i].store, Seconds(events[i].nowMs));
    assert Drops(events[i].op, DeviceKey(u, d));
    RevokingRemovesExactly(cfg, worlds[i], events[i], worlds[i + 1], DeviceKey(u, d));
    RevokingRemovesExactly(cfg, worlds[i], events[i], worlds[i + 1], RefreshKey(rid));
    assert Gone(worlds[i + 1], rid);
    GoneStays(cfg, worlds, events, i + 1, j, rid);
  }

  // ----- logins -----

  // The records of a user's devices but one.
  ghost function OtherDevices(s: Store, u: LoginId, d: string): set<Key> {
    set k | k in s && k.DeviceKey? && k.login == u && k.device != d
  }

  predicate OlderRecord(s: Store, a: Key, b: Key)
    requires a in s && b in s
  {
    s[a].value.DeviceRecord? && s[b].value.DeviceRecord?
    && s[a].value.info.loginTime <= s[b].value.info.loginTime
  }

  ghost predicate SameRecord(s: Store, s': Store, k: Key) {
    (k in s' <==> k in s) && (k in s ==> s'[k] == s[k])
  }

  lemma DevicesBeforeEviction(cfg: AuthConfig, s: Store, u: LoginId, d: string)
    ensures var base := AfterConcurrency(cfg, s, u, d);
            && DeviceKeysOf(base, u) == (if cfg.concurrentLogin then OtherDevices(s, u, d) else {})
            && (forall k :: k in DeviceKeysOf(base, u) ==> SameRecord(s, base, k))
            && (forall k: Key :: k.DeviceKey? && k.login != u ==> SameRecord(s, base, k))
  {
  }

  lemma DevicesAfterEviction(
      cfg: AuthConfig, base: Store, u: LoginId, d: string, evicted: set<Key>, info: DeviceInfo, now: int)
    requires DeviceKey(u, d) !in DeviceKeysOf(base, u) && evicted <= DeviceKeysOf(base, u)
    ensures var s' := WithSession(cfg, RemoveDevices(base, evicted), u, d, info, now);
            && OtherDevices(s', u, d) == DeviceKeysOf(base, u) - evicted
            && (forall k :: k in DeviceKeysOf(base, u) - evicted ==> SameRecord(base, s', k))
            && (forall k: Key :: k.DeviceKey? && k.login != u ==> SameRecord(base, s', k))
  {
  }

  lemma EvictionCount(cfg: AuthConfig, base: Store, u: LoginId, evicted: set<Key>)
    requires OnlyRecords(base) && Evicts(cfg, base, u, evicted)
    ensures var before := DeviceKeysOf(base, u); var after := before - evicted;
            && evicted <= before
            && (cfg.maxDevices == 0 || |before| < cfg.maxDevices ==> after == before)
            && (0 < cfg.maxDevices <= |before| ==>
                  && |after| == cfg.maxDevices - 1
                  && forall gone, kept :: gone in evicted && kept in after ==> OlderRecord(base, gone, kept))
  {
    AllKeysAreRecords(base, u);
    PartCount(DeviceKeysOf(base, u), evicted * DeviceKeysOf(base, u));
    assert evicted * DeviceKeysOf(base, u) == evicted;
  }

  // What stays of the user's other devices when one logs in: none unless concurrent login is allowed;
  // all while they are fewer than the maximum; otherwise one fewer than the maximum, and none that went
  // is newer than one that stayed.
  ghost predicate LeavesDevices(cfg: AuthConfig, s: Store, s': Store, before: set<Key>, after: set<Key>) {
    && after <= before
    && (forall k :: k in before ==> k in s)
    && (!cfg.concurrentLogin ==> after == {})
    && (cfg.concurrentLogin && (cfg.maxDevices == 0 || |before| < cfg.maxDevices) ==> after == before)
    && (cfg.concurrentLogin && 0 < cfg.maxDevices <= |before| ==>
          && |after| == cfg.maxDevices - 1
          && forall gone, kept :: gone in before - after && kept in after ==> OlderRecord(s, gone, kept))
    && (forall k :: k in after ==> SameRecord(s, s', k))
  }

  lemma EvictionLeaves(
      cfg: AuthConfig, s: Store, base: Store, s': Store, before: set<Key>, kept: set<Key>, evicted: set<Key>)
    requires kept == (if cfg.concurrentLogin then before else {}) && evicted <= kept
    requires forall k :: k in before ==> k in s
    requires forall k :: k in kept ==> SameRecord(s, base, k)
    requires forall k :: k in kept - evicted ==> SameRecord(base, s', k)
    requires cfg.maxDevices == 0 || |kept| < cfg.maxDevices ==> evicted == {}
    requires 0 < cfg.maxDevices <= |kept| ==>
               && |kept - evicted| == cfg.maxDevices - 1
               && forall a, b :: a in evicted && b in kept - evicted ==>
                    a in base && b in base && OlderRecord(base, a, b)
    ensures LeavesDevices(cfg, s, s', before, kept - evicted)
  {
  }

  // A login leaves the user's other devices as described, and other users' records as they were.
  lemma DevicesAfterLogin(cfg: AuthConfig, w: World, ev: Event, w': World)
    requires Sound(w) && Step(cfg, w, ev, w') && ev.op.Login?
    ensures var s, u, d := Live(w.store, Seconds(ev.nowMs)), ev.op.login, ev.op.device;
            && LeavesDevices(cfg, s, w'.store, OtherDevices(s, u, d), OtherDevices(w'.store, u, d))
            && forall k: Key :: k.DeviceKey? && k.login != u ==> SameRecord(s, w'.store, k)
  {
    var now := Seconds(ev.nowMs);
    var s, u, d := Live(w.store, now), ev.op.login, ev.op.device;
    var base := AfterConcurrency(cfg, s, u, d);
    var info := DeviceInfo(ev.op.rid, ev.nowMs, ev.op.loginIp, ev.op.userAgent);
    var evicted :| Evicts(cfg, base, u, evicted)
      && w'.store == WithSession(cfg, RemoveDevices(base, evicted), u, d, info, now);
    OldIsSound(w, now);
    RemovalIsSound(s, if cfg.concurrentLogin then {DeviceKey(u, d)} else DeviceKeysOf(s, u));
    hide AfterConcurrency, WithSession, RemoveDevices, Evicts, Live, LoginEffect, OnlyRecords, DeviceKeysOf,
      SameRecord, OlderRecord, LeavesDevices;
    EvictionCount(cfg, base, u, evicted);
    DevicesBeforeEviction(cfg, s, u, d);
    DevicesAfterEviction(cfg, base, u, d, evicted, info, now);
    EvictionLeaves(cfg, s, base, w'.store, OtherDevices(s, u, d), DeviceKeysOf(base, u), evicted);
  }
}
