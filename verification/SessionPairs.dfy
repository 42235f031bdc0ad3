/**
 Refresh keys and device records (crates/summer-auth/src/session/manager.rs:155-222, 324-411): when they
 belong together over a run, and what a device name with a colon does to them.
 */
module SessionPairs {
  import opened Wrappers
  import opened Text
  import opened SessionKeys
  import opened MemoryStorageModel
  import opened SessionSpec
  import opened SessionRuns
  import opened SessionTokens

  // ----- refresh keys and device records -----

  // Record (u, d) and the refresh key it names belong together and die together.
  ghost predicate Paired(s: Store, u: LoginId, d: string)
    requires DeviceKey(u, d) in s
  {
    var e := s[DeviceKey(u, d)];
    && e.value.DeviceRecord?
    && RefreshKey(e.value.info.rid) in s
    && s[RefreshKey(e.value.info.rid)] == Entry(Text(RefreshValue(u, d)), e.expiresAt)
  }

  ghost predicate Corresponds(s: Store) {
    && (forall u, d :: DeviceKey(u, d) in s ==> Paired(s, u, d))
    && (forall rid :: RefreshKey(rid) in s ==> exists k :: Names(s, k, rid))
  }

  ghost predicate Inv(w: World) {
    && Corresponds(w.store)
    && (forall rid :: RefreshKey(rid) in w.store ==> rid in w.rids)
    && (forall c :: c in w.refresh ==> c.rid in w.rids)
    && (forall c, k :: c in w.refresh && Names(w.store, k, c.rid) ==> c.sub == Encode(k.login))
  }

  // The value under a refresh key spells a device name with a colon.
  ghost predicate ColonValue(s: Store, rid: string) {
    RefreshKey(rid) in s && exists u, d :: HasColon(d) && s[RefreshKey(rid)].value == Text(RefreshValue(u, d))
  }

  // A successful refresh of a session whose device name holds a colon.
  ghost predicate RefreshesColonName(w: World, ev: Event) {
    Succeeds(w, ev) && ColonValue(Live(w.store, Seconds(ev.nowMs)), ev.op.claims.rid)
  }

  // The correspondence is one to one: a refresh id stands in one record only.
  lemma RecordsShareNoRid(s: Store, k1: Key, k2: Key, rid: string)
    requires Corresponds(s) && Names(s, k1, rid) && Names(s, k2, rid)
    ensures k1 == k2
  {
    assert Paired(s, k1.login, k1.device) && Paired(s, k2.login, k2.device);
    RefreshValueInjective(k1.login, k1.device, k2.login, k2.device);
  }

  lemma TimeKeeps(s: Store, now: int)
    requires Corresponds(s)
    ensures Corresponds(Live(s, now))
  {
    var s' := Live(s, now);
    forall u, d | DeviceKey(u, d) in s'
      ensures Paired(s', u, d)
    {
      assert Paired(s, u, d);
    }
    forall rid | RefreshKey(rid) in s'
      ensures exists k :: Names(s', k, rid)
    {
      var k :| Names(s, k, rid);
      assert Paired(s, k.login, k.device);
      assert Names(s', k, rid);
    }
  }

  lemma RemovalKeeps(s: Store, keys: set<Key>)
    requires Corresponds(s) && forall k :: k in keys ==> k.DeviceKey?
    ensures Corresponds(RemoveDevices(s, keys))
  {
    var s' := RemoveDevices(s, keys);
    forall u, d | DeviceKey(u, d) in s'
      ensures Paired(s', u, d)
    {
      assert Paired(s, u, d);
      var rid := s[DeviceKey(u, d)].value.info.rid;
      assert Names(s, DeviceKey(u, d), rid);
      if RefreshKey(rid) in RefreshKeysOf(s, keys) {
        var k :| k in keys && k in s && s[k].value.DeviceRecord? && s[k].value.info.rid == rid;
        RecordsShareNoRid(s, k, DeviceKey(u, d), rid);
      }
    }
    forall rid | RefreshKey(rid) in s'
      ensures exists k :: Names(s', k, rid)
    {
      var k :| Names(s, k, rid);
      assert k !in keys by {
        assert k in keys ==> RefreshKey(rid) in RefreshKeysOf(s, keys);
      }
      assert Names(s', k, rid);
    }
  }

  ghost predicate SameSessions(s: Store, s': Store) {
    forall k: Key :: !k.DenyKey? ==> (k in s' <==> k in s) && (k in s ==> s'[k] == s[k])
  }

  lemma DenyKeeps(s: Store, s': Store)
    requires Corresponds(s) && SameSessions(s, s')
    ensures Corresponds(s')
    ensures forall k, rid :: Names(s', k, rid) ==> Names(s, k, rid)
  {
    forall v, d | DeviceKey(v, d) in s'
      ensures Paired(s', v, d)
    {
      assert Paired(s, v, d);
    }
    forall rid | RefreshKey(rid) in s'
      ensures exists k :: Names(s', k, rid)
    {
      var k :| Names(s, k, rid);
      assert Names(s', k, rid);
    }
  }

  lemma NewSessionKeeps(cfg: AuthConfig, s: Store, u: LoginId, d: string, info: DeviceInfo, now: int)
    requires Corresponds(s)
    requires DeviceKey(u, d) !in s && RefreshKey(info.rid) !in s
    ensures Corresponds(WithSession(cfg, s, u, d, info, now))
  {
    var s' := WithSession(cfg, s, u, d, info, now);
    forall v, x | DeviceKey(v, x) in s'
      ensures Paired(s', v, x)
    {
      if DeviceKey(v, x) != DeviceKey(u, d) {
        assert Paired(s, v, x);
      }
    }
    forall rid | RefreshKey(rid) in s'
      ensures exists k :: Names(s', k, rid)
    {
      if rid == info.rid {
        assert Names(s', DeviceKey(u, d), rid);
      } else {
        var k :| Names(s, k, rid);
        assert Names(s', k, rid);
      }
    }
  }

  lemma RotationKeeps(cfg: AuthConfig, s: Store, u: LoginId, d: string, oldRid: string, newRid: string, now: int)
    requires Corresponds(s) && Names(s, DeviceKey(u, d), oldRid) && RefreshKey(newRid) !in s
    ensures var s' := RotateEffect(cfg, s, u, d, oldRid, newRid, now);
            && Corresponds(s')
            && (forall rid :: RefreshKey(rid) in s' ==> RefreshKey(rid) in s || rid == newRid)
            && (forall k, rid :: Names(s', k, rid) ==> Names(s, k, rid) || (k == DeviceKey(u, d) && rid == newRid))
  {
    var s' := RotateEffect(cfg, s, u, d, oldRid, newRid, now);
    assert Paired(s, u, d);
    forall v, x | DeviceKey(v, x) in s'
      ensures Paired(s', v, x)
    {
      assert Paired(s, v, x);
      if DeviceKey(v, x) != DeviceKey(u, d) && s[DeviceKey(v, x)].value.info.rid == oldRid {
        RecordsShareNoRid(s, DeviceKey(v, x), DeviceKey(u, d), oldRid);
      }
    }
    forall rid | RefreshKey(rid) in s'
      ensures exists k :: Names(s', k, rid)
    {
      if rid == newRid {
        assert Names(s', DeviceKey(u, d), rid);
      } else {
        var k :| Names(s, k, rid);
        assert Names(s', k, rid);
      }
    }
  }

  // Why device names should not contain a colon: rotating a session finds its own device record
  // exactly when the name has none.
  lemma RotationFindsRecordIff(
      cfg: AuthConfig, s: Store, u: LoginId, d: string, claims: RefreshClaims, newRid: string, now: int)
    requires Names(s, DeviceKey(u, d), claims.rid)
    requires RefreshKey(claims.rid) in s && s[RefreshKey(claims.rid)].value == Text(RefreshValue(u, d))
    requires claims.sub == Encode(u) && claims.exp >= now && !Banned(s, u) && newRid != claims.rid
    ensures var target := RefreshTarget(s, claims, now);
            && target.Ok? && target.value.0 == u
            && (Names(RotateEffect(cfg, s, u, target.value.1, claims.rid, newRid, now), DeviceKey(u, d), newRid)
                <==> !HasColon(d))
  {
    LoginRoundTrip(u);
    ColonFound(Encode(u), d);
    DeviceReadsBackIff(u, d);
  }

  // With a colon the new id may even be written into the record of another device.
  lemma RotationMayHitAnotherRecord(cfg: AuthConfig, u: LoginId, now: int)
    ensures var web, odd := DeviceInfo("r1", 0, "", ""), DeviceInfo("r2", 0, "", "");
            var s := WithSession(cfg, WithSession(cfg, map[], u, "web", web, now), u, "x:web", odd, now);
            var target := RefreshTarget(s, RefreshClaims(Encode(u), now, now, "r2"), now);
            && target == Ok((u, "web"))
            && var s' := RotateEffect(cfg, s, u, "web", "r2", "r3", now);
               Names(s', DeviceKey(u, "web"), "r3") && Names(s', DeviceKey(u, "x:web"), "r2")
  {
    LoginRoundTrip(u);
    var front := Encode(u) + ":" + "x";
    assert RefreshValue(u, "x:web") == front + ":" + "web" by {
      assert "x:web" == "x" + ":" + "web";
      assert Encode(u) + ":" + ("x" + ":" + "web") == front + ":" + "web";
    }
    LastColonOf(front, "web");
  }

  lemma {:induction false} ColonFound(front: string, back: string)
    ensures AfterLastColon(front + ":" + back).Some?
  {
    var s := front + ":" + back;
    if back != "" {
      assert s[..|s| - 1] == front + ":" + back[..|back| - 1];
      ColonFound(front, back[..|back| - 1]);
    }
  }

  // An accepted refresh under a name without a colon continues the session of its device record.
  lemma RefreshFindsItsRecord(w: World, s: Store, claims: RefreshClaims, now: int)
    requires Inv(w) && s == Live(w.store, now) && claims in w.refresh && RefreshTarget(s, claims, now).Ok?
    requires !ColonValue(s, claims.rid)
    ensures var (u, d) := RefreshTarget(s, claims, now).value; Names(s, DeviceKey(u, d), claims.rid)
  {
    TimeKeeps(w.store, now);
    var k :| Names(s, k, claims.rid);
    assert Names(w.store, k, claims.rid);
    assert Paired(s, k.login, k.device);
    LoginRoundTrip(k.login);
    DeviceReadsBackIff(k.login, k.device);
  }

  // What a store keeps when entries go or one session comes.
  lemma RemovalAddsNothing(s: Store, keys: set<Key>)
    ensures forall rid :: RefreshKey(rid) in RemoveDevices(s, keys) ==> RefreshKey(rid) in s
    ensures forall k, rid :: Names(RemoveDevices(s, keys), k, rid) ==> Names(s, k, rid)
    ensures forall k :: k in keys ==> k !in RemoveDevices(s, keys)
    ensures forall k :: k in RemoveDevices(s, keys) ==> k in s
  {
  }

  lemma SessionAddsItself(cfg: AuthConfig, s: Store, u: LoginId, d: string, info: DeviceInfo, now: int)
    ensures var s' := WithSession(cfg, s, u, d, info, now);
            && (forall rid :: RefreshKey(rid) in s' ==> RefreshKey(rid) in s || rid == info.rid)
            && (forall k, rid :: Names(s', k, rid) ==> Names(s, k, rid) || (k == DeviceKey(u, d) && rid == info.rid))
  {
  }

  lemma ConcurrencyKeeps(cfg: AuthConfig, s: Store, u: LoginId, d: string)
    requires Corresponds(s)
    ensures var base := AfterConcurrency(cfg, s, u, d);
            && Corresponds(base) && DeviceKey(u, d) !in base
            && (forall rid :: RefreshKey(rid) in base ==> RefreshKey(rid) in s)
            && (forall k, rid :: Names(base, k, rid) ==> Names(s, k, rid))
  {
    hide Corresponds, RemoveDevices, Names;
    var keys := if cfg.concurrentLogin then {DeviceKey(u, d)} else DeviceKeysOf(s, u);
    RemovalKeeps(s, keys);
    RemovalAddsNothing(s, keys);
  }

  lemma LoginStoreKeeps(
      cfg: AuthConfig, s: Store, u: LoginId, d: string, info: DeviceInfo, now: int, s': Store)
    requires Corresponds(s) && RefreshKey(info.rid) !in s
    requires LoginEffect(cfg, s, u, d, info, now, s')
    ensures Corresponds(s')
    ensures forall rid :: RefreshKey(rid) in s' ==> RefreshKey(rid) in s || rid == info.rid
    ensures forall k, rid :: Names(s', k, rid) ==> Names(s, k, rid) || (k == DeviceKey(u, d) && rid == info.rid)
  {
    var base := AfterConcurrency(cfg, s, u, d);
    var evicted :| Evicts(cfg, base, u, evicted)
      && s' == WithSession(cfg, RemoveDevices(base, evicted), u, d, info, now);
    assert forall k: Key :: k in evicted ==> k.DeviceKey?;
    hide *;
    ConcurrencyKeeps(cfg, s, u, d);
    RemovalKeeps(base, evicted);
    RemovalAddsNothing(base, evicted);
    NewSessionKeeps(cfg, RemoveDevices(base, evicted), u, d, info, now);
    SessionAddsItself(cfg, RemoveDevices(base, evicted), u, d, info, now);
  }

  // A step that adds no session and issues no token.
  lemma QuietStepKeepsInv(w: World, w': World)
    requires Inv(w) && Corresponds(w'.store)
    requires w'.access == w.access && w'.refresh == w.refresh && w'.rids == w.rids
    requires forall rid :: RefreshKey(rid) in w'.store ==> RefreshKey(rid) in w.store
    requires forall k, rid :: Names(w'.store, k, rid) ==> Names(w.store, k, rid)
    ensures Inv(w')
  {
  }

  // Removing some of a user's devices and rewriting the deny entry.
  lemma RemoveAndDeny(s: Store, keys: set<Key>, u: LoginId, e: Entry)
    requires Corresponds(s) && forall k :: k in keys ==> k.DeviceKey?
    ensures var s' := RemoveDevices(s, keys)[DenyKey(u) := e];
            && Corresponds(s')
            && (forall k, rid :: Names(s', k, rid) ==> Names(s, k, rid))
            && (forall rid :: RefreshKey(rid) in s' ==> RefreshKey(rid) in s)
  {
    RemovalKeeps(s, keys);
    DenyKeeps(RemoveDevices(s, keys), RemoveDevices(s, keys)[DenyKey(u) := e]);
  }

  // A step that adds one session under a fresh id and issues its token.
  lemma NewTokenKeepsInv(w: World, w': World, u: LoginId, d: string, c: RefreshClaims)
    requires Inv(w) && Corresponds(w'.store)
    requires c.rid !in w.rids && c.sub == Encode(u)
    requires w'.refresh == w.refresh + {c} && w'.rids == w.rids + {c.rid}
    requires forall rid :: RefreshKey(rid) in w'.store ==> RefreshKey(rid) in w.store || rid == c.rid
    requires forall k, rid :: Names(w'.store, k, rid) ==>
               Names(w.store, k, rid) || (k == DeviceKey(u, d) && rid == c.rid)
    ensures Inv(w')
  {
    hide Corresponds;
    forall k, rid | Names(w'.store, k, rid)
      ensures RefreshKey(rid) in w'.store
    {
      NamedIsStored(w'.store, k, rid);
    }
    forall k, rid | Names(w.store, k, rid)
      ensures rid in w.rids
    {
      NamedIsStored(w.store, k, rid);
    }
  }

  lemma NamedIsStored(s: Store, k: Key, rid: string)
    requires Corresponds(s) && Names(s, k, rid)
    ensures RefreshKey(rid) in s
  {
    assert Paired(s, k.login, k.device);
  }

  lemma LiveIsSubset(s: Store, now: int)
    ensures forall k, rid :: Names(Live(s, now), k, rid) ==> Names(s, k, rid)
    ensures forall k :: k in Live(s, now) ==> k in s
  {
  }

  lemma RefreshKeepsInv(cfg: AuthConfig, w: World, ev: Event, w': World)
    requires Inv(w) && Step(cfg, w, ev, w') && ev.op.Refresh? && !RefreshesColonName(w, ev)
    ensures Inv(w')
  {
    var now := Seconds(ev.nowMs);
    var s := Live(w.store, now);
    TimeKeeps(w.store, now);
    LiveIsSubset(w.store, now);
    assert RefreshKey(ev.op.newRid) !in s;
    hide Corresponds, RefreshTarget, RotateEffect, Paired, Names, Live, ColonValue;
    var target := RefreshTarget(s, ev.op.claims, now);
    if target.Ok? {
      var (u, d) := target.value;
      RefreshFindsItsRecord(w, s, ev.op.claims, now);
      RotationKeeps(cfg, s, u, d, ev.op.claims.rid, ev.op.newRid, now);
      NewTokenKeepsInv(w, w', u, d, IssueRefresh(cfg, u, ev.op.newRid, now));
    } else {
      QuietStepKeepsInv(w, w');
    }
  }

  lemma StepKeepsInv(cfg: AuthConfig, w: World, ev: Event, w': World)
    requires Inv(w) && Step(cfg, w, ev, w') && !RefreshesColonName(w, ev)
    ensures Inv(w')
  {
    var now := Seconds(ev.nowMs);
    var s := Live(w.store, now);
    TimeKeeps(w.store, now);
    LiveIsSubset(w.store, now);
    hide Corresponds, RefreshTarget, LoginEffect, RemoveDevices, RotateEffect, Paired, Names, Live;
    match ev.op
    case Login(u, d, ip, agent, rid) =>
      LoginStoreKeeps(cfg, s, u, d, DeviceInfo(rid, ev.nowMs, ip, agent), now, w'.store);
      NewTokenKeepsInv(w, w', u, d, IssueRefresh(cfg, u, rid, now));
    case Refresh(claims, newRid) =>
      RefreshKeepsInv(cfg, w, ev, w');
    case Logout(u, d) =>
      RemoveAndDeny(s, {DeviceKey(u, d)}, u, EntryFor(RefreshDeny(now), cfg.accessTimeout, now));
      QuietStepKeepsInv(w, w');
    case LogoutAll(u) =>
      RemoveAndDeny(s, DeviceKeysOf(s, u), u, EntryFor(RefreshDeny(now), cfg.accessTimeout, now));
      QuietStepKeepsInv(w, w');
    case Ban(u) =>
      RemoveAndDeny(s, DeviceKeysOf(s, u), u, EntryFor(BANNED, BAN_SECONDS, now));
      QuietStepKeepsInv(w, w');
    case Unban(u) =>
      DenyKeeps(s, w'.store);
      QuietStepKeepsInv(w, w');
    case ForceRefresh(u) =>
      DenyKeeps(s, w'.store);
      QuietStepKeepsInv(w, w');
  }

  lemma {:induction false} RunKeepsInv(cfg: AuthConfig, worlds: seq<World>, events: seq<Event>, j: nat)
    requires Run(cfg, worlds, events) && j < |worlds|
    requires forall k :: 0 <= k < j ==> !RefreshesColonName(worlds[k], events[k])
    ensures Inv(worlds[j])
  {
    if j > 0 {
      RunKeepsInv(cfg, worlds, events, j - 1);
      StepKeepsInv(cfg, worlds[j - 1], events[j - 1], worlds[j]);
    }
  }

  // Rotating under a name with a colon leaves a device record whose refresh key is gone.
  lemma ColonRotationBreaks(cfg: AuthConfig, w: World, ev: Event, w': World)
    requires Inv(w) && Step(cfg, w, ev, w') && RefreshesColonName(w, ev)
    ensures !Corresponds(w'.store)
  {
    var now, rid := Seconds(ev.nowMs), ev.op.claims.rid;
    var s := Live(w.store, now);
    TimeKeeps(w.store, now);
    var k :| Names(s, k, rid);
    assert Paired(s, k.login, k.device);
    var u, d :| HasColon(d) && s[RefreshKey(rid)].value == Text(RefreshValue(u, d));
    RefreshValueInjective(u, d, k.login, k.device);
    DeviceReadsBackIff(u, d);
    assert RefreshKey(rid) !in w'.store;
    assert DeviceKey(u, d) in w'.store && !Paired(w'.store, u, d);
  }

  lemma {:induction false} InvWhileCorresponding(
      cfg: AuthConfig, worlds: seq<World>, events: seq<Event>, j: nat)
    requires Run(cfg, worlds, events) && j < |worlds|
    requires forall k :: 0 <= k <= j ==> Corresponds(worlds[k].store)
    ensures Inv(worlds[j])
    ensures forall k :: 0 <= k < j ==> !RefreshesColonName(worlds[k], events[k])
  {
    hide Inv, Corresponds, RefreshesColonName, Step;
    if j == 0 {
      RunKeepsInv(cfg, worlds, events, 0);
    } else {
      InvWhileCorresponding(cfg, worlds, events, j - 1);
      if RefreshesColonName(worlds[j - 1], events[j - 1]) {
        ColonRotationBreaks(cfg, worlds[j - 1], events[j - 1], worlds[j]);
      } else {
        StepKeepsInv(cfg, worlds[j - 1], events[j - 1], worlds[j]);
      }
    }
  }

  // Over a run refresh keys and device records correspond throughout exactly when no session under a
  // name with a colon is ever refreshed.
  lemma AlwaysCorrespondIff(cfg: AuthConfig, worlds: seq<World>, events: seq<Event>)
    requires Run(cfg, worlds, events)
    ensures (forall j :: 0 <= j < |worlds| ==> Corresponds(worlds[j].store))
            <==> forall k :: 0 <= k < |events| ==> !RefreshesColonName(worlds[k], events[k])
  {
    hide Corresponds, RefreshesColonName, Step;
    if forall j :: 0 <= j < |worlds| ==> Corresponds(worlds[j].store) {
      InvWhileCorresponding(cfg, worlds, events, |events|);
    }
    if forall k :: 0 <= k < |events| ==> !RefreshesColonName(worlds[k], events[k]) {
      forall j | 0 <= j < |worlds|
        ensures Corresponds(worlds[j].store)
      {
        RunKeepsInv(cfg, worlds, events, j);
      }
    }
  }

  // No refresh key spells a device name with a colon.
  ghost predicate PlainValues(s: Store) {
    forall rid :: !ColonValue(s, rid)
  }

  // A store whose refresh values are old ones or spell one name without a colon.
  ghost predicate AddsOnlyValueOf(s: Store, s': Store, u: LoginId, d: string) {
    forall rid :: RefreshKey(rid) in s' ==>
      || s'[RefreshKey(rid)].value == Text(RefreshValue(u, d))
      || (RefreshKey(rid) in s && s'[RefreshKey(rid)] == s[RefreshKey(rid)])
  }

  lemma PlainValueKeepsPlain(s: Store, s': Store, u: LoginId, d: string)
    requires PlainValues(s) && AddsOnlyValueOf(s, s', u, d) && !HasColon(d)
    ensures PlainValues(s')
  {
    forall rid
      ensures !ColonValue(s', rid)
    {
      assert !ColonValue(s, rid);
      if v, x :| RefreshKey(rid) in s' && HasColon(x) && s'[RefreshKey(rid)].value == Text(RefreshValue(v, x)) {
        if s'[RefreshKey(rid)].value == Text(RefreshValue(u, d)) {
          RefreshValueInjective(u, d, v, x);
        }
        assert false;
      }
    }
  }

  lemma StepAddsOnlyValueOf(cfg: AuthConfig, w: World, ev: Event, w': World) returns (u: LoginId, d: string)
    requires Step(cfg, w, ev, w')
    requires ev.op.Login? ==> !HasColon(ev.op.device)
    ensures AddsOnlyValueOf(w.store, w'.store, u, d) && !HasColon(d)
  {
    var now := Seconds(ev.nowMs);
    var s := Live(w.store, now);
    u, d := LoginId(0), "";
    match ev.op
    case Login(login, device, ip, agent, rid) =>
      u, d := login, device;
      var base := AfterConcurrency(cfg, s, u, d);
      var evicted :| Evicts(cfg, base, u, evicted)
        && w'.store == WithSession(cfg, RemoveDevices(base, evicted), u, d, DeviceInfo(rid, ev.nowMs, ip, agent), now);
    case Refresh(claims, newRid) =>
      if Succeeds(w, ev) {
        u, d := RefreshTarget(s, claims, now).value.0, RefreshTarget(s, claims, now).value.1;
        AfterLastColonHasNone(s[RefreshKey(claims.rid)].value.text);
      }
    case _ =>
  }

  lemma PlainIsNotColon(w: World, ev: Event)
    requires PlainValues(w.store)
    ensures !RefreshesColonName(w, ev)
  {
    if Succeeds(w, ev) {
      assert !ColonValue(w.store, ev.op.claims.rid);
    }
  }

  // It is enough that no login uses such a name.
  lemma {:induction false} PlainLoginsSuffice(cfg: AuthConfig, worlds: seq<World>, events: seq<Event>, j: nat)
    requires Run(cfg, worlds, events) && j <= |events|
    requires forall k :: 0 <= k < j && events[k].op.Login? ==> !HasColon(events[k].op.device)
    ensures PlainValues(worlds[j].store)
    ensures forall k :: 0 <= k < j ==> !RefreshesColonName(worlds[k], events[k])
  {
    if j > 0 {
      hide Step, PlainValues;
      PlainLoginsSuffice(cfg, worlds, events, j - 1);
      var u, d := StepAddsOnlyValueOf(cfg, worlds[j - 1], events[j - 1], worlds[j]);
      PlainValueKeepsPlain(worlds[j - 1].store, worlds[j].store, u, d);
      PlainIsNotColon(worlds[j - 1], events[j - 1]);
    }
  }

  // In every such state and at every later second, each live refresh key
  // is named by exactly one live device record, and each record names a live key.
  lemma RefreshKeysMatchDevices(
      cfg: AuthConfig, worlds: seq<World>, events: seq<Event>, j: nat, now: int)
    requires Run(cfg, worlds, events) && j < |worlds| && worlds[j].at <= now
    requires forall k :: 0 <= k < j ==> !RefreshesColonName(worlds[k], events[k])
    ensures var s := Live(worlds[j].store, now);
            && (forall u, d :: DeviceKey(u, d) in s ==> Paired(s, u, d))
            && (forall rid :: RefreshKey(rid) in s ==>
                  exists k :: Names(s, k, rid) && forall k' :: Names(s, k', rid) ==> k' == k)
  {
    RunKeepsInv(cfg, worlds, events, j);
    var s := Live(worlds[j].store, now);
    TimeKeeps(worlds[j].store, now);
    forall rid | RefreshKey(rid) in s
      ensures exists k :: Names(s, k, rid) && forall k' :: Names(s, k', rid) ==> k' == k
    {
      var k :| Names(s, k, rid);
      forall k' | Names(s, k', rid)
        ensures k' == k
      {
        RecordsShareNoRid(s, k, k', rid);
      }
    }
  }

  // ----- revoking everything -----

  // Logout_all and a ban remove every session of the user.
  predicate EndsAll(op: Op, u: LoginId) {
    op == LogoutAll(u) || op == Ban(u)
  }

  lemma EndingRemovesKeys(cfg: AuthConfig, w: World, ev: Event, w': World, u: LoginId, c: RefreshClaims)
    requires Inv(w) && Step(cfg, w, ev, w') && EndsAll(ev.op, u)
    requires c in w.refresh && c.sub == Encode(u)
    ensures Gone(w', c.rid)
  {
    var now := Seconds(ev.nowMs);
    var s := Live(w.store, now);
    TimeKeeps(w.store, now);
    if RefreshKey(c.rid) in s {
      var k :| Names(s, k, c.rid);
      assert Names(w.store, k, c.rid);
      EncodeInjective(u, k.login);
      assert k in DeviceKeysOf(s, u);
      assert RefreshKey(c.rid) in RefreshKeysOf(s, DeviceKeysOf(s, u));
    }
  }

  // Once logout_all or a ban ran for a user, no refresh with a token issued to that user before ever
  // succeeds, as long as no session under a name with a colon had been refreshed by then.
  lemma RefreshRevokedForGood(
      cfg: AuthConfig, worlds: seq<World>, events: seq<Event>, i: nat, j: nat, u: LoginId)
    requires Run(cfg, worlds, events) && i < j < |events| && EndsAll(events[i].op, u)
    requires forall k :: 0 <= k < i ==> !RefreshesColonName(worlds[k], events[k])
    requires events[j].op.Refresh? && events[j].op.claims in worlds[i].refresh
    requires events[j].op.claims.sub == Encode(u)
    ensures !Succeeds(worlds[j], events[j])
  {
    var c := events[j].op.claims;
    RunKeepsInv(cfg, worlds, events, i);
    assert Step(cfg, worlds[i], events[i], worlds[i + 1]);
    EndingRemovesKeys(cfg, worlds[i], events[i], worlds[i + 1], u, c);
    GoneStays(cfg, worlds, events, i + 1, j, c.rid);
  }

  // The value under a refresh key reads as a device.
  predicate Readable(s: Store, rid: string) {
    && RefreshKey(rid) in s && s[RefreshKey(rid)].value.Text?
    && AfterLastColon(s[RefreshKey(rid)].value.text).Some?
  }

  lemma KeyOutlivesIff(cfg: AuthConfig, s: Store, u: LoginId, rid: string, now: int)
    ensures var s', rk := LogoutAllEffect(cfg, s, u, now), RefreshKey(rid);
            && (rk in s' <==> rk in s && !exists d :: Names(s, DeviceKey(u, d), rid))
            && (rk in s' ==> s'[rk] == s[rk])
    ensures !Banned(LogoutAllEffect(cfg, s, u, now), u)
  {
    assert RefreshDeny(now).text[0] == 'r' && BANNED.text[0] == 'b';
    if d :| Names(s, DeviceKey(u, d), rid) {
      assert DeviceKey(u, d) in DeviceKeysOf(s, u);
    }
    if k :| k in DeviceKeysOf(s, u) && s[k].value.DeviceRecord? && s[k].value.info.rid == rid {
      assert Names(s, DeviceKey(u, k.device), rid);
    }
  }

  // In any state and at any later second a refresh of the user succeeds after logout_all exactly when the
  // token is unexpired, its key is still live and reads as a device, and no device record of the user
  // named it. A ban from before is no hindrance.
  lemma OutlivesLogoutAllIff(cfg: AuthConfig, s: Store, u: LoginId, claims: RefreshClaims, now: int, later: int)
    requires claims.sub == Encode(u) && now <= later
    ensures RefreshTarget(Live(LogoutAllEffect(cfg, s, u, now), later), claims, later).Ok? <==>
            && later <= claims.exp
            && Readable(Live(s, later), claims.rid)
            && !exists d :: Names(s, DeviceKey(u, d), claims.rid)
  {
    var rk := RefreshKey(claims.rid);
    var s' := LogoutAllEffect(cfg, s, u, now);
    hide LogoutAllEffect, AfterLastColon, Names, Encode, Decode;
    LoginRoundTrip(u);
    KeyOutlivesIff(cfg, s, u, claims.rid, now);
    assert rk in Live(s', later) <==> rk in s' && rk in Live(s, later);
  }
}
