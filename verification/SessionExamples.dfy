/** Concrete runs in which a ban or a logout_all does not shut the user out. */
module SessionExamples {
  import opened Wrappers
  import opened SessionKeys
  import opened MemoryStorageModel
  import opened SessionSpec
  import opened SessionRuns

  const EMPTY: World := World(map[], 0, {}, {}, {})

  // With no devices stored, a login removes nothing.
  lemma FirstLogin(cfg: AuthConfig, s: Store, u: LoginId, d: string, info: DeviceInfo, now: int)
    requires forall k: Key :: k in s ==> !k.DeviceKey?
    ensures LoginEffect(cfg, s, u, d, info, now, WithSession(cfg, s, u, d, info, now))
  {
    assert AfterConcurrency(cfg, s, u, d) == s;
    assert DeviceKeysOf(s, u) == {};
    assert RecordsOf(s, u) == {};
    assert RemoveDevices(s, {}) == s;
    assert Evicts(cfg, s, u, {}) by {
      assert |DeviceKeysOf(s, u)| == 0;
    }
  }

  function AfterLogin(cfg: AuthConfig, w: World, u: LoginId, d: string, rid: string, now: int): World {
    World(
      WithSession(cfg, w.store, u, d, DeviceInfo(rid, now * 1000, "", ""), now), now,
      w.access + {IssueAccess(cfg, u, d, now)}, w.refresh + {IssueRefresh(cfg, u, rid, now)}, w.rids + {rid})
  }

  // ----- a replaced ban -----

  function BannedWorld(u: LoginId): World {
    EMPTY.(store := map[DenyKey(u) := EntryFor(BANNED, BAN_SECONDS, 0)])
  }

  function LiftedWorld(cfg: AuthConfig, u: LoginId): World {
    EMPTY.(store := map[DenyKey(u) := EntryFor(RefreshDeny(0), cfg.accessTimeout, 0)])
  }

  lemma BanStep(cfg: AuthConfig, u: LoginId)
    ensures Step(cfg, EMPTY, Event(0, Ban(u)), BannedWorld(u))
  {
    assert Live(map[], 0) == map[];
    assert BanEffect(map[], u, 0) == BannedWorld(u).store;
  }

  lemma LiftStep(cfg: AuthConfig, u: LoginId, lift: Op)
    requires lift == Logout(u, "web") || lift == LogoutAll(u) || lift == ForceRefresh(u)
    ensures Step(cfg, BannedWorld(u), Event(0, lift), LiftedWorld(cfg, u))
  {
    var s := BannedWorld(u).store;
    assert Live(s, 0) == s;
    assert DeviceKeysOf(s, u) == {};
    assert RemoveDevices(s, {}) == s == RemoveDevices(s, {DeviceKey(u, "web")});
  }

  lemma LoginStep(cfg: AuthConfig, u: LoginId)
    requires cfg.accessTimeout > 1
    ensures Step(cfg, LiftedWorld(cfg, u), Event(1000, Login(u, "web", "", "", "r1")),
                 AfterLogin(cfg, LiftedWorld(cfg, u), u, "web", "r1", 1))
  {
    var s := LiftedWorld(cfg, u).store;
    assert Live(s, 1) == s;
    FirstLogin(cfg, s, u, "web", DeviceInfo("r1", 1000, "", ""), 1);
    hide LoginEffect, WithSession;
  }

  lemma FreshTokenIsValid(cfg: AuthConfig, u: LoginId)
    requires cfg.accessTimeout > 1
    ensures var w, claims := AfterLogin(cfg, LiftedWorld(cfg, u), u, "web", "r1", 1), IssueAccess(cfg, u, "web", 1);
            claims in w.access && Validate(cfg, Live(w.store, 1), claims, 1) == Ok(u)
  {
    LoginRoundTrip(u);
    DenyReadsBack(0, 1);
    hide Encode, Decode, RefreshDeny, DenyVerdict;
  }

  // A banned user who is logged out, or forced to refresh, and logs in a second later holds a valid token.
  lemma BanMayBeReplaced(cfg: AuthConfig, u: LoginId, lift: Op)
    returns (worlds: seq<World>, events: seq<Event>, claims: AccessClaims)
    requires cfg.accessTimeout > 1
    requires lift == Logout(u, "web") || lift == LogoutAll(u) || lift == ForceRefresh(u)
    ensures Run(cfg, worlds, events)
    ensures events == [Event(0, Ban(u)), Event(0, lift), Event(1000, Login(u, "web", "", "", "r1"))]
    ensures claims in worlds[3].access && Validate(cfg, Live(worlds[3].store, 1), claims, 1) == Ok(u)
  {
    hide Step, BannedWorld, LiftedWorld, AfterLogin, Validate, Live, IssueAccess;
    worlds := [EMPTY, BannedWorld(u), LiftedWorld(cfg, u), AfterLogin(cfg, LiftedWorld(cfg, u), u, "web", "r1", 1)];
    events := [Event(0, Ban(u)), Event(0, lift), Event(1000, Login(u, "web", "", "", "r1"))];
    claims := IssueAccess(cfg, u, "web", 1);
    FreshTokenIsValid(cfg, u);
    BanStep(cfg, u);
    LiftStep(cfg, u, lift);
    LoginStep(cfg, u);
  }

  // ----- a session that outlives logout_all -----

  function FirstToken(cfg: AuthConfig, u: LoginId): RefreshClaims {
    IssueRefresh(cfg, u, "r1", 0)
  }

  function SecondToken(cfg: AuthConfig, u: LoginId): RefreshClaims {
    IssueRefresh(cfg, u, "r2", 0)
  }

  function RefreshedWorld(cfg: AuthConfig, u: LoginId): World {
    World(
      map[RefreshKey("r2") := EntryFor(Text(RefreshValue(u, "b")), cfg.refreshTimeout, 0),
          DeviceKey(u, "a:b") := EntryFor(DeviceRecord(DeviceInfo("r1", 0, "", "")), cfg.refreshTimeout, 0)],
      0,
      {IssueAccess(cfg, u, "a:b", 0), IssueAccess(cfg, u, "b", 0)},
      {FirstToken(cfg, u), SecondToken(cfg, u)},
      {"r1", "r2"})
  }

  function LoggedOutWorld(cfg: AuthConfig, u: LoginId): World {
    RefreshedWorld(cfg, u).(store :=
      map[RefreshKey("r2") := EntryFor(Text(RefreshValue(u, "b")), cfg.refreshTimeout, 0),
          DenyKey(u) := EntryFor(RefreshDeny(0), cfg.accessTimeout, 0)])
  }

  function RevivedWorld(cfg: AuthConfig, u: LoginId): World {
    var w := LoggedOutWorld(cfg, u);
    World(RotateEffect(cfg, w.store, u, "b", "r2", "r3", 0), 0,
          w.access + {IssueAccess(cfg, u, "b", 0)}, w.refresh + {IssueRefresh(cfg, u, "r3", 0)}, w.rids + {"r3"})
  }

  lemma FirstLoginStep(cfg: AuthConfig, u: LoginId)
    ensures Step(cfg, EMPTY, Event(0, Login(u, "a:b", "", "", "r1")), AfterLogin(cfg, EMPTY, u, "a:b", "r1", 0))
  {
    assert Live(map[], 0) == map[];
    FirstLogin(cfg, map[], u, "a:b", DeviceInfo("r1", 0, "", ""), 0);
    hide LoginEffect, WithSession;
  }

  lemma ColonDeviceReadsAs(u: LoginId)
    ensures AfterLastColon(RefreshValue(u, "a:b")) == Some("b") == AfterLastColon(RefreshValue(u, "b"))
  {
    var front := Encode(u) + ":" + "a";
    assert Encode(u) + ":" + "a:b" == front + ":" + "b" by {
      assert "a:b" == "a" + ":" + "b";
    }
    LastColonOf(front, "b");
    LastColonOf(Encode(u), "b");
  }

  lemma RefreshStep(cfg: AuthConfig, u: LoginId)
    requires cfg.refreshTimeout > 0
    ensures Step(cfg, AfterLogin(cfg, EMPTY, u, "a:b", "r1", 0), Event(0, Refresh(FirstToken(cfg, u), "r2")),
                 RefreshedWorld(cfg, u))
  {
    hide Encode, Decode, AfterLastColon, RefreshValue;
    var w := AfterLogin(cfg, EMPTY, u, "a:b", "r1", 0);
    assert Live(w.store, 0) == w.store;
    LoginRoundTrip(u);
    ColonDeviceReadsAs(u);
    assert RefreshTarget(w.store, FirstToken(cfg, u), 0) == Ok((u, "b"));
    assert RotateEffect(cfg, w.store, u, "b", "r1", "r2", 0) == RefreshedWorld(cfg, u).store;
  }

  lemma LogoutAllStep(cfg: AuthConfig, u: LoginId)
    requires cfg.refreshTimeout > 0
    ensures Step(cfg, RefreshedWorld(cfg, u), Event(0, LogoutAll(u)), LoggedOutWorld(cfg, u))
  {
    var s := RefreshedWorld(cfg, u).store;
    assert Live(s, 0) == s;
    assert DeviceKeysOf(s, u) == {DeviceKey(u, "a:b")};
    assert LogoutAllEffect(cfg, s, u, 0) == LoggedOutWorld(cfg, u).store;
  }

  lemma RevivingStep(cfg: AuthConfig, u: LoginId)
    requires cfg.refreshTimeout > 0 && cfg.accessTimeout > 0
    ensures Step(cfg, LoggedOutWorld(cfg, u), Event(0, Refresh(SecondToken(cfg, u), "r3")), RevivedWorld(cfg, u))
    ensures Succeeds(LoggedOutWorld(cfg, u), Event(0, Refresh(SecondToken(cfg, u), "r3")))
  {
    var w := LoggedOutWorld(cfg, u);
    DenyReadsBack(0, 0);
    LoginRoundTrip(u);
    ColonDeviceReadsAs(u);
    hide Encode, Decode, AfterLastColon, RefreshValue, RefreshDeny, RotateEffect;
    assert Live(w.store, 0) == w.store;
    assert RefreshTarget(w.store, SecondToken(cfg, u), 0) == Ok((u, "b"));
  }

  lemma SecondTokenWasIssued(cfg: AuthConfig, u: LoginId)
    ensures SecondToken(cfg, u) in RefreshedWorld(cfg, u).refresh && SecondToken(cfg, u).sub == Encode(u)
  {
  }

  // A session under `a:b` that was refreshed once can be refreshed again after logout_all.
  lemma ColonSessionOutlivesLogoutAll(cfg: AuthConfig, u: LoginId)
    returns (worlds: seq<World>, events: seq<Event>)
    requires cfg.accessTimeout > 0 && cfg.refreshTimeout > 0
    ensures Run(cfg, worlds, events) && |events| == 4
    ensures events[0].op == Login(u, "a:b", "", "", "r1") && events[1].op.Refresh?
    ensures events[2].op == LogoutAll(u)
    ensures events[3].op.Refresh? && events[3].op.claims in worlds[2].refresh
    ensures events[3].op.claims.sub == Encode(u) && Succeeds(worlds[3], events[3])
  {
    hide Step, AfterLogin, RefreshedWorld, LoggedOutWorld, RevivedWorld, Succeeds, FirstToken, SecondToken;
    worlds := [EMPTY, AfterLogin(cfg, EMPTY, u, "a:b", "r1", 0), RefreshedWorld(cfg, u), LoggedOutWorld(cfg, u),
               RevivedWorld(cfg, u)];
    events := [Event(0, Login(u, "a:b", "", "", "r1")), Event(0, Refresh(FirstToken(cfg, u), "r2")),
               Event(0, LogoutAll(u)), Event(0, Refresh(SecondToken(cfg, u), "r3"))];
    SecondTokenWasIssued(cfg, u);
    FirstLoginStep(cfg, u);
    RefreshStep(cfg, u);
    LogoutAllStep(cfg, u);
    RevivingStep(cfg, u);
  }
}
