/**
 How a refresh token is answered over a run, from the operations alone: it works until its session
 ends, and a session ends by being used, logged out, replaced, evicted, or by time
 (crates/summer-auth/src/session/manager.rs:172-222, 223-411).
 */
module RefreshLife {
  import opened Wrappers
  import opened Text
  import opened SessionKeys
  import opened MemoryStorageModel
  import opened SessionSpec
  import opened SessionRuns
  import opened SessionTokens
  import opened SessionPairs
  import opened SessionLife

  // The step ends the session that (u, d) holds under `rid`: its token is used, the device logs out or in
  // again, the user is logged out everywhere or banned, or logs in where that allows no other device, or
  // the limit evicts the device (DevicesAfterLogin says when).
  ghost predicate Ends(
      cfg: AuthConfig, w: World, ev: Event, w': World, u: LoginId, d: string, rid: string)
  {
    match ev.op
    case Login(v, x, _, _, _) => v == u && (x == d || !cfg.concurrentLogin || DeviceKey(u, d) !in w'.store)
    case Refresh(c, _) => c.rid == rid && Succeeds(w, ev)
    case Logout(v, x) => v == u && x == d
    case LogoutAll(v) => v == u
    case Ban(v) => v == u
    case Unban(_) => false
    case ForceRefresh(_) => false
  }

  lemma LoginRecords(
      cfg: AuthConfig, s: Store, u: LoginId, d: string, info: DeviceInfo, now: int, s': Store, k: Key)
    requires LoginEffect(cfg, s, u, d, info, now, s') && k.DeviceKey?
    ensures k == DeviceKey(u, d) ==> k in s' && s'[k].value == DeviceRecord(info)
    ensures k != DeviceKey(u, d) && k in s' ==> k in s && s'[k] == s[k] && (k.login == u ==> cfg.concurrentLogin)
    ensures k.login != u && k in s ==> k in s'
  {
    var base := AfterConcurrency(cfg, s, u, d);
    var evicted :| Evicts(cfg, base, u, evicted)
      && s' == WithSession(cfg, RemoveDevices(base, evicted), u, d, info, now);
    assert forall e: Key :: e in evicted ==> e.DeviceKey? && e.login == u;
    hide Evicts, RecordsOf, LoginEffect;
  }

  // What a refresh does to device records other than that of the rotated session.
  lemma RefreshRecords(cfg: AuthConfig, w: World, ev: Event, w': World, u: LoginId, d: string, rid: string)
    requires Inv(w) && Step(cfg, w, ev, w') && ev.op.Refresh? && !RefreshesColonName(w, ev)
    requires ev.op.claims.rid != rid
    requires Names(Live(w.store, Seconds(ev.nowMs)), DeviceKey(u, d), rid)
    ensures SameRecord(Live(w.store, Seconds(ev.nowMs)), w'.store, DeviceKey(u, d))
  {
    var now := Seconds(ev.nowMs);
    var s := Live(w.store, now);
    if Succeeds(w, ev) {
      RefreshFindsItsRecord(w, s, ev.op.claims, now);
      hide RefreshTarget, Live;
    }
  }

  // A step that does not end the session leaves its device record as it is.
  lemma RecordStays(cfg: AuthConfig, w: World, ev: Event, w': World, u: LoginId, d: string, rid: string)
    requires Inv(w) && Step(cfg, w, ev, w') && !RefreshesColonName(w, ev)
    requires Names(Live(w.store, Seconds(ev.nowMs)), DeviceKey(u, d), rid)
    requires !Ends(cfg, w, ev, w', u, d, rid)
    ensures DeviceKey(u, d) in w'.store && SameRecord(Live(w.store, Seconds(ev.nowMs)), w'.store, DeviceKey(u, d))
  {
    var now := Seconds(ev.nowMs);
    var s := Live(w.store, now);
    if ev.op.Refresh? {
      if ev.op.claims.rid != rid {
        RefreshRecords(cfg, w, ev, w', u, d, rid);
      }
    } else if ev.op.Login? {
      var op := ev.op;
      hide Live, Inv, LoginEffect;
      LoginRecords(cfg, s, op.login, op.device, DeviceInfo(op.rid, ev.nowMs, op.loginIp, op.userAgent), now, w'.store,
        DeviceKey(u, d));
    } else {
      hide Live, Inv, Step;
      RevokingRemovesExactly(cfg, w, ev, w', DeviceKey(u, d));
    }
  }

  lemma SessionStays(cfg: AuthConfig, w: World, ev: Event, w': World, u: LoginId, d: string, rid: string)
    requires Inv(w) && Step(cfg, w, ev, w') && !RefreshesColonName(w, ev)
    requires Names(Live(w.store, Seconds(ev.nowMs)), DeviceKey(u, d), rid)
    requires !Ends(cfg, w, ev, w', u, d, rid)
    ensures Names(w'.store, DeviceKey(u, d), rid)
  {
    hide Live, Inv, Step, Ends;
    RecordStays(cfg, w, ev, w', u, d, rid);
  }

  lemma LoginEnds(
      cfg: AuthConfig, s: Store, u: LoginId, x: string, info: DeviceInfo, now: int, s': Store, d: string, rid: string,
      k: Key)
    requires Corresponds(s) && LoginEffect(cfg, s, u, x, info, now, s')
    requires Names(s, DeviceKey(u, d), rid) && rid != info.rid
    requires x == d || !cfg.concurrentLogin || DeviceKey(u, d) !in s'
    ensures !Names(s', k, rid)
  {
    hide LoginEffect, Corresponds;
    if k.DeviceKey? {
      LoginRecords(cfg, s, u, x, info, now, s', k);
      if Names(s, k, rid) {
        RecordsShareNoRid(s, k, DeviceKey(u, d), rid);
      }
    }
  }

  // A step that ends it leaves the id used up.
  lemma EndedIsGone(cfg: AuthConfig, w: World, ev: Event, w': World, u: LoginId, d: string, rid: string)
    requires Inv(w) && Step(cfg, w, ev, w') && !RefreshesColonName(w, ev) && Sound(w)
    requires Names(Live(w.store, Seconds(ev.nowMs)), DeviceKey(u, d), rid) && rid in w.rids
    requires Ends(cfg, w, ev, w', u, d, rid)
    ensures Gone(w', rid)
  {
    var now := Seconds(ev.nowMs);
    var s := Live(w.store, now);
    TimeKeeps(w.store, now);
    if ev.op.Refresh? {
      SuccessUsesUp(cfg, w, ev, w');
    } else if ev.op.Login? {
      var op := ev.op;
      StepKeepsInv(cfg, w, ev, w');
      hide Live, LoginEffect, Paired, Names;
      forall k
        ensures !Names(w'.store, k, rid)
      {
        LoginEnds(
          cfg, s, u, op.device, DeviceInfo(op.rid, ev.nowMs, op.loginIp, op.userAgent), now, w'.store, d, rid, k);
      }
    } else {
      assert Drops(ev.op, DeviceKey(u, d));
      RevokingRemovesExactly(cfg, w, ev, w', RefreshKey(rid));
    }
  }

  // ----- expiry -----

  // A stored refresh key lives exactly as long as its token, or for ever when no lifetime is configured.
  ghost predicate KeysExpireWithTokens(cfg: AuthConfig, w: World) {
    forall c :: c in w.refresh && RefreshKey(c.rid) in w.store ==>
      w.store[RefreshKey(c.rid)].expiresAt == if cfg.refreshTimeout > 0 then Some(c.exp) else None
  }

  ghost function ExpiryOf(cfg: AuthConfig, now: int): Option<int> {
    if cfg.refreshTimeout > 0 then Some(now + cfg.refreshTimeout) else None
  }

  ghost predicate OldOrNew(cfg: AuthConfig, s: Store, s': Store, rid: string, newRid: string, now: int) {
    RefreshKey(rid) in s' ==>
      if rid == newRid then s'[RefreshKey(rid)].expiresAt == ExpiryOf(cfg, now)
      else RefreshKey(rid) in s && s'[RefreshKey(rid)] == s[RefreshKey(rid)]
  }

  lemma KeysAfterLogin(
      cfg: AuthConfig, s: Store, u: LoginId, d: string, info: DeviceInfo, now: int, s': Store, rid: string)
    requires LoginEffect(cfg, s, u, d, info, now, s')
    ensures OldOrNew(cfg, s, s', rid, info.rid, now)
  {
    var base := AfterConcurrency(cfg, s, u, d);
    var evicted :| Evicts(cfg, base, u, evicted)
      && s' == WithSession(cfg, RemoveDevices(base, evicted), u, d, info, now);
    hide Evicts, RefreshKeysOf, DeviceKeysOf;
  }

  lemma KeysAfterRotation(
      cfg: AuthConfig, s: Store, u: LoginId, d: string, oldRid: string, newRid: string, now: int, rid: string)
    ensures OldOrNew(cfg, s, RotateEffect(cfg, s, u, d, oldRid, newRid, now), rid, newRid, now)
  {
  }

  // The refresh keys after a step: old ones as they were, and the one of the token that is issued.
  lemma KeysAfterStep(cfg: AuthConfig, w: World, ev: Event, w': World, rid: string)
    requires Step(cfg, w, ev, w') && RefreshKey(rid) in w'.store
    ensures var now := Seconds(ev.nowMs); var s := Live(w.store, now);
            || (RefreshKey(rid) in s && w'.store[RefreshKey(rid)] == s[RefreshKey(rid)])
            || (rid !in w.rids && rid in w'.rids && w'.store[RefreshKey(rid)].expiresAt == ExpiryOf(cfg, now))
  {
    var now := Seconds(ev.nowMs);
    var s := Live(w.store, now);
    hide Live, LoginEffect, RotateEffect, RefreshTarget, ExpiryOf;
    match ev.op
    case Login(u, d, ip, agent, newRid) =>
      KeysAfterLogin(cfg, s, u, d, DeviceInfo(newRid, ev.nowMs, ip, agent), now, w'.store, rid);
    case Refresh(claims, newRid) =>
      var target := RefreshTarget(s, claims, now);
      if target.Ok? {
        KeysAfterRotation(cfg, s, target.value.0, target.value.1, claims.rid, newRid, now, rid);
      }
    case _ =>
      hide Step;
      RevokingRemovesExactly(cfg, w, ev, w', RefreshKey(rid));
  }

  // The tokens after a step: old ones, and one under a fresh id that expires with its key.
  lemma TokensAfterStep(cfg: AuthConfig, w: World, ev: Event, w': World, c: RefreshClaims)
    requires Step(cfg, w, ev, w') && c in w'.refresh
    ensures c in w.refresh || (c.rid !in w.rids && c.exp == Seconds(ev.nowMs) + cfg.refreshTimeout)
  {
    hide LoginEffect, RefreshTarget, RotateEffect, Live;
  }

  lemma StepKeepsExpiry(cfg: AuthConfig, w: World, ev: Event, w': World)
    requires Sound(w) && Step(cfg, w, ev, w') && KeysExpireWithTokens(cfg, w)
    ensures KeysExpireWithTokens(cfg, w')
  {
    hide Step;
    forall c | c in w'.refresh && RefreshKey(c.rid) in w'.store
      ensures w'.store[RefreshKey(c.rid)].expiresAt == if cfg.refreshTimeout > 0 then Some(c.exp) else None
    {
      KeysAfterStep(cfg, w, ev, w', c.rid);
      TokensAfterStep(cfg, w, ev, w', c);
    }
  }

  lemma {:induction false} KeysLiveAsTokens(cfg: AuthConfig, worlds: seq<World>, events: seq<Event>, j: nat)
    requires Run(cfg, worlds, events) && j < |worlds|
    ensures KeysExpireWithTokens(cfg, worlds[j])
  {
    if j > 0 {
      KeysLiveAsTokens(cfg, worlds, events, j - 1);
      RunIsSound(cfg, worlds, events, j - 1);
      StepKeepsExpiry(cfg, worlds[j - 1], events[j - 1], worlds[j]);
    }
  }

  // Until the token expires, time does not remove the session.
  lemma StillLive(cfg: AuthConfig, w: World, u: LoginId, d: string, c: RefreshClaims, now: int)
    requires Inv(w) && KeysExpireWithTokens(cfg, w) && c in w.refresh
    requires Names(w.store, DeviceKey(u, d), c.rid) && now <= c.exp
    ensures Names(Live(w.store, now), DeviceKey(u, d), c.rid)
  {
    assert Paired(w.store, u, d);
  }

  // ----- over a run -----

  ghost predicate EndsAt(
      cfg: AuthConfig, worlds: seq<World>, events: seq<Event>, k: nat, u: LoginId, d: string, rid: string)
    requires k < |events| && |worlds| == |events| + 1
  {
    Ends(cfg, worlds[k], events[k], worlds[k + 1], u, d, rid)
  }

  // Some step from the i-th on and before the j-th ends it.
  ghost predicate EndedBetween(
      cfg: AuthConfig, worlds: seq<World>, events: seq<Event>, i: nat, j: nat, u: LoginId, d: string, rid: string)
    requires j < |worlds| == |events| + 1
  {
    exists k :: i <= k < j && EndsAt(cfg, worlds, events, k, u, d, rid)
  }

  lemma {:induction false} TokensStay(cfg: AuthConfig, worlds: seq<World>, events: seq<Event>, i: nat, j: nat)
    requires Run(cfg, worlds, events) && i <= j < |worlds|
    ensures worlds[i].refresh <= worlds[j].refresh && worlds[i].rids <= worlds[j].rids
  {
    if i < j {
      TokensStay(cfg, worlds, events, i, j - 1);
      assert Step(cfg, worlds[j - 1], events[j - 1], worlds[j]);
    }
  }

  lemma {:induction false} SessionLasts(
      cfg: AuthConfig, worlds: seq<World>, events: seq<Event>, i: nat, j: nat, u: LoginId, d: string, c: RefreshClaims)
    requires Run(cfg, worlds, events) && i <= j < |worlds|
    requires forall k :: 0 <= k < j ==> !RefreshesColonName(worlds[k], events[k])
    requires Names(worlds[i].store, DeviceKey(u, d), c.rid) && c in worlds[i].refresh
    requires forall k :: i <= k < j ==> !EndsAt(cfg, worlds, events, k, u, d, c.rid)
    requires worlds[j].at <= c.exp
    ensures Names(worlds[j].store, DeviceKey(u, d), c.rid)
  {
    hide Step, Names, Inv, Ends, RefreshesColonName, KeysExpireWithTokens, Live;
    if i < j {
      ClockGoesOn(cfg, worlds, events, j - 1, j);
      SessionLasts(cfg, worlds, events, i, j - 1, u, d, c);
      TokensStay(cfg, worlds, events, i, j - 1);
      RunKeepsInv(cfg, worlds, events, j - 1);
      KeysLiveAsTokens(cfg, worlds, events, j - 1);
      StepClock(cfg, worlds[j - 1], events[j - 1], worlds[j]);
      StillLive(cfg, worlds[j - 1], u, d, c, worlds[j].at);
      assert !EndsAt(cfg, worlds, events, j - 1, u, d, c.rid);
      SessionStays(cfg, worlds[j - 1], events[j - 1], worlds[j], u, d, c.rid);
    }
  }

  lemma StepClock(cfg: AuthConfig, w: World, ev: Event, w': World)
    requires Step(cfg, w, ev, w')
    ensures w.at <= Seconds(ev.nowMs) == w'.at
  {
  }

  lemma {:induction false} EndedStaysGone(
      cfg: AuthConfig, worlds: seq<World>, events: seq<Event>, i: nat, k: nat, j: nat, u: LoginId, d: string,
      c: RefreshClaims)
    requires Run(cfg, worlds, events) && i <= k < j < |worlds|
    requires forall m :: 0 <= m < j ==> !RefreshesColonName(worlds[m], events[m])
    requires Names(worlds[i].store, DeviceKey(u, d), c.rid) && c in worlds[i].refresh
    requires EndsAt(cfg, worlds, events, k, u, d, c.rid) && worlds[j].at <= c.exp
    ensures Gone(worlds[j], c.rid)
    decreases k
  {
    hide Step, Names, Inv, Ends, RefreshesColonName, KeysExpireWithTokens, Live, Gone;
    if m :| i <= m < k && EndsAt(cfg, worlds, events, m, u, d, c.rid) {
      EndedStaysGone(cfg, worlds, events, i, m, j, u, d, c);
    } else {
      ClockGoesOn(cfg, worlds, events, k, k + 1);
      ClockGoesOn(cfg, worlds, events, k + 1, j);
      SessionLasts(cfg, worlds, events, i, k, u, d, c);
      TokensStay(cfg, worlds, events, i, k);
      RunKeepsInv(cfg, worlds, events, k);
      KeysLiveAsTokens(cfg, worlds, events, k);
      StepClock(cfg, worlds[k], events[k], worlds[k + 1]);
      StillLive(cfg, worlds[k], u, d, c, worlds[k + 1].at);
      RunIsSound(cfg, worlds, events, k);
      EndedIsGone(cfg, worlds[k], events[k], worlds[k + 1], u, d, c.rid);
      GoneStays(cfg, worlds, events, k + 1, j, c.rid);
    }
  }

  // The answer to a token whose session is stored.
  lemma AnswerWhileStored(cfg: AuthConfig, w: World, u: LoginId, d: string, c: RefreshClaims, now: int)
    requires Inv(w) && KeysExpireWithTokens(cfg, w) && c in w.refresh && !HasColon(d)
    requires Names(w.store, DeviceKey(u, d), c.rid) && now <= c.exp
    ensures RefreshTarget(Live(w.store, now), c, now)
            == if Banned(Live(w.store, now), u) then Err(AccountBanned) else Ok((u, d))
  {
    StillLive(cfg, w, u, d, c, now);
    TimeKeeps(w.store, now);
    assert Paired(Live(w.store, now), u, d);
    LoginRoundTrip(u);
    DeviceReadsBackIff(u, d);
  }

  lemma AnswerWhenGone(w: World, c: RefreshClaims, now: int)
    requires Gone(w, c.rid) && now <= c.exp
    ensures RefreshTarget(Live(w.store, now), c, now) == Err(InvalidRefreshToken)
  {
  }

  // Over a run, from any moment at which the record of a device without a colon in its name holds a token's
  // id: the token is answered by its expiry, then by whether anything ended the session in between, then by
  // whether the user is banned; otherwise it goes on as that user on that device.
  lemma RefreshAnswer(
      cfg: AuthConfig, worlds: seq<World>, events: seq<Event>, i: nat, j: nat, u: LoginId, d: string,
      c: RefreshClaims, now: int)
    requires Run(cfg, worlds, events) && i <= j < |worlds| && worlds[j].at <= now
    requires forall k :: 0 <= k < j ==> !RefreshesColonName(worlds[k], events[k])
    requires Names(worlds[i].store, DeviceKey(u, d), c.rid) && c in worlds[i].refresh && !HasColon(d)
    ensures var s := Live(worlds[j].store, now);
            RefreshTarget(s, c, now) ==
              if c.exp < now then Err(RefreshTokenExpired)
              else if EndedBetween(cfg, worlds, events, i, j, u, d, c.rid) then Err(InvalidRefreshToken)
              else if Banned(s, u) then Err(AccountBanned)
              else Ok((u, d))
  {
    hide Step, Names, Inv, Ends, RefreshesColonName, KeysExpireWithTokens, Live, Gone, HasColon, Banned;
    if now <= c.exp {
      hide RefreshTarget;
      if k :| i <= k < j && EndsAt(cfg, worlds, events, k, u, d, c.rid) {
        EndedStaysGone(cfg, worlds, events, i, k, j, u, d, c);
        AnswerWhenGone(worlds[j], c, now);
      } else {
        SessionLasts(cfg, worlds, events, i, j, u, d, c);
        TokensStay(cfg, worlds, events, i, j);
        RunKeepsInv(cfg, worlds, events, j);
        KeysLiveAsTokens(cfg, worlds, events, j);
        AnswerWhileStored(cfg, worlds[j], u, d, c, now);
      }
    }
  }

  // ----- where sessions come from -----

  // A login stores the device's record with the session's data and issues the tokens of this second.
  lemma LoginOpens(cfg: AuthConfig, w: World, ev: Event, w': World)
    requires Step(cfg, w, ev, w') && ev.op.Login?
    ensures var op := ev.op; var t := ev.nowMs / 1000; var dk := DeviceKey(op.login, op.device);
            && Names(w'.store, dk, op.rid)
            && w'.store[dk].value == DeviceRecord(DeviceInfo(op.rid, ev.nowMs, op.loginIp, op.userAgent))
            && w'.refresh == w.refresh + {RefreshClaims(Encode(op.login), t, t + cfg.refreshTimeout, op.rid)}
            && w'.access == w.access + {AccessClaims(Encode(op.login), t, t + cfg.accessTimeout, op.device)}
  {
    var op := ev.op;
    LoginRecords(cfg, Live(w.store, Seconds(ev.nowMs)), op.login, op.device,
      DeviceInfo(op.rid, ev.nowMs, op.loginIp, op.userAgent), Seconds(ev.nowMs), w'.store,
      DeviceKey(op.login, op.device));
    hide LoginEffect, Live;
  }

  // An accepted refresh goes on under the new id: the record keeps its login time, address and agent.
  lemma RotationContinues(cfg: AuthConfig, w: World, ev: Event, w': World, u: LoginId, d: string)
    requires Inv(w) && Step(cfg, w, ev, w') && Succeeds(w, ev) && !HasColon(d)
    requires Names(Live(w.store, Seconds(ev.nowMs)), DeviceKey(u, d), ev.op.claims.rid)
    ensures var op := ev.op; var t := ev.nowMs / 1000; var dk := DeviceKey(u, d);
            && Names(w'.store, dk, op.newRid)
            && w'.store[dk].value
               == DeviceRecord(Live(w.store, Seconds(ev.nowMs))[dk].value.info.(rid := op.newRid))
            && w'.refresh == w.refresh + {RefreshClaims(Encode(u), t, t + cfg.refreshTimeout, op.newRid)}
            && w'.access == w.access + {AccessClaims(Encode(u), t, t + cfg.accessTimeout, d)}
  {
    var now := Seconds(ev.nowMs);
    var s := Live(w.store, now);
    TimeKeeps(w.store, now);
    assert Paired(s, u, d);
    LiveIsSubset(w.store, now);
    LoginRoundTrip(u);
    DeviceReadsBackIff(u, d);
    assert RefreshTarget(s, ev.op.claims, now).value == (u, d);
    hide RefreshTarget, Live, Encode, Decode, HasColon, AfterLastColon;
  }

  // The life of a session from its login on: its refresh token is good for the refresh timeout, until
  // something ends the session, and while the user is not banned.
  lemma AnswerAfterLogin(
      cfg: AuthConfig, worlds: seq<World>, events: seq<Event>, i: nat, j: nat, now: int)
    requires Run(cfg, worlds, events) && i < j < |worlds| && worlds[j].at <= now
    requires forall k :: 0 <= k < j ==> !RefreshesColonName(worlds[k], events[k])
    requires events[i].op.Login? && !HasColon(events[i].op.device)
    ensures var op, s := events[i].op, Live(worlds[j].store, now);
            var expiry := events[i].nowMs / 1000 + cfg.refreshTimeout;
            RefreshTarget(s, RefreshClaims(Encode(op.login), events[i].nowMs / 1000, expiry, op.rid), now) ==
              if expiry < now then Err(RefreshTokenExpired)
              else if EndedBetween(cfg, worlds, events, i + 1, j, op.login, op.device, op.rid) then
                Err(InvalidRefreshToken)
              else if Banned(s, op.login) then Err(AccountBanned)
              else Ok((op.login, op.device))
  {
    var op, t := events[i].op, events[i].nowMs / 1000;
    assert Step(cfg, worlds[i], events[i], worlds[i + 1]);
    hide *;
    LoginOpens(cfg, worlds[i], events[i], worlds[i + 1]);
    RefreshAnswer(cfg, worlds, events, i + 1, j, op.login, op.device,
      RefreshClaims(Encode(op.login), t, t + cfg.refreshTimeout, op.rid), now);
  }
}
