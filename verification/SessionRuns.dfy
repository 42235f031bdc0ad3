/**
 Runs of session operations. Each operation is one atomic step at one clock
 reading; the clock never goes back; the ids of refresh tokens are fresh; a
 refresh presents a token that was issued earlier. Time alone removes entries.
 */
module SessionRuns {
  import opened Wrappers
  import opened I64
  import opened Decimal
  import opened SessionKeys
  import opened MemoryStorageModel
  import opened SessionSpec

  datatype Op =
    | Login(login: LoginId, device: string, loginIp: string, userAgent: string, rid: string)
    | Refresh(claims: RefreshClaims, newRid: string)
    | Logout(login: LoginId, device: string)
    | LogoutAll(login: LoginId)
    | Ban(login: LoginId)
    | Unban(login: LoginId)
    | ForceRefresh(login: LoginId)

  datatype Event = Event(nowMs: Int64, op: Op)

  // `store` holds the entries live at second `at`; the rest is history.
  datatype World = World(
    store: Store,
    at: int,
    access: set<AccessClaims>,
    refresh: set<RefreshClaims>,
    rids: set<string>)

  ghost predicate Step(cfg: AuthConfig, w: World, ev: Event, w': World) {
    var now := Seconds(ev.nowMs);
    var s := Live(w.store, now);
    && w.at <= now == w'.at
    && match ev.op
       case Login(login, device, ip, agent, rid) =>
         && rid !in w.rids
         && LoginEffect(cfg, s, login, device, DeviceInfo(rid, ev.nowMs, ip, agent), now, w'.store)
         && w'.access == w.access + {IssueAccess(cfg, login, device, now)}
         && w'.refresh == w.refresh + {IssueRefresh(cfg, login, rid, now)}
         && w'.rids == w.rids + {rid}
       case Refresh(claims, newRid) =>
         && claims in w.refresh && newRid !in w.rids
         && var target := RefreshTarget(s, claims, now);
            if target.Ok? then
              && w'.store == RotateEffect(cfg, s, target.value.0, target.value.1, claims.rid, newRid, now)
              && w'.access == w.access + {IssueAccess(cfg, target.value.0, target.value.1, now)}
              && w'.refresh == w.refresh + {IssueRefresh(cfg, target.value.0, newRid, now)}
              && w'.rids == w.rids + {newRid}
            else
              w' == w.(store := s, at := now)
       case Logout(login, device) => w' == w.(store := LogoutEffect(cfg, s, login, device, now), at := now)
       case LogoutAll(login) => w' == w.(store := LogoutAllEffect(cfg, s, login, now), at := now)
       case Ban(login) => w' == w.(store := BanEffect(s, login, now), at := now)
       case Unban(login) => w' == w.(store := s - {DenyKey(login)}, at := now)
       case ForceRefresh(login) => w' == w.(store := ForceRefreshEffect(cfg, s, login, now), at := now)
  }

  ghost predicate Run(cfg: AuthConfig, worlds: seq<World>, events: seq<Event>) {
    && |worlds| == |events| + 1
    && worlds[0].store == map[] && worlds[0].access == {} && worlds[0].refresh == {} && worlds[0].rids == {}
    && forall i :: 0 <= i < |events| ==> Step(cfg, worlds[i], events[i], worlds[i + 1])
  }

  predicate Succeeds(w: World, ev: Event) {
    ev.op.Refresh? && RefreshTarget(Live(w.store, Seconds(ev.nowMs)), ev.op.claims, Seconds(ev.nowMs)).Ok?
  }

  predicate Names(s: Store, k: Key, rid: string) {
    k in s && k.DeviceKey? && s[k].value.DeviceRecord? && s[k].value.info.rid == rid
  }

  // ----- revocation -----

  predicate Revokes(op: Op, u: LoginId) {
    op == LogoutAll(u) || op == ForceRefresh(u) || (op.Logout? && op.login == u)
  }

  // Operations that overwrite or remove a user's deny entry.
  predicate LiftsBan(op: Op, u: LoginId) {
    Revokes(op, u) || op == Unban(u)
  }

  ghost predicate DeniesUpTo(value: Stored, t: int) {
    value == BANNED || exists ts: Int64 :: t <= ts && value == RefreshDeny(ts)
  }

  predicate Lasts(e: Entry, until: int) {
    e.expiresAt.None? || until <= e.expiresAt.value
  }

  // Until T + timeout the user's deny entry is live and refuses every token issued by T.
  ghost predicate DenyCovers(cfg: AuthConfig, w: World, u: LoginId, t: int) {
    w.at <= t + cfg.accessTimeout ==>
      && DenyKey(u) in w.store
      && Lasts(w.store[DenyKey(u)], t + cfg.accessTimeout)
      && DeniesUpTo(w.store[DenyKey(u)].value, t)
  }

  lemma DenyReadsBack(ts: Int64, iat: int)
    ensures RefreshDeny(ts) != BANNED
    ensures DenyVerdict(RefreshDeny(ts), iat) == if iat <= ts then Some(RefreshRequired) else None
  {
    var text := RefreshDeny(ts).text;
    assert text[0] == 'r' && BANNED.text[0] == 'b';
    assert text[8..] == IntText(ts);
    IntRoundTrip(ts);
  }

  // Any deny text: `banned` bans, `refresh:` with a second refuses tokens issued by then, all else is malformed.
  lemma DenyTexts(text: string, second: string, iat: int)
    ensures DenyVerdict(Text("banned"), iat) == Some(AccountBanned)
    ensures var ts := ParseI64(second);
            DenyVerdict(Text("refresh:" + second), iat) ==
              if ts.None? then Some(InvalidToken) else if iat <= ts.value then Some(RefreshRequired) else None
    ensures text != "banned" && !("refresh:" <= text) ==> DenyVerdict(Text(text), iat) == Some(InvalidToken)
  {
    assert ("refresh:" + second)[0] == 'r' && ("refresh:" + second)[8..] == second;
  }

  // What a store keeps of the deny entries, and of nothing else.
  lemma DevicesKeepDeny(s: Store, keys: set<Key>, u: LoginId)
    requires forall k :: k in keys ==> k.DeviceKey?
    ensures DenyKey(u) in RemoveDevices(s, keys) <==> DenyKey(u) in s
    ensures DenyKey(u) in s ==> RemoveDevices(s, keys)[DenyKey(u)] == s[DenyKey(u)]
  {
  }

  lemma LoginKeepsDeny(
      cfg: AuthConfig, s: Store, login: LoginId, d: string, info: DeviceInfo, now: int, s': Store, u: LoginId)
    requires LoginEffect(cfg, s, login, d, info, now, s')
    ensures DenyKey(u) in s' <==> DenyKey(u) in s
    ensures DenyKey(u) in s ==> s'[DenyKey(u)] == s[DenyKey(u)]
  {
    var base := AfterConcurrency(cfg, s, login, d);
    DevicesKeepDeny(s, {DeviceKey(login, d)}, u);
    DevicesKeepDeny(s, DeviceKeysOf(s, login), u);
    var evicted :| Evicts(cfg, base, login, evicted)
      && s' == WithSession(cfg, RemoveDevices(base, evicted), login, d, info, now);
    DevicesKeepDeny(base, evicted, u);
  }

  // The deny entry after a step, for every operation.
  lemma DenyAfterStep(cfg: AuthConfig, w: World, ev: Event, w': World, u: LoginId)
    requires Step(cfg, w, ev, w')
    ensures var now := Seconds(ev.nowMs); var s := Live(w.store, now); var dk := DenyKey(u);
            && (Revokes(ev.op, u) ==>
                  && dk in w'.store && w'.store[dk].value == Text("refresh:" + IntText(now))
                  && w'.store[dk].expiresAt == if cfg.accessTimeout > 0 then Some(now + cfg.accessTimeout) else None)
            && (ev.op == Ban(u) ==> dk in w'.store && w'.store[dk] == Entry(Text("banned"), Some(now + 365 * 86_400)))
            && (ev.op == Unban(u) ==> dk !in w'.store)
            && (!LiftsBan(ev.op, u) && ev.op != Ban(u) ==>
                  (dk in w'.store <==> dk in s) && (dk in s ==> w'.store[dk] == s[dk]))
  {
    var now := Seconds(ev.nowMs);
    var s := Live(w.store, now);
    hide LoginEffect, RefreshTarget, RemoveDevices, Live;
    match ev.op
    case Login(login, device, ip, agent, rid) =>
      LoginKeepsDeny(cfg, s, login, device, DeviceInfo(rid, ev.nowMs, ip, agent), now, w'.store, u);
    case Refresh(claims, newRid) =>
    case Logout(login, device) => DevicesKeepDeny(s, {DeviceKey(login, device)}, u);
    case LogoutAll(login) => DevicesKeepDeny(s, DeviceKeysOf(s, login), u);
    case Ban(login) => DevicesKeepDeny(s, DeviceKeysOf(s, login), u);
    case Unban(login) =>
    case ForceRefresh(login) =>
  }

  lemma RevokingStep(cfg: AuthConfig, w: World, ev: Event, w': World, u: LoginId)
    requires Step(cfg, w, ev, w') && Revokes(ev.op, u) && 0 < cfg.accessTimeout
    ensures DenyCovers(cfg, w', u, Seconds(ev.nowMs))
  {
    DenyAfterStep(cfg, w, ev, w', u);
  }

  lemma StepKeepsCover(cfg: AuthConfig, w: World, ev: Event, w': World, u: LoginId, t: int)
    requires Step(cfg, w, ev, w') && DenyCovers(cfg, w, u, t) && t <= w.at && ev.op != Unban(u)
    requires 0 < cfg.accessTimeout <= BAN_SECONDS
    ensures DenyCovers(cfg, w', u, t)
  {
    DenyAfterStep(cfg, w, ev, w', u);
  }

  lemma {:induction false} CoverLasts(
      cfg: AuthConfig, worlds: seq<World>, events: seq<Event>, i: nat, j: nat, u: LoginId)
    requires Run(cfg, worlds, events) && i < j < |worlds| && Revokes(events[i].op, u)
    requires forall k :: i < k < j ==> events[k].op != Unban(u)
    requires 0 < cfg.accessTimeout <= BAN_SECONDS
    ensures Seconds(events[i].nowMs) <= worlds[j].at
    ensures DenyCovers(cfg, worlds[j], u, Seconds(events[i].nowMs))
  {
    hide DenyCovers;
    assert Step(cfg, worlds[j - 1], events[j - 1], worlds[j]);
    if j == i + 1 {
      RevokingStep(cfg, worlds[i], events[i], worlds[j], u);
    } else {
      CoverLasts(cfg, worlds, events, i, j - 1, u);
      StepKeepsCover(cfg, worlds[j - 1], events[j - 1], worlds[j], u, Seconds(events[i].nowMs));
    }
  }

  ghost predicate IssuedHere(cfg: AuthConfig, w: World) {
    forall c :: c in w.access ==> c.iat <= w.at && c.exp == c.iat + cfg.accessTimeout
  }

  lemma {:induction false} TokensExpireOnTime(cfg: AuthConfig, worlds: seq<World>, events: seq<Event>, j: nat)
    requires Run(cfg, worlds, events) && j < |worlds|
    ensures IssuedHere(cfg, worlds[j])
  {
    if j > 0 {
      TokensExpireOnTime(cfg, worlds, events, j - 1);
      assert Step(cfg, worlds[j - 1], events[j - 1], worlds[j]);
    }
  }

  // Once logout, logout_all or force_refresh ran for a user at second T, no
  // access token of that user issued by T is accepted at any later moment of
  // any run without unban.
  lemma RevokedForGood(
      cfg: AuthConfig, worlds: seq<World>, events: seq<Event>, i: nat, j: nat,
      u: LoginId, claims: AccessClaims, now: int)
    requires Run(cfg, worlds, events) && i < j < |worlds| && Revokes(events[i].op, u)
    requires forall k :: i < k < j ==> events[k].op != Unban(u)
    requires cfg.perRequestDenyCheck && 0 < cfg.accessTimeout <= BAN_SECONDS
    requires claims in worlds[j].access && claims.sub == Encode(u) && claims.iat <= Seconds(events[i].nowMs)
    requires worlds[j].at <= now
    ensures Validate(cfg, Live(worlds[j].store, now), claims, now).Err?
  {
    if now <= claims.exp {
      hide Step, Validate;
      assert RevokedAt(events, i, j, u);
      StaleIsRefused(cfg, worlds, events, i, j, u, claims, now);
    }
  }

  // Right after such an operation, and while its deny entry lives, an unexpired
  // token of the user is refused exactly when it was issued by then.
  lemma RevocationIsExact(
      cfg: AuthConfig, w: World, ev: Event, w': World, u: LoginId, claims: AccessClaims, now: int)
    requires Step(cfg, w, ev, w') && Revokes(ev.op, u) && cfg.perRequestDenyCheck && 0 < cfg.accessTimeout
    requires claims.sub == Encode(u) && w'.at <= now <= w'.at + cfg.accessTimeout && now <= claims.exp
    ensures Validate(cfg, Live(w'.store, now), claims, now)
            == if claims.iat <= Seconds(ev.nowMs) then Err(RefreshRequired) else Ok(u)
  {
    DenyAfterStep(cfg, w, ev, w', u);
    LoginRoundTrip(u);
    DenyReadsBack(Seconds(ev.nowMs), claims.iat);
  }

  predicate Banned(s: Store, u: LoginId) {
    DenyKey(u) in s && s[DenyKey(u)].value == BANNED
  }

  // A banned user neither validates nor refreshes.
  lemma BannedIsShutOut(cfg: AuthConfig, s: Store, u: LoginId, access: AccessClaims, refresh: RefreshClaims, now: int)
    requires Banned(s, u) && access.sub == Encode(u) && refresh.sub == Encode(u)
    ensures cfg.perRequestDenyCheck ==>
              Validate(cfg, s, access, now) == Err(if access.exp < now then TokenExpired else AccountBanned)
    ensures RefreshTarget(s, refresh, now).Err?
  {
    LoginRoundTrip(u);
  }

  // A step leaves a user banned exactly when the ban outlived the clock reading and the step is no
  // unban, logout or forced refresh of that user: those operations write the same deny entry.
  lemma BanEndsExactlyWhen(cfg: AuthConfig, w: World, ev: Event, w': World, u: LoginId)
    requires Step(cfg, w, ev, w') && ev.op != Ban(u)
    ensures Banned(w'.store, u) <==> Banned(Live(w.store, w'.at), u) && !LiftsBan(ev.op, u)
  {
    DenyAfterStep(cfg, w, ev, w', u);
    DenyReadsBack(Seconds(ev.nowMs), 0);
  }

  // The ban of second t is the user's deny entry until its lifetime is over, and no entry after that.
  ghost predicate BanStands(w: World, u: LoginId, t: int) {
    && t <= w.at
    && (w.at <= t + BAN_SECONDS ==> DenyKey(u) in w.store)
    && (DenyKey(u) in w.store ==> w.store[DenyKey(u)] == Entry(BANNED, Some(t + BAN_SECONDS)))
  }

  lemma StepKeepsBanStands(cfg: AuthConfig, w: World, ev: Event, w': World, u: LoginId, t: int)
    requires Step(cfg, w, ev, w')
    requires if ev.op == Ban(u) then t == Seconds(ev.nowMs) else !LiftsBan(ev.op, u) && BanStands(w, u, t)
    ensures BanStands(w', u, t)
  {
    DenyAfterStep(cfg, w, ev, w', u);
  }

  lemma {:induction false} BanLasts(
      cfg: AuthConfig, worlds: seq<World>, events: seq<Event>, i: nat, j: nat, u: LoginId)
    requires Run(cfg, worlds, events) && i < j < |worlds| && events[i].op == Ban(u)
    requires forall k :: i < k < j ==> !LiftsBan(events[k].op, u) && events[k].op != Ban(u)
    ensures BanStands(worlds[j], u, Seconds(events[i].nowMs))
  {
    hide Step, BanStands;
    if i + 1 < j {
      BanLasts(cfg, worlds, events, i, j - 1, u);
    }
    StepKeepsBanStands(cfg, worlds[j - 1], events[j - 1], worlds[j], u, Seconds(events[i].nowMs));
  }

  lemma LiveBan(s: Store, now: int, u: LoginId)
    requires Banned(Live(s, now), u)
    ensures Banned(s, u)
  {
  }

  lemma {:induction false} LiftedStaysLifted(
      cfg: AuthConfig, worlds: seq<World>, events: seq<Event>, i: nat, j: nat, u: LoginId)
    requires Run(cfg, worlds, events) && i < j < |worlds| && LiftsBan(events[i].op, u)
    requires forall k :: i < k < j ==> events[k].op != Ban(u)
    ensures !Banned(worlds[j].store, u)
  {
    hide Step, Banned, Live;
    var before := worlds[j - 1];
    BanEndsExactlyWhen(cfg, before, events[j - 1], worlds[j], u);
    if i + 1 < j {
      LiftedStaysLifted(cfg, worlds, events, i, j - 1, u);
      if Banned(Live(before.store, worlds[j].at), u) {
        LiveBan(before.store, worlds[j].at, u);
      }
    }
  }

  // Until the user is banned again, a ban holds at a later moment exactly when its lifetime is not
  // over and nothing that rewrites the deny entry came in between.
  lemma BanHoldsIff(
      cfg: AuthConfig, worlds: seq<World>, events: seq<Event>, i: nat, j: nat, u: LoginId, now: int)
    requires Run(cfg, worlds, events) && i < j < |worlds| && events[i].op == Ban(u)
    requires forall k :: i < k < j ==> events[k].op != Ban(u)
    requires worlds[j].at <= now
    ensures Banned(Live(worlds[j].store, now), u)
            <==> now <= events[i].nowMs / 1000 + 365 * 86_400
                 && forall k :: i < k < j ==> !LiftsBan(events[k].op, u)
  {
    if k :| i < k < j && LiftsBan(events[k].op, u) {
      LiftedStaysLifted(cfg, worlds, events, k, j, u);
    } else {
      BanLasts(cfg, worlds, events, i, j, u);
    }
  }

  // The last ban at or before j.
  lemma {:induction false} LastBan(events: seq<Event>, i: nat, j: nat, u: LoginId) returns (last: nat)
    requires i < j <= |events| && events[i].op == Ban(u)
    ensures i <= last < j && events[last].op == Ban(u)
    ensures forall k :: last < k < j ==> events[k].op != Ban(u)
  {
    if events[j - 1].op == Ban(u) {
      last := j - 1;
    } else {
      last := LastBan(events, i, j - 1, u);
    }
  }

  lemma {:induction false} ClockGoesOn(cfg: AuthConfig, worlds: seq<World>, events: seq<Event>, i: nat, j: nat)
    requires Run(cfg, worlds, events) && i <= j < |worlds|
    ensures worlds[i].at <= worlds[j].at
  {
    if i < j {
      ClockGoesOn(cfg, worlds, events, i, j - 1);
      assert Step(cfg, worlds[j - 1], events[j - 1], worlds[j]);
    }
  }

  // From a ban at second T on, while nothing lifts it, no access token of the user validates and no
  // refresh of the user succeeds up to T + 365 days.
  lemma BanShutsOut(
      cfg: AuthConfig, worlds: seq<World>, events: seq<Event>, i: nat, j: nat, u: LoginId,
      access: AccessClaims, refresh: RefreshClaims, now: int)
    requires Run(cfg, worlds, events) && i < j < |worlds| && events[i].op == Ban(u)
    requires forall k :: i < k < j ==> !LiftsBan(events[k].op, u)
    requires worlds[j].at <= now <= events[i].nowMs / 1000 + 365 * 86_400
    requires access.sub == Encode(u) && refresh.sub == Encode(u)
    ensures cfg.perRequestDenyCheck ==>
              Validate(cfg, Live(worlds[j].store, now), access, now)
              == Err(if access.exp < now then TokenExpired else AccountBanned)
    ensures RefreshTarget(Live(worlds[j].store, now), refresh, now).Err?
  {
    hide Validate, RefreshTarget, Banned, Live;
    var last := LastBan(events, i, j, u);
    ClockGoesOn(cfg, worlds, events, i + 1, last + 1);
    assert Step(cfg, worlds[i], events[i], worlds[i + 1]) && Step(cfg, worlds[last], events[last], worlds[last + 1]);
    BanHoldsIff(cfg, worlds, events, last, j, u, now);
    BannedIsShutOut(cfg, Live(worlds[j].store, now), u, access, refresh, now);
  }

  // ----- which access tokens are accepted -----

  // The k-th operation makes the user's earlier tokens stale, and no unban up to j forgave them.
  ghost predicate RevokedAt(events: seq<Event>, k: nat, j: nat, u: LoginId)
    requires k < j <= |events|
  {
    Revokes(events[k].op, u) && forall m :: k < m < j ==> events[m].op != Unban(u)
  }

  // A user's deny entry is a ban or carries the second of an operation that is still in force.
  ghost predicate DenyHasReason(w: World, events: seq<Event>, j: nat, u: LoginId)
    requires j <= |events|
  {
    DenyKey(u) in w.store && w.store[DenyKey(u)].value != BANNED ==>
      exists k :: 0 <= k < j && RevokedAt(events, k, j, u)
                  && w.store[DenyKey(u)].value == RefreshDeny(Seconds(events[k].nowMs))
  }

  lemma StepKeepsReason(cfg: AuthConfig, w: World, w': World, events: seq<Event>, j: nat, u: LoginId)
    requires j < |events| && Step(cfg, w, events[j], w') && DenyHasReason(w, events, j, u)
    ensures DenyHasReason(w', events, j + 1, u)
  {
    DenyAfterStep(cfg, w, events[j], w', u);
    hide Step;
    if DenyKey(u) in w'.store && w'.store[DenyKey(u)].value != BANNED {
      if Revokes(events[j].op, u) {
        assert RevokedAt(events, j, j + 1, u);
      } else {
        var k :| 0 <= k < j && RevokedAt(events, k, j, u)
          && w.store[DenyKey(u)].value == RefreshDeny(Seconds(events[k].nowMs));
        assert RevokedAt(events, k, j + 1, u);
      }
    }
  }

  lemma {:induction false} DenyAlwaysHasReason(
      cfg: AuthConfig, worlds: seq<World>, events: seq<Event>, j: nat, u: LoginId)
    requires Run(cfg, worlds, events) && j < |worlds|
    ensures DenyHasReason(worlds[j], events, j, u)
  {
    if j > 0 {
      DenyAlwaysHasReason(cfg, worlds, events, j - 1, u);
      StepKeepsReason(cfg, worlds[j - 1], worlds[j], events, j - 1, u);
    }
  }

  // Over a run an unexpired access token is answered by the user's ban, then by whether it was issued by
  // the second of a logout, logout_all or forced refresh of the user that no unban has forgiven.
  // Without the deny check it is always accepted.
  lemma AccessAnswer(
      cfg: AuthConfig, worlds: seq<World>, events: seq<Event>, j: nat, u: LoginId, claims: AccessClaims, now: int)
    requires Run(cfg, worlds, events) && j < |worlds| && 0 < cfg.accessTimeout <= BAN_SECONDS
    requires claims in worlds[j].access && claims.sub == Encode(u) && worlds[j].at <= now
    ensures var s := Live(worlds[j].store, now);
            Validate(cfg, s, claims, now) ==
              if claims.exp < now then Err(TokenExpired)
              else if !cfg.perRequestDenyCheck then Ok(u)
              else if Banned(s, u) then Err(AccountBanned)
              else if exists k :: 0 <= k < j && RevokedAt(events, k, j, u) && claims.iat <= events[k].nowMs / 1000 then
                Err(RefreshRequired)
              else Ok(u)
  {
    var s := Live(worlds[j].store, now);
    LoginRoundTrip(u);
    if now <= claims.exp && cfg.perRequestDenyCheck {
      hide Step, RevokedAt;
      DenyAlwaysHasReason(cfg, worlds, events, j, u);
      if DenyKey(u) in s && !Banned(s, u) {
        var k :| 0 <= k < j && RevokedAt(events, k, j, u)
          && s[DenyKey(u)].value == RefreshDeny(Seconds(events[k].nowMs));
        DenyReadsBack(Seconds(events[k].nowMs), claims.iat);
      }
      if k :| 0 <= k < j && RevokedAt(events, k, j, u) && claims.iat <= events[k].nowMs / 1000 {
        StaleIsRefused(cfg, worlds, events, k, j, u, claims, now);
      }
    }
  }

  lemma StaleIsRefused(
      cfg: AuthConfig, worlds: seq<World>, events: seq<Event>, k: nat, j: nat, u: LoginId, claims: AccessClaims,
      now: int)
    requires Run(cfg, worlds, events) && k < j < |worlds| && RevokedAt(events, k, j, u)
    requires cfg.perRequestDenyCheck && 0 < cfg.accessTimeout <= BAN_SECONDS && now <= claims.exp
    requires claims in worlds[j].access && claims.sub == Encode(u) && worlds[j].at <= now
    requires claims.iat <= Seconds(events[k].nowMs)
    ensures var s := Live(worlds[j].store, now);
            Validate(cfg, s, claims, now) == Err(if Banned(s, u) then AccountBanned else RefreshRequired)
  {
    var t := Seconds(events[k].nowMs);
    hide Step;
    CoverLasts(cfg, worlds, events, k, j, u);
    TokensExpireOnTime(cfg, worlds, events, j);
    LoginRoundTrip(u);
    var value := worlds[j].store[DenyKey(u)].value;
    if value != BANNED {
      var ts: Int64 :| t <= ts && value == RefreshDeny(ts);
      DenyReadsBack(ts, claims.iat);
    }
  }
}
