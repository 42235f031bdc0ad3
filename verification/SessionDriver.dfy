/**
 Calls of the manager as steps of a run: a history kept beside a manager stays a run when one more call
 is made, so what is proved of runs holds of every sequence of calls.
 */
module SessionDriver {
  import opened Wrappers
  import opened SessionKeys
  import opened MemoryStorageModel
  import opened SessionSpec
  import opened SessionManagerModel
  import opened SessionRuns

  // What callers get: nothing, a pair of tokens, or the reason for a refusal.
  type Answer = Option<Result<TokenPair, AuthError>>

  // At second `at`, the last clock reading of a call, the manager's store shows what is left of the world's.
  ghost predicate Shows(m: SessionManager, w: World, at: int)
    reads m.storage
  {
    w.at <= at && m.Sessions(at) == Live(w.store, at)
  }

  // The demands on a call: the clock does not go back, a new id is fresh, a refreshed token was issued.
  ghost predicate MayRun(w: World, at: int, ev: Event) {
    && at <= Seconds(ev.nowMs)
    && (ev.op.Login? ==> ev.op.rid !in w.rids)
    && (ev.op.Refresh? ==> ev.op.claims in w.refresh && ev.op.newRid !in w.rids)
  }

  lemma ShowsLater(m: SessionManager, w: World, at: int, now: int)
    requires Shows(m, w, at) && at <= now
    ensures Shows(m, w, now)
  {
    LiveShrinks(m.storage.data, at, now);
    LiveShrinks(w.store, at, now);
  }

  ghost function WithTokens(w: World, s: Store, now: int, rid: string, answer: Answer): World {
    if answer.Some? && answer.value.Ok? then
      var pair := answer.value.value;
      World(s, now, w.access + {pair.access}, w.refresh + {pair.refresh}, w.rids + {rid})
    else w.(store := s, at := now)
  }

  ghost function NewId(op: Op): string {
    match op
    case Login(_, _, _, _, rid) => rid
    case Refresh(_, newRid) => newRid
    case _ => ""
  }

  method Perform(m: SessionManager, ghost w: World, ghost at: int, ev: Event) returns (answer: Answer)
    requires Shows(m, w, at) && MayRun(w, at, ev)
    modifies m.storage
    ensures var now := Seconds(ev.nowMs); Step(m.cfg, w, ev, WithTokens(w, m.Sessions(now), now, NewId(ev.op), answer))
  {
    var now := Seconds(ev.nowMs);
    ShowsLater(m, w, at, now);
    hide LoginEffect, RefreshTarget, RotateEffect, RemoveDevices, Live;
    answer := None;
    match ev.op {
      case Login(login, device, ip, agent, rid) =>
        var pair := m.Login(login, device, ip, agent, ev.nowMs, rid);
        answer := Some(Ok(pair));
      case Refresh(claims, newRid) =>
        var result := m.Refresh(claims, now, newRid);
        answer := Some(result);
      case Logout(login, device) =>
        m.Logout(login, device, now);
      case LogoutAll(login) =>
        m.LogoutAll(login, now);
      case Ban(login) =>
        m.BanUser(login, now);
      case Unban(login) =>
        m.UnbanUser(login, now);
      case ForceRefresh(login) =>
        m.ForceRefresh(login, now);
    }
  }

  // A run continued by a call on the manager is a run, and the manager shows its last state.
  method Continue(m: SessionManager, ghost worlds: seq<World>, ghost events: seq<Event>, ghost at: int, ev: Event)
    returns (answer: Answer, ghost next: World)
    requires Run(m.cfg, worlds, events)
    requires Shows(m, worlds[|events|], at) && MayRun(worlds[|events|], at, ev)
    modifies m.storage
    ensures Run(m.cfg, worlds + [next], events + [ev])
    ensures Shows(m, next, Seconds(ev.nowMs))
  {
    hide Step;
    var now := Seconds(ev.nowMs);
    answer := Perform(m, worlds[|events|], at, ev);
    next := WithTokens(worlds[|events|], m.Sessions(now), now, NewId(ev.op), answer);
    assert next.at == now && next.store == m.Sessions(now);
    LiveShrinks(m.storage.data, now, now);
  }

  // A validation gives the verdict on the run's last state and lets the run go on.
  method Check(m: SessionManager, ghost w: World, ghost at: int, claims: AccessClaims, now: int)
    returns (result: Result<LoginId, AuthError>)
    requires Shows(m, w, at) && at <= now
    modifies m.storage
    ensures result == Validate(m.cfg, Live(w.store, now), claims, now)
    ensures Shows(m, w, now)
  {
    ShowsLater(m, w, at, now);
    result := m.ValidateToken(claims, now);
  }
}
