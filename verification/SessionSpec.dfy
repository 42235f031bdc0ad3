/**
 The observable effect of each session operation on the live map, at one clock
 second (crates/summer-auth/src/session/manager.rs).
 */
module SessionSpec {
  import opened Wrappers
  import opened Decimal
  import opened SessionKeys
  import opened MemoryStorageModel

  type Store = map<Key, Entry>

  datatype AuthConfig = AuthConfig(
    accessTimeout: int,
    refreshTimeout: int,
    concurrentLogin: bool,
    maxDevices: nat,
    perRequestDenyCheck: bool)

  datatype AuthError =
    | TokenExpired
    | InvalidToken
    | RefreshRequired
    | AccountBanned
    | InvalidRefreshToken
    | RefreshTokenExpired

  // The claims of signed tokens; a signature that verifies stands for "issued here".
  datatype AccessClaims = AccessClaims(sub: string, iat: int, exp: int, dev: string)
  datatype RefreshClaims = RefreshClaims(sub: string, iat: int, exp: int, rid: string)
  datatype TokenPair = TokenPair(access: AccessClaims, refresh: RefreshClaims)

  const BAN_SECONDS := 365 * 24 * 3600

  function Seconds(nowMs: int): int { nowMs / 1000 }

  function IssueAccess(cfg: AuthConfig, login: LoginId, device: string, now: int): AccessClaims {
    AccessClaims(Encode(login), now, now + cfg.accessTimeout, device)
  }

  function IssueRefresh(cfg: AuthConfig, login: LoginId, rid: string, now: int): RefreshClaims {
    RefreshClaims(Encode(login), now, now + cfg.refreshTimeout, rid)
  }

  // ----- devices -----

  function DeviceKeysOf(s: Store, login: LoginId): set<Key> {
    set k | k in s && k.DeviceKey? && k.login == login
  }

  // The refresh keys named by the device records under these keys.
  function RefreshKeysOf(s: Store, keys: set<Key>): set<Key> {
    set k | k in keys && k in s && s[k].value.DeviceRecord? :: RefreshKey(s[k].value.info.rid)
  }

  // Removes device records together with their refresh keys.
  function RemoveDevices(s: Store, keys: set<Key>): Store {
    s - (keys + RefreshKeysOf(s, keys))
  }

  function LoginTime(s: Store, k: Key): int
    requires k in s && s[k].value.DeviceRecord?
  {
    s[k].value.info.loginTime
  }

  function RecordsOf(s: Store, login: LoginId): set<Key> {
    set k | k in DeviceKeysOf(s, login) && s[k].value.DeviceRecord?
  }

  // Which devices the limit removes before a new one is added: none below the
  // limit, otherwise as many as needed, no kept record being older.
  ghost predicate Evicts(cfg: AuthConfig, s: Store, login: LoginId, evicted: set<Key>) {
    var records := RecordsOf(s, login);
    if cfg.maxDevices == 0 || |DeviceKeysOf(s, login)| < cfg.maxDevices then evicted == {}
    else
      && evicted <= records
      && |evicted| == (if |records| + 1 >= cfg.maxDevices then |records| + 1 - cfg.maxDevices else 0)
      && (forall e, k :: e in evicted && k in records - evicted ==> LoginTime(s, e) <= LoginTime(s, k))
  }

  // The store after the concurrency rule, before the limit.
  function AfterConcurrency(cfg: AuthConfig, s: Store, login: LoginId, device: string): Store {
    RemoveDevices(s, if cfg.concurrentLogin then {DeviceKey(login, device)} else DeviceKeysOf(s, login))
  }

  function WithSession(
      cfg: AuthConfig, s: Store, login: LoginId, device: string, info: DeviceInfo, now: int): Store
  {
    s[RefreshKey(info.rid) := EntryFor(Text(RefreshValue(login, device)), cfg.refreshTimeout, now)]
     [DeviceKey(login, device) := EntryFor(DeviceRecord(info), cfg.refreshTimeout, now)]
  }

  ghost predicate LoginEffect(
      cfg: AuthConfig, s: Store, login: LoginId, device: string, info: DeviceInfo, now: int, s': Store)
  {
    var base := AfterConcurrency(cfg, s, login, device);
    exists evicted :: Evicts(cfg, base, login, evicted)
                      && s' == WithSession(cfg, RemoveDevices(base, evicted), login, device, info, now)
  }

  // ----- deny entries -----

  const BANNED: Stored := Text("banned")

  function RefreshDeny(now: int): Stored { Text("refresh:" + IntText(now)) }

  function WithDeny(s: Store, login: LoginId, value: Stored, ttl: int, now: int): Store {
    s[DenyKey(login) := EntryFor(value, ttl, now)]
  }

  function LogoutEffect(cfg: AuthConfig, s: Store, login: LoginId, device: string, now: int): Store {
    WithDeny(RemoveDevices(s, {DeviceKey(login, device)}), login, RefreshDeny(now), cfg.accessTimeout, now)
  }

  function LogoutAllEffect(cfg: AuthConfig, s: Store, login: LoginId, now: int): Store {
    WithDeny(RemoveDevices(s, DeviceKeysOf(s, login)), login, RefreshDeny(now), cfg.accessTimeout, now)
  }

  function BanEffect(s: Store, login: LoginId, now: int): Store {
    WithDeny(RemoveDevices(s, DeviceKeysOf(s, login)), login, BANNED, BAN_SECONDS, now)
  }

  function ForceRefreshEffect(cfg: AuthConfig, s: Store, login: LoginId, now: int): Store {
    WithDeny(s, login, RefreshDeny(now), cfg.accessTimeout, now)
  }

  // ----- tokens -----

  // A deny value against a token issued at `iat`.
  function DenyVerdict(value: Stored, iat: int): Option<AuthError> {
    if value == BANNED then Some(AccountBanned)
    else if value.Text? && "refresh:" <= value.text then
      var ts := ParseI64(value.text[8..]);
      if ts.None? then Some(InvalidToken)
      else if iat <= ts.value then Some(RefreshRequired)
      else None
    else Some(InvalidToken)
  }

  // Validation of an access token; the login id of an accepted one.
  function Validate(cfg: AuthConfig, s: Store, claims: AccessClaims, now: int): Result<LoginId, AuthError> {
    if claims.exp < now then Err(TokenExpired)
    else
      var login := Decode(claims.sub);
      if login.None? then Err(InvalidToken)
      else if cfg.perRequestDenyCheck && DenyKey(login.value) in s then
        var verdict := DenyVerdict(s[DenyKey(login.value)].value, claims.iat);
        if verdict.Some? then Err(verdict.value) else Ok(login.value)
      else Ok(login.value)
  }

  // Whose session a refresh token continues, or why it may not.
  function RefreshTarget(s: Store, claims: RefreshClaims, now: int): Result<(LoginId, string), AuthError> {
    if claims.exp < now then Err(RefreshTokenExpired)
    else
      var login := Decode(claims.sub);
      if login.None? then Err(InvalidRefreshToken)
      else if RefreshKey(claims.rid) !in s then Err(InvalidRefreshToken)
      else
        var value := s[RefreshKey(claims.rid)].value;
        var device := if value.Text? then AfterLastColon(value.text) else None;
        if device.None? then Err(InvalidRefreshToken)
        else if DenyKey(login.value) in s && s[DenyKey(login.value)].value == BANNED then Err(AccountBanned)
        else Ok((login.value, device.value))
  }

  // Rotation: the new refresh key is written, the old one deleted, and the
  // device record, when there is one, follows.
  function RotateEffect(
      cfg: AuthConfig, s: Store, login: LoginId, device: string, oldRid: string, newRid: string, now: int): Store
  {
    var s1 :=
      s[RefreshKey(newRid) := EntryFor(Text(RefreshValue(login, device)), cfg.refreshTimeout, now)]
      - {RefreshKey(oldRid)};
    var dk := DeviceKey(login, device);
    if dk in s1 && s1[dk].value.DeviceRecord? then
      s1[dk := EntryFor(DeviceRecord(s1[dk].value.info.(rid := newRid)), cfg.refreshTimeout, now)]
    else s1
  }
}
