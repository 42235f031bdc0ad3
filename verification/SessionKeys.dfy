/**
 Identities and storage keys of the session layer
 (crates/summer-auth/src/user_type.rs, session/manager.rs:13-29, 165-169).
 Keys are kept structured; KeyText is the string the store sees, and the lemmas
 here say that structured keys and their texts are interchangeable.
 */
module SessionKeys {
  import opened Wrappers
  import opened I64
  import opened Decimal
  import opened Text

  datatype LoginId = LoginId(userId: Int64)

  datatype DeviceType = Web | Android | IOS | MiniProgram | Tablet | Desktop | Unknown(name: string)

  datatype Key =
    | RefreshKey(rid: string)
    | DeviceKey(login: LoginId, device: string)
    | DenyKey(login: LoginId)

  function AsStr(d: DeviceType): string {
    match d
    case Web => "web"
    case Android => "android"
    case IOS => "ios"
    case MiniProgram => "mini_program"
    case Tablet => "tablet"
    case Desktop => "desktop"
    case Unknown(name) => name
  }

  function DeviceFrom(s: string): DeviceType {
    if s == "web" then Web
    else if s == "android" then Android
    else if s == "ios" then IOS
    else if s == "mini_program" then MiniProgram
    else if s == "tablet" then Tablet
    else if s == "desktop" then Desktop
    else Unknown(s)
  }

  function Encode(login: LoginId): string { IntText(login.userId) }

  function Decode(s: string): Option<LoginId> {
    if s == "" || HasColon(s) then None
    else
      var n := ParseI64(s);
      if n.None? then None else Some(LoginId(n.value))
  }

  function DevicePrefix(login: LoginId): string {
    "auth:device:" + Encode(login) + ":"
  }

  function KeyText(k: Key): string {
    match k
    case RefreshKey(rid) => "auth:refresh:" + rid
    case DeviceKey(login, device) => "auth:device:" + Encode(login) + ":" + device
    case DenyKey(login) => "auth:deny:" + Encode(login)
  }

  // The value stored under a refresh key.
  function RefreshValue(login: LoginId, device: string): string {
    Encode(login) + ":" + device
  }

  // The text after the last colon, as `rsplit_once(':')` gives it.
  function AfterLastColon(s: string): Option<string> {
    if s == "" then None
    else if s[|s| - 1] == ':' then Some("")
    else
      var front := AfterLastColon(s[..|s| - 1]);
      if front.None? then None else Some(front.value + [s[|s| - 1]])
  }

  // ----- identities -----

  // A device name survives the round trip through its type.
  lemma DeviceNameRoundTrip(s: string)
    ensures AsStr(DeviceFrom(s)) == s
  {
  }

  // A device type reads back from its text, unless it is a name that spells a known type.
  lemma DeviceTypeReadsBackIff(d: DeviceType)
    ensures DeviceFrom(AsStr(d)) == d <==>
            (d.Unknown? ==> d.name !in {"web", "android", "ios", "mini_program", "tablet", "desktop"})
  {
  }

  lemma EncodeHasNoColon(login: LoginId)
    ensures Encode(login) != "" && !HasColon(Encode(login))
  {
    IntRoundTrip(login.userId);
  }

  lemma LoginRoundTrip(login: LoginId)
    ensures Decode(Encode(login)) == Some(login)
  {
    EncodeHasNoColon(login);
    IntRoundTrip(login.userId);
  }

  lemma EncodeInjective(a: LoginId, b: LoginId)
    requires Encode(a) == Encode(b)
    ensures a == b
  {
    LoginRoundTrip(a);
    LoginRoundTrip(b);
  }

  // ----- texts -----

  lemma TextBody(k: Key)
    ensures match k
            case RefreshKey(rid) => "auth:refresh:" <= KeyText(k) && KeyText(k)[13..] == rid
            case DeviceKey(login, device) =>
              "auth:device:" <= KeyText(k) && KeyText(k)[12..] == Encode(login) + ":" + device
            case DenyKey(login) => "auth:deny:" <= KeyText(k) && KeyText(k)[10..] == Encode(login)
  {
    match k
    case RefreshKey(rid) => assert KeyText(k)[..13] == "auth:refresh:";
    case DeviceKey(login, device) =>
      assert KeyText(k) == "auth:device:" + (Encode(login) + ":" + device);
      assert KeyText(k)[..12] == "auth:device:";
    case DenyKey(login) => assert KeyText(k)[..10] == "auth:deny:";
  }

  // No two keys share a text.
  lemma KeyTextInjective(a: Key, b: Key)
    requires KeyText(a) == KeyText(b)
    ensures a == b
  {
    TextBody(a);
    TextBody(b);
    assert KeyText(a)[5] == KeyText(b)[5] && KeyText(a)[7] == KeyText(b)[7];
    match a
    case RefreshKey(_) => assert b.RefreshKey?;
    case DeviceKey(login, device) =>
      assert b.DeviceKey?;
      EncodeHasNoColon(login);
      EncodeHasNoColon(b.login);
      SplitAtFirstColon(Encode(login), Encode(b.login), device, b.device);
      EncodeInjective(login, b.login);
    case DenyKey(login) =>
      assert b.DenyKey?;
      EncodeInjective(login, b.login);
  }

  // A user's device prefix matches that user's device keys and nothing else,
  // also when one numeric id is a prefix of another.
  lemma DevicePrefixSelects(login: LoginId, k: Key)
    ensures DevicePrefix(login) <= KeyText(k) <==> k.DeviceKey? && k.login == login
  {
    var p, t := DevicePrefix(login), KeyText(k);
    TextBody(k);
    assert p == "auth:device:" + (Encode(login) + ":");
    assert p[..12] == "auth:device:" && p[12..] == Encode(login) + ":";
    if p <= t {
      assert t[5] == p[5] && t[7] == p[7];
      assert k.DeviceKey?;
      assert Encode(login) + ":" <= t[12..];
      EncodeHasNoColon(login);
      EncodeHasNoColon(k.login);
      SplitAtFirstColon(Encode(login), Encode(k.login), "", k.device);
      EncodeInjective(login, k.login);
    }
    if k.DeviceKey? && k.login == login {
      assert t == p + k.device;
    }
  }

  lemma {:induction false} LastColonOf(front: string, back: string)
    requires !HasColon(back)
    ensures AfterLastColon(front + ":" + back) == Some(back)
  {
    var s := front + ":" + back;
    if back != "" {
      var shorter := back[..|back| - 1];
      assert s[..|s| - 1] == front + ":" + shorter;
      assert back[|back| - 1] in back;
      LastColonOf(front, shorter);
      assert shorter + [back[|back| - 1]] == back;
    }
  }

  lemma {:induction false} AfterLastColonHasNone(s: string)
    ensures AfterLastColon(s).Some? ==> !HasColon(AfterLastColon(s).value)
  {
    if s != "" && s[|s| - 1] != ':' {
      AfterLastColonHasNone(s[..|s| - 1]);
    }
  }

  // A refresh value gives its device back exactly when the name has no colon.
  lemma DeviceReadsBackIff(login: LoginId, device: string)
    ensures AfterLastColon(RefreshValue(login, device)) == Some(device) <==> !HasColon(device)
  {
    if !HasColon(device) {
      LastColonOf(Encode(login), device);
    } else {
      AfterLastColonHasNone(RefreshValue(login, device));
    }
  }

  lemma RefreshValueInjective(u: LoginId, d: string, u': LoginId, d': string)
    requires RefreshValue(u, d) == RefreshValue(u', d')
    ensures u == u' && d == d'
  {
    EncodeHasNoColon(u);
    EncodeHasNoColon(u');
    SplitAtFirstColon(Encode(u), Encode(u'), d, d');
    EncodeInjective(u, u');
  }
}
