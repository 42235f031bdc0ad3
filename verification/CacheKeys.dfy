/**
 The texts under which buckets are kept (crates/summer-common/src/rate_limit/config.rs:59-68, 188-203,
 algorithms.rs:23-48). `digest` is the hexadecimal MD5 of a text.
 */
module CacheKeys {
  import opened Decimal
  import opened RateConfig
  import opened Text
  import opened Wrappers

  const USER_KEY_MAX_LEN := 200

  // Bytes of a text in UTF-8.
  function CharBytes(c: char): nat {
    if c as int < 0x80 then 1 else if c as int < 0x800 then 2 else if c as int < 0x1_0000 then 3 else 4
  }

  function ByteLength(s: string): nat {
    if s == "" then 0 else CharBytes(s[0]) + ByteLength(s[1..])
  }

  // The bytes are the shortest UTF-8 form of the character (section 3 of RFC 3629).
  ghost predicate IsUtf8(c: char, bytes: seq<int>) {
    && (forall i :: 1 <= i < |bytes| ==> 0x80 <= bytes[i] < 0xC0)
    && match |bytes|
       case 1 => 0 <= bytes[0] < 0x80 && c as int == bytes[0]
       case 2 => 0xC2 <= bytes[0] < 0xE0 && c as int == (bytes[0] - 0xC0) * 0x40 + (bytes[1] - 0x80)
       case 3 =>
         && 0xE0 <= bytes[0] < 0xF0 && c as int >= 0x800
         && c as int == (bytes[0] - 0xE0) * 0x1000 + (bytes[1] - 0x80) * 0x40 + (bytes[2] - 0x80)
       case 4 =>
         && 0xF0 <= bytes[0] < 0xF8 && c as int >= 0x1_0000
         && c as int == (bytes[0] - 0xF0) * 0x4_0000 + (bytes[1] - 0x80) * 0x1000 + (bytes[2] - 0x80) * 0x40
                        + (bytes[3] - 0x80)
       case _ => false
  }

  lemma CharBytesIsUtf8(c: char, bytes: seq<int>)
    requires IsUtf8(c, bytes)
    ensures |bytes| == CharBytes(c)
  {
  }

  predicate IsKept(key: string) {
    ByteLength(key) <= USER_KEY_MAX_LEN
  }

  function SanitizeUserKey(key: string, digest: string -> string): string {
    if IsKept(key) then key else "h:" + digest(key)
  }

  function Segment(algorithm: RateLimitAlgorithm): string {
    match algorithm
    case TokenBucket => "token_bucket"
    case Gcra => "gcra"
    case LeakyBucket => "leaky_bucket"
    case ThrottleQueue => "throttle_queue"
    case FixedWindow => "fixed_window"
    case SlidingWindow => "sliding_window"
  }

  function Join(parts: seq<string>): string
    requires parts != []
  {
    if |parts| == 1 then parts[0] else parts[0] + ":" + Join(parts[1..])
  }

  function Fields(cfg: RateLimitConfig): seq<string> {
    [Segment(cfg.algorithm), NatText(cfg.rate), NatText(WindowSeconds(cfg.per)), NatText(EffectiveBurst(cfg)),
     NatText(cfg.maxWaitMs)]
  }

  function Signature(cfg: RateLimitConfig): string {
    Join(Fields(cfg))
  }

  function CacheKeyText(cfg: RateLimitConfig, key: string, digest: string -> string): string {
    Signature(cfg) + ":" + SanitizeUserKey(key, digest)
  }

  // ----- fields and texts -----

  lemma {:induction false} JoinInjective(a: seq<string>, b: seq<string>, x: string, y: string)
    requires |a| == |b| > 0 && Join(a) + ":" + x == Join(b) + ":" + y
    requires forall i :: 0 <= i < |a| ==> !HasColon(a[i]) && !HasColon(b[i])
    ensures a == b && x == y
  {
    if |a| == 1 {
      SplitAtFirstColon(a[0], b[0], x, y);
    } else {
      var restA, restB := Join(a[1..]) + ":" + x, Join(b[1..]) + ":" + y;
      assert Join(a) + ":" + x == a[0] + ":" + restA;
      assert Join(b) + ":" + y == b[0] + ":" + restB;
      SplitAtFirstColon(a[0], b[0], restA, restB);
      JoinInjective(a[1..], b[1..], x, y);
      assert a == [a[0]] + a[1..] && b == [b[0]] + b[1..];
    }
  }

  lemma NumbersHaveNoColon(n: nat)
    ensures !HasColon(NatText(n))
  {
    DigitsRoundTrip(n);
  }

  lemma SegmentsHaveNoColon(algorithm: RateLimitAlgorithm)
    ensures !HasColon(Segment(algorithm))
  {
  }

  lemma FieldsHaveNoColon(cfg: RateLimitConfig)
    ensures forall i :: 0 <= i < 5 ==> !HasColon(Fields(cfg)[i])
  {
    NumbersHaveNoColon(cfg.rate);
    NumbersHaveNoColon(WindowSeconds(cfg.per));
    NumbersHaveNoColon(EffectiveBurst(cfg));
    NumbersHaveNoColon(cfg.maxWaitMs);
    SegmentsHaveNoColon(cfg.algorithm);
    hide NatText, Segment, HasColon;
  }

  // Leaky buckets do not depend on the burst.
  ghost predicate SameSignature(c1: RateLimitConfig, c2: RateLimitConfig) {
    && c1.algorithm == c2.algorithm && c1.rate == c2.rate && c1.per == c2.per
    && (c1.algorithm == LeakyBucket || AtLeastOne(c1.burst) == AtLeastOne(c2.burst))
    && c1.maxWaitMs == c2.maxWaitMs
  }

  lemma SegmentInjective(a: RateLimitAlgorithm, b: RateLimitAlgorithm)
    requires Segment(a) == Segment(b)
    ensures a == b
  {
    assert |Segment(a)| == |Segment(b)| && Segment(a)[0] == Segment(b)[0];
  }

  lemma FieldsInjective(c1: RateLimitConfig, c2: RateLimitConfig)
    requires Fields(c1) == Fields(c2)
    ensures SameSignature(c1, c2)
  {
    var f1, f2 := Fields(c1), Fields(c2);
    assert f1[0] == f2[0] && f1[1] == f2[1] && f1[2] == f2[2] && f1[3] == f2[3] && f1[4] == f2[4];
    SegmentInjective(c1.algorithm, c2.algorithm);
    NatTextInjective(c1.rate, c2.rate);
    NatTextInjective(WindowSeconds(c1.per), WindowSeconds(c2.per));
    NatTextInjective(EffectiveBurst(c1), EffectiveBurst(c2));
    NatTextInjective(c1.maxWaitMs, c2.maxWaitMs);
  }

  // The signature is the algorithm's name and four numbers: rate, window in seconds, burst and longest wait.
  lemma SignatureReadsBack(cfg: RateLimitConfig)
    ensures var f := Fields(cfg);
            && |f| == 5 && Signature(cfg) == f[0] + ":" + (f[1] + ":" + (f[2] + ":" + (f[3] + ":" + f[4])))
            && f[0] == (match cfg.algorithm
                        case TokenBucket => "token_bucket"
                        case Gcra => "gcra"
                        case LeakyBucket => "leaky_bucket"
                        case ThrottleQueue => "throttle_queue"
                        case FixedWindow => "fixed_window"
                        case SlidingWindow => "sliding_window")
            && ParseDigits(f[1]) == Some(cfg.rate) && ParseDigits(f[2]) == Some(UnitMillis(cfg.per) / 1000)
            && ParseDigits(f[3]) == Some(if cfg.algorithm == LeakyBucket then 1 else AtLeastOne(cfg.burst))
            && ParseDigits(f[4]) == Some(cfg.maxWaitMs)
  {
    DigitsRoundTrip(cfg.rate);
    DigitsRoundTrip(WindowSeconds(cfg.per));
    DigitsRoundTrip(EffectiveBurst(cfg));
    DigitsRoundTrip(cfg.maxWaitMs);
    hide NatText, ParseDigits, Join;
    JoinFive(Fields(cfg));
  }

  lemma JoinFive(f: seq<string>)
    requires |f| == 5
    ensures Join(f) == f[0] + ":" + (f[1] + ":" + (f[2] + ":" + (f[3] + ":" + f[4])))
  {
    hide Join;
    JoinStep(f);
    JoinStep(f[1..]);
    JoinStep(f[2..]);
    JoinStep(f[3..]);
    assert f[1..][1..] == f[2..] && f[2..][1..] == f[3..] && f[3..][1..] == f[4..] && f[4..] == [f[4]];
  }

  lemma JoinStep(parts: seq<string>)
    requires |parts| > 1
    ensures Join(parts) == parts[0] + ":" + Join(parts[1..])
    ensures Join([parts[|parts| - 1]]) == parts[|parts| - 1]
  {
  }

  // ----- which requests share a bucket -----

  // Two different user keys of which at least one is hashed and stands for the other's kept text or hash.
  predicate HashClash(k1: string, k2: string, digest: string -> string) {
    || (!IsKept(k1) && !IsKept(k2) && digest(k1) == digest(k2))
    || (IsKept(k1) && !IsKept(k2) && k1 == "h:" + digest(k2))
    || (IsKept(k2) && !IsKept(k1) && k2 == "h:" + digest(k1))
  }

  // Two requests have the same text exactly when all signature fields agree and the user keys are the
  // same or clash by hashing.
  lemma CacheKeySeparatesBuckets(
      c1: RateLimitConfig, k1: string, c2: RateLimitConfig, k2: string, digest: string -> string)
    ensures CacheKeyText(c1, k1, digest) == CacheKeyText(c2, k2, digest)
            <==> SameSignature(c1, c2) && (k1 == k2 || HashClash(k1, k2, digest))
  {
    var s1, s2 := SanitizeUserKey(k1, digest), SanitizeUserKey(k2, digest);
    if CacheKeyText(c1, k1, digest) == CacheKeyText(c2, k2, digest) {
      FieldsHaveNoColon(c1);
      FieldsHaveNoColon(c2);
      JoinInjective(Fields(c1), Fields(c2), s1, s2);
      FieldsInjective(c1, c2);
      if !IsKept(k1) && !IsKept(k2) {
        assert ("h:" + digest(k1))[2..] == ("h:" + digest(k2))[2..];
      }
    }
  }

  // For keys that are kept, the structured key of the bucket maps says the same as the text.
  lemma StructuredKeyStandsForText(
      c1: RateLimitConfig, k1: string, c2: RateLimitConfig, k2: string, digest: string -> string)
    requires IsKept(k1) && IsKept(k2)
    ensures CacheKeyText(c1, k1, digest) == CacheKeyText(c2, k2, digest)
            <==> CacheKeyFor(c1, k1) == CacheKeyFor(c2, k2)
  {
    CacheKeySeparatesBuckets(c1, k1, c2, k2, digest);
  }

  lemma {:induction false} AsciiLength(s: string)
    requires forall c :: c in s ==> c as int < 0x80
    ensures ByteLength(s) == |s|
  {
    if s != "" {
      assert s[0] in s;
      assert forall c :: c in s[1..] ==> c in s;
      AsciiLength(s[1..]);
    }
  }

  // The user part never exceeds 200 bytes, and is the key itself exactly when that fits.
  lemma SanitizedFits(key: string, digest: string -> string)
    requires |digest(key)| == 32 && forall c :: c in digest(key) ==> c as int < 0x80
    ensures ByteLength(SanitizeUserKey(key, digest)) <= 200
    ensures SanitizeUserKey(key, digest) == key <==> ByteLength(key) <= 200
  {
    AsciiLength("h:" + digest(key));
  }

  // A short key that spells the hash of a long one shares its bucket.
  lemma ShortKeyMaySpellAHash(cfg: RateLimitConfig, key: string, digest: string -> string)
    requires !IsKept(key) && |digest(key)| == 32 && forall c :: c in digest(key) ==> c as int < 0x80
    ensures var short := "h:" + digest(key);
            short != key && CacheKeyText(cfg, short, digest) == CacheKeyText(cfg, key, digest)
  {
    AsciiLength("h:" + digest(key));
  }
}
