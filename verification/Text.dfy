/**
 White space and trimming, as `char::is_whitespace` and `str::trim` define them, and texts whose
 parts are separated by colons.
 */
module Text {
  predicate IsSpace(c: char) {
    var n := c as int;
    || 9 <= n <= 13 || n == 0x20 || n == 0x85 || n == 0xA0 || n == 0x1680 || 0x2000 <= n <= 0x200A
    || n == 0x2028 || n == 0x2029 || n == 0x202F || n == 0x205F || n == 0x3000
  }

  function TrimStart(s: string): string {
    if s != "" && IsSpace(s[0]) then TrimStart(s[1..]) else s
  }

  function TrimEnd(s: string): string {
    if s != "" && IsSpace(s[|s| - 1]) then TrimEnd(s[..|s| - 1]) else s
  }

  function Trim(s: string): string { TrimEnd(TrimStart(s)) }

  predicate IsBlank(s: string) { Trim(s) == "" }

  predicate HasColon(s: string) { ':' in s }

  // A text without colons followed by a colon is found again in front of any rest.
  lemma SplitAtFirstColon(a: string, b: string, x: string, y: string)
    requires !HasColon(a) && !HasColon(b)
    requires a + ":" + x == b + ":" + y || a + ":" <= b + ":" + y
    ensures a == b
    ensures a + ":" + x == b + ":" + y ==> x == y
  {
    var t := b + ":" + y;
    assert t[|a|] == ':' && t[|b|] == ':';
    assert forall i :: 0 <= i < |a| ==> t[i] == a[i];
    assert forall i :: 0 <= i < |b| ==> t[i] == b[i];
    assert forall i :: 0 <= i < |a| ==> a[i] in a;
    assert forall i :: 0 <= i < |b| ==> b[i] in b;
    assert |a| == |b|;
    assert a == t[..|a|] && b == t[..|b|];
    if a + ":" + x == t {
      assert x == (a + ":" + x)[|a| + 1..];
      assert y == t[|b| + 1..];
    }
  }
}
