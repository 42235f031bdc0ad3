/**
 The permission bitmap (crates/summer-auth/src/bitmap.rs). A bitmap is its bytes; the text form
 in base64 is not modelled.
 */
module PermissionBitmap {
  import opened Wrappers
  import opened Counting

  const U32_SPAN := 0x1_0000_0000

  // Pairs of a permission and its position, as the constructor gets them.
  type Mapping = seq<(string, int)>

  datatype PermissionMap = PermissionMap(forward: map<string, int>, reverse: map<int, string>)

  function Forward(mapping: Mapping): map<string, int> {
    if mapping == [] then map[]
    else
      var last := mapping[|mapping| - 1];
      Forward(mapping[..|mapping| - 1])[last.0 := last.1]
  }

  function Reverse(mapping: Mapping): map<int, string> {
    if mapping == [] then map[]
    else
      var last := mapping[|mapping| - 1];
      Reverse(mapping[..|mapping| - 1])[last.1 := last.0]
  }

  predicate ValidMapping(mapping: Mapping) {
    forall pair :: pair in mapping ==> 0 <= pair.1 < U32_SPAN
  }

  method NewPermissionMap(mapping: Mapping) returns (permissions: PermissionMap)
    ensures permissions == PermissionMap(Forward(mapping), Reverse(mapping))
  {
    var forward: map<string, int> := map[];
    var reverse: map<int, string> := map[];
    for i := 0 to |mapping|
      invariant forward == Forward(mapping[..i]) && reverse == Reverse(mapping[..i])
    {
      assert mapping[..i + 1][..i] == mapping[..i];
      forward := forward[mapping[i].0 := mapping[i].1];
      reverse := reverse[mapping[i].1 := mapping[i].0];
    }
    assert mapping[..|mapping|] == mapping;
    permissions := PermissionMap(forward, reverse);
  }

  // ----- bits -----

  function Mask(k: nat): bv8
    requires k < 8
  {
    (1 as bv8) << k
  }

  predicate BitOf(b: bv8, k: nat)
    requires k < 8
  {
    b & Mask(k) != 0
  }

  lemma OnlyItsBit(j: nat, k: nat)
    requires j < 8 && k < 8
    ensures j != k ==> Mask(k) & Mask(j) == 0
    ensures Mask(k) != 0
  {
    var masks: seq<bv8> := [1, 2, 4, 8, 16, 32, 64, 128];
    assert Mask(0) == 1 && Mask(1) == 2 && Mask(2) == 4 && Mask(3) == 8;
    assert Mask(4) == 16 && Mask(5) == 32 && Mask(6) == 64 && Mask(7) == 128;
    assert Mask(j) == masks[j] && Mask(k) == masks[k];
  }

  lemma OrBits(b: bv8, m: bv8, n: bv8)
    ensures m & n == 0 ==> ((b | m) & n != 0 <==> b & n != 0)
    ensures m != 0 ==> (b | m) & m != 0
  {
  }

  lemma SetBit(b: bv8, k: nat, j: nat)
    requires j < 8 && k < 8
    ensures BitOf(b | Mask(k), j) <==> j == k || BitOf(b, j)
  {
    OnlyItsBit(j, k);
    OrBits(b, Mask(k), Mask(j));
  }

  lemma NoBits(k: nat)
    requires k < 8
    ensures !BitOf(0, k)
  {
  }

  predicate HasBit(bytes: seq<bv8>, pos: nat) {
    pos / 8 < |bytes| && BitOf(bytes[pos / 8], pos % 8)
  }

  // Position p is bit p % 8 of byte p / 8, counted from the lowest.
  lemma LowestBitFirst(bytes: seq<bv8>, pos: nat)
    requires pos / 8 < |bytes|
    ensures HasBit(bytes, pos) <==> bytes[pos / 8] & [1, 2, 4, 8, 16, 32, 64, 128][pos % 8] != 0
  {
    var k := pos % 8;
    assert Mask(0) == 1 && Mask(1) == 2 && Mask(2) == 4 && Mask(3) == 8;
    assert Mask(4) == 16 && Mask(5) == 32 && Mask(6) == 64 && Mask(7) == 128;
    assert Mask(k) == [1, 2, 4, 8, 16, 32, 64, 128][k];
  }

  // ----- encoding -----

  // The positions of the known permissions, in the order given.
  function Positions(perms: seq<string>, permissions: PermissionMap): (positions: seq<int>)
    ensures forall pos :: pos in positions <==>
              exists perm :: perm in perms && perm in permissions.forward && permissions.forward[perm] == pos
  {
    if perms == [] then []
    else
      assert perms == [perms[0]] + perms[1..];
      (if perms[0] in permissions.forward then [permissions.forward[perms[0]]] else [])
          + Positions(perms[1..], permissions)
  }

  predicate ValidMap(permissions: PermissionMap) {
    forall perm :: perm in permissions.forward ==> 0 <= permissions.forward[perm] < U32_SPAN
  }

  predicate Known(perm: string, permissions: PermissionMap) { perm in permissions.forward }

  method MaxOf(positions: seq<int>) returns (max: int)
    requires positions != []
    ensures max in positions && forall pos :: pos in positions ==> pos <= max
  {
    max := positions[0];
    for i := 1 to |positions|
      invariant max in positions
      invariant forall k :: 0 <= k < i ==> positions[k] <= max
    {
      if positions[i] > max {
        max := positions[i];
      }
    }
  }

  // Exactly the bits of the given positions are set, in no more bytes than the greatest needs.
  ghost predicate Encodes(bytes: seq<bv8>, positions: seq<int>) {
    && positions != []
    && (forall pos: nat :: HasBit(bytes, pos) <==> pos in positions)
    && (exists max :: max in positions && |bytes| == max / 8 + 1)
  }

  method Encode(perms: seq<string>, permissions: PermissionMap) returns (bitmap: Option<seq<bv8>>)
    requires ValidMap(permissions)
    ensures bitmap.None? <==> forall perm :: perm in perms ==> !Known(perm, permissions)
    ensures bitmap.Some? ==> Encodes(bitmap.value, Positions(perms, permissions))
    ensures bitmap.Some? ==> 8 * |bitmap.value| <= U32_SPAN
  {
    hide Positions, HasBit;
    var positions := Positions(perms, permissions);
    KnownHavePositions(perms, permissions);
    if positions == [] {
      return None;
    }
    var max := MaxOf(positions);
    var bytes := new bv8[max / 8 + 1](_ => 0);
    AllClear(bytes[..]);
    SetBits(bytes, positions);
    return Some(bytes[..]);
  }

  // The loop of the encoder, on cleared bytes.
  method SetBits(bytes: array<bv8>, positions: seq<int>)
    requires forall pos :: pos in positions ==> 0 <= pos < 8 * bytes.Length
    requires forall pos: nat :: !HasBit(bytes[..], pos)
    modifies bytes
    ensures forall pos: nat :: HasBit(bytes[..], pos) <==> pos in positions
  {
    hide Mask, HasBit;
    for i := 0 to |positions|
      invariant forall pos: nat :: HasBit(bytes[..], pos) <==> pos in positions[..i]
    {
      var pos := positions[i];
      assert pos in positions;
      ghost var before := bytes[..];
      bytes[pos / 8] := bytes[pos / 8] | Mask(pos % 8);
      assert bytes[..] == before[pos / 8 := before[pos / 8] | Mask(pos % 8)];
      OneMoreBit(before, pos);
      assert positions[..i + 1] == positions[..i] + [pos];
    }
    assert positions[..|positions|] == positions;
  }

  lemma AllClear(bytes: seq<bv8>)
    requires forall i :: 0 <= i < |bytes| ==> bytes[i] == 0
    ensures forall pos: nat :: !HasBit(bytes, pos)
  {
    hide Mask;
    forall pos: nat | pos / 8 < |bytes|
      ensures !HasBit(bytes, pos)
    {
      NoBits(pos % 8);
    }
  }

  lemma OneMoreBit(bytes: seq<bv8>, pos: nat)
    requires pos / 8 < |bytes|
    ensures var now := bytes[pos / 8 := bytes[pos / 8] | Mask(pos % 8)];
            forall other: nat :: HasBit(now, other) <==> other == pos || HasBit(bytes, other)
  {
    hide Mask;
    var now := bytes[pos / 8 := bytes[pos / 8] | Mask(pos % 8)];
    forall other: nat
      ensures HasBit(now, other) <==> other == pos || HasBit(bytes, other)
    {
      SetBit(bytes[pos / 8], pos % 8, other % 8);
      assert other / 8 == pos / 8 && other % 8 == pos % 8 ==> other == pos;
    }
  }

  lemma KnownHavePositions(perms: seq<string>, permissions: PermissionMap)
    requires ValidMap(permissions)
    ensures Positions(perms, permissions) == [] <==> forall perm :: perm in perms ==> !Known(perm, permissions)
    ensures forall pos :: pos in Positions(perms, permissions) ==> 0 <= pos < U32_SPAN
  {
    var positions := Positions(perms, permissions);
    if positions != [] {
      assert positions[0] in positions;
    }
    forall perm | perm in perms && Known(perm, permissions)
      ensures permissions.forward[perm] in positions
    {
    }
  }

  // ----- decoding -----

  // What one position contributes; positions are read as u32.
  function DecodedAt(bytes: seq<bv8>, permissions: PermissionMap, from: nat): seq<string> {
    var pos := from % U32_SPAN;
    if HasBit(bytes, from) && pos in permissions.reverse then [permissions.reverse[pos]] else []
  }

  // The permissions of the set bits from a position on.
  function Decoded(bytes: seq<bv8>, permissions: PermissionMap, from: nat): seq<string>
    requires from <= 8 * |bytes|
    decreases 8 * |bytes| - from
  {
    if from == 8 * |bytes| then [] else DecodedAt(bytes, permissions, from) + Decoded(bytes, permissions, from + 1)
  }

  method Decode(bytes: seq<bv8>, permissions: PermissionMap) returns (perms: seq<string>)
    ensures perms == Decoded(bytes, permissions, 0)
  {
    hide Decoded, DecodedAt, BitOf, HasBit;
    perms := [];
    for index := 0 to |bytes|
      invariant Decoded(bytes, permissions, 0) == perms + Decoded(bytes, permissions, 8 * index)
    {
      var byte := bytes[index];
      for bit := 0 to 8
        invariant Decoded(bytes, permissions, 0) == perms + Decoded(bytes, permissions, 8 * index + bit)
      {
        DecodedStep(bytes, permissions, index, bit);
        var pos := (8 * index + bit) % U32_SPAN;
        if BitOf(byte, bit) {
          if pos in permissions.reverse {
            perms := perms + [permissions.reverse[pos]];
          }
        }
      }
    }
    DecodedEnd(bytes, permissions);
    assert perms + [] == perms;
  }

  lemma DecodedStep(bytes: seq<bv8>, permissions: PermissionMap, index: nat, bit: nat)
    requires index < |bytes| && bit < 8
    ensures var from := 8 * index + bit;
            var pos := from % U32_SPAN;
            Decoded(bytes, permissions, from) ==
            (if BitOf(bytes[index], bit) && pos in permissions.reverse then [permissions.reverse[pos]] else [])
            + Decoded(bytes, permissions, from + 1)
  {
    hide BitOf, HasBit;
    var from := 8 * index + bit;
    SplitsBack(index, bit);
    HasBitAt(bytes, index, bit);
    assert Decoded(bytes, permissions, from) ==
        DecodedAt(bytes, permissions, from) + Decoded(bytes, permissions, from + 1);
  }

  lemma SplitsBack(index: nat, bit: nat)
    requires bit < 8
    ensures (8 * index + bit) / 8 == index && (8 * index + bit) % 8 == bit
  {
  }

  lemma HasBitAt(bytes: seq<bv8>, index: nat, bit: nat)
    requires index < |bytes| && bit < 8
    ensures HasBit(bytes, 8 * index + bit) == BitOf(bytes[index], bit)
  {
    hide BitOf;
    SplitsBack(index, bit);
  }

  lemma DecodedEnd(bytes: seq<bv8>, permissions: PermissionMap)
    ensures Decoded(bytes, permissions, 8 * |bytes|) == []
  {
  }

  // ----- the round trip -----

  // Looking up a permission's position leads back to it.
  predicate Consistent(permissions: PermissionMap) {
    forall perm :: perm in permissions.forward ==>
      permissions.forward[perm] in permissions.reverse && permissions.reverse[permissions.forward[perm]] == perm
  }

  lemma {:induction false} MapsHoldPairs(mapping: Mapping)
    ensures forall perm :: perm in Forward(mapping) ==> (perm, Forward(mapping)[perm]) in mapping
    ensures forall pos :: pos in Reverse(mapping) ==> (Reverse(mapping)[pos], pos) in mapping
    ensures forall pair :: pair in mapping ==> pair.0 in Forward(mapping) && pair.1 in Reverse(mapping)
  {
    if mapping != [] {
      var n := |mapping| - 1;
      MapsHoldPairs(mapping[..n]);
      assert mapping == mapping[..n] + [mapping[n]];
      assert mapping[n] == (mapping[n].0, mapping[n].1);
    }
  }

  // Distinct positions make the two maps inverse to each other.
  lemma DistinctPositionsAreConsistent(mapping: Mapping)
    requires ValidMapping(mapping)
    requires forall a, b :: a in mapping && b in mapping && a.1 == b.1 ==> a == b
    ensures Consistent(PermissionMap(Forward(mapping), Reverse(mapping)))
    ensures ValidMap(PermissionMap(Forward(mapping), Reverse(mapping)))
  {
    hide Forward, Reverse;
    MapsHoldPairs(mapping);
    var forward, reverse := Forward(mapping), Reverse(mapping);
    forall perm | perm in forward
      ensures forward[perm] in reverse && reverse[forward[perm]] == perm
    {
      var pair := (perm, forward[perm]);
      assert pair in mapping;
      assert (reverse[pair.1], pair.1) in mapping;
    }
  }

  function PositionOf(perm: string, permissions: PermissionMap): int {
    if perm in permissions.forward then permissions.forward[perm] else -1
  }

  // The known permissions at the given positions from `from` on, in rising order.
  predicate Lists(perms: seq<string>, permissions: PermissionMap, positions: seq<int>, from: nat) {
    && (forall perm :: perm in perms ==>
          PositionOf(perm, permissions) >= from && PositionOf(perm, permissions) in positions)
    && (forall perm :: perm in permissions.forward && PositionOf(perm, permissions) >= from
          && PositionOf(perm, permissions) in positions
          ==> perm in perms)
    && (forall i, j :: 0 <= i < j < |perms| ==> PositionOf(perms[i], permissions) < PositionOf(perms[j], permissions))
  }

  lemma ListGrows(perm: string, others: seq<string>, permissions: PermissionMap, positions: seq<int>, from: nat)
    requires Lists(others, permissions, positions, from + 1) && Consistent(permissions)
    requires from in positions && PositionOf(perm, permissions) == from
    ensures Lists([perm] + others, permissions, positions, from)
  {
    var perms := [perm] + others;
    forall i, j | 0 <= i < j < |perms|
      ensures PositionOf(perms[i], permissions) < PositionOf(perms[j], permissions)
    {
      assert perms[j] == others[j - 1] && perms[j] in others;
      if i > 0 {
        assert perms[i] == others[i - 1];
      }
    }
    forall other | other in permissions.forward && PositionOf(other, permissions) == from
      ensures other == perm
    {
      assert permissions.reverse[from] == other;
    }
  }

  lemma ListStays(others: seq<string>, permissions: PermissionMap, positions: seq<int>, from: nat)
    requires Lists(others, permissions, positions, from + 1) && from !in positions
    ensures Lists(others, permissions, positions, from)
  {
  }

  // Every position belongs to some known permission.
  predicate AreTaken(positions: seq<int>, permissions: PermissionMap) {
    forall pos :: pos in positions ==>
      pos >= 0 && exists perm :: perm in permissions.forward && PositionOf(perm, permissions) == pos
  }

  lemma {:induction false} DecodedFrom(bytes: seq<bv8>, permissions: PermissionMap, positions: seq<int>, from: nat)
    requires Consistent(permissions) && from <= 8 * |bytes| <= U32_SPAN
    requires forall pos: nat :: HasBit(bytes, pos) <==> pos in positions
    requires AreTaken(positions, permissions)
    ensures Lists(Decoded(bytes, permissions, from), permissions, positions, from)
    decreases 8 * |bytes| - from
  {
    hide HasBit, Lists;
    if from == 8 * |bytes| {
      forall pos | pos in positions
        ensures pos < from
      {
        BitsAreInside(bytes, pos);
      }
      assert Lists([], permissions, positions, from) by { ListsNothing(permissions, positions, from); }
    } else {
      DecodedFrom(bytes, permissions, positions, from + 1);
      var others := Decoded(bytes, permissions, from + 1);
      if from in positions {
        var perm :| perm in permissions.forward && PositionOf(perm, permissions) == from;
        assert DecodedAt(bytes, permissions, from) == [perm];
        ListGrows(perm, others, permissions, positions, from);
      } else {
        assert [] + others == others;
        ListStays(others, permissions, positions, from);
      }
    }
  }

  lemma ListsNothing(permissions: PermissionMap, positions: seq<int>, from: nat)
    requires forall pos :: pos in positions ==> pos < from
    ensures Lists([], permissions, positions, from)
  {
  }

  lemma BitsAreInside(bytes: seq<bv8>, pos: nat)
    requires HasBit(bytes, pos)
    ensures pos < 8 * |bytes|
  {
  }

  // Decoding an encoded list gives its known permissions, each once, in the order of their positions.
  lemma DecodeInvertsEncode(perms: seq<string>, permissions: PermissionMap, bytes: seq<bv8>)
    requires ValidMap(permissions) && Consistent(permissions)
    requires Encodes(bytes, Positions(perms, permissions)) && 8 * |bytes| <= U32_SPAN
    ensures var decoded := Decoded(bytes, permissions, 0);
            && (forall perm :: perm in decoded <==> perm in perms && Known(perm, permissions))
            && Distinct(decoded)
            && (forall i, j :: 0 <= i < j < |decoded| ==>
                  PositionOf(decoded[i], permissions) < PositionOf(decoded[j], permissions))
  {
    hide Decoded, HasBit;
    var positions := Positions(perms, permissions);
    KnownHavePositions(perms, permissions);
    assert AreTaken(positions, permissions);
    DecodedFrom(bytes, permissions, positions, 0);
    var decoded := Decoded(bytes, permissions, 0);
    forall perm | PositionOf(perm, permissions) in positions
      ensures perm in perms && perm in permissions.forward
    {
      var other :| other in perms && other in permissions.forward
          && permissions.forward[other] == PositionOf(perm, permissions);
      assert perm == other;
    }
  }

  // Consistency is needed: a permission whose position leads elsewhere is lost.
  lemma InconsistentLoses(perm: string, permissions: PermissionMap, bytes: seq<bv8>)
    requires ValidMap(permissions) && perm in permissions.forward
    requires permissions.forward[perm] !in permissions.reverse || permissions.reverse[permissions.forward[perm]] != perm
    requires Encodes(bytes, Positions([perm], permissions)) && 8 * |bytes| <= U32_SPAN
    ensures Decoded(bytes, permissions, 0) != [perm]
  {
    hide HasBit;
    var pos := permissions.forward[perm];
    assert Positions([perm], permissions) == [pos] by { assert [perm][1..] == []; }
    OnePosition(bytes, permissions, pos, 0);
  }

  lemma {:induction false} OnePosition(bytes: seq<bv8>, permissions: PermissionMap, pos: nat, from: nat)
    requires from <= 8 * |bytes| <= U32_SPAN
    requires forall p: nat :: HasBit(bytes, p) <==> p == pos
    ensures Decoded(bytes, permissions, from) ==
            if from <= pos && pos in permissions.reverse then [permissions.reverse[pos]] else []
    decreases 8 * |bytes| - from
  {
    hide HasBit;
    BitsAreInside(bytes, pos);
    if from < 8 * |bytes| {
      OnePosition(bytes, permissions, pos, from + 1);
    }
  }
}
