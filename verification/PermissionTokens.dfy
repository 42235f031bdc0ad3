/**
 What an issued permission bitmap means later (crates/summer-auth/src/bitmap.rs:34-67 with
 crates/summer-domain/src/menu.rs:298-325, 388-457, 829-836): a token keeps its bits while buttons
 come and go, and the bit of a deleted button may be handed out again.
 */
module PermissionTokens {
  import opened Wrappers
  import opened MenuSpec
  import opened MenuSync
  import opened MenuDomain
  import opened MenuBits
  import opened BitHandouts
  import opened PermissionBitmap

  // ----- rows over runs -----

  lemma SuccessionComposes(
      rows0: Table, next0: int, rows1: Table, next1: int, rows2: Table, next2: int)
    requires Succeeds(rows0, next0, rows1, next1) && Succeeds(rows1, next1, rows2, next2) && WellKeyed(rows0, next0)
    ensures Succeeds(rows0, next0, rows2, next2)
  {
    forall id | id in rows2 && id in rows0
      ensures id in rows1
    {
      assert id < next0 <= next1;
    }
    forall id | id in rows2 && id !in rows0
      ensures next0 <= id
    {
      if id in rows1 {
        assert next0 <= id;
      }
    }
  }

  // Over any run a row that is still there has its kind, bit position and mark, and no id comes back.
  lemma {:induction false} RowsKeepBadges(db: Db, calls: seq<Call>)
    requires WellKeyed(db.rows, db.nextId) && BitsDistinct(db.rows) && ReadsAlong(db, calls)
    ensures Succeeds(db.rows, db.nextId, Run(db, calls).rows, Run(db, calls).nextId)
    decreases |calls|
  {
    hide Reads, After, WellKeyed, BitsDistinct, Succeeds;
    if calls == [] {
      NothingChanges(db);
    } else {
      CallKeepsBits(db, calls[0]);
      RowsKeepBadges(After(db, calls[0]), calls[1..]);
      var mid, end := After(db, calls[0]), Run(db, calls);
      SuccessionComposes(db.rows, db.nextId, mid.rows, mid.nextId, end.rows, end.nextId);
    }
  }

  lemma NothingChanges(db: Db)
    ensures Succeeds(db.rows, db.nextId, db.rows, db.nextId)
  {
  }

  // ----- maps made of tables -----

  ghost predicate BitsFit(rows: Table) {
    forall id :: id in rows && rows[id].bit.Some? ==> 0 <= rows[id].bit.value < 0x8000_0000
  }

  // The list that a permission map is made of, in any order.
  ghost predicate ListsMappings(mapping: Mapping, rows: Table) {
    forall pair :: pair in mapping <==> pair in PermissionMappings(rows)
  }

  function MapOf(mapping: Mapping): PermissionMap {
    PermissionMap(Forward(mapping), Reverse(mapping))
  }

  lemma MapsReadTables(mapping: Mapping, rows: Table)
    requires ListsMappings(mapping, rows) && BitsDistinct(rows) && BitsFit(rows)
    ensures ValidMap(MapOf(mapping)) && Consistent(MapOf(mapping))
    ensures forall perm :: perm in MapOf(mapping).forward ==>
              (perm, MapOf(mapping).forward[perm]) in PermissionMappings(rows)
    ensures forall pos, perm :: pos in MapOf(mapping).reverse && MapOf(mapping).reverse[pos] == perm
              <==> (perm, pos) in PermissionMappings(rows)
  {
    hide Forward, Reverse, PermissionMappings;
    forall a, b | a in PermissionMappings(rows) && b in PermissionMappings(rows) && a.1 == b.1
      ensures a == b && 0 <= a.1 < U32_SPAN
    {
      MappingsHaveDistinctPositions(rows, a, b);
    }
    MapsHoldPairs(mapping);
    DistinctPositionsAreConsistent(mapping);
  }

  // ----- reading an issued bitmap -----

  lemma {:induction false} DecodedMembers(bytes: seq<bv8>, permissions: PermissionMap, from: nat, perm: string)
    requires from <= 8 * |bytes| <= U32_SPAN
    ensures perm in Decoded(bytes, permissions, from) <==>
            exists pos: nat :: from <= pos && HasBit(bytes, pos) && pos in permissions.reverse
                               && permissions.reverse[pos] == perm
    decreases 8 * |bytes| - from
  {
    hide HasBit;
    if from < 8 * |bytes| {
      DecodedMembers(bytes, permissions, from + 1, perm);
    } else if pos: nat :| from <= pos && HasBit(bytes, pos) {
      BitsAreInside(bytes, pos);
    }
  }

  lemma GrantShowsBadge(row: Row, mark: string, pos: int)
    requires Grant(row) == Some((mark, pos)) && (row.bit.Some? ==> 0 <= row.bit.value < 0x8000_0000)
    ensures row.bit == Some(pos) && row.authMark == mark
  {
  }

  lemma GrantsAreOwned(rows: Table, mark: string, pos: int)
    requires BitsDistinct(rows) && BitsFit(rows) && (mark, pos) in PermissionMappings(rows)
    ensures exists id :: id in rows && rows[id].bit == Some(pos) && rows[id].authMark == mark
    ensures !OtherOwns(rows, pos, mark)
  {
    MappingsAreGrants(rows, (mark, pos));
    var id :| id in rows && Grant(rows[id]) == Some((mark, pos));
    GrantShowsBadge(rows[id], mark, pos);
  }

  // Before each call of the run, no position of the list is among those that the call gives to a button
  // with another mark.
  ghost predicate PositionsKept(db: Db, calls: seq<Call>, perms: seq<string>, permissions: PermissionMap) {
    forall perm, k ::
      perm in perms && PermissionBitmap.Known(perm, permissions) && 0 <= k < |calls|
      ==> !HandsOutToOther(At(db, calls, k), calls[k], permissions.forward[perm], perm)
  }

  // A bitmap issued under one table and read under a later one gives exactly the permissions put in
  // whose buttons are still there and enabled, unless a call gave away one of its positions.
  lemma TokenKeepsItsMeaning(
      db: Db, calls: seq<Call>, mapping: Mapping, later: Mapping, perms: seq<string>, bytes: seq<bv8>, perm: string)
    requires WellKeyed(db.rows, db.nextId) && BitsDistinct(db.rows) && ReadsAlong(db, calls)
    requires BitsFit(db.rows) && BitsFit(Run(db, calls).rows)
    requires ListsMappings(mapping, db.rows) && ListsMappings(later, Run(db, calls).rows)
    requires Encodes(bytes, Positions(perms, MapOf(mapping))) && 8 * |bytes| <= U32_SPAN
    requires PositionsKept(db, calls, perms, MapOf(mapping))
    ensures perm in Decoded(bytes, MapOf(later), 0) <==>
            && perm in perms && PermissionBitmap.Known(perm, MapOf(mapping))
            && (perm, MapOf(mapping).forward[perm]) in PermissionMappings(Run(db, calls).rows)
  {
    hide WellKeyed, ReadsAlong, BitsFit, ListsMappings, MapOf, PermissionMappings, Decoded, HasBit, Consistent;
    hide BitsDistinct, Run, Grant, HandsOutToOther;
    var end := Run(db, calls);
    BitPositionsStayDistinct(db, calls);
    MapsReadTables(mapping, db.rows);
    MapsReadTables(later, end.rows);
    KnownHavePositions(perms, MapOf(mapping));
    DecodedMembers(bytes, MapOf(later), 0, perm);
    if perm in Decoded(bytes, MapOf(later), 0) {
      var pos: nat :| HasBit(bytes, pos) && pos in MapOf(later).reverse && MapOf(later).reverse[pos] == perm;
      var was :| was in perms && was in MapOf(mapping).forward && MapOf(mapping).forward[was] == pos;
      GrantsAreOwned(db.rows, was, pos);
      GrantsAreOwned(end.rows, perm, pos);
      PositionChangesIff(db, calls, pos, was);
      assert calls[..|calls|] == calls && At(db, calls, |calls|) == end;
    }
  }

  // ----- a reused bit -----

  const PAGE := Row(1, 0, Menu, "/p", "p", "p", PLAIN_LOOK, "", "", None, 0, true)

  // A button named by its mark, below the page.
  function Named(mark: string, id: int): Row {
    Row(id, 1, Button, "", "", "", PLAIN_LOOK, mark, mark, Some(0), 0, true)
  }

  function Before(): Db {
    var rows: Table := map[1 := PAGE, 2 := Named("b", 2)];
    Db(rows, 3, PermissionMappings(rows))
  }

  // The button is deleted and another one created.
  const REPLACE_BUTTON: seq<Call> := [DeleteMenuCall(2, {}), CreateButtonCall([PAGE], Named("c", 0))]

  lemma ReplacedTable()
    ensures ReadsAlong(Before(), REPLACE_BUTTON)
    ensures Run(Before(), REPLACE_BUTTON).rows == map[1 := PAGE, 3 := Named("c", 3)]
  {
    hide PermissionMappings;
    var deleted := After(Before(), REPLACE_BUTTON[0]);
    assert deleted.rows == map[1 := PAGE] && deleted.nextId == 3;
    assert NextButtonBitPosition([PAGE]) == 0;
    var call := REPLACE_BUTTON[1];
    assert Reads(deleted, call);
    var created := After(deleted, call);
    assert created.rows == map[1 := PAGE, 3 := Named("c", 3)];
    assert REPLACE_BUTTON[1..] == [call] && [call][1..] == [];
    assert Run(created, []) == created && ReadsAlong(created, []);
    assert Run(deleted, [call]) == created;
  }

  lemma OneButtonOneMapping(mark: string, id: int, rows: Table)
    requires mark != "" && id != 1 && rows == map[1 := PAGE, id := Named(mark, id)]
    ensures ListsMappings([(mark, 0)], rows)
  {
    forall pair
      ensures pair in [(mark, 0)] <==> pair in PermissionMappings(rows)
    {
      MappingsAreGrants(rows, pair);
      assert Grant(rows[1]) == None && Grant(rows[id]) == Some((mark, 0));
    }
  }

  function FirstBitSet(): seq<bv8> { [0 | Mask(0)] }

  lemma EncodesFirstBit()
    ensures HasBit(FirstBitSet(), 0) && Encodes(FirstBitSet(), [0])
  {
    AllClear([0]);
    OneMoreBit([0], 0);
    assert [0 as bv8][0 := 0 | Mask(0)] == FirstBitSet();
    hide HasBit, Mask;
    assert forall pos: nat :: HasBit(FirstBitSet(), pos) <==> pos == 0;
    assert 0 in [0] && |FirstBitSet()| == 0 / 8 + 1;
  }

  lemma OnePairMaps(mark: string)
    ensures Forward([(mark, 0)]) == map[mark := 0] && Reverse([(mark, 0)]) == map[0 := mark]
    ensures Positions([mark], MapOf([(mark, 0)])) == [0]
  {
    assert [(mark, 0)][..0] == [] && [mark][1..] == [];
  }

  // A token issued for `b` grants `c` once `b` was deleted and `c` created.
  lemma DeletedBitMayBeReused() returns (mapping: Mapping, later: Mapping, bytes: seq<bv8>)
    ensures ReadsAlong(Before(), REPLACE_BUTTON)
    ensures ListsMappings(mapping, Before().rows) && ListsMappings(later, Run(Before(), REPLACE_BUTTON).rows)
    ensures Encodes(bytes, Positions(["b"], MapOf(mapping)))
    ensures "c" in Decoded(bytes, MapOf(later), 0)
  {
    mapping, later, bytes := [("b", 0)], [("c", 0)], FirstBitSet();
    ReplacedTable();
    OneButtonOneMapping("b", 2, Before().rows);
    hide Before, Run, ReadsAlong, ListsMappings, HasBit, Mask, Forward, Reverse, Encodes, Positions, Decoded;
    OneButtonOneMapping("c", 3, Run(Before(), REPLACE_BUTTON).rows);
    OnePairMaps("b");
    OnePairMaps("c");
    assert |bytes| == 1;
    EncodesFirstBit();
    DecodedMembers(bytes, MapOf(later), 0, "c");
  }
}
