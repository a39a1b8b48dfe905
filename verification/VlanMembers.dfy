/**
 The VLAN membership table: one 64-bit row per VLAN with a bit for every member
 VF and the smallest receive-buffer size of the members in the top six bits.
 */
module VlanMembers {
  import opened Common

  const NUM_VLANS: nat := 4096

  /** A row: the one bits among bits 0 to 55, and bits 63 to 56 as a number. */
  datatype Row = Row(low: set<nat>, top: Byte)

  const EMPTY: Row := Row({}, 0)

  /** `row >> 58`. */
  function Field(row: Row): nat { row.top / 4 }

  function MaskedSize(size: nat): (m: nat)
    ensures m < 64
  {
    (size / 256) % 64
  }

  function Min(a: nat, b: nat): nat { if a < b then a else b }

  /** `row & ((1ull << maxVfs) - 1)`, at most 56 VFs. */
  function Members(row: Row, maxVfs: nat): set<nat> { set v | v in row.low && v < maxVfs }

  /** add_vlan_member on one row; the minimum goes to bit 58. */
  function AddRow(row: Row, maxVfs: nat, vid: nat, size: nat): Row {
    var m := MaskedSize(size);
    var min := if Members(row, maxVfs) == {} then m else Min(Field(row), m);
    Row(set v | v in row.low + {vid} && v < maxVfs, 4 * (min % 64))
  }

  /** The size loop of the remove: it compares with the unmasked size. */
  function LeastSize(members: set<nat>, sizes: nat -> nat, upto: nat): (m: nat)
    ensures m < 64
  {
    if upto == 0 then 63
    else
      var min := LeastSize(members, sizes, upto - 1);
      if upto - 1 in members && !(min < sizes(upto - 1) / 256) then MaskedSize(sizes(upto - 1)) else min
  }

  /** remove_vlan_member on one row; the minimum goes to bit 56. */
  function RemoveRow(row: Row, maxVfs: nat, vid: nat, sizes: nat -> nat): Row {
    var members := Members(row, maxVfs) - {vid};
    if members == {} then EMPTY else Row(members, LeastSize(members, sizes, maxVfs))
  }

  class VlanTable {
    const maxVfs: nat
    var rows: seq<Row>

    ghost predicate Valid()
      reads this`rows
    {
      maxVfs <= 56 && |rows| == NUM_VLANS
    }

    constructor (maxVfs: nat)
      requires maxVfs <= 56
      ensures Valid() && this.maxVfs == maxVfs && forall k | 0 <= k < NUM_VLANS :: rows[k] == EMPTY
    {
      this.maxVfs := maxVfs;
      rows := seq(NUM_VLANS, _ => EMPTY);
    }

    method AddMember(vlan: nat, vid: nat, size: nat) returns (ret: int)
      requires Valid()
      modifies this`rows
      ensures Valid()
      ensures vlan < NUM_VLANS ==> ret == 0 && rows == old(rows)[vlan := AddRow(old(rows)[vlan], maxVfs, vid, size)]
      ensures vlan >= NUM_VLANS ==> ret == -1 && rows == old(rows)
    {
      if vlan >= NUM_VLANS { return -1; }
      var row := rows[vlan];
      var min := row.top / 4;
      if (set v | v in row.low && v < maxVfs) == {} {
        min := (size / 256) % 64;
      } else {
        min := if min < (size / 256) % 64 then min else (size / 256) % 64;
      }
      rows := rows[vlan := Row(set v | v in row.low + {vid} && v < maxVfs, 4 * (min % 64))];
      return 0;
    }

    method RemoveMember(vid: nat, sizes: nat -> nat)
      requires Valid()
      modifies this`rows
      ensures Valid()
      ensures forall k | 0 <= k < NUM_VLANS :: rows[k] == RemoveRow(old(rows)[k], maxVfs, vid, sizes)
    {
      var vlan := 0;
      while vlan < NUM_VLANS
        invariant 0 <= vlan <= NUM_VLANS && Valid()
        invariant forall k | 0 <= k < vlan :: rows[k] == RemoveRow(old(rows)[k], maxVfs, vid, sizes)
        invariant forall k | vlan <= k < NUM_VLANS :: rows[k] == old(rows)[k]
      {
        var members := (set v | v in rows[vlan].low && v < maxVfs) - {vid};
        var row := EMPTY;
        if members != {} {
          var min, v := 63, 0;
          while v < maxVfs
            invariant 0 <= v <= maxVfs && min == LeastSize(members, sizes, v)
          {
            if v in members {
              min := if min < sizes(v) / 256 then min else (sizes(v) / 256) % 64;
            }
            v := v + 1;
          }
          row := Row(members, min);
        }
        rows := rows[vlan := row];
        vlan := vlan + 1;
      }
    }
  }

  // ---- Whole runs ----

  datatype Event = Add(vlan: nat, vid: nat, size: nat) | Remove(vid: nat, sizes: nat -> nat)

  /** What a run makes of one row. */
  function RowAfter(es: seq<Event>, maxVfs: nat, k: nat): Row {
    if es == [] then EMPTY else
    var row := RowAfter(es[..|es| - 1], maxVfs, k);
    match es[|es| - 1]
    case Add(vlan, vid, size) => if vlan == k then AddRow(row, maxVfs, vid, size) else row
    case Remove(vid, sizes) => RemoveRow(row, maxVfs, vid, sizes)
  }

  /** A run of calls on a fresh table leaves in every row what the run makes of it. */
  method Replay(maxVfs: nat, es: seq<Event>) returns (t: VlanTable)
    requires maxVfs <= 56
    ensures fresh(t) && t.Valid() && t.maxVfs == maxVfs
    ensures forall k | 0 <= k < NUM_VLANS :: t.rows[k] == RowAfter(es, maxVfs, k)
  {
    t := new VlanTable(maxVfs);
    for i := 0 to |es|
      invariant t.Valid() && t.maxVfs == maxVfs
      invariant forall k | 0 <= k < NUM_VLANS :: t.rows[k] == RowAfter(es[..i], maxVfs, k)
    {
      assert es[..i + 1][..i] == es[..i];
      match es[i] {
        case Add(vlan, vid, size) => var _ := t.AddMember(vlan, vid, size);
        case Remove(vid, sizes) => t.RemoveMember(vid, sizes);
      }
    }
    assert es[..|es|] == es;
  }

  /** An add of `vid` to VLAN `k` came after its last remove. */
  predicate IsMember(es: seq<Event>, k: nat, vid: nat) {
    if es == [] then false else
    match es[|es| - 1]
    case Add(vlan, v, _) => (vlan == k && v == vid) || IsMember(es[..|es| - 1], k, vid)
    case Remove(v, _) => v != vid && IsMember(es[..|es| - 1], k, vid)
  }

  /** Bit `vid` of row `k` is set exactly when an add of it came after its last remove. */
  lemma {:induction false} MembershipExact(es: seq<Event>, maxVfs: nat, k: nat, vid: nat)
    requires vid < maxVfs <= 56
    ensures vid in RowAfter(es, maxVfs, k).low <==> IsMember(es, k, vid)
  {
    if es != [] { MembershipExact(es[..|es| - 1], maxVfs, k, vid); }
  }

  lemma {:induction false} OnlyVfs(es: seq<Event>, maxVfs: nat, k: nat)
    ensures forall v | v in RowAfter(es, maxVfs, k).low :: v < maxVfs
  {
    if es != [] { OnlyVfs(es[..|es| - 1], maxVfs, k); }
  }

  /** The smallest masked size among the adds to VLAN `k` since the last remove of any VF. */
  function LeastAdded(es: seq<Event>, k: nat): Option<nat> {
    if es == [] then None else
    var rest := LeastAdded(es[..|es| - 1], k);
    match es[|es| - 1]
    case Add(vlan, _, size) =>
      if vlan != k then rest else Some(if rest.None? then MaskedSize(size) else Min(rest.value, MaskedSize(size)))
    case Remove(_, _) => None
  }

  /** Row `k` had no members left after the last remove of any VF, or there was none. */
  predicate EmptyAtLastRemove(es: seq<Event>, maxVfs: nat, k: nat) {
    es == [] ||
    match es[|es| - 1]
    case Add(_, _, _) => EmptyAtLastRemove(es[..|es| - 1], maxVfs, k)
    case Remove(_, _) => Members(RowAfter(es, maxVfs, k), maxVfs) == {}
  }

  /** In such a row the top six bits hold the minimum over the adds since. */
  lemma {:induction false} MinimumExact(es: seq<Event>, maxVfs: nat, k: nat)
    requires maxVfs <= 56 && EmptyAtLastRemove(es, maxVfs, k)
    requires forall e | e in es && e.Add? :: e.vid < maxVfs
    ensures var row, least := RowAfter(es, maxVfs, k), LeastAdded(es, k);
      (Members(row, maxVfs) == {} <==> least.None?) && (least.Some? ==> Field(row) == least.value < 64)
  {
    if es != [] {
      var last, rest := es[|es| - 1], es[..|es| - 1];
      if last.Add? {
        MinimumExact(rest, maxVfs, k);
        assert last in es;
        if last.vlan == k { assert last.vid in Members(RowAfter(es, maxVfs, k), maxVfs); }
      }
    }
  }

  /** A VF was added to VLAN `k` with this buffer size since the last remove of any VF. */
  predicate AddedSince(es: seq<Event>, k: nat, size: nat) {
    if es == [] then false else
    match es[|es| - 1]
    case Add(vlan, _, s) => (vlan == k && s == size) || AddedSince(es[..|es| - 1], k, size)
    case Remove(_, _) => false
  }

  lemma {:induction false} LeastAddedMeans(es: seq<Event>, k: nat)
    requires forall size: nat | AddedSince(es, k, size) :: size < 0x4000
    ensures var m := LeastAdded(es, k);
      && (m.None? ==> forall size: nat :: !AddedSince(es, k, size))
      && (m.Some? ==> forall size: nat | AddedSince(es, k, size) :: 256 * m.value <= size)
      && (m.Some? ==> exists size: nat :: AddedSince(es, k, size) && size < 256 * m.value + 256)
  {
    if es != [] && es[|es| - 1].Add? {
      var rest, last := es[..|es| - 1], es[|es| - 1];
      assert forall size: nat :: AddedSince(rest, k, size) ==> AddedSince(es, k, size);
      LeastAddedMeans(rest, k);
      if last.vlan == k {
        assert AddedSince(es, k, last.size);
        assert MaskedSize(last.size) == last.size / 256;
        var m, before := LeastAdded(es, k), LeastAdded(rest, k);
        if m.value != last.size / 256 {
          var size: nat :| AddedSince(rest, k, size) && size < 256 * before.value + 256;
          assert AddedSince(es, k, size);
        }
      }
    }
  }

  /** With sizes below 64 units of 256 bytes, the field is the most units that fit every buffer added since. */
  lemma FieldFitsAll(es: seq<Event>, maxVfs: nat, k: nat)
    requires maxVfs <= 56 && EmptyAtLastRemove(es, maxVfs, k) && (forall e | e in es && e.Add? :: e.vid < maxVfs)
    requires exists size: nat :: AddedSince(es, k, size)
    requires forall size: nat | AddedSince(es, k, size) :: size < 0x4000
    ensures var f := Field(RowAfter(es, maxVfs, k));
      && (forall size: nat | AddedSince(es, k, size) :: 256 * f <= size)
      && (exists size: nat :: AddedSince(es, k, size) && size < 256 * f + 256)
  {
    MinimumExact(es, maxVfs, k);
    LeastAddedMeans(es, k);
  }

  // ---- What a remove does to the minimum ----

  function Units(size: nat): nat { size / 256 }

  function UnitsOf(sizes: nat -> nat): nat -> nat { (v: nat) => Units(sizes(v)) }
  function MaskedOf(sizes: nat -> nat): nat -> nat { (v: nat) => MaskedSize(sizes(v)) }

  lemma FitsUnmasked(size: nat)
    requires Units(size) < 64
    ensures MaskedSize(size) == Units(size)
  {
  }

  /** The least value of `f` over the members below `upto`. */
  function Least(members: set<nat>, f: nat -> nat, upto: nat): Option<nat> {
    if upto == 0 then None
    else
      var rest := Least(members, f, upto - 1);
      if upto - 1 !in members then rest
      else Some(if rest.None? then f(upto - 1) else Min(rest.value, f(upto - 1)))
  }

  lemma {:induction false} LeastIs(members: set<nat>, f: nat -> nat, upto: nat)
    ensures var m := Least(members, f, upto);
      && (m.None? <==> forall v | v in members :: v >= upto)
      && (m.Some? ==> exists v | v in members && v < upto :: f(v) == m.value)
      && (m.Some? ==> forall v | v in members && v < upto :: m.value <= f(v))
  {
    if upto > 0 { LeastIs(members, f, upto - 1); }
  }

  /** The loop finds the least unmasked size, or 63 if that is less. */
  lemma {:induction false} LeastSizeClosed(members: set<nat>, sizes: nat -> nat, upto: nat)
    ensures var m := Least(members, UnitsOf(sizes), upto);
      LeastSize(members, sizes, upto) == if m.None? then 63 else Min(63, m.value)
  {
    if upto > 0 { LeastSizeClosed(members, sizes, upto - 1); }
  }

  /** Members whose size does not fit the six bits, so that masking changes it. */
  function Large(members: set<nat>, sizes: nat -> nat): set<nat> { set v | v in members && Units(sizes(v)) >= 64 }

  /** No member that fits is below what the loop found, and one reaches it unless that is 63. */
  lemma LoopAndFitting(members: set<nat>, sizes: nat -> nat, upto: nat)
    requires forall v | v in members :: v < upto
    ensures var m, g, large := LeastSize(members, sizes, upto), MaskedOf(sizes), Large(members, sizes);
      && (forall v | v in members - large :: m <= g(v))
      && (m < 63 ==> exists v | v in members - large :: g(v) == m)
  {
    var units, g, large := UnitsOf(sizes), MaskedOf(sizes), Large(members, sizes);
    LeastIs(members, units, upto);
    LeastSizeClosed(members, sizes, upto);
    var m, u := LeastSize(members, sizes, upto), Least(members, units, upto);
    assert m == if u.None? then 63 else Min(63, u.value);
    forall v | v in members - large ensures m <= g(v) && g(v) == units(v) {
      FitsUnmasked(sizes(v));
    }
    if m < 63 {
      var v :| v in members && v < upto && units(v) == u.value;
      assert v in members - large;
    }
  }

  /**
   The loop finds the least masked size exactly when no large member's masked size is
   below the least size, at most 63.
   */
  lemma LoopFindsLeast(members: set<nat>, sizes: nat -> nat, upto: nat, units: nat, least: nat)
    requires Least(members, UnitsOf(sizes), upto) == Some(units) && Least(members, MaskedOf(sizes), upto) == Some(least)
    requires forall v | v in members :: v < upto
    ensures var g := MaskedOf(sizes);
      LeastSize(members, sizes, upto) == least <==> forall v | v in Large(members, sizes) :: g(v) >= Min(63, units)
  {
    LeastSizeClosed(members, sizes, upto);
    var m, g, large := LeastSize(members, sizes, upto), MaskedOf(sizes), Large(members, sizes);
    LoopAndFitting(members, sizes, upto);
    LeastIs(members, g, upto);
    assert forall v | v in members && g(v) == least && v in large :: g(v) < 64;
  }

  lemma Quarter(members: set<nat>, large: set<nat>, g: nat -> nat, m: nat, least: nat)
    requires large <= members && m < 64 && (forall v | v in members - large :: m <= g(v))
    requires m < 63 ==> exists v | v in members - large :: g(v) == m
    requires (exists v | v in members :: g(v) == least) && forall v | v in members :: least <= g(v)
    ensures m / 4 == least
      <==> m == 0 || ((exists v | v in large :: g(v) == m / 4) && forall v | v in large :: g(v) >= m / 4)
  {
  }

  /** When a quarter of the loop's minimum is the least masked size. */
  lemma QuarterIsLeast(members: set<nat>, sizes: nat -> nat, upto: nat, units: nat, least: nat)
    requires Least(members, UnitsOf(sizes), upto) == Some(units) && Least(members, MaskedOf(sizes), upto) == Some(least)
    requires forall v | v in members :: v < upto
    ensures var g, large, stored := MaskedOf(sizes), Large(members, sizes), Min(63, units) / 4;
      LeastSize(members, sizes, upto) / 4 == least
      <==> units == 0 || ((exists v | v in large :: g(v) == stored) && forall v | v in large :: g(v) >= stored)
  {
    LoopAndFitting(members, sizes, upto);
    LeastIs(members, MaskedOf(sizes), upto);
    LeastSizeClosed(members, sizes, upto);
    Quarter(members, Large(members, sizes), MaskedOf(sizes), LeastSize(members, sizes, upto), least);
  }

  lemma StoredField(row: Row, maxVfs: nat, vid: nat, sizes: nat -> nat)
    requires Members(row, maxVfs) - {vid} != {}
    ensures Field(RemoveRow(row, maxVfs, vid, sizes)) == LeastSize(Members(row, maxVfs) - {vid}, sizes, maxVfs) / 4
  {
  }

  /**
   The field after a remove that leaves members is right, that is their least
   masked size, exactly when some member has less than one unit or the least
   masked size of the large members is a quarter of the least size, at most 63.
   */
  lemma FieldAfterRemove(row: Row, maxVfs: nat, vid: nat, sizes: nat -> nat, members: set<nat>, units: nat, least: nat)
    requires members == Members(row, maxVfs) - {vid}
    requires Least(members, UnitsOf(sizes), maxVfs) == Some(units)
      && Least(members, MaskedOf(sizes), maxVfs) == Some(least)
    ensures var g, large, stored := MaskedOf(sizes), Large(members, sizes), Min(63, units) / 4;
      Field(RemoveRow(row, maxVfs, vid, sizes)) == least
      <==> units == 0 || ((exists v | v in large :: g(v) == stored) && forall v | v in large :: g(v) >= stored)
  {
    QuarterIsLeast(members, sizes, maxVfs, units, least);
    assert members != {} by { LeastIs(members, UnitsOf(sizes), maxVfs); }
    StoredField(row, maxVfs, vid, sizes);
  }

  /** With all sizes below 64 units, exactly when the least is 0: it is stored two bits too low. */
  lemma RemoveShiftsMinimum(row: Row, maxVfs: nat, vid: nat, sizes: nat -> nat, members: set<nat>, units: nat)
    requires members == Members(row, maxVfs) - {vid} && Large(members, sizes) == {}
    requires Least(members, UnitsOf(sizes), maxVfs) == Some(units)
    ensures Least(members, MaskedOf(sizes), maxVfs) == Some(units)
      && Field(RemoveRow(row, maxVfs, vid, sizes)) == units / 4
    ensures Field(RemoveRow(row, maxVfs, vid, sizes)) == units <==> units == 0
  {
    SameLeast(members, sizes, maxVfs);
    LeastIs(members, UnitsOf(sizes), maxVfs);
    LeastSizeClosed(members, sizes, maxVfs);
    StoredField(row, maxVfs, vid, sizes);
  }

  lemma {:induction false} SameLeast(members: set<nat>, sizes: nat -> nat, upto: nat)
    requires Large(members, sizes) == {}
    ensures Least(members, MaskedOf(sizes), upto) == Least(members, UnitsOf(sizes), upto)
    ensures var m := Least(members, UnitsOf(sizes), upto); m.Some? ==> m.value < 64
  {
    if upto > 0 {
      SameLeast(members, sizes, upto - 1);
      if upto - 1 in members {
        assert upto - 1 !in Large(members, sizes);
        FitsUnmasked(sizes(upto - 1));
      }
    }
  }

  /** One member of 79 units is stored as 63 two bits too low, and reads as 15: its masked size. */
  lemma LargeMayCancel(sizes: nat -> nat)
    requires sizes(0) == 79 * 256
    ensures Field(RemoveRow(Row({0, 1}, 0), 2, 1, sizes)) == 15 == MaskedSize(sizes(0))
  {
    var members := Members(Row({0, 1}, 0), 2) - {1};
    assert 0 in members && 1 !in members;
    LeastSizeClosed(members, sizes, 2);
    LeastIs(members, UnitsOf(sizes), 2);
  }
}
