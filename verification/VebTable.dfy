/**
 Programming of the VEB table, a map from (MAC, VLAN) to action list, for one
 vNIC at a time: first every wanted key is added or overwritten, then the keys
 of the previous MAC or VLAN are deleted, each by one atomic table message.
 */
module VebTable {
  import opened Common
  import opened ActionList

  const NO_VLAN: Vlan := 4095

  type Vlan = v: int | 0 <= v <= 4095

  datatype Key = Key(mac: Mac, vlan: Vlan)

  type Table = map<Key, seq<Word>>

  datatype Op = Add(key: Key, list: seq<Word>) | Delete(key: Key)

  predicate Unicast(mac: Mac) { mac != 0 && (mac / 0x100_0000_0000) % 2 == 0 }

  function Apply(t: Table, op: Op): Table {
    match op
    case Add(key, list) => t[key := list]
    case Delete(key) => t - {key}
  }

  function ApplyAll(t: Table, ops: seq<Op>): Table
    decreases |ops|
  {
    if ops == [] then t else ApplyAll(Apply(t, ops[0]), ops[1..])
  }

  /** The VLANs under which a vNIC with VLAN `nv` is reachable; 4095 stands for all. */
  predicate Wanted(nv: Vlan, v: Vlan) {
    nv == NO_VLAN || v == nv || (nv == 0 && v == NO_VLAN)
  }

  /** Untagged packets must not have a VLAN stripped. */
  function ListFor(ws: seq<Word>, v: Vlan): seq<Word>
    requires ws != []
  {
    if v == NO_VLAN then RemoveStrip(ws) else ws
  }

  /** The add loop from VLAN `from` on. */
  function Adds(mac: Mac, nv: Vlan, ws: seq<Word>, from: nat): seq<Op>
    requires ws != []
    decreases 4096 - from
  {
    if from > 4095 then []
    else (if Wanted(nv, from) then [Add(Key(mac, from), ListFor(ws, from))] else []) + Adds(mac, nv, ws, from + 1)
  }

  predicate Stale(mac: Mac, nv: Vlan, old_: Mac, v: Vlan) {
    mac != old_ || (nv != NO_VLAN && v != nv)
  }

  /** The delete loop from VLAN `from` on. */
  function Deletes(mac: Mac, nv: Vlan, old_: Mac, from: nat): seq<Op>
    decreases 4096 - from
  {
    if from > 4095 then []
    else (if Stale(mac, nv, old_, from) then [Delete(Key(old_, from))] else []) + Deletes(mac, nv, old_, from + 1)
  }

  lemma {:induction false} ApplyAppend(t: Table, a: seq<Op>, b: seq<Op>)
    ensures ApplyAll(t, a + b) == ApplyAll(ApplyAll(t, a), b)
    decreases |a|
  {
    if a == [] {
      assert a + b == b;
    } else {
      assert (a + b)[1..] == a[1..] + b;
      ApplyAppend(Apply(t, a[0]), a[1..], b);
    }
  }

  function Lookup(t: Table, k: Key): Option<seq<Word>> { if k in t then Some(t[k]) else None }

  /** The adds set exactly the wanted keys of the new MAC. */
  lemma {:induction false} AddsEffect(t: Table, mac: Mac, nv: Vlan, ws: seq<Word>, from: nat, k: Key)
    requires ws != []
    ensures Lookup(ApplyAll(t, Adds(mac, nv, ws, from)), k)
      == if k.mac == mac && k.vlan >= from && Wanted(nv, k.vlan) then Some(ListFor(ws, k.vlan)) else Lookup(t, k)
    decreases 4096 - from
  {
    if from <= 4095 {
      var first := if Wanted(nv, from) then [Add(Key(mac, from), ListFor(ws, from))] else [];
      ApplyAppend(t, first, Adds(mac, nv, ws, from + 1));
      AddsEffect(ApplyAll(t, first), mac, nv, ws, from + 1, k);
    }
  }

  /** The deletes remove exactly the stale keys of the old MAC. */
  lemma {:induction false} DeletesEffect(t: Table, mac: Mac, nv: Vlan, old_: Mac, from: nat, k: Key)
    ensures Lookup(ApplyAll(t, Deletes(mac, nv, old_, from)), k)
      == if k.mac == old_ && k.vlan >= from && Stale(mac, nv, old_, k.vlan) then None else Lookup(t, k)
    decreases 4096 - from
  {
    if from <= 4095 {
      var first := if Stale(mac, nv, old_, from) then [Delete(Key(old_, from))] else [];
      ApplyAppend(t, first, Deletes(mac, nv, old_, from + 1));
      DeletesEffect(ApplyAll(t, first), mac, nv, old_, from + 1, k);
    }
  }

  function Reprogram(mac: Mac, nv: Vlan, ws: seq<Word>, old_: Mac): seq<Op>
    requires ws != []
  {
    Adds(mac, nv, ws, 0) + Deletes(mac, nv, old_, 0)
  }

  /** The table after a vNIC has been reprogrammed, key by key. */
  lemma ReprogramEffect(t: Table, mac: Mac, nv: Vlan, ws: seq<Word>, old_: Mac, k: Key)
    requires ws != []
    ensures Lookup(ApplyAll(t, Reprogram(mac, nv, ws, old_)), k) ==
      if k.mac == old_ && Stale(mac, nv, old_, k.vlan) then None
      else if k.mac == mac && Wanted(nv, k.vlan) then Some(ListFor(ws, k.vlan))
      else Lookup(t, k)
  {
    ApplyAppend(t, Adds(mac, nv, ws, 0), Deletes(mac, nv, old_, 0));
    AddsEffect(t, mac, nv, ws, 0, k);
    DeletesEffect(ApplyAll(t, Adds(mac, nv, ws, 0)), mac, nv, old_, 0, k);
  }

  /**
   All wanted keys are in place afterwards, with their lists, exactly unless the
   VLAN is 0 and the MAC is unchanged: then the no-VLAN key just added is deleted.
   */
  lemma WantedKeysPresent(t: Table, mac: Mac, nv: Vlan, ws: seq<Word>, old_: Mac)
    requires ws != []
    ensures (forall v: Vlan | Wanted(nv, v) ::
               Lookup(ApplyAll(t, Reprogram(mac, nv, ws, old_)), Key(mac, v)) == Some(ListFor(ws, v)))
            <==> !(nv == 0 && mac == old_)
  {
    forall v: Vlan { ReprogramEffect(t, mac, nv, ws, old_, Key(mac, v)); }
    if nv == 0 && mac == old_ {
      assert Wanted(nv, NO_VLAN);
      assert Lookup(ApplyAll(t, Reprogram(mac, nv, ws, old_)), Key(mac, NO_VLAN)) == None;
    }
  }

  // ---- Make before break ----

  ghost predicate OnlyAdds(ops: seq<Op>) { forall op | op in ops :: op.Add? }

  lemma {:induction false} AddsAreAdds(mac: Mac, nv: Vlan, ws: seq<Word>, from: nat)
    requires ws != []
    ensures OnlyAdds(Adds(mac, nv, ws, from))
    decreases 4096 - from
  {
    if from <= 4095 { AddsAreAdds(mac, nv, ws, from + 1); }
  }

  lemma {:induction false} AddsKeep(t: Table, ops: seq<Op>, k: Key)
    requires OnlyAdds(ops)
    ensures k in t ==> k in ApplyAll(t, ops)
    decreases |ops|
  {
    if ops != [] {
      assert OnlyAdds(ops[1..]) && ops[0] in ops;
      AddsKeep(Apply(t, ops[0]), ops[1..], k);
    }
  }

  lemma {:induction false} DeletesSpare(mac: Mac, nv: Vlan, old_: Mac, from: nat, op: Op)
    requires op in Deletes(mac, nv, old_, from)
    ensures op.Delete? && op.key.mac == old_ && Stale(mac, nv, old_, op.key.vlan)
    decreases 4096 - from
  {
    var first := if Stale(mac, nv, old_, from) then [Delete(Key(old_, from))] else [];
    if op !in first { DeletesSpare(mac, nv, old_, from + 1, op); }
  }

  lemma {:induction false} Untouched(t: Table, ops: seq<Op>, k: Key)
    requires forall op | op in ops :: op.Delete? && op.key != k
    ensures k in t ==> k in ApplyAll(t, ops)
    decreases |ops|
  {
    if ops != [] {
      assert ops[0] in ops;
      Untouched(Apply(t, ops[0]), ops[1..], k);
    }
  }

  /**
   After any number of the messages: until the adds are complete nothing is
   missing that was there before, and with a VLAN other than 0 a key that was
   there and is wanted is never missing.
   */
  lemma MakeBeforeBreak(t: Table, mac: Mac, nv: Vlan, ws: seq<Word>, old_: Mac, n: nat, k: Key)
    requires ws != [] && n <= |Reprogram(mac, nv, ws, old_)| && k in t
    requires n <= |Adds(mac, nv, ws, 0)| || (nv != 0 && k.mac == mac && Wanted(nv, k.vlan))
    ensures k in ApplyAll(t, Reprogram(mac, nv, ws, old_)[..n])
  {
    var adds, dels := Adds(mac, nv, ws, 0), Deletes(mac, nv, old_, 0);
    AddsAreAdds(mac, nv, ws, 0);
    if n <= |adds| {
      assert (adds + dels)[..n] == adds[..n];
      AddsKeep(t, adds[..n], k);
    } else {
      var some := dels[..n - |adds|];
      assert (adds + dels)[..n] == adds + some;
      ApplyAppend(t, adds, some);
      AddsKeep(t, adds, k);
      forall op | op in some ensures op.Delete? && op.key != k {
        DeletesSpare(mac, nv, old_, 0, op);
      }
      Untouched(ApplyAll(t, adds), some, k);
    }
  }
}
