/**
 cfg_act_write_veb and the VF/PF transitions that call it: the messages they
 send, and what the VEB holds after any run of them.
 */
module VebProgramming {
  import opened Common
  import opened ActionList
  import opened VebTable
  import B = ActionBuilders
  import opened VebLists
  import L = ListMeanings

  datatype Err = NoError | AddFail | DeleteWarn

  /** The VLAN left in the key by the add loop, and so recorded. */
  function Recorded(nv: Vlan): Vlan { if nv == 0 then NO_VLAN else nv }

  ghost predicate AllStale(mac: Mac, nv: Vlan, old_: Mac, ops: seq<Op>) {
    forall op | op in ops :: op.Delete? && op.key.mac == old_ && Stale(mac, nv, old_, op.key.vlan)
  }

  class Veb {
    var table: Table
    var stored: seq<Key>
    ghost var tried: nat   // messages sent
    ghost var failed: nat  // and not delivered

    constructor (vnics: nat)
      ensures table == map[] && stored == seq(vnics, _ => Key(0, 0))
    {
      table, stored := map[], seq(vnics, _ => Key(0, 0));
      tried, failed := 0, 0;
    }

    /**
     nic_mac_vlan_entry_op_cmsg: one atomic add or delete, which may fail.
     `sent` lists the messages that got through since the table was `t`.
     */
    method Dispatch(op: Op, ghost t: Table, ghost sent: seq<Op>) returns (ok: bool, ghost sent': seq<Op>)
      requires table == ApplyAll(t, sent)
      modifies this`table, this`tried, this`failed
      ensures table == ApplyAll(t, sent')
      ensures sent' == if ok then sent + [op] else sent
      ensures tried == old(tried) + 1 && failed == old(failed) + if ok then 0 else 1
    {
      ok := *;
      tried, failed := tried + 1, failed + if ok then 0 else 1;
      if ok {
        ApplyAppend(t, sent, [op]);
        assert ApplyAll(ApplyAll(t, sent), [op]) == ApplyAll(Apply(ApplyAll(t, sent), op), [op][1..]);
        table := Apply(table, op);
      }
      sent' := if ok then sent + [op] else sent;
    }

    /** The add for one VLAN, if the new key wants it. */
    method AddVlan(mac: Mac, nv: Vlan, v: Vlan, acts: ActionBuffer, ghost ws: seq<Word>, ghost t: Table,
      ghost sent: seq<Op>)
      returns (ok: bool, ghost sent': seq<Op>)
      requires acts.instr.Length == MAX_INSTR && 0 < acts.count <= MAX_INSTR && acts.instr[..acts.count] == ws
      requires table == ApplyAll(t, sent)
      modifies this`table, this`tried, this`failed, acts`count, acts.instr
      ensures table == ApplyAll(t, sent')
      ensures failed == (if ok then old(failed) else old(failed) + 1) && tried >= old(tried)
      ensures sent' != sent || !ok ==> tried > old(tried)
      ensures ok ==> sent' + Adds(mac, nv, ws, v + 1) == sent + Adds(mac, nv, ws, v)
      ensures !ok ==> sent' == sent && Adds(mac, nv, ws, v) != []
      ensures v < 4095 ==> acts.count == old(acts.count) && acts.instr[..acts.count] == ws
    {
      ok, sent' := true, sent;
      if nv == NO_VLAN || v == nv || (nv == 0 && v == NO_VLAN) {
        if v == NO_VLAN { acts.RemoveStripVlan(); }
        ghost var op := Add(Key(mac, v), ListFor(ws, v));
        assert acts.instr[..acts.count] == ListFor(ws, v);
        assert Adds(mac, nv, ws, v) == [op] + Adds(mac, nv, ws, v + 1);
        assert sent + ([op] + Adds(mac, nv, ws, v + 1)) == sent + [op] + Adds(mac, nv, ws, v + 1);
        ok, sent' := Dispatch(Add(Key(mac, v), acts.instr[..acts.count]), t, sent);
      }
    }

    /** The add loop. On failure it stops at once, with the messages sent so far a prefix of the whole. */
    method AddWanted(mac: Mac, nv: Vlan, acts: ActionBuffer) returns (ok: bool, ghost sent: seq<Op>)
      requires acts.instr.Length == MAX_INSTR && 0 < acts.count <= MAX_INSTR
      modifies this`table, this`tried, this`failed, acts`count, acts.instr
      ensures table == ApplyAll(old(table), sent)
      ensures tried > old(tried) && failed == if ok then old(failed) else old(failed) + 1
      ensures var all := Adds(mac, nv, old(acts.instr[..acts.count]), 0); if ok then sent == all else sent < all
    {
      ghost var ws := acts.instr[..acts.count];
      sent := [];
      var v := 0;
      while v <= 4095
        invariant 0 <= v <= 4096 && table == ApplyAll(old(table), sent)
        invariant sent + Adds(mac, nv, ws, v) == Adds(mac, nv, ws, 0)
        invariant v <= 4095 ==> 0 < acts.count <= MAX_INSTR && acts.instr[..acts.count] == ws
        invariant failed == old(failed) && tried >= old(tried) && (sent != [] ==> tried > old(tried))
      {
        ok, sent := AddVlan(mac, nv, v, acts, ws, old(table), sent);
        if !ok { return; }
        v := v + 1;
      }
      SomeAdded(mac, nv, ws);
      ok := true;
    }

    /** The delete for one VLAN, if the old key is stale there. */
    method DeleteVlan(mac: Mac, nv: Vlan, old_: Mac, v: Vlan, ghost t: Table, ghost sent: seq<Op>)
      returns (ok: bool, ghost sent': seq<Op>)
      requires table == ApplyAll(t, sent) && AllStale(mac, nv, old_, sent)
      modifies this`table, this`tried, this`failed
      ensures table == ApplyAll(t, sent') && AllStale(mac, nv, old_, sent')
      ensures failed == (if ok then old(failed) else old(failed) + 1) && tried >= old(tried)
      ensures ok ==> sent' + Deletes(mac, nv, old_, v + 1) == sent + Deletes(mac, nv, old_, v)
    {
      ok, sent' := true, sent;
      if mac != old_ || (nv != NO_VLAN && v != nv) {
        ghost var op := Delete(Key(old_, v));
        assert Deletes(mac, nv, old_, v) == [op] + Deletes(mac, nv, old_, v + 1);
        assert sent + ([op] + Deletes(mac, nv, old_, v + 1)) == sent + [op] + Deletes(mac, nv, old_, v + 1);
        ok, sent' := Dispatch(Delete(Key(old_, v)), t, sent);
      }
    }

    /** The delete loop. A failed delete is reported at the end; the others are still sent. */
    method DeleteStale(mac: Mac, nv: Vlan, old_: Mac) returns (ok: bool, ghost sent: seq<Op>)
      modifies this`table, this`tried, this`failed
      ensures table == ApplyAll(old(table), sent) && AllStale(mac, nv, old_, sent)
      ensures tried >= old(tried) && failed >= old(failed) && (ok <==> failed == old(failed))
      ensures ok ==> sent == Deletes(mac, nv, old_, 0)
    {
      ok, sent := true, [];
      var v := 0;
      while v <= 4095
        invariant 0 <= v <= 4096 && table == ApplyAll(old(table), sent) && AllStale(mac, nv, old_, sent)
        invariant ok ==> sent + Deletes(mac, nv, old_, v) == Deletes(mac, nv, old_, 0)
        invariant tried >= old(tried) && failed >= old(failed) && (ok <==> failed == old(failed))
      {
        var sentOk;
        sentOk, sent := DeleteVlan(mac, nv, old_, v, old(table), sent);
        ok := ok && sentOk;
        v := v + 1;
      }
    }

    /** cfg_act_write_veb with an action list. */
    method WriteVeb(vid: nat, mac: Mac, nv: Vlan, acts: ActionBuffer) returns (err: Err, ghost sent: seq<Op>)
      requires vid < |stored| && acts.instr.Length == MAX_INSTR && 0 < acts.count <= MAX_INSTR
      modifies this, acts`count, acts.instr
      ensures table == ApplyAll(old(table), sent)
      ensures !Unicast(mac) ==> err == AddFail && sent == [] && tried == old(tried)
      ensures Unicast(mac) ==> tried > old(tried) && failed >= old(failed)
      ensures Unicast(mac) ==> (err == NoError <==> failed == old(failed))
      ensures err == AddFail ==> stored == old(stored)
      ensures var adds := Adds(mac, nv, old(acts.instr[..acts.count]), 0);
        && (err == AddFail && Unicast(mac) ==> sent < adds)
        && (err == NoError ==> sent == Reprogram(mac, nv, old(acts.instr[..acts.count]), old(stored)[vid].mac))
        && (err == DeleteWarn ==> adds <= sent && AllStale(mac, nv, old(stored)[vid].mac, sent[|adds|..]))
      ensures err != AddFail ==> stored == old(stored)[vid := Key(mac, Recorded(nv))]
    {
      if !Unicast(mac) { return AddFail, []; }
      var ok;
      ok, sent := AddWanted(mac, nv, acts);
      if !ok { return AddFail, sent; }
      var was := stored[vid];
      stored := stored[vid := Key(mac, Recorded(nv))];
      ghost var dels;
      ok, dels := DeleteStale(mac, nv, was.mac);
      ApplyAppend(old(table), sent, dels);
      return if ok then NoError else DeleteWarn, sent + dels;
    }

    /**
     cfg_act_write_veb without a list, as a VF goes down. The VLAN that it
     compares with was never set; `unset` is what the variable happens to hold.
     */
    method ClearVeb(vid: nat, unset: Vlan) returns (err: Err, ghost sent: seq<Op>)
      requires vid < |stored|
      modifies this
      ensures stored == old(stored)[vid := Key(0, 0)] && err != AddFail
      ensures table == ApplyAll(old(table), sent) && AllStale(0, unset, old(stored)[vid].mac, sent)
      ensures err == NoError ==> sent == Deletes(0, unset, old(stored)[vid].mac, 0)
    {
      var was := stored[vid];
      stored := stored[vid := Key(0, 0)];
      var ok;
      ok, sent := DeleteStale(0, unset, was.mac);
      err := if ok then NoError else DeleteWarn;
    }

    /**
     cfg_act_vf_up, up to the VEB: choose the MAC, build the list, program the
     table. Nothing is sent exactly when the VF may not change its MAC, or the
     chosen MAC, the PF's unless it set none or trusts the VF, is zero or a
     multicast one; then and when a message fails the call is refused.
     */
    method VfUp(n: nat, env: B.Env, sriovMac: Mac, trusted: bool, vlanId: Vlan, updatesMac: bool,
                pc: B.Control, c: B.Control) returns (refused: bool)
      requires n < |stored|
      modifies this
      ensures var fixed := sriovMac != 0 && !trusted;
        var mac := if fixed then sriovMac else env.mac;
        var barred := (fixed && updatesMac && env.mac != sriovMac) || mac == 0 || (mac / 0x100_0000_0000) % 2 == 1;
        && (tried == old(tried) <==> barred) && (refused <==> barred || failed > old(failed))
        && (barred ==> table == old(table) && stored == old(stored))
      ensures |stored| == |old(stored)|
      ensures !refused ==>
        var mac, ws := VfMac(sriovMac, trusted, env.mac), Enc(NONE, B.VebVfActions(env, n, pc, c));
        var nv := if env.vlanTag != 0 then vlanId else NO_VLAN;
        && Unicast(mac) && stored == old(stored)[n := Key(mac, Recorded(nv))]
        && ws != [] && table == ApplyAll(old(table), Reprogram(mac, nv, ws, old(stored)[n].mac))
    {
      var l := new ActionBuffer();
      B.BuildVebVf(l, env, B.Vf(n), pc, c);
      VfListDelivers(env, n, pc, c);
      var nv := if env.vlanTag != 0 then vlanId else NO_VLAN;
      var mac := sriovMac;
      if sriovMac == 0 {
        mac := env.mac;
      } else if trusted {
        mac := env.mac;
      } else if env.mac != mac && updatesMac {
        return true;
      }
      var err, _ := WriteVeb(n, mac, nv, l);
      return err != NoError;
    }

    /** cfg_act_pf_up for the PF that owns the VFs, VEB part. */
    method PfUp(vid: nat, env: B.Env, c: B.Control) returns (refused: bool)
      requires vid < |stored|
      modifies this
      ensures var barred := env.mac == 0 || (env.mac / 0x100_0000_0000) % 2 == 1;
        (tried == old(tried) <==> barred) && (refused <==> barred || failed > old(failed))
      ensures |stored| == |old(stored)|
      ensures !refused ==>
        var ws := Enc(NONE, B.VebPfActions(env, 0, c));
        && Unicast(env.mac) && stored == old(stored)[vid := Key(env.mac, NO_VLAN)]
        && ws != [] && table == ApplyAll(old(table), Reprogram(env.mac, NO_VLAN, ws, old(stored)[vid].mac))
    {
      var l := new ActionBuffer();
      B.BuildVebPf(l, env, B.Pf(0), c);
      PfListDelivers(env, 0, c);
      var err, _ := WriteVeb(vid, env.mac, NO_VLAN, l);
      return err != NoError;
    }
  }

  /** The add loop wants at least one key. */
  lemma SomeAdded(mac: Mac, nv: Vlan, ws: seq<Word>)
    requires ws != []
    ensures Adds(mac, nv, ws, 0) != []
  {
    var k := Key(mac, nv);
    AddsEffect(map[], mac, nv, ws, 0, k);
    assert ApplyAll(map[], []) == map[];
  }

  /** A VF may choose its MAC if the PF set none or trusts it. */
  function VfMac(sriovMac: Mac, trusted: bool, barMac: Mac): Mac {
    if sriovMac == 0 || trusted then barMac else sriovMac
  }

  // ---- Whole runs ----

  /** What a live vNIC was last brought up with. */
  datatype Owner = Owner(mac: Mac, vlan: Vlan, ws: Words)

  type Words = ws: seq<Word> | ws != [] witness [0]

  datatype State = State(table: Table, stored: map<nat, Key>, owners: map<nat, Owner>)

  /** A successful up, or a successful down with whatever the unset VLAN held. */
  datatype Event = Up(vid: nat, o: Owner) | Down(vid: nat, unset: Vlan)

  function StoredMac(s: State, vid: nat): Mac { if vid in s.stored then s.stored[vid].mac else 0 }

  /** Unicast MACs, never shared between live vNICs, and a VLAN other than 0. */
  ghost predicate Legal(s: State, e: Event) {
    e.Up? ==>
      && Unicast(e.o.mac) && e.o.vlan != 0
      && forall vid | vid in s.owners && vid != e.vid :: s.owners[vid].mac != e.o.mac
  }

  function Next(s: State, e: Event): State {
    match e
    case Up(vid, o) =>
      State(ApplyAll(s.table, Reprogram(o.mac, o.vlan, o.ws, StoredMac(s, vid))),
            s.stored[vid := Key(o.mac, Recorded(o.vlan))], s.owners[vid := o])
    case Down(vid, unset) =>
      State(ApplyAll(s.table, Deletes(0, unset, StoredMac(s, vid), 0)), s.stored[vid := Key(0, 0)], s.owners - {vid})
  }

  ghost predicate Owns(s: State, vid: nat, k: Key) {
    vid in s.owners && s.owners[vid].mac == k.mac && Wanted(s.owners[vid].vlan, k.vlan)
  }

  ghost predicate Records(s: State) {
    && (forall vid :: StoredMac(s, vid) == if vid in s.owners then s.owners[vid].mac else 0)
    && (forall vid | vid in s.owners :: Unicast(s.owners[vid].mac))
    && (forall a, b | a in s.owners && b in s.owners && a != b :: s.owners[a].mac != s.owners[b].mac)
  }

  /** The VEB holds a key exactly when a live vNIC owns it, with that vNIC's list. */
  ghost predicate Exact(s: State)
    requires Records(s)
  {
    && (forall vid, k: Key | Owns(s, vid, k) :: Lookup(s.table, k) == Some(ListFor(s.owners[vid].ws, k.vlan)))
    && (forall k: Key | k in s.table :: exists vid :: Owns(s, vid, k))
  }

  lemma UpKeepsRecords(s: State, e: Event)
    requires Records(s) && Legal(s, e) && e.Up?
    ensures Records(Next(s, e))
  {
  }

  lemma UpKey(s: State, e: Event, k: Key)
    requires Records(s) && Exact(s) && Legal(s, e) && e.Up?
    ensures Records(Next(s, e))
    ensures forall vid | Owns(Next(s, e), vid, k) ::
      Lookup(Next(s, e).table, k) == Some(ListFor(Next(s, e).owners[vid].ws, k.vlan))
    ensures k in Next(s, e).table ==> exists vid :: Owns(Next(s, e), vid, k)
  {
    UpKeepsRecords(s, e);
    var t, o, was := Next(s, e), e.o, StoredMac(s, e.vid);
    ReprogramEffect(s.table, o.mac, o.vlan, o.ws, was, k);
    forall vid | Owns(t, vid, k) ensures Lookup(t.table, k) == Some(ListFor(t.owners[vid].ws, k.vlan)) {
      if vid != e.vid { assert Owns(s, vid, k); }
    }
    if k in t.table && !Owns(t, e.vid, k) {
      assert k in s.table;
      var vid :| Owns(s, vid, k);
      assert vid != e.vid;
      assert Owns(t, vid, k);
    }
  }

  lemma DownKey(s: State, e: Event, k: Key)
    requires Records(s) && Exact(s) && e.Down?
    ensures Records(Next(s, e))
    ensures forall vid | Owns(Next(s, e), vid, k) ::
      Lookup(Next(s, e).table, k) == Some(ListFor(Next(s, e).owners[vid].ws, k.vlan))
    ensures k in Next(s, e).table ==> exists vid :: Owns(Next(s, e), vid, k)
  {
    var t, was := Next(s, e), StoredMac(s, e.vid);
    DeletesEffect(s.table, 0, e.unset, was, 0, k);
    forall vid | Owns(t, vid, k) ensures Lookup(t.table, k) == Some(ListFor(t.owners[vid].ws, k.vlan)) {
      assert Owns(s, vid, k);
    }
    if k in t.table {
      var vid :| Owns(s, vid, k);
      assert vid != e.vid;
      assert Owns(t, vid, k);
    }
  }

  lemma StepExact(s: State, e: Event)
    requires Records(s) && Exact(s) && Legal(s, e)
    ensures Records(Next(s, e)) && Exact(Next(s, e))
  {
    if e.Up? {
      UpKeepsRecords(s, e);
      forall k: Key { UpKey(s, e, k); }
    } else {
      forall k: Key { DownKey(s, e, k); }
    }
  }

  function Final(es: seq<Event>): State {
    if es == [] then FRESH else Next(Final(es[..|es| - 1]), es[|es| - 1])
  }

  const FRESH: State := State(map[], map[], map[])

  ghost predicate LegalRun(es: seq<Event>) {
    es == [] || (LegalRun(es[..|es| - 1]) && Legal(Final(es[..|es| - 1]), es[|es| - 1]))
  }

  lemma {:induction false} RunExact(es: seq<Event>)
    requires LegalRun(es)
    ensures Records(Final(es)) && Exact(Final(es)) && NoZeroVlan(Final(es))
  {
    if es != [] {
      RunExact(es[..|es| - 1]);
      StepExact(Final(es[..|es| - 1]), es[|es| - 1]);
    }
  }

  ghost predicate NoZeroVlan(s: State) { forall vid | vid in s.owners :: s.owners[vid].vlan != 0 }

  /**
   After every legal run from an empty table, (mac, vlan) is in the VEB exactly
   when a live vNIC owns mac with that VLAN or with no VLAN set.
   */
  lemma VebIsExact(es: seq<Event>, k: Key)
    requires LegalRun(es)
    ensures var s := Final(es);
      k in s.table <==> exists vid | vid in s.owners ::
        s.owners[vid].mac == k.mac && (s.owners[vid].vlan == NO_VLAN || s.owners[vid].vlan == k.vlan)
  {
    RunExact(es);
    var s := Final(es);
    if k in s.table {
      var vid :| Owns(s, vid, k);
    }
    forall vid | vid in s.owners && s.owners[vid].mac == k.mac
      && (s.owners[vid].vlan == NO_VLAN || s.owners[vid].vlan == k.vlan)
      ensures k in s.table
    {
      assert Owns(s, vid, k);
    }
  }

  // ---- Runs of the code ----

  /** A call with everything that it reads; `pf` is PF 0's vNIC number. */
  datatype Call =
    | VfUp(n: nat, env: B.Env, sriovMac: Mac, trusted: bool, vlanId: Vlan, updatesMac: bool, pc: B.Control,
      c: B.Control)
    | PfUp(env: B.Env, c: B.Control)
    | VfDown(n: nat, unset: Vlan)
  {
    function Vid(pf: nat): nat { if PfUp? then pf else n }

    ghost predicate Fits(pf: nat, vnics: nat) { Vid(pf) < vnics && (!PfUp? ==> n != pf) }

    /** The VLAN of an up: the VF's own, or none. */
    function Tag(): Vlan
      requires !VfDown?
    {
      if VfUp? && env.vlanTag != 0 then vlanId else NO_VLAN
    }

    function OwnMac(): Mac
      requires !VfDown?
    {
      if VfUp? then VfMac(sriovMac, trusted, env.mac) else env.mac
    }

    /** The list that an up programs. */
    ghost function List(): Words
      requires !VfDown?
    {
      if VfUp? then
        VfListDelivers(env, n, pc, c);
        Enc(NONE, B.VebVfActions(env, n, pc, c))
      else
        PfListDelivers(env, 0, c);
        Enc(NONE, B.VebPfActions(env, 0, c))
    }
  }

  ghost function EventOf(pf: nat, c: Call): Event {
    if c.VfDown? then Down(c.n, c.unset) else Up(c.Vid(pf), Owner(c.OwnMac(), c.Tag(), c.List()))
  }

  ghost function Events(pf: nat, calls: seq<Call>): seq<Event> {
    seq(|calls|, i requires 0 <= i < |calls| => EventOf(pf, calls[i]))
  }

  lemma EventsPrefix(pf: nat, calls: seq<Call>, i: nat)
    requires i < |calls|
    ensures Final(Events(pf, calls[..i + 1])) == Next(Final(Events(pf, calls[..i])), EventOf(pf, calls[i]))
  {
    var es := Events(pf, calls[..i + 1]);
    assert es[..i] == Events(pf, calls[..i]) && es[i] == EventOf(pf, calls[i]);
  }

  /** The last call for a vNIC. */
  function Latest(pf: nat, calls: seq<Call>, vid: nat): Option<Call> {
    if calls == [] then None
    else if calls[|calls| - 1].Vid(pf) == vid then Some(calls[|calls| - 1])
    else Latest(pf, calls[..|calls| - 1], vid)
  }

  lemma OwnersNext(s: State, pf: nat, c: Call, vid: nat)
    ensures var t := Next(s, EventOf(pf, c));
      && (vid != c.Vid(pf)
        ==> (vid in t.owners <==> vid in s.owners) && (vid in s.owners ==> t.owners[vid] == s.owners[vid]))
      && (vid == c.Vid(pf)
        ==> if c.VfDown? then vid !in t.owners else vid in t.owners && t.owners[vid] == EventOf(pf, c).o)
  {
  }

  /** A vNIC is live exactly when its last call was an up, and is owner of what that call programmed. */
  lemma {:induction false} OwnerIsLatest(pf: nat, calls: seq<Call>, vid: nat)
    ensures var s, last := Final(Events(pf, calls)), Latest(pf, calls, vid);
      if last.None? || last.value.VfDown? then vid !in s.owners
      else vid in s.owners && s.owners[vid] == EventOf(pf, last.value).o
  {
    if calls == [] {
      assert Events(pf, calls) == [];
    } else {
      var i := |calls| - 1;
      OwnerIsLatest(pf, calls[..i], vid);
      assert calls[..i + 1] == calls;
      EventsPrefix(pf, calls, i);
      OwnersNext(Final(Events(pf, calls[..i])), pf, calls[i], vid);
    }
  }

  /**
   Keys under which a live vNIC is reachable: PF 0 under its BAR MAC; a VF under
   the MAC that the PF set, unless it set none or trusts the VF, else under its
   own BAR MAC; with its VLAN if it has a tag and a VLAN other than 4095.
   */
  predicate Reaches(up: Call, k: Key)
    requires !up.VfDown?
  {
    match up
    case PfUp(env, _) => k.mac == env.mac
    case VfUp(_, env, sriovMac, trusted, vlanId, _, _, _) =>
      && (sriovMac != 0 && !trusted ==> k.mac == sriovMac)
      && (sriovMac == 0 || trusted ==> k.mac == env.mac)
      && (env.vlanTag == 0 || vlanId == 4095 || k.vlan == vlanId)
  }

  lemma ReachesOwn(up: Call, k: Key)
    requires !up.VfDown?
    ensures Reaches(up, k) <==> k.mac == up.OwnMac() && (up.Tag() == NO_VLAN || up.Tag() == k.vlan)
  {
  }

  lemma OwnedEntry(pf: nat, calls: seq<Call>, vid: nat, k: Key)
    requires LegalRun(Events(pf, calls))
    requires var last := Latest(pf, calls, vid); last.Some? && !last.value.VfDown? && Reaches(last.value, k)
    ensures var s := Final(Events(pf, calls));
      k in s.table && s.table[k] == ListFor(Latest(pf, calls, vid).value.List(), k.vlan)
  {
    var s := Final(Events(pf, calls));
    RunExact(Events(pf, calls));
    ReachesOwn(Latest(pf, calls, vid).value, k);
    OwnerIsLatest(pf, calls, vid);
    assert Owns(s, vid, k);
  }

  /** The last call for the vNIC was an up that reaches the key. */
  predicate LiveAt(pf: nat, calls: seq<Call>, vid: nat, k: Key) {
    var last := Latest(pf, calls, vid);
    last.Some? && !last.value.VfDown? && Reaches(last.value, k)
  }

  lemma LiveIsOwner(pf: nat, calls: seq<Call>, vid: nat, k: Key)
    ensures var s := Final(Events(pf, calls));
      LiveAt(pf, calls, vid, k)
      <==> (&& vid in s.owners && s.owners[vid].mac == k.mac
            && (s.owners[vid].vlan == NO_VLAN || s.owners[vid].vlan == k.vlan))
  {
    OwnerIsLatest(pf, calls, vid);
    var last := Latest(pf, calls, vid);
    if last.Some? && !last.value.VfDown? { ReachesOwn(last.value, k); }
  }

  /** After a legal run of calls, the VEB holds a key exactly when some vNIC's last call was an up that reaches it. */
  lemma RunIsExact(pf: nat, calls: seq<Call>, k: Key)
    requires LegalRun(Events(pf, calls))
    ensures k in Final(Events(pf, calls)).table <==> exists vid :: LiveAt(pf, calls, vid, k)
  {
    VebIsExact(Events(pf, calls), k);
    forall vid: nat { LiveIsOwner(pf, calls, vid, k); }
  }

  /** The entry under each key of a live VF delivers to that VF's queue. */
  lemma VfDelivered(pf: nat, calls: seq<Call>, n: nat, up: Call, k: Key)
    requires LegalRun(Events(pf, calls)) && Latest(pf, calls, n) == Some(up) && up.VfUp? && Reaches(up, k)
    ensures var t := Final(Events(pf, calls)).table;
      k in t && FirstHost(t[k]) == Some(up.env.queueOf(B.Vf(n)))
  {
    LatestVid(pf, calls, n);
    OwnedEntry(pf, calls, n, k);
    VfListDelivers(up.env, n, up.pc, up.c);
  }

  /** And it is the VF's list, that without a strip under the no-VLAN key unless an RSS key looks like a strip. */
  lemma VfEntry(pf: nat, calls: seq<Call>, n: nat, up: Call, k: Key)
    requires LegalRun(Events(pf, calls)) && Latest(pf, calls, n) == Some(up) && up.VfUp? && Reaches(up, k)
    requires up.env.vlanTag == 0 && k.vlan == 4095 ==>
      !(B.Promisc in up.pc && B.WantsRss(up.pc) && LooksLikeStrip(up.env.rssKey))
    ensures var t := Final(Events(pf, calls)).table;
      var env := if k.vlan == 4095 then up.env.(vlanTag := 0) else up.env;
      k in t && L.VebVfList(t[k], env, n, up.pc, up.c)
  {
    LatestVid(pf, calls, n);
    OwnedEntry(pf, calls, n, k);
    if k.vlan == 4095 {
      VfUntaggedEntry(up.env, n, up.pc, up.c);
    } else {
      L.VebVfIsList(up.env, n, up.pc, up.c);
    }
  }

  /** What the strip removal makes of a VF's list. */
  lemma VfUntaggedEntry(env: B.Env, n: nat, pc: B.Control, c: B.Control)
    requires env.vlanTag == 0 ==> !(B.Promisc in pc && B.WantsRss(pc) && LooksLikeStrip(env.rssKey))
    ensures Enc(NONE, B.VebVfActions(env, n, pc, c)) != []
    ensures L.VebVfList(RemoveStrip(Enc(NONE, B.VebVfActions(env, n, pc, c))), env.(vlanTag := 0), n, pc, c)
  {
    if env.vlanTag != 0 {
      StripTagged(env, n, pc, c);
      L.MeansVebVfList(RemoveStrip(Enc(NONE, B.VebVfActions(env, n, pc, c))), env.(vlanTag := 0), n, pc, c);
    } else {
      StripUntagged(env, n, pc, c);
      L.VebVfIsList(env, n, pc, c);
      assert env.(vlanTag := 0) == env;
    }
  }

  lemma {:induction false} LatestVid(pf: nat, calls: seq<Call>, vid: nat)
    ensures var last := Latest(pf, calls, vid); last.Some? ==> last.value.Vid(pf) == vid
  {
    if calls != [] { LatestVid(pf, calls[..|calls| - 1], vid); }
  }

  /**
   Under each key of a live PF 0 to its queue, exactly unless it is the no-VLAN key and
   the RSS key looks like a strip.
   */
  lemma PfDelivered(pf: nat, calls: seq<Call>, up: Call, k: Key)
    requires LegalRun(Events(pf, calls)) && Latest(pf, calls, pf) == Some(up) && up.PfUp? && Reaches(up, k)
    ensures var t := Final(Events(pf, calls)).table;
      && k in t
      && (FirstHost(t[k]) == Some(up.env.queueOf(B.Pf(0)))
          <==> !(k.vlan == NO_VLAN && B.WantsRss(up.c) && LooksLikeStrip(up.env.rssKey)))
    ensures var t := Final(Events(pf, calls)).table;
      k.vlan != 4095 ==> L.VebPfList(t[k], up.env, 0, up.c)
  {
    OwnedEntry(pf, calls, pf, k);
    PfListDelivers(up.env, 0, up.c);
    L.VebPfIsList(up.env, 0, up.c);
  }

  /** The object holds the state that the events leave. */
  ghost predicate Holds(v: Veb, s: State)
    reads v
  {
    v.table == s.table && forall vid: nat | vid < |v.stored| :: v.stored[vid].mac == StoredMac(s, vid)
  }

  lemma HoldsNext(v: Veb, was: seq<Key>, s: State, e: Event, k: Key)
    requires forall vid: nat | vid < |was| :: was[vid].mac == StoredMac(s, vid)
    requires e.vid < |was| && v.stored == was[e.vid := k] && v.table == Next(s, e).table
    requires k.mac == if e.Up? then e.o.mac else 0
    ensures Holds(v, Next(s, e))
  {
  }

  /** One successful call is its event. */
  method DoCall(v: Veb, pf: nat, c: Call, ghost s: State) returns (ok: bool)
    requires c.Fits(pf, |v.stored|) && Holds(v, s)
    modifies v
    ensures |v.stored| == old(|v.stored|) && (ok ==> Holds(v, Next(s, EventOf(pf, c))))
  {
    match c {
      case VfUp(n, env, sriovMac, trusted, vlanId, updatesMac, pc, cc) =>
        var refused := v.VfUp(n, env, sriovMac, trusted, vlanId, updatesMac, pc, cc);
        ok := !refused;
      case PfUp(env, cc) =>
        var refused := v.PfUp(pf, env, cc);
        ok := !refused;
      case VfDown(n, unset) =>
        var err, _ := v.ClearVeb(n, unset);
        ok := err == NoError;
    }
    if ok { HoldsNext(v, old(v.stored), s, EventOf(pf, c), v.stored[c.Vid(pf)]); }
  }

  /** Any run of calls that all succeed on a fresh table leaves the table of the run above. */
  method Replay(vnics: nat, pf: nat, calls: seq<Call>) returns (v: Veb, ok: bool)
    requires forall c | c in calls :: c.Fits(pf, vnics)
    ensures fresh(v) && (ok ==> v.table == Final(Events(pf, calls)).table)
  {
    v := new Veb(vnics);
    for i := 0 to |calls|
      invariant fresh(v) && |v.stored| == vnics && Holds(v, Final(Events(pf, calls[..i])))
    {
      EventsPrefix(pf, calls, i);
      ok := DoCall(v, pf, calls[i], Final(Events(pf, calls[..i])));
      if !ok { return; }
    }
    assert calls[..|calls|] == calls;
    ok := true;
  }
}
