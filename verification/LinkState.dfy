/**
 Link state of the vNICs: the packed bitmaps, which VF follows which port, the
 periodic link check of every port, the retry of undelivered interrupts, and
 the update that a VF reconfiguration makes.
 */
module LinkState {
  import opened Bits

  /** vNIC numbering: VFs first, then one PF per port, then the control vNIC. */
  datatype Layout = Layout(vfs: nat, ports: nat) {
    function Vids(): nat { vfs + ports + 1 }
    function PfVid(port: nat): nat { vfs + port }
    function CtrlVid(): nat { vfs + ports }
    function Words(): nat { (Vids() + 31) / 32 }
  }

  /** Link-state modes of a VF: follow the port, forced up, forced down. */
  datatype Mode = Auto | Up | Down

  /** What a VF was last reconfigured with, and the link state that gave it. */
  datatype Applied = Never | Applied(mode: Mode, port: nat, up: bool) {
    predicate Follows(p: nat) { Applied? && mode == Auto && port == p }
  }

  /** The link part of the shared state; `bar` is the link bit of each config BAR's status word. */
  datatype Links = Links(
    ls: seq<Word32>, vs: seq<Word32>, pending: seq<Word32>, follows: seq<seq<Word32>>, bar: seq<bool>,
      applied: seq<Applied>)

  ghost predicate Shaped(y: Layout, s: Links) {
    && |s.ls| == |s.vs| == |s.pending| == y.Words() && |s.follows| == y.ports
    && (forall p | 0 <= p < y.ports :: |s.follows[p]| == y.Words())
    && |s.bar| == y.Vids() && |s.applied| == y.vfs
  }

  lemma VidCovered(y: Layout, ws: seq<Word32>, v: nat)
    requires |ws| == y.Words() && v < y.Vids()
    ensures Covers(ws, v)
  {
  }

  predicate Has(ws: seq<Word32>, v: nat) { Covers(ws, v) && Test(ws, v) }

  function Put(ws: seq<Word32>, v: nat, b: bool): (r: seq<Word32>)
    ensures |r| == |ws|
    ensures forall u: nat :: Has(r, u) <==> (if u == v && Covers(ws, v) then b else Has(ws, u))
  {
    if !Covers(ws, v) then ws else if b then Set(ws, v) else Clear(ws, v)
  }

  // ---- The steps ----

  /** The VF follows the port if `auto` is set, and no other port. */
  function Lead(fs: seq<seq<Word32>>, port: nat, vf: nat, auto: bool): (r: seq<seq<Word32>>)
    ensures |r| == |fs| && forall p | 0 <= p < |fs| :: |r[p]| == |fs[p]|
  {
    seq(|fs|, p requires 0 <= p < |fs| => Put(fs[p], vf, p == port && auto))
  }

  /** update_vf_lsc_list. */
  ghost function UpdateVf(y: Layout, s: Links, port: nat, vf: nat, enabled: bool, mode: Mode,
    barEnabled: bool): (r: Links)
    requires Shaped(y, s) && port < y.ports && vf < y.vfs
    ensures Shaped(y, r)
  {
    var up := mode == Up || Has(s.ls, y.PfVid(port));
    Links(Put(s.ls, vf, up), Put(s.vs, vf, enabled), if barEnabled then Put(s.pending, vf, true) else s.pending,
          Lead(s.follows, port, vf, mode == Auto), s.bar[vf := up], s.applied[vf := Applied(mode, port, up)])
  }

  /** One vNIC of lsc_check_vf. */
  ghost function NotifyVf(y: Layout, s: Links, port: nat, up: bool, fails: nat -> bool, v: nat): (r: Links)
    requires Shaped(y, s) && port < y.ports && v < y.Vids()
    ensures Shaped(y, r) && r == s.(ls := r.ls, bar := r.bar, pending := r.pending)
  {
    if v < y.vfs && Has(s.follows[port], v) then
      s.(ls := Put(s.ls, v, up), bar := s.bar[v := up], pending := Put(s.pending, v, fails(v)))
    else s
  }

  /** lsc_check_vf for the vNICs below `upto`. */
  ghost function NotifyVfs(y: Layout, s: Links, port: nat, up: bool, fails: nat -> bool, upto: nat): (r: Links)
    requires Shaped(y, s) && port < y.ports && upto <= y.Vids()
    ensures Shaped(y, r) && r == s.(ls := r.ls, bar := r.bar, pending := r.pending)
  {
    if upto == 0 then s else NotifyVf(y, NotifyVfs(y, s, port, up, fails, upto - 1), port, up, fails, upto - 1)
  }

  /** lsc_check of one port: the link state the MAC reports, whether the PF is enabled, which interrupts fail. */
  ghost function LscCheck(y: Layout, s: Links, port: nat, macUp: bool, enabled: bool, fails: nat -> bool): (r: Links)
    requires Shaped(y, s) && port < y.ports
    ensures Shaped(y, r) && r.follows == s.follows && r.applied == s.applied
  {
    var pf := y.PfVid(port);
    var changed := macUp != Has(s.ls, pf) || enabled != Has(s.vs, pf);
    var up := macUp && (enabled || !Has(s.vs, pf));
    var s1 := s.(ls := Put(s.ls, pf, macUp), vs := Put(s.vs, pf, enabled), bar := s.bar[pf := up && enabled]);
    if (changed || Has(s.pending, pf)) && enabled then
      var s2 := s1.(pending := Put(s1.pending, pf, fails(pf)));
      if changed then NotifyVfs(y, s2, port, up, fails, y.Vids()) else s2
    else s1
  }

  /** One vNIC of handle_pending_interrupts. */
  ghost function HandleVid(y: Layout, s: Links, enabled: bool, fails: bool, v: nat): (r: Links)
    requires Shaped(y, s)
    ensures Shaped(y, r) && r == s.(pending := r.pending)
  {
    if !enabled then s.(pending := Put(s.pending, v, false))
    else if Has(s.pending, v) then s.(pending := Put(s.pending, v, fails))
    else s
  }

  /** handle_pending_interrupts for the vNICs below `upto`. */
  ghost function HandlePending(y: Layout, s: Links, enabled: nat -> bool, fails: nat -> bool, upto: nat): (r: Links)
    requires Shaped(y, s) && upto <= y.Vids()
    ensures Shaped(y, r) && r == s.(pending := r.pending)
  {
    if upto == 0 then s
    else HandleVid(y, HandlePending(y, s, enabled, fails, upto - 1), enabled(upto - 1), fails(upto - 1), upto - 1)
  }

  // ---- What holds in every reachable state ----

  /**
   A VF follows a port exactly while its last reconfiguration set it to follow
   that port; forced up or down, it keeps the link state that gave it, which is
   up when forced up; and once reconfigured its BAR shows its link state.
   */
  ghost predicate VfOk(y: Layout, s: Links, v: nat)
    requires Shaped(y, s) && v < y.vfs
  {
    var a := s.applied[v];
    && (forall p: nat | p < y.ports :: Has(s.follows[p], v) <==> a.Follows(p))
    && (a.Applied? && a.mode != Auto ==> (Has(s.ls, v) <==> a.up))
    && (a.Applied? && a.mode == Up ==> a.up)
    && (a.Applied? ==> (s.bar[v] <==> Has(s.ls, v)))
  }

  /** While a PF counts as up, every VF that follows its port has its link state. */
  ghost predicate FollowersAgree(y: Layout, s: Links, port: nat)
    requires Shaped(y, s) && port < y.ports
  {
    Has(s.vs, y.PfVid(port)) ==>
      forall v: nat | v < y.vfs && s.applied[v].Follows(port) :: Has(s.ls, v) <==> Has(s.ls, y.PfVid(port))
  }

  ghost predicate Inv(y: Layout, s: Links) {
    && Shaped(y, s)
    && (forall v: nat | v < y.vfs :: VfOk(y, s, v))
    && (forall p: nat | p < y.ports :: FollowersAgree(y, s, p))
  }

  ghost function Reset(y: Layout): Links {
    var none := seq(y.Words(), _ => {});
    Links(none, none, none, seq(y.ports, _ => none), seq(y.Vids(), _ => false), seq(y.vfs, _ => Never))
  }

  lemma ResetInv(y: Layout)
    ensures Inv(y, Reset(y))
  {
  }

  lemma UpdateVfKeeps(y: Layout, s: Links, port: nat, vf: nat, enabled: bool, mode: Mode, barEnabled: bool)
    requires Inv(y, s) && port < y.ports && vf < y.vfs
    ensures Inv(y, UpdateVf(y, s, port, vf, enabled, mode, barEnabled))
  {
    var r := UpdateVf(y, s, port, vf, enabled, mode, barEnabled);
    VidCovered(y, s.ls, vf);
    forall p: nat | p < y.ports ensures FollowersAgree(y, r, p) { assert FollowersAgree(y, s, p); }
    forall v: nat | v < y.vfs ensures VfOk(y, r, v) { assert VfOk(y, s, v); }
  }

  /**
   lsc_check_vf gives the VFs that follow the port its link state, in the bitmap and in
   the BAR, and touches no other vNIC.
   */
  lemma {:induction false} NotifyVfsEffect(y: Layout, s: Links, port: nat, up: bool, fails: nat -> bool, upto: nat,
    v: nat)
    requires Shaped(y, s) && port < y.ports && upto <= y.Vids() && v < y.Vids()
    ensures var r := NotifyVfs(y, s, port, up, fails, upto);
      var told := v < upto && v < y.vfs && Has(s.follows[port], v);
      && (Has(r.ls, v) <==> if told then up else Has(s.ls, v))
      && (r.bar[v] <==> if told then up else s.bar[v])
      && (Has(r.pending, v) <==> if told then fails(v) else Has(s.pending, v))
  {
    VidCovered(y, s.ls, v);
    if upto > 0 { NotifyVfsEffect(y, s, port, up, fails, upto - 1, v); }
  }

  /** What a link check leaves in the link bits of a VF. */
  lemma LscCheckVf(y: Layout, s: Links, port: nat, macUp: bool, enabled: bool, fails: nat -> bool, v: nat)
    requires Shaped(y, s) && port < y.ports && v < y.vfs
    ensures var r, pf := LscCheck(y, s, port, macUp, enabled, fails), y.PfVid(port);
      var told := enabled && (macUp != Has(s.ls, pf) || !Has(s.vs, pf)) && Has(s.follows[port], v);
      && (Has(r.ls, v) <==> if told then macUp else Has(s.ls, v))
      && (r.bar[v] <==> if told then macUp else s.bar[v])
  {
    var pf := y.PfVid(port);
    var s1 := s.(ls := Put(s.ls, pf, macUp), vs := Put(s.vs, pf, enabled), bar := s.bar[pf := macUp && enabled],
                 pending := Put(s.pending, pf, fails(pf)));
    NotifyVfsEffect(y, s1, port, macUp, fails, y.Vids(), v);
  }

  /** What it leaves in those of the PFs. */
  lemma LscCheckPf(y: Layout, s: Links, port: nat, macUp: bool, enabled: bool, fails: nat -> bool, p: nat)
    requires Shaped(y, s) && port < y.ports && p < y.ports
    ensures var r, pf := LscCheck(y, s, port, macUp, enabled, fails), y.PfVid(p);
      && (Has(r.ls, pf) <==> if p == port then macUp else Has(s.ls, pf))
      && (Has(r.vs, pf) <==> if p == port then enabled else Has(s.vs, pf))
      && (r.bar[pf] <==> if p == port then macUp && enabled else s.bar[pf])
  {
    var pf := y.PfVid(port);
    VidCovered(y, s.ls, pf);
    VidCovered(y, s.vs, pf);
    var s1 := s.(ls := Put(s.ls, pf, macUp), vs := Put(s.vs, pf, enabled), bar := s.bar[pf := macUp && enabled],
                 pending := Put(s.pending, pf, fails(pf)));
    NotifyVfsEffect(y, s1, port, macUp, fails, y.Vids(), y.PfVid(p));
  }

  lemma LscCheckKeepsVf(y: Layout, s: Links, port: nat, macUp: bool, enabled: bool, fails: nat -> bool, v: nat)
    requires Inv(y, s) && port < y.ports && v < y.vfs
    ensures VfOk(y, LscCheck(y, s, port, macUp, enabled, fails), v)
  {
    assert VfOk(y, s, v);
    LscCheckVf(y, s, port, macUp, enabled, fails, v);
  }

  lemma LscCheckKeepsPort(y: Layout, s: Links, port: nat, macUp: bool, enabled: bool, fails: nat -> bool, p: nat)
    requires Inv(y, s) && port < y.ports && p < y.ports
    ensures FollowersAgree(y, LscCheck(y, s, port, macUp, enabled, fails), p)
  {
    assert FollowersAgree(y, s, p);
    var r := LscCheck(y, s, port, macUp, enabled, fails);
    LscCheckPf(y, s, port, macUp, enabled, fails, p);
    forall v: nat | Has(r.vs, y.PfVid(p)) && v < y.vfs && r.applied[v].Follows(p)
      ensures Has(r.ls, v) <==> Has(r.ls, y.PfVid(p))
    {
      assert VfOk(y, s, v);
      LscCheckVf(y, s, port, macUp, enabled, fails, v);
    }
  }

  lemma LscCheckKeeps(y: Layout, s: Links, port: nat, macUp: bool, enabled: bool, fails: nat -> bool)
    requires Inv(y, s) && port < y.ports
    ensures Inv(y, LscCheck(y, s, port, macUp, enabled, fails))
  {
    var r := LscCheck(y, s, port, macUp, enabled, fails);
    forall v: nat | v < y.vfs ensures VfOk(y, r, v) { LscCheckKeepsVf(y, s, port, macUp, enabled, fails, v); }
    forall p: nat | p < y.ports
      ensures FollowersAgree(y, r, p) { LscCheckKeepsPort(y, s, port, macUp, enabled, fails, p); }
  }

  lemma HandlePendingKeeps(y: Layout, s: Links, enabled: nat -> bool, fails: nat -> bool)
    requires Inv(y, s)
    ensures Inv(y, HandlePending(y, s, enabled, fails, y.Vids()))
  {
    var r := HandlePending(y, s, enabled, fails, y.Vids());
    forall v: nat | v < y.vfs ensures VfOk(y, r, v) { assert VfOk(y, s, v); }
    forall p: nat | p < y.ports ensures FollowersAgree(y, r, p) { assert FollowersAgree(y, s, p); }
  }

  /** An interrupt stays pending exactly while its vNIC is enabled and it keeps failing. */
  lemma {:induction false} HandlePendingEffect(y: Layout, s: Links, enabled: nat -> bool, fails: nat -> bool,
    upto: nat, v: nat)
    requires Shaped(y, s) && upto <= y.Vids() && v < y.Vids()
    ensures Has(HandlePending(y, s, enabled, fails, upto).pending, v)
      <==> Has(s.pending, v) && (v < upto ==> enabled(v) && fails(v))
  {
    VidCovered(y, s.pending, v);
    if upto > 0 { HandlePendingEffect(y, s, enabled, fails, upto - 1, v); }
  }

  /**
   The link state that an update gives: that of the PF at the moment, also when
   the VF is forced down, unless it is forced up.
   */
  lemma UpdateGives(y: Layout, s: Links, port: nat, vf: nat, enabled: bool, mode: Mode, barEnabled: bool)
    requires Shaped(y, s) && port < y.ports && vf < y.vfs
    ensures var r := UpdateVf(y, s, port, vf, enabled, mode, barEnabled);
      && r.applied[vf] == Applied(mode, port, mode == Up || Has(s.ls, y.PfVid(port)))
      && (Has(r.ls, vf) <==> mode == Up || Has(s.ls, y.PfVid(port)))
  {
    VidCovered(y, s.ls, vf);
  }

  /** What an update leaves of every vNIC: only the VF changes, and its interrupt is owed if its BAR is enabled. */
  lemma UpdateVfEffect(y: Layout, s: Links, port: nat, vf: nat, enabled: bool, mode: Mode, barEnabled: bool, v: nat)
    requires Shaped(y, s) && port < y.ports && vf < y.vfs && v < y.Vids()
    ensures var r := UpdateVf(y, s, port, vf, enabled, mode, barEnabled);
      var up := mode == Up || Has(s.ls, y.PfVid(port));
      && (Has(r.ls, v) <==> if v == vf then up else Has(s.ls, v))
      && (r.bar[v] <==> if v == vf then up else s.bar[v])
      && (Has(r.vs, v) <==> if v == vf then enabled else Has(s.vs, v))
      && (Has(r.pending, v) <==> (v == vf && barEnabled) || Has(s.pending, v))
      && (forall p: nat | p < y.ports ::
            Has(r.follows[p], v) <==> if v == vf then p == port && mode == Auto else Has(s.follows[p], v))
  {
    VidCovered(y, s.ls, v);
  }

  /**
   The interrupts that a link check leaves pending: the PF's if its port changed
   or it was pending, and its followers' if the port changed, each exactly if it
   cannot be sent; all only while the PF is enabled, and no other vNIC's changes.
   */
  lemma LscCheckPending(y: Layout, s: Links, port: nat, macUp: bool, enabled: bool, fails: nat -> bool, v: nat)
    requires Shaped(y, s) && port < y.ports && v < y.Vids()
    ensures var r, pf := LscCheck(y, s, port, macUp, enabled, fails), y.PfVid(port);
      var changed := macUp != Has(s.ls, pf) || enabled != Has(s.vs, pf);
      var sent := enabled && if v == pf then changed || Has(s.pending, pf)
                             else changed && v < y.vfs && Has(s.follows[port], v);
      Has(r.pending, v) <==> if sent then fails(v) else Has(s.pending, v)
  {
    var pf := y.PfVid(port);
    VidCovered(y, s.pending, v);
    var s1 := s.(ls := Put(s.ls, pf, macUp), vs := Put(s.vs, pf, enabled), bar := s.bar[pf := macUp && enabled],
                 pending := Put(s.pending, pf, fails(pf)));
    NotifyVfsEffect(y, s1, port, macUp, fails, y.Vids(), v);
  }

  /** A link check leaves the enable bits of all but the PF, and everything of the control vNIC. */
  lemma LscCheckOthers(y: Layout, s: Links, port: nat, macUp: bool, enabled: bool, fails: nat -> bool, v: nat)
    requires Shaped(y, s) && port < y.ports && v < y.Vids() && v != y.PfVid(port)
    ensures var r := LscCheck(y, s, port, macUp, enabled, fails);
      && (Has(r.vs, v) <==> Has(s.vs, v))
      && (v >= y.vfs ==> (Has(r.ls, v) <==> Has(s.ls, v)) && (r.bar[v] <==> s.bar[v]))
  {
    var pf := y.PfVid(port);
    VidCovered(y, s.ls, v);
    var s1 := s.(ls := Put(s.ls, pf, macUp), vs := Put(s.vs, pf, enabled), bar := s.bar[pf := macUp && enabled],
                 pending := Put(s.pending, pf, fails(pf)));
    NotifyVfsEffect(y, s1, port, macUp, fails, y.Vids(), v);
  }

  /** What the invariant says of the VFs, in the words of the configuration. */
  lemma InvMeans(y: Layout, s: Links, v: nat, p: nat, q: nat)
    requires Inv(y, s) && v < y.vfs && p < y.ports && q < y.ports
    ensures Has(s.follows[p], v) && Has(s.follows[q], v) ==> p == q
    ensures Has(s.vs, y.PfVid(p)) && s.applied[v].Follows(p) ==> (Has(s.ls, v) <==> Has(s.ls, y.PfVid(p)))
    ensures s.applied[v].Applied? && s.applied[v].mode == Up ==> Has(s.ls, v)
    ensures s.applied[v].Applied? && s.applied[v].mode == Down ==> (Has(s.ls, v) <==> s.applied[v].up)
    ensures s.applied[v].Applied? ==> (s.bar[v] <==> Has(s.ls, v))
  {
    assert VfOk(y, s, v) && FollowersAgree(y, s, p);
  }

  // ---- The code ----

  /** The bitmaps and BAR status bits that all contexts of the App Master share. */
  class LinkTable {
    const y: Layout
    var ls: seq<Word32>
    var vs: seq<Word32>
    var pending: seq<Word32>
    var follows: seq<seq<Word32>>
    var bar: seq<bool>
    ghost var applied: seq<Applied>

    ghost function View(): Links reads this { Links(ls, vs, pending, follows, bar, applied) }
    ghost predicate Valid() reads this { Shaped(y, View()) }

    constructor (y: Layout)
      ensures this.y == y && Valid() && View() == Reset(y)
    {
      this.y := y;
      var none: seq<Word32> := seq(y.Words(), _ => {});
      ls, vs, pending, follows := none, none, none, seq(y.ports, _ => none);
      bar, applied := seq(y.Vids(), _ => false), seq(y.vfs, _ => Never);
    }

    /** Sets which port the VF follows, if any, and clears it in every other port's list. */
    method SetLeader(port: nat, vf: nat, auto: bool)
      requires Valid() && port < y.ports
      modifies this`follows
      ensures follows == Lead(old(follows), port, vf, auto)
    {
      follows := follows[port := Put(follows[port], vf, auto)];
      var i := 0;
      while i < y.ports
        modifies this`follows
        invariant 0 <= i <= y.ports == |follows|
        invariant forall p | 0 <= p < y.ports && p != port ::
          follows[p] == if p < i then Put(old(follows)[p], vf, false) else old(follows)[p]
        invariant follows[port] == Put(old(follows)[port], vf, auto)
      {
        if i != port { follows := follows[i := Put(follows[i], vf, false)]; }
        i := i + 1;
      }
    }

    method UpdateVfLscList(port: nat, vf: nat, enabled: bool, mode: Mode, barEnabled: bool)
      requires Valid() && port < y.ports && vf < y.vfs
      modifies this
      ensures Valid() && View() == UpdateVf(y, old(View()), port, vf, enabled, mode, barEnabled)
    {
      var pfUp := Has(ls, y.PfVid(port));
      vs := Put(vs, vf, enabled);
      SetLeader(port, vf, mode == Auto);
      var up := mode == Up || pfUp;
      ls := Put(ls, vf, up);
      bar := bar[vf := up];
      if barEnabled { pending := Put(pending, vf, true); }
      applied := applied[vf := Applied(mode, port, up)];
    }

    /** One vNIC's turn in the loop below. */
    method CheckVf(port: nat, up: bool, fails: nat -> bool, v: nat)
      requires Valid() && port < y.ports && v < y.Vids()
      modifies this
      ensures Valid() && View() == NotifyVf(y, old(View()), port, up, fails, v)
    {
      if v < y.vfs && Has(follows[port], v) {
        ls, bar := Put(ls, v, up), bar[v := up];
        pending := Put(pending, v, fails(v));
      }
    }

    /** lsc_check_vf; `fails` says which interrupts cannot be sent. */
    method CheckVfs(port: nat, up: bool, fails: nat -> bool)
      requires Valid() && port < y.ports
      modifies this
      ensures Valid() && View() == NotifyVfs(y, old(View()), port, up, fails, y.Vids())
    {
      var v := 0;
      while v < y.Vids()
        invariant 0 <= v <= y.Vids() && Valid()
        invariant View() == NotifyVfs(y, old(View()), port, up, fails, v)
      {
        CheckVf(port, up, fails, v);
        v := v + 1;
      }
    }

    /** lsc_check. */
    method Check(port: nat, macUp: bool, enabled: bool, fails: nat -> bool)
      requires Valid() && port < y.ports
      modifies this
      ensures Valid() && View() == LscCheck(y, old(View()), port, macUp, enabled, fails)
    {
      var pf, up, changed := y.PfVid(port), macUp, false;
      if macUp != Has(ls, pf) {
        changed := true;
        ls := Put(ls, pf, macUp);
      }
      if enabled != Has(vs, pf) {
        changed := true;
        if !enabled { up := false; }
        vs := Put(vs, pf, enabled);
      }
      bar := bar[pf := up && enabled];
      SamePut(old(ls), pf);
      SamePut(old(vs), pf);
      if (changed || Has(pending, pf)) && enabled {
        pending := Put(pending, pf, fails(pf));
        if changed { CheckVfs(port, up, fails); }
      }
    }

    /** One vNIC's turn in the loop below. */
    method HandleOne(enabled: bool, fails: bool, v: nat)
      requires Valid()
      modifies this`pending
      ensures Valid() && View() == HandleVid(y, old(View()), enabled, fails, v)
    {
      if enabled {
        if Has(pending, v) { pending := Put(pending, v, fails); }
      } else {
        pending := Put(pending, v, false);
      }
    }

    method HandlePendingInterrupts(enabled: nat -> bool, fails: nat -> bool)
      requires Valid()
      modifies this
      ensures Valid() && View() == HandlePending(y, old(View()), enabled, fails, y.Vids())
    {
      var v := 0;
      while v < y.Vids()
        modifies this`pending
        invariant 0 <= v <= y.Vids() && Valid()
        invariant View() == HandlePending(y, old(View()), enabled, fails, v)
      {
        HandleOne(enabled(v), fails(v), v);
        v := v + 1;
      }
    }
  }

  /** Storing the bit that is already there changes nothing. */
  lemma SamePut(ws: seq<Word32>, v: nat)
    ensures Put(ws, v, Has(ws, v)) == ws
  {
    if Has(ws, v) {
      assert ws[v / 32] + {v % 32} == ws[v / 32];
    } else if Covers(ws, v) {
      assert ws[v / 32] - {v % 32} == ws[v / 32];
    }
  }
}
