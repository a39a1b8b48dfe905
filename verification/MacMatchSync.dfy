/**
 Keeps the two NBIs' MAC match tables in step with the port configuration by
 editing only what changed since the last call.
 */
module MacMatchSync {
  import opened Common
  import opened NbiMemory
  import opened MacMatchTable

  const MAX_PORTS: nat := 8

  /** A uint8_t port mask, as the set of its one bits. */
  type PortMask = s: set<nat> | forall p | p in s :: p < 8

  /** The 16-bit match result: the mask shifted left by 8. */
  function ResultOf(s: PortMask): (r: Half)
    ensures r != 0 <==> s != {}
  {
    assert s != {} ==> exists p :: p in s;
    256 * ((if 0 in s then 1 else 0) + (if 1 in s then 2 else 0) + (if 2 in s then 4 else 0) + (if 3 in s then 8 else 0)
           + (if 4 in s then 16 else 0) + (if 5 in s then 32 else 0) + (if 6 in s then 64 else 0)
             + (if 7 in s then 128 else 0))
  }

  /** Ports enabled in `port_en_mask` and the MAC address of every port. */
  datatype Config = Config(en: set<nat>, macs: seq<Mac>)

  datatype Info = Info(mac: Mac, mask0: PortMask, mask1: PortMask) {
    function Mask(second: bool): PortMask { if second then mask1 else mask0 }
  }

  /** Ports below `split` belong to NBI 0, the rest to NBI 1. */
  datatype Platform = Platform(ports: nat, split: nat) {
    ghost predicate Valid() { ports <= MAX_PORTS }

    ghost predicate Fits(c: Config) {
      |c.macs| == ports && forall p | p in c.en && p < ports :: c.macs[p] != 0
    }

    /** Enabled ports below `upto` that carry `m` on the given NBI. */
    ghost function MaskOf(c: Config, upto: nat, second: bool, m: Mac): PortMask
      requires Valid() && upto <= ports == |c.macs|
    {
      set p | 0 <= p < upto && p in c.en && c.macs[p] == m && (second <==> p >= split)
    }

    /** What a table built from scratch for `c` stores for `m`; 0 is no entry. */
    ghost function Want(c: Config, second: bool, m: Mac): Half
      requires Valid() && |c.macs| == ports
    {
      ResultOf(MaskOf(c, ports, second, m))
    }

    ghost function InfoAt(c: Config, upto: nat, p: nat): Info
      requires Valid() && p < upto <= ports == |c.macs|
    {
      if p in c.en then Info(c.macs[p], MaskOf(c, upto, false, c.macs[p]), MaskOf(c, upto, true, c.macs[p]))
      else Info(0, {}, {})
    }

    ghost predicate IsInfo(c: Config, info: seq<Info>)
      requires Valid()
    {
      |c.macs| == |info| == ports && forall p | 0 <= p < ports :: info[p] == InfoAt(c, ports, p)
    }

    /** The MACs carried by enabled ports below `upto`. */
    ghost function Macs(c: Config, upto: nat): set<Mac>
      requires upto <= |c.macs|
    {
      set p | 0 <= p < upto && p in c.en :: c.macs[p]
    }

    lemma MaskOfCarrier(c: Config, p: nat)
      requires Valid() && Fits(c) && p < ports && p in c.en
      ensures MaskOf(c, ports, false, c.macs[p]) != {} || MaskOf(c, ports, true, c.macs[p]) != {}
    {
      assert p in MaskOf(c, ports, p >= split, c.macs[p]);
    }

    lemma NotCarried(c: Config, m: Mac, second: bool)
      requires Valid() && Fits(c) && m !in Macs(c, ports)
      ensures Want(c, second, m) == 0
    {
      assert MaskOf(c, ports, second, m) == {};
    }
  }

  /** generate_mac_match_info: every entry of an equivalence class of MACs gets the whole class's mask. */
  method GenerateInfo(pl: Platform, c: Config, info: array<Info>)
    requires pl.Valid() && pl.Fits(c) && info.Length == pl.ports
    modifies info
    ensures pl.IsInfo(c, info[..])
  {
    var port := 0;
    while port < pl.ports
      invariant 0 <= port <= pl.ports
      invariant forall p | 0 <= p < port :: info[p] == pl.InfoAt(c, port, p)
    {
      if port in c.en {
        info[port] := Own(pl, c.macs[port], port);
        MergeClass(pl, c, info, port);
      } else {
        info[port] := Info(0, {}, {});
        forall p, second | 0 <= p < port && p in c.en
          ensures pl.MaskOf(c, port, second, c.macs[p]) == pl.MaskOf(c, port + 1, second, c.macs[p])
        {
        }
      }
      port := port + 1;
    }
  }

  /** The masks a port starts with, before it is merged with its class. */
  function Own(pl: Platform, mac: Mac, port: nat): Info
    requires port < MAX_PORTS
  {
    if port < pl.split then Info(mac, {port}, {}) else Info(mac, {}, {port})
  }

  function Merge(a: Info, b: Info): Info {
    a.(mask0 := a.mask0 + b.mask0, mask1 := a.mask1 + b.mask1)
  }

  lemma MaskGrows(pl: Platform, c: Config, port: nat, m: Mac)
    requires pl.Valid() && pl.Fits(c) && port < pl.ports && port in c.en
    ensures var own := Own(pl, c.macs[port], port);
      forall second :: pl.MaskOf(c, port + 1, second, m)
        == pl.MaskOf(c, port, second, m) + if m == c.macs[port] then own.Mask(second) else {}
  {
  }

  /** Adding a port to the scan merges its own mask into exactly the entries that share its MAC. */
  lemma InfoGrows(pl: Platform, c: Config, port: nat, p: nat)
    requires pl.Valid() && pl.Fits(c) && p < port < pl.ports && port in c.en
    ensures var own := Own(pl, c.macs[port], port);
      pl.InfoAt(c, port + 1, p) == if pl.InfoAt(c, port, p).mac == c.macs[port]
        then Merge(pl.InfoAt(c, port, p), own) else pl.InfoAt(c, port, p)
  {
    if p in c.en { MaskGrows(pl, c, port, c.macs[p]); }
  }

  lemma FirstOfClass(pl: Platform, c: Config, port: nat)
    requires pl.Valid() && pl.Fits(c) && port < pl.ports && port in c.en
    requires c.macs[port] !in pl.Macs(c, port)
    ensures pl.InfoAt(c, port + 1, port) == Own(pl, c.macs[port], port)
  {
    var mac := c.macs[port];
    MaskGrows(pl, c, port, mac);
    forall second: bool ensures pl.MaskOf(c, port, second, mac) == {} {
    }
  }

  lemma MergeAbsorbs(pl: Platform, c: Config, port: nat, p: nat)
    requires pl.Valid() && pl.Fits(c) && p < port < pl.ports && port in c.en
    requires p in c.en && c.macs[p] == c.macs[port]
    ensures Merge(pl.InfoAt(c, port, p), pl.InfoAt(c, port + 1, port)) == pl.InfoAt(c, port + 1, p)
    ensures pl.InfoAt(c, port + 1, p) == pl.InfoAt(c, port + 1, port)
  {
    MaskGrows(pl, c, port, c.macs[p]);
  }

  /** The inner loop: merges the new port's mask with those of earlier ports that share its MAC. */
  method MergeClass(pl: Platform, c: Config, info: array<Info>, port: nat)
    requires pl.Valid() && pl.Fits(c) && info.Length == pl.ports && port < pl.ports && port in c.en
    requires forall p | 0 <= p < port :: info[p] == pl.InfoAt(c, port, p)
    requires info[port] == Own(pl, c.macs[port], port)
    modifies info
    ensures forall p | 0 <= p <= port :: info[p] == pl.InfoAt(c, port + 1, p)
  {
    ghost var mac := c.macs[port];
    var i := 0;
    while i < port
      invariant 0 <= i <= port
      invariant forall p | 0 <= p < i :: info[p] == pl.InfoAt(c, port + 1, p)
      invariant forall p | i <= p < port :: info[p] == pl.InfoAt(c, port, p)
      invariant info[port] == if mac in pl.Macs(c, i) then pl.InfoAt(c, port + 1, port) else Own(pl, mac, port)
    {
      InfoGrows(pl, c, port, i);
      if info[i].mac == info[port].mac {
        MergeAbsorbs(pl, c, port, i);
        info[i] := Merge(info[i], info[port]);
        info[port] := info[port].(mask0 := info[i].mask0, mask1 := info[i].mask1);
        assert mac in pl.Macs(c, i + 1);
      }
      i := i + 1;
    }
    if mac !in pl.Macs(c, port) {
      FirstOfClass(pl, c, port);
    }
  }

  /** The first entry below `upto` with this MAC, or `upto`. */
  method FindMac(info: seq<Info>, mac: Mac, upto: nat) returns (i: nat)
    requires upto <= |info|
    ensures i <= upto && (i < upto ==> info[i].mac == mac)
    ensures forall j | 0 <= j < i :: info[j].mac != mac
  {
    i := 0;
    while i < upto && info[i].mac != mac
      invariant i <= upto && forall j | 0 <= j < i :: info[j].mac != mac
    {
      i := i + 1;
    }
  }

  lemma FoundIsCarried(pl: Platform, c: Config, info: seq<Info>, mac: Mac, upto: nat, i: nat)
    requires pl.Valid() && pl.Fits(c) && pl.IsInfo(c, info) && mac != 0 && i <= upto <= pl.ports
    requires (i < upto ==> info[i].mac == mac) && forall j | 0 <= j < i :: info[j].mac != mac
    ensures i < upto <==> mac in pl.Macs(c, upto)
    ensures i < upto ==> forall second :: info[i].Mask(second) == pl.MaskOf(c, pl.ports, second, mac)
  {
    if i < upto {
      assert i in c.en && c.macs[i] == mac;
    } else {
      forall p | 0 <= p < upto && p in c.en ensures c.macs[p] != mac {
        assert info[p].mac == c.macs[p];
      }
    }
  }

  /** A MAC that the old or the new configuration puts into one NBI's table. */
  ghost predicate Uses(pl: Platform, oc: Config, nc: Config, second: bool, m: Mac)
    requires pl.Valid() && |oc.macs| == |nc.macs| == pl.ports
  {
    pl.Want(oc, second, m) != 0 || pl.Want(nc, second, m) != 0
  }

  /** No bucket is asked to hold three MACs while the change is in progress. */
  ghost predicate Room(pl: Platform, oc: Config, nc: Config, h: Hash)
    requires pl.Valid() && |oc.macs| == |nc.macs| == pl.ports
  {
    forall second: bool, a: Mac, b: Mac, c: Mac ::
      (Uses(pl, oc, nc, second, a) && Uses(pl, oc, nc, second, b) && Uses(pl, oc, nc, second, c)
       && h(a) == h(b) == h(c)) ==> a == b || a == c || b == c
  }

  /** What the two tables answer: the result for a MAC on NBI 0 or 1, 0 for none. */
  type View = (bool, Mac) -> Half

  ghost predicate InStep(pl: Platform, c: Config, v: View)
    requires pl.Valid() && |c.macs| == pl.ports
  {
    forall second, m: Mac :: v(second, m) == pl.Want(c, second, m)
  }

  ghost predicate SameExcept(mac: Mac, before: View, after: View) {
    forall second, m: Mac | m != mac :: after(second, m) == before(second, m)
  }

  /** The bucket of `mac` is taken by two other MACs. */
  ghost predicate Crowded(h: Hash, v: View, second: bool, mac: Mac) {
    exists a: Mac, b: Mac ::
      a != b && a != mac && b != mac && h(a) == h(b) == h(mac) && v(second, a) != 0 && v(second, b) != 0
  }

  /** An add was refused: the wanted entry is missing and its bucket is full. */
  ghost predicate Refused(h: Hash, v: View, second: bool, mac: Mac) {
    v(second, mac) == 0 && Crowded(h, v, second, mac)
  }

  /** What the code aims at for one entry: it is set if its mask changed and left as it was otherwise. */
  ghost function Edited(pl: Platform, oc: Config, nc: Config, second: bool, m: Mac, before: Half): Half
    requires pl.Valid() && |oc.macs| == |nc.macs| == pl.ports
  {
    if pl.MaskOf(oc, pl.ports, second, m) != pl.MaskOf(nc, pl.ports, second, m) then pl.Want(nc, second, m) else before
  }

  /** Every entry is edited, from whatever tables. */
  ghost predicate AllEdited(pl: Platform, oc: Config, nc: Config, before: View, after: View)
    requires pl.Valid() && |oc.macs| == |nc.macs| == pl.ports
  {
    forall second, m: Mac :: after(second, m) == Edited(pl, oc, nc, second, m, before(second, m))
  }

  /** Every entry that the change leaves alone was right. */
  ghost predicate UnchangedRight(pl: Platform, oc: Config, nc: Config, before: View)
    requires pl.Valid() && |oc.macs| == |nc.macs| == pl.ports
  {
    forall second, m: Mac | pl.MaskOf(oc, pl.ports, second, m) == pl.MaskOf(nc, pl.ports, second, m) ::
      before(second, m) == pl.Want(nc, second, m)
  }

  lemma InStepUnchanged(pl: Platform, oc: Config, nc: Config, v: View)
    requires pl.Valid() && |oc.macs| == |nc.macs| == pl.ports && InStep(pl, oc, v)
    ensures UnchangedRight(pl, oc, nc, v)
  {
  }

  /** An add that the change needs for this MAC would be refused by these tables. */
  ghost predicate Blocks(pl: Platform, h: Hash, oc: Config, nc: Config, v: View, second: bool, mac: Mac)
    requires pl.Valid() && |oc.macs| == |nc.macs| == pl.ports
  {
    && pl.MaskOf(oc, pl.ports, second, mac) != pl.MaskOf(nc, pl.ports, second, mac) && pl.Want(nc, second, mac) != 0
    && Refused(h, v, second, mac)
  }

  /** What one reconciled MAC does to the tables; `ok` is whether every add found room. */
  ghost predicate PortEffect(pl: Platform, h: Hash, oc: Config, nc: Config, mac: Mac, before: View, after: View,
                             ok: bool)
    requires pl.Valid() && |oc.macs| == |nc.macs| == pl.ports
  {
    && SameExcept(mac, before, after)
    && (ok ==> forall second :: after(second, mac) == Edited(pl, oc, nc, second, mac, before(second, mac)))
    && (!ok ==> exists second :: pl.Want(nc, second, mac) != 0 && after(second, mac) == 0)
    && (ok <==> forall second :: !Blocks(pl, h, oc, nc, before, second, mac))
  }

  /** What the two adds of one MAC need and leave, in terms of its old and new record. */
  ghost predicate EditEffect(h: Hash, mac: Mac, want: Info, had: Info, before: View, after: View, ok: bool) {
    && SameExcept(mac, before, after)
    && (ok ==> forall second ::
          after(second, mac) == if want.Mask(second) != had.Mask(second) then ResultOf(want.Mask(second))
            else before(second, mac))
    && (!ok ==> exists second :: want.Mask(second) != {} && after(second, mac) == 0)
    && (ok <==> forall second ::
          !(want.Mask(second) != had.Mask(second) && want.Mask(second) != {} && Refused(h, before, second, mac)))
  }

  /** The add of one NBI, if it is due. */
  ghost predicate HalfAdded(h: Hash, second: bool, mac: Mac, want: Info, had: Info, v: View, w: View, ok: bool) {
    var due := want.Mask(second) != {} && want.Mask(second) != had.Mask(second);
    && SameExcept(mac, v, w) && w(!second, mac) == v(!second, mac)
    && (ok <==> !(due && Refused(h, v, second, mac)))
    && w(second, mac) == if !due then v(second, mac) else if ok then ResultOf(want.Mask(second)) else 0
  }

  /** The remove of one NBI, if it is due. */
  ghost predicate HalfRemoved(second: bool, mac: Mac, want: Info, had: Info, v: View, w: View) {
    var due := want.Mask(second) == {} && want.Mask(second) != had.Mask(second);
    && SameExcept(mac, v, w) && w(!second, mac) == v(!second, mac)
    && w(second, mac) == if due then 0 else v(second, mac)
  }

  lemma HalvesCombine(h: Hash, mac: Mac, want: Info, had: Info, v0: View, v1: View, v2: View, v3: View, v4: View,
                      ok0: bool, ok1: bool)
    requires HalfAdded(h, false, mac, want, had, v0, v1, ok0) && HalfAdded(h, true, mac, want, had, v1, v2, ok1)
    requires HalfRemoved(false, mac, want, had, v2, v3) && HalfRemoved(true, mac, want, had, v3, v4)
    ensures EditEffect(h, mac, want, had, v0, v4, ok0 && ok1)
  {
    RefusedSame(h, v0, v1, true, mac);
    assert v4(false, mac) == v3(false, mac) && v2(false, mac) == v1(false, mac);
    assert v3(true, mac) == v2(true, mac) && v1(true, mac) == v0(true, mac);
    if !ok0 {
      assert want.Mask(false) != {} && v4(false, mac) == 0;
    } else if !ok1 {
      assert want.Mask(true) != {} && v4(true, mac) == 0;
    }
  }

  lemma EditIsPortEffect(pl: Platform, h: Hash, oc: Config, nc: Config, mac: Mac, want: Info, had: Info,
                         before: View, after: View, ok: bool)
    requires pl.Valid() && |oc.macs| == |nc.macs| == pl.ports && EditEffect(h, mac, want, had, before, after, ok)
    requires forall second :: want.Mask(second) == pl.MaskOf(nc, pl.ports, second, mac)
    requires forall second :: had.Mask(second) == pl.MaskOf(oc, pl.ports, second, mac)
    ensures PortEffect(pl, h, oc, nc, mac, before, after, ok)
  {
    forall second ensures Blocks(pl, h, oc, nc, before, second, mac) <==>
      want.Mask(second) != had.Mask(second) && want.Mask(second) != {} && Refused(h, before, second, mac) {
    }
  }

  /** MACs that no new port below `upto` carries have kept their entries. */
  ghost predicate Untouched(pl: Platform, nc: Config, upto: nat, before: View, now: View)
    requires upto <= |nc.macs|
  {
    forall second, m: Mac | m !in pl.Macs(nc, upto) :: now(second, m) == before(second, m)
  }

  /** MACs that a new port below `upto` carries have been edited. */
  ghost predicate Added(pl: Platform, oc: Config, nc: Config, upto: nat, before: View, now: View)
    requires pl.Valid() && |oc.macs| == |nc.macs| == pl.ports && upto <= pl.ports
  {
    forall second, m: Mac | m in pl.Macs(nc, upto) :: now(second, m) == Edited(pl, oc, nc, second, m, before(second, m))
  }

  /** Some MAC carried by a new port below `upto` lacks a wanted entry. */
  ghost predicate Missing(pl: Platform, nc: Config, upto: nat, now: View)
    requires pl.Valid() && |nc.macs| == pl.ports && upto <= pl.ports
  {
    exists second, m: Mac :: m in pl.Macs(nc, upto) && pl.Want(nc, second, m) != 0 && now(second, m) == 0
  }

  /** An entry of the tables with the MACs of new ports below `upto` edited and all others as before. */
  ghost function MetAt(pl: Platform, oc: Config, nc: Config, upto: nat, before: View, second: bool, m: Mac): Half
    requires pl.Valid() && |oc.macs| == |nc.macs| == pl.ports && upto <= pl.ports
  {
    if m in pl.Macs(nc, upto) then Edited(pl, oc, nc, second, m, before(second, m)) else before(second, m)
  }

  ghost function Met(pl: Platform, oc: Config, nc: Config, upto: nat, before: View): View
    requires pl.Valid() && |oc.macs| == |nc.macs| == pl.ports && upto <= pl.ports
  {
    (second: bool, m: Mac) => MetAt(pl, oc, nc, upto, before, second, m)
  }

  /** The first port that carries its MAC, and an add for it is refused by the tables that the code meets there. */
  ghost predicate BlockedAt(pl: Platform, h: Hash, oc: Config, nc: Config, port: nat, before: View)
    requires pl.Valid() && |oc.macs| == |nc.macs| == pl.ports && port < pl.ports
  {
    && port in nc.en && nc.macs[port] !in pl.Macs(nc, port)
    && exists second :: Blocks(pl, h, oc, nc, Met(pl, oc, nc, port, before), second, nc.macs[port])
  }

  ghost predicate BlockedBelow(pl: Platform, h: Hash, oc: Config, nc: Config, upto: nat, before: View)
    requires pl.Valid() && |oc.macs| == |nc.macs| == pl.ports && upto <= pl.ports
  {
    exists port: nat :: port < upto && BlockedAt(pl, h, oc, nc, port, before)
  }

  /** Whether a change needs an add that finds no room, told from the tables before it. */
  ghost predicate Blocked(pl: Platform, h: Hash, oc: Config, nc: Config, before: View)
    requires pl.Valid() && |oc.macs| == |nc.macs| == pl.ports
  {
    BlockedBelow(pl, h, oc, nc, pl.ports, before)
  }

  /** The add loop after the ports below `upto`. */
  ghost predicate AddProgress(pl: Platform, h: Hash, oc: Config, nc: Config, upto: nat, before: View, now: View,
    ok: bool)
    requires pl.Valid() && |oc.macs| == |nc.macs| == pl.ports && upto <= pl.ports
  {
    && Untouched(pl, nc, upto, before, now)
    && (ok ==> Added(pl, oc, nc, upto, before, now))
    && (ok <==> !BlockedBelow(pl, h, oc, nc, upto, before))
    && (!ok ==> Missing(pl, nc, upto, now))
  }

  lemma MacsNext(pl: Platform, c: Config, upto: nat)
    requires upto < |c.macs|
    ensures pl.Macs(c, upto + 1) == pl.Macs(c, upto) + if upto in c.en then {c.macs[upto]} else {}
  {
  }

  lemma AddProgressSkip(pl: Platform, h: Hash, oc: Config, nc: Config, port: nat, before: View, now: View, ok: bool)
    requires pl.Valid() && pl.Fits(oc) && pl.Fits(nc) && port < pl.ports
    requires AddProgress(pl, h, oc, nc, port, before, now, ok)
    requires port in nc.en ==> nc.macs[port] in pl.Macs(nc, port)
    ensures AddProgress(pl, h, oc, nc, port + 1, before, now, ok)
  {
    MacsNext(pl, nc, port);
    assert pl.Macs(nc, port + 1) == pl.Macs(nc, port);
    BlockedNext(pl, h, oc, nc, port, before);
  }

  lemma RefusedSame(h: Hash, v: View, w: View, second: bool, mac: Mac)
    requires forall m: Mac :: v(second, m) == w(second, m)
    ensures Refused(h, v, second, mac) <==> Refused(h, w, second, mac)
  {
  }

  lemma BlockedNext(pl: Platform, h: Hash, oc: Config, nc: Config, port: nat, before: View)
    requires pl.Valid() && |oc.macs| == |nc.macs| == pl.ports && port < pl.ports
    ensures BlockedBelow(pl, h, oc, nc, port + 1, before)
      <==> BlockedBelow(pl, h, oc, nc, port, before) || BlockedAt(pl, h, oc, nc, port, before)
  {
  }

  /** As long as every add found room, the tables are those of `Met`. */
  lemma BlockedHere(pl: Platform, h: Hash, oc: Config, nc: Config, port: nat, before: View, now: View, after: View,
    okPort: bool)
    requires pl.Valid() && pl.Fits(oc) && pl.Fits(nc) && port < pl.ports && port in nc.en
    requires Untouched(pl, nc, port, before, now) && Added(pl, oc, nc, port, before, now)
    requires nc.macs[port] !in pl.Macs(nc, port) && PortEffect(pl, h, oc, nc, nc.macs[port], now, after, okPort)
    ensures okPort <==> !BlockedAt(pl, h, oc, nc, port, before)
  {
    var met, mac := Met(pl, oc, nc, port, before), nc.macs[port];
    assert forall second, m: Mac :: met(second, m) == now(second, m);
    forall second ensures Blocks(pl, h, oc, nc, met, second, mac) <==> Blocks(pl, h, oc, nc, now, second, mac) {
      RefusedSame(h, met, now, second, mac);
    }
  }

  lemma MissingGrows(pl: Platform, h: Hash, oc: Config, nc: Config, port: nat, now: View, after: View, okPort: bool)
    requires pl.Valid() && pl.Fits(oc) && pl.Fits(nc) && port < pl.ports && port in nc.en
    requires nc.macs[port] !in pl.Macs(nc, port)
    requires PortEffect(pl, h, oc, nc, nc.macs[port], now, after, okPort)
    ensures Missing(pl, nc, port, now) || !okPort ==> Missing(pl, nc, port + 1, after)
  {
    MacsNext(pl, nc, port);
    if !okPort {
      assert nc.macs[port] in pl.Macs(nc, port + 1);
    } else if Missing(pl, nc, port, now) {
      var second, m: Mac :| m in pl.Macs(nc, port) && pl.Want(nc, second, m) != 0 && now(second, m) == 0;
      assert after(second, m) == 0;
    }
  }

  lemma AddProgressStep(pl: Platform, h: Hash, oc: Config, nc: Config, port: nat, before: View, now: View, ok: bool,
                        after: View, okPort: bool)
    requires pl.Valid() && pl.Fits(oc) && pl.Fits(nc) && port < pl.ports && port in nc.en
    requires AddProgress(pl, h, oc, nc, port, before, now, ok)
    requires nc.macs[port] !in pl.Macs(nc, port)
    requires PortEffect(pl, h, oc, nc, nc.macs[port], now, after, okPort)
    ensures AddProgress(pl, h, oc, nc, port + 1, before, after, ok && okPort)
  {
    MacsNext(pl, nc, port);
    MissingGrows(pl, h, oc, nc, port, now, after, okPort);
    BlockedNext(pl, h, oc, nc, port, before);
    if ok { BlockedHere(pl, h, oc, nc, port, before, now, after, okPort); }
  }

  /** From tables in step, entries met on the way belong to the old or the new configuration. */
  lemma MetIsUsed(pl: Platform, oc: Config, nc: Config, port: nat, before: View, second: bool, m: Mac)
    requires pl.Valid() && |oc.macs| == |nc.macs| == pl.ports && port <= pl.ports && InStep(pl, oc, before)
    requires MetAt(pl, oc, nc, port, before, second, m) != 0
    ensures Uses(pl, oc, nc, second, m)
  {
  }

  lemma RoomUnblockedAt(pl: Platform, h: Hash, oc: Config, nc: Config, before: View, port: nat, second: bool)
    requires pl.Valid() && pl.Fits(oc) && pl.Fits(nc) && port < pl.ports
    requires InStep(pl, oc, before) && Room(pl, oc, nc, h)
    ensures !Blocks(pl, h, oc, nc, Met(pl, oc, nc, port, before), second, nc.macs[port])
  {
    var v, mac := Met(pl, oc, nc, port, before), nc.macs[port];
    forall a: Mac, b: Mac | a != b && a != mac && b != mac && h(a) == h(b) == h(mac)
      ensures pl.Want(nc, second, mac) == 0 || v(second, a) == 0 || v(second, b) == 0
    {
      if v(second, a) != 0 && v(second, b) != 0 {
        MetIsUsed(pl, oc, nc, port, before, second, a);
        MetIsUsed(pl, oc, nc, port, before, second, b);
      }
    }
  }

  /** So room for both configurations suffices. */
  lemma RoomUnblocked(pl: Platform, h: Hash, oc: Config, nc: Config, before: View)
    requires pl.Valid() && pl.Fits(oc) && pl.Fits(nc) && InStep(pl, oc, before) && Room(pl, oc, nc, h)
    ensures !Blocked(pl, h, oc, nc, before)
  {
    forall port: nat, second | port < pl.ports { RoomUnblockedAt(pl, h, oc, nc, before, port, second); }
  }

  /** The tables of a from-scratch build. */
  ghost function Built(pl: Platform, c: Config): View
    requires pl.Valid() && |c.macs| == pl.ports
  {
    (second: bool, m: Mac) => pl.Want(c, second, m)
  }

  lemma BlockedAtSame(pl: Platform, h: Hash, oc: Config, nc: Config, v: View, w: View, port: nat)
    requires pl.Valid() && |oc.macs| == |nc.macs| == pl.ports && port < pl.ports
    requires (forall second, m: Mac :: v(second, m) == w(second, m)) && BlockedAt(pl, h, oc, nc, port, v)
    ensures BlockedAt(pl, h, oc, nc, port, w)
  {
    var mac, mv, mw := nc.macs[port], Met(pl, oc, nc, port, v), Met(pl, oc, nc, port, w);
    var second :| Blocks(pl, h, oc, nc, mv, second, mac);
    assert forall m: Mac :: mv(second, m) == mw(second, m);
    RefusedSame(h, mv, mw, second, mac);
    assert Blocks(pl, h, oc, nc, mw, second, mac);
  }

  /** From tables in step it depends on the two configurations alone. */
  lemma BlockedInStep(pl: Platform, h: Hash, oc: Config, nc: Config, before: View)
    requires pl.Valid() && |oc.macs| == |nc.macs| == pl.ports && InStep(pl, oc, before)
    ensures Blocked(pl, h, oc, nc, before) <==> Blocked(pl, h, oc, nc, Built(pl, oc))
  {
    var w := Built(pl, oc);
    assert forall second, m: Mac :: before(second, m) == w(second, m);
    forall port: nat | port < pl.ports
      ensures BlockedAt(pl, h, oc, nc, port, before) <==> BlockedAt(pl, h, oc, nc, port, w)
    {
      if BlockedAt(pl, h, oc, nc, port, before) { BlockedAtSame(pl, h, oc, nc, before, w, port); }
      if BlockedAt(pl, h, oc, nc, port, w) { BlockedAtSame(pl, h, oc, nc, w, before, port); }
    }
  }

  // ---- The bits of an answer ----

  /** Bit `j` of a 16-bit result. */
  predicate BitSet(r: nat, j: nat) {
    if j == 0 then r % 2 == 1 else BitSet(r / 2, j - 1)
  }

  /**
   The answers of the two tables, bit by bit: bit `8 + p` is set exactly for the
   MAC of an enabled port `p`, on the NBI that the port belongs to, and no other
   bit is.
   */
  ghost predicate PortBits(pl: Platform, c: Config, v: View)
    requires |c.macs| == pl.ports
  {
    forall second, m: Mac, j: nat | j < 16 ::
      BitSet(v(second, m), j)
      <==> 8 <= j < 8 + pl.ports && j - 8 in c.en && c.macs[j - 8] == m && (second <==> j - 8 >= pl.split)
  }

  function One(b: bool): nat { if b then 1 else 0 }

  lemma Halve(b: bool, x: nat)
    ensures (One(b) + 2 * x) / 2 == x && ((One(b) + 2 * x) % 2 == 1 <==> b)
  {
  }

  /** The number whose bits are the members of `s` from `p` on. */
  function Above(s: PortMask, p: nat): nat
    requires p <= 8
    decreases 8 - p
  {
    if p == 8 then 0 else One(p in s) + 2 * Above(s, p + 1)
  }

  lemma {:induction false} AboveBits(s: PortMask, p: nat, j: nat)
    requires p <= 8
    ensures BitSet(Above(s, p), j) <==> p + j in s
    decreases 8 - p
  {
    if p == 8 {
      ZeroBits(j);
    } else {
      Halve(p in s, Above(s, p + 1));
      if j > 0 { AboveBits(s, p + 1, j - 1); }
    }
  }

  lemma {:induction false} ZeroBits(j: nat)
    ensures !BitSet(0, j)
  {
    if j > 0 { ZeroBits(j - 1); }
  }

  /** Shifting left by `k` moves every bit up by `k`. */
  lemma {:induction false} ShiftedBits(x: nat, k: nat, j: nat)
    ensures BitSet(Shifted(x, k), j) <==> j >= k && BitSet(x, j - k)
  {
    if k > 0 {
      Halve(false, Shifted(x, k - 1));
      if j > 0 { ShiftedBits(x, k - 1, j - 1); }
    }
  }

  function Shifted(x: nat, k: nat): nat { if k == 0 then x else 2 * Shifted(x, k - 1) }

  lemma ResultIsShifted(s: PortMask)
    ensures ResultOf(s) == Shifted(Above(s, 0), 8)
  {
    assert Above(s, 8) == 0 && Above(s, 7) == One(7 in s);
    assert Above(s, 6) == One(6 in s) + 2 * Above(s, 7) && Above(s, 5) == One(5 in s) + 2 * Above(s, 6);
    assert Above(s, 4) == One(4 in s) + 2 * Above(s, 5) && Above(s, 3) == One(3 in s) + 2 * Above(s, 4);
    assert Above(s, 2) == One(2 in s) + 2 * Above(s, 3) && Above(s, 1) == One(1 in s) + 2 * Above(s, 2);
    assert Above(s, 0) == One(0 in s) + 2 * Above(s, 1);
    ShiftedByEight(Above(s, 0));
  }

  lemma ShiftedByEight(x: nat)
    ensures Shifted(x, 8) == 256 * x
  {
    assert Shifted(x, 0) == x && Shifted(x, 1) == 2 * Shifted(x, 0) && Shifted(x, 2) == 2 * Shifted(x, 1);
    assert Shifted(x, 3) == 2 * Shifted(x, 2) && Shifted(x, 4) == 2 * Shifted(x, 3);
    assert Shifted(x, 5) == 2 * Shifted(x, 4) && Shifted(x, 6) == 2 * Shifted(x, 5);
    assert Shifted(x, 7) == 2 * Shifted(x, 6);
  }

  /** The result of a mask has exactly the bits of its ports, eight higher. */
  lemma ResultBits(s: PortMask, j: nat)
    ensures BitSet(ResultOf(s), j) <==> j >= 8 && j - 8 in s
  {
    ResultIsShifted(s);
    ShiftedBits(Above(s, 0), 8, j);
    if j >= 8 { AboveBits(s, 0, j - 8); }
  }

  /** Tables in step with a configuration answer with exactly its ports' bits. */
  lemma InStepBits(pl: Platform, c: Config, v: View)
    requires pl.Valid() && |c.macs| == pl.ports && InStep(pl, c, v)
    ensures PortBits(pl, c, v)
  {
    forall second, m: Mac, j: nat | j < 16
      ensures BitSet(v(second, m), j)
        <==> 8 <= j < 8 + pl.ports && j - 8 in c.en && c.macs[j - 8] == m && (second <==> j - 8 >= pl.split)
    {
      ResultBits(pl.MaskOf(c, pl.ports, second, m), j);
    }
  }

  /** The change from one configuration to another is not blocked, from a from-scratch build of the first. */
  ghost predicate Open(pl: Platform, h: Hash, oc: Config, nc: Config)
    requires pl.Valid() && |oc.macs| == |nc.macs| == pl.ports
  {
    !Blocked(pl, h, oc, nc, Built(pl, oc))
  }

  /** No change of a run of configurations is blocked. */
  ghost predicate AllOpen(pl: Platform, h: Hash, cs: seq<Config>)
    requires pl.Valid() && forall c | c in cs :: pl.Fits(c)
  {
    |cs| < 2 ||
    var rest, nc := cs[..|cs| - 1], cs[|cs| - 1];
    assert pl.Fits(cs[|cs| - 2]) && pl.Fits(nc);
    AllOpen(pl, h, rest) && Open(pl, h, rest[|cs| - 2], nc)
  }

  lemma {:induction false} OpenPrefix(pl: Platform, h: Hash, cs: seq<Config>, i: nat)
    requires pl.Valid() && (forall c | c in cs :: pl.Fits(c)) && i <= |cs| && AllOpen(pl, h, cs)
    ensures AllOpen(pl, h, cs[..i])
    decreases |cs|
  {
    if i == |cs| {
      assert cs[..i] == cs;
    } else if |cs| >= 2 {
      var rest := cs[..|cs| - 1];
      assert rest[..i] == cs[..i];
      OpenPrefix(pl, h, rest, i);
    }
  }

  /** The tables of the two NBIs, as values. */
  datatype Tables = Tables(t0: Table, t1: Table) {
    function Of(second: bool): Table { if second then t1 else t0 }

    ghost function View(h: Hash): View {
      (second: bool, m: Mac) => Get(Of(second), h, m)
    }

    ghost predicate Wf(h: Hash) {
      MacMatchTable.Wf(t0, h) && MacMatchTable.Wf(t1, h)
    }
  }

  /** Adding what is new and then removing what is gone edits every entry, from whatever tables. */
  lemma DiffEdits(pl: Platform, h: Hash, oc: Config, nc: Config, before: View, mid: View, after: View)
    requires pl.Valid() && pl.Fits(oc) && pl.Fits(nc)
    requires AddProgress(pl, h, oc, nc, pl.ports, before, mid, true)
    requires Removed(pl, oc, nc, pl.ports, mid, after)
    ensures AllEdited(pl, oc, nc, before, after)
  {
    forall second, m: Mac ensures after(second, m) == Edited(pl, oc, nc, second, m, before(second, m)) {
      if m !in pl.Macs(nc, pl.ports) {
        pl.NotCarried(nc, m, second);
        if m !in pl.Macs(oc, pl.ports) { pl.NotCarried(oc, m, second); }
      }
    }
  }

  /**
   It leaves what a rebuild would exactly when every add found room and every
   entry that it did not have to change was right before.
   */
  lemma DiffIsRebuild(pl: Platform, h: Hash, oc: Config, nc: Config, before: View, mid: View, after: View, ok: bool)
    requires pl.Valid() && pl.Fits(oc) && pl.Fits(nc)
    requires AddProgress(pl, h, oc, nc, pl.ports, before, mid, ok)
    requires Removed(pl, oc, nc, pl.ports, mid, after)
    ensures InStep(pl, nc, after) <==> ok && UnchangedRight(pl, oc, nc, before)
  {
    if ok {
      DiffEdits(pl, h, oc, nc, before, mid, after);
    } else {
      var second, m: Mac :| m in pl.Macs(nc, pl.ports) && pl.Want(nc, second, m) != 0 && mid(second, m) == 0;
      assert after(second, m) == 0;
    }
  }

  lemma FullIsCrowded(ts: Tables, h: Hash, second: bool, mac: Mac)
    requires ts.Wf(h) && Get(ts.Of(second), h, mac) == 0
    ensures Full(ts.Of(second)[h(mac)]) <==> Refused(h, ts.View(h), second, mac)
  {
    var e, v := ts.Of(second)[h(mac)], ts.View(h);
    assert WfEntry(e, h(mac), h);
    LiveIsGet(e, mac);
    if Full(e) {
      LiveIsGet(e, e.Mac0());
      LiveIsGet(e, e.Mac1());
      assert v(second, e.Mac0()) != 0 && v(second, e.Mac1()) != 0;
    } else if Crowded(h, v, second, mac) {
      var a: Mac, b: Mac :| a != b && a != mac && b != mac && h(a) == h(b) == h(mac) && v(second, a) != 0
        && v(second, b) != 0;
      LiveIsGet(e, a);
      LiveIsGet(e, b);
    }
  }

  lemma AddView(ts: Tables, h: Hash, second: bool, mac: Mac, res: Half, after: Tables, ok: bool)
    requires ts.Wf(h) && res != 0
    requires TableAdd(ts.Of(second), h, mac, res) == (after.Of(second), ok) && after.Of(!second) == ts.Of(!second)
    ensures after.Wf(h) && SameExcept(mac, ts.View(h), after.View(h))
    ensures after.View(h)(!second, mac) == ts.View(h)(!second, mac)
    ensures ok ==> after.View(h)(second, mac) == res
    ensures !ok ==> after.View(h)(second, mac) == 0
    ensures ok <==> !Refused(h, ts.View(h), second, mac)
  {
    TableAddEffect(ts.Of(second), h, mac, res);
    assert after.View(h)(second, mac) == Get(after.Of(second), h, mac);
    if Get(ts.Of(second), h, mac) == 0 { FullIsCrowded(ts, h, second, mac); }
  }

  lemma RemoveView(ts: Tables, h: Hash, second: bool, mac: Mac, after: Tables)
    requires ts.Wf(h)
    requires TableRemove(ts.Of(second), h, mac).0 == after.Of(second) && after.Of(!second) == ts.Of(!second)
    ensures after.Wf(h) && SameExcept(mac, ts.View(h), after.View(h))
    ensures after.View(h)(!second, mac) == ts.View(h)(!second, mac)
    ensures after.View(h)(second, mac) == 0
  {
    TableRemoveEffect(ts.Of(second), h, mac);
    assert after.View(h)(second, mac) == Get(after.Of(second), h, mac);
  }

  /** The remove loop after the old ports below `upto`. */
  ghost predicate Removed(pl: Platform, oc: Config, nc: Config, upto: nat, before: View, now: View)
    requires pl.Valid() && |oc.macs| == |nc.macs| == pl.ports && upto <= pl.ports
  {
    forall second, m: Mac :: now(second, m) ==
      (if m in pl.Macs(oc, upto) && m !in pl.Macs(nc, pl.ports) && pl.Want(oc, second, m) != 0 then 0
       else before(second, m))
  }

  lemma RemovedStep(pl: Platform, oc: Config, nc: Config, port: nat, before: View, now: View, after: View)
    requires pl.Valid() && pl.Fits(oc) && pl.Fits(nc) && port < pl.ports && port in oc.en
    requires Removed(pl, oc, nc, port, before, now) && oc.macs[port] !in pl.Macs(nc, pl.ports)
    requires SameExcept(oc.macs[port], now, after)
    requires forall second ::
      after(second, oc.macs[port]) == if pl.Want(oc, second, oc.macs[port]) != 0 then 0 else now(second, oc.macs[port])
    ensures Removed(pl, oc, nc, port + 1, before, after)
  {
    MacsNext(pl, oc, port);
  }

  lemma RemovedSkip(pl: Platform, oc: Config, nc: Config, port: nat, before: View, now: View)
    requires pl.Valid() && pl.Fits(oc) && pl.Fits(nc) && port < pl.ports
    requires Removed(pl, oc, nc, port, before, now)
    requires port in oc.en ==> oc.macs[port] in pl.Macs(oc, port) || oc.macs[port] in pl.Macs(nc, pl.ports)
    ensures Removed(pl, oc, nc, port + 1, before, now)
  {
    MacsNext(pl, oc, port);
  }

  /** Zeroed memory holds two copies of the empty table. */
  lemma ZeroedMemory(mem: seq<Word>, h: Hash)
    requires mem == seq(NBI_WORDS, _ => 0)
    ensures Mirrored(mem) && Buckets(mem) == EMPTY_TABLE && Wf(EMPTY_TABLE, h)
    ensures forall m: Mac :: Get(EMPTY_TABLE, h, m) == 0
  {
    forall at: nat | at + 4 <= |mem| ensures EntryAt(mem, at) == Entry(0, 0, 0, 0, 0, 0) {
      assert mem[at..at + 4] == [0, 0, 0, 0];
    }
  }

  class PortSync {
    const pl: Platform
    const h: Hash
    const nbi0: Nbi
    const nbi1: Nbi
    const curr: array<Info>

    ghost predicate Valid()
      reads nbi0, nbi1
    {
      && pl.Valid() && curr.Length == pl.ports && nbi0 != nbi1
      && |nbi0.mem| == NBI_WORDS && Mirrored(nbi0.mem)
      && |nbi1.mem| == NBI_WORDS && Mirrored(nbi1.mem)
      && Now().Wf(h)
    }

    ghost function Now(): Tables
      reads nbi0, nbi1
      requires |nbi0.mem| == NBI_WORDS && |nbi1.mem| == NBI_WORDS
    {
      Tables(Buckets(nbi0.mem), Buckets(nbi1.mem))
    }

    constructor (pl: Platform, h: Hash)
      requires pl.Valid()
      ensures Valid() && this.pl == pl && this.h == h && fresh(nbi0) && fresh(nbi1) && fresh(curr)
      ensures forall c :: pl.Fits(c) && c.en == {} ==> pl.IsInfo(c, curr[..]) && InStep(pl, c, Now().View(h))
    {
      this.pl, this.h := pl, h;
      var n0 := new Nbi();
      var n1 := new Nbi();
      nbi0, nbi1 := n0, n1;
      curr := new Info[pl.ports](_ => Info(0, {}, {}));
      new;
      ZeroedMemory(n0.mem, h);
      ZeroedMemory(n1.mem, h);
      forall c | pl.Fits(c) && c.en == {} ensures InStep(pl, c, Now().View(h)) {
        forall second, m: Mac ensures pl.Want(c, second, m) == 0 {
          pl.NotCarried(c, m, second);
        }
      }
    }

    method Add(second: bool, mac: Mac, mask: PortMask) returns (err: int)
      requires Valid() && mask != {}
      modifies if second then nbi1 else nbi0
      ensures Valid() && SameExcept(mac, old(Now()).View(h), Now().View(h))
      ensures Now().View(h)(!second, mac) == old(Now()).View(h)(!second, mac)
      ensures Now().View(h)(second, mac) == if err == 0 then ResultOf(mask) else 0
      ensures err == 0 <==> !Refused(h, old(Now()).View(h), second, mac)
    {
      err := AddEntry(if second then nbi1 else nbi0, h, mac, ResultOf(mask));
      AddView(old(Now()), h, second, mac, ResultOf(mask), Now(), err == 0);
    }

    method Remove(second: bool, mac: Mac)
      requires Valid()
      modifies if second then nbi1 else nbi0
      ensures Valid() && SameExcept(mac, old(Now()).View(h), Now().View(h))
      ensures Now().View(h)(!second, mac) == old(Now()).View(h)(!second, mac)
      ensures Now().View(h)(second, mac) == 0
    {
      var _ := RemoveEntry(if second then nbi1 else nbi0, h, mac);
      RemoveView(old(Now()), h, second, mac, Now());
    }

    method AddIfDue(second: bool, mac: Mac, want: Info, had: Info) returns (err: int)
      requires Valid()
      modifies nbi0, nbi1
      ensures Valid() && HalfAdded(h, second, mac, want, had, old(Now()).View(h), Now().View(h), err == 0)
      ensures want.Mask(second) == had.Mask(second) ==> err == 0 && Now() == old(Now())
    {
      err := 0;
      if want.Mask(second) != {} && want.Mask(second) != had.Mask(second) {
        err := Add(second, mac, want.Mask(second));
      }
    }

    method RemoveIfDue(second: bool, mac: Mac, want: Info, had: Info)
      requires Valid()
      modifies nbi0, nbi1
      ensures Valid() && HalfRemoved(second, mac, want, had, old(Now()).View(h), Now().View(h))
      ensures want.Mask(second) == had.Mask(second) ==> Now() == old(Now())
    {
      if want.Mask(second) == {} && want.Mask(second) != had.Mask(second) { Remove(second, mac); }
    }

    /** A MAC that both records know: edit each NBI's entry only if its mask changed. */
    method UpdateKnown(mac: Mac, want: Info, had: Info) returns (err: int)
      requires Valid()
      modifies nbi0, nbi1
      ensures Valid() && EditEffect(h, mac, want, had, old(Now()).View(h), Now().View(h), err == 0)
      ensures want.mask0 == had.mask0 && want.mask1 == had.mask1 ==> err == 0 && Now() == old(Now())
    {
      var err0 := AddIfDue(false, mac, want, had);
      ghost var v1 := Now().View(h);
      var err1 := AddIfDue(true, mac, want, had);
      ghost var v2 := Now().View(h);
      RemoveIfDue(false, mac, want, had);
      ghost var v3 := Now().View(h);
      RemoveIfDue(true, mac, want, had);
      err := if err0 != 0 then err0 else err1;
      HalvesCombine(h, mac, want, had, old(Now()).View(h), v1, v2, v3, Now().View(h), err0 == 0, err1 == 0);
    }

    /** A MAC that only the new record knows. */
    method AddFresh(mac: Mac, want: Info) returns (err: int)
      requires Valid()
      modifies nbi0, nbi1
      ensures Valid() && EditEffect(h, mac, want, Info(mac, {}, {}), old(Now()).View(h), Now().View(h), err == 0)
    {
      var none := Info(mac, {}, {});
      var err0 := AddIfDue(false, mac, want, none);
      ghost var v1 := Now().View(h);
      var err1 := AddIfDue(true, mac, want, none);
      ghost var v2 := Now().View(h);
      err := if err0 != 0 then err0 else err1;
      HalvesCombine(h, mac, want, none, old(Now()).View(h), v1, v2, v2, v2, err0 == 0, err1 == 0);
    }

    /** One iteration of the add loop, for a port whose masks are not empty. */
    method AddPort(info: seq<Info>, port: nat, ghost oc: Config, ghost nc: Config) returns (err: int)
      requires Valid() && pl.Fits(oc) && pl.Fits(nc) && pl.IsInfo(oc, curr[..]) && pl.IsInfo(nc, info)
      requires port < pl.ports && port in nc.en
      modifies nbi0, nbi1
      ensures Valid()
      ensures PortEffect(pl, h, oc, nc, nc.macs[port], old(Now()).View(h), Now().View(h), err == 0)
      ensures info == curr[..] ==> err == 0 && Now() == old(Now())
    {
      var mac := info[port].mac;
      var i := FindMac(curr[..], mac, curr.Length);
      FoundIsCarried(pl, oc, curr[..], mac, pl.ports, i);
      ghost var had := Info(mac, {}, {});
      if i < curr.Length {
        had := curr[i];
        err := UpdateKnown(mac, info[port], curr[i]);
      } else {
        forall second { pl.NotCarried(oc, mac, second); }
        err := AddFresh(mac, info[port]);
      }
      EditIsPortEffect(pl, h, oc, nc, mac, info[port], had, old(Now()).View(h), Now().View(h), err == 0);
    }

    /** One iteration of the add loop. */
    method AddIteration(info: seq<Info>, port: nat, err0: int, ghost before: View, ghost oc: Config,
      ghost nc: Config) returns (err: int)
      requires Valid() && pl.Fits(oc) && pl.Fits(nc) && pl.IsInfo(oc, curr[..]) && pl.IsInfo(nc, info)
      requires port < pl.ports && AddProgress(pl, h, oc, nc, port, before, Now().View(h), err0 == 0)
      modifies nbi0, nbi1
      ensures Valid() && AddProgress(pl, h, oc, nc, port + 1, before, Now().View(h), err == 0)
      ensures info == curr[..] ==> err == err0 && Now() == old(Now())
    {
      err := err0;
      if info[port].mask0 == {} && info[port].mask1 == {} {
        if port in nc.en { pl.MaskOfCarrier(nc, port); }
        AddProgressSkip(pl, h, oc, nc, port, before, Now().View(h), err0 == 0);
        return;
      }
      var i := FindMac(info, info[port].mac, port);
      FoundIsCarried(pl, nc, info, info[port].mac, port, i);
      if i < port {
        AddProgressSkip(pl, h, oc, nc, port, before, Now().View(h), err0 == 0);
        return;
      }
      ghost var now := Now().View(h);
      var e := AddPort(info, port, oc, nc);
      AddProgressStep(pl, h, oc, nc, port, before, now, err0 == 0, Now().View(h), e == 0);
      err := if e != 0 then e else err0;
    }

    method AddPhase(info: seq<Info>, ghost oc: Config, ghost nc: Config) returns (err: int)
      requires Valid() && pl.Fits(oc) && pl.Fits(nc) && pl.IsInfo(oc, curr[..]) && pl.IsInfo(nc, info)
      modifies nbi0, nbi1
      ensures Valid()
      ensures AddProgress(pl, h, oc, nc, pl.ports, old(Now()).View(h), Now().View(h), err == 0)
      ensures info == curr[..] ==> err == 0 && Now() == old(Now())
    {
      err := 0;
      var port := 0;
      while port < pl.ports
        invariant 0 <= port <= pl.ports && Valid()
        invariant AddProgress(pl, h, oc, nc, port, old(Now()).View(h), Now().View(h), err == 0)
        invariant info == curr[..] ==> err == 0 && Now() == old(Now())
      {
        err := AddIteration(info, port, err, old(Now()).View(h), oc, nc);
        port := port + 1;
      }
    }

    /** One iteration of the remove loop. */
    method RemoveIteration(info: seq<Info>, port: nat, ghost before: View, ghost oc: Config, ghost nc: Config)
      requires Valid() && pl.Fits(oc) && pl.Fits(nc) && pl.IsInfo(oc, curr[..]) && pl.IsInfo(nc, info)
      requires port < pl.ports && Removed(pl, oc, nc, port, before, Now().View(h))
      modifies nbi0, nbi1
      ensures Valid() && Removed(pl, oc, nc, port + 1, before, Now().View(h))
      ensures info == curr[..] ==> Now() == old(Now())
    {
      ghost var now := Now().View(h);
      if curr[port].mask0 == {} && curr[port].mask1 == {} {
        if port in oc.en { pl.MaskOfCarrier(oc, port); }
        RemovedSkip(pl, oc, nc, port, before, now);
        return;
      }
      var mac := curr[port].mac;
      var i := FindMac(curr[..], mac, port);
      FoundIsCarried(pl, oc, curr[..], mac, port, i);
      var j := FindMac(info, mac, |info|);
      FoundIsCarried(pl, nc, info, mac, pl.ports, j);
      if i < port || j < |info| {
        RemovedSkip(pl, oc, nc, port, before, now);
        return;
      }
      if curr[port].mask0 != {} { Remove(false, mac); }
      if curr[port].mask1 != {} { Remove(true, mac); }
      RemovedStep(pl, oc, nc, port, before, now, Now().View(h));
    }

    /** The remove loop: drops the entries of MACs that no new port carries. */
    method RemovePhase(info: seq<Info>, ghost oc: Config, ghost nc: Config)
      requires Valid() && pl.Fits(oc) && pl.Fits(nc) && pl.IsInfo(oc, curr[..]) && pl.IsInfo(nc, info)
      modifies nbi0, nbi1
      ensures Valid() && Removed(pl, oc, nc, pl.ports, old(Now()).View(h), Now().View(h))
      ensures info == curr[..] ==> Now() == old(Now())
    {
      var port := 0;
      while port < pl.ports
        invariant 0 <= port <= pl.ports && Valid()
        invariant Removed(pl, oc, nc, port, old(Now()).View(h), Now().View(h))
        invariant info == curr[..] ==> Now() == old(Now())
      {
        RemoveIteration(info, port, old(Now()).View(h), oc, nc);
        port := port + 1;
      }
    }

    /** mac_match_table_update: the add loop, then the remove loop. */
    method ApplyDiff(info: seq<Info>, ghost oc: Config, ghost nc: Config) returns (err: int)
      requires Valid() && pl.Fits(oc) && pl.Fits(nc) && pl.IsInfo(oc, curr[..]) && pl.IsInfo(nc, info)
      modifies nbi0, nbi1
      ensures Valid()
      ensures err == 0 ==> AllEdited(pl, oc, nc, old(Now()).View(h), Now().View(h))
      ensures err == 0 <==> !Blocked(pl, h, oc, nc, old(Now()).View(h))
      ensures InStep(pl, nc, Now().View(h))
        <==> !Blocked(pl, h, oc, nc, old(Now()).View(h)) && UnchangedRight(pl, oc, nc, old(Now()).View(h))
      ensures old(InStep(pl, oc, Now().View(h))) && Room(pl, oc, nc, h) ==> err == 0
      ensures info == curr[..] ==> err == 0 && Now() == old(Now())
    {
      ghost var before := Now().View(h);
      err := AddPhase(info, oc, nc);
      ghost var mid := Now().View(h);
      RemovePhase(info, oc, nc);
      DiffIsRebuild(pl, h, oc, nc, before, mid, Now().View(h), err == 0);
      if err == 0 { DiffEdits(pl, h, oc, nc, before, mid, Now().View(h)); }
      if InStep(pl, oc, before) && Room(pl, oc, nc, h) { RoomUnblocked(pl, h, oc, nc, before); }
    }

    method Record(temp: array<Info>)
      requires temp.Length == curr.Length && temp != curr
      modifies curr
      ensures curr[..] == temp[..]
    {
      var i := 0;
      while i < curr.Length
        invariant 0 <= i <= curr.Length && curr[..i] == temp[..i]
      {
        curr[i] := temp[i];
        i := i + 1;
      }
      assert curr[..] == curr[..i] && temp[..] == temp[..i];
    }

    /**
     update_catamaran_mac_match_table. From whatever tables, it reports success
     exactly when no add that the change needs meets a full bucket, and the
     tables are in step with the new configuration afterwards exactly when,
     besides, every entry whose mask did not change was right before. From tables
     in step it suffices that no bucket needs three MACs. The record is replaced
     either way, so repeating a failed call does nothing.
     */
    method Update(c: Config, ghost oc: Config) returns (err: int)
      requires Valid() && pl.Fits(oc) && pl.Fits(c) && pl.IsInfo(oc, curr[..])
      modifies nbi0, nbi1, curr
      ensures Valid() && pl.IsInfo(c, curr[..])
      ensures err == 0 ==> AllEdited(pl, oc, c, old(Now()).View(h), Now().View(h))
      ensures err == 0 <==> !Blocked(pl, h, oc, c, old(Now()).View(h))
      ensures InStep(pl, c, Now().View(h))
        <==> !Blocked(pl, h, oc, c, old(Now()).View(h)) && UnchangedRight(pl, oc, c, old(Now()).View(h))
      ensures old(InStep(pl, oc, Now().View(h))) && Room(pl, oc, c, h) ==> err == 0
      ensures !Blocked(pl, h, oc, c, old(Now()).View(h)) && UnchangedRight(pl, oc, c, old(Now()).View(h))
        ==> PortBits(pl, c, Now().View(h))
      ensures pl.IsInfo(c, old(curr[..])) ==> err == 0 && Now() == old(Now())
    {
      var temp := new Info[pl.ports](_ => Info(0, {}, {}));
      GenerateInfo(pl, c, temp);
      assert pl.IsInfo(c, curr[..]) ==> temp[..] == curr[..];
      err := ApplyDiff(temp[..], oc, c);
      Record(temp);
      if InStep(pl, c, Now().View(h)) { InStepBits(pl, c, Now().View(h)); }
    }

    /** The record and the tables are those of `c`. */
    ghost predicate At(c: Config)
      reads nbi0, nbi1, curr
    {
      Valid() && pl.Fits(c) && pl.IsInfo(c, curr[..]) && InStep(pl, c, Now().View(h))
    }

    /** From tables in step, a call succeeds, and leaves them in step, exactly when the change is not blocked. */
    method UpdateInStep(c: Config, ghost oc: Config) returns (err: int)
      requires At(oc) && pl.Fits(c)
      modifies nbi0, nbi1, curr
      ensures Valid() && (err == 0 <==> Open(pl, h, oc, c)) && (err == 0 <==> At(c))
      ensures err == 0 ==> PortBits(pl, c, Now().View(h))
    {
      InStepUnchanged(pl, oc, c, Now().View(h));
      BlockedInStep(pl, h, oc, c, Now().View(h));
      err := Update(c, oc);
      if err == 0 { InStepBits(pl, c, Now().View(h)); }
    }

    /** Repeating a call always reports success and repairs nothing that the first left wrong. */
    method Twice(c: Config, ghost oc: Config) returns (first: int, again: int)
      requires Valid() && pl.Fits(oc) && pl.Fits(c) && pl.IsInfo(oc, curr[..])
      modifies nbi0, nbi1, curr
      ensures Valid() && pl.IsInfo(c, curr[..]) && again == 0
      ensures first == 0 <==> !Blocked(pl, h, oc, c, old(Now()).View(h))
      ensures InStep(pl, c, Now().View(h))
        <==> !Blocked(pl, h, oc, c, old(Now()).View(h)) && UnchangedRight(pl, oc, c, old(Now()).View(h))
    {
      first := Update(c, oc);
      again := Update(c, c);
    }

    /** Tables in step answer with exactly the ports' bits. */
    lemma AtAnswers(c: Config)
      requires At(c) && pl.Fits(c)
      ensures PortBits(pl, c, Now().View(h))
    {
      InStepBits(pl, c, Now().View(h));
    }

    /**
     For every run of updates that all report success, starting from tables in
     step with `cs[0]`, the tables are those of the last configuration; and all
     do exactly when no change from one configuration to the next is blocked.
     */
    method Replay(cs: seq<Config>) returns (ok: bool)
      requires |cs| > 0 && At(cs[0]) && forall c | c in cs :: pl.Fits(c)
      modifies nbi0, nbi1, curr
      ensures Valid() && (ok ==> At(cs[|cs| - 1]) && PortBits(pl, cs[|cs| - 1], Now().View(h)))
      ensures ok <==> AllOpen(pl, h, cs)
    {
      ok := true;
      var i := 1;
      while i < |cs|
        invariant 1 <= i <= |cs| && At(cs[i - 1]) && AllOpen(pl, h, cs[..i])
      {
        assert cs[..i + 1][..i] == cs[..i] && cs[..i][i - 1] == cs[i - 1];
        var err := UpdateInStep(cs[i], cs[i - 1]);
        if err != 0 {
          if AllOpen(pl, h, cs) { OpenPrefix(pl, h, cs, i + 1); }
          return false;
        }
        i := i + 1;
      }
      assert cs[..i] == cs;
      AtAnswers(cs[|cs| - 1]);
    }
  }

  /** A bucket answers for at most two of any three MACs that hash to it. */
  lemma NoRoomForThree(ts: Tables, h: Hash, second: bool, a: Mac, b: Mac, d: Mac)
    requires h(a) == h(b) == h(d) && a != b && a != d && b != d
    ensures var v := ts.View(h); v(second, a) == 0 || v(second, b) == 0 || v(second, d) == 0
  {
    var e := ts.Of(second)[h(a)];
    LiveIsGet(e, a);
    LiveIsGet(e, b);
    LiveIsGet(e, d);
  }

  const CROWDED_PLATFORM: Platform := Platform(3, 3)
  const CROWDED_CONFIG: Config := Config({0, 1, 2}, [1, 2, 3])

  const NO_PORTS: Config := Config({}, [0, 0, 0])

  lemma CrowdedOut(ts: Tables, h: Hash)
    requires h(1) == h(2) == h(3)
    ensures !InStep(CROWDED_PLATFORM, CROWDED_CONFIG, ts.View(h))
  {
    var pl, c, v := CROWDED_PLATFORM, CROWDED_CONFIG, ts.View(h);
    assert 0 in pl.MaskOf(c, 3, false, 1) && 1 in pl.MaskOf(c, 3, false, 2) && 2 in pl.MaskOf(c, 3, false, 3);
    NoRoomForThree(ts, h, false, 1, 2, 3);
    assert v(false, 1) != pl.Want(c, false, 1) || v(false, 2) != pl.Want(c, false, 2)
      || v(false, 3) != pl.Want(c, false, 3);
  }

  /**
   The record is stored even when an add failed: with three ports whose MACs
   share a bucket the first call fails, the same call repeated reports success,
   and the tables are still not those of the configuration.
   */
  method FailureIsForgotten() returns (first: int, again: int, s: PortSync)
    ensures first != 0 && again == 0
    ensures s.Valid() && s.pl == CROWDED_PLATFORM && s.pl.IsInfo(CROWDED_CONFIG, s.curr[..])
    ensures !InStep(s.pl, CROWDED_CONFIG, s.Now().View(s.h))
  {
    s := new PortSync(CROWDED_PLATFORM, _ => 0);
    assert CROWDED_PLATFORM.Fits(NO_PORTS);
    InStepUnchanged(CROWDED_PLATFORM, NO_PORTS, CROWDED_CONFIG, s.Now().View(s.h));
    first, again := s.Twice(CROWDED_CONFIG, NO_PORTS);
    CrowdedOut(s.Now(), s.h);
  }
}
