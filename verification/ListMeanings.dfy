/**
 What each action list has to hold, stated on its words alone: which kinds of
 action occur, in which order, and what their fields say. The builders' lists
 are proved to be such lists.
 */
module ListMeanings {
  import opened Common
  import opened ActionList
  import opened ActionBuilders

  // ---- Fields, by their bits ----

  predicate BitAt(args: Half, weight: nat)
    requires weight > 0
  {
    (args / weight) % 2 == 1
  }

  /** Outer and inner L3 and L4 checksums in bits 0 to 3, the metadata checksum in bit 8. */
  predicate IsChecksum(a: Action, outer: bool, inner: bool, complete: bool) {
    && a.op == CHECKSUM
    && (BitAt(a.args, 1) <==> outer) && (BitAt(a.args, 2) <==> outer)
    && (BitAt(a.args, 4) <==> inner) && (BitAt(a.args, 8) <==> inner)
    && (BitAt(a.args, 256) <==> complete)
  }

  /** The queue in the low six bits, then the PCIe island, the least buffer size and the two flags. */
  predicate IsTxHost(a: Action, env: Env, v: Vnic, cont: bool, multicast: bool) {
    && a.op == TX_HOST
    && a.args % 64 == env.queueOf(v) && (a.args / 64) % 4 == env.pcie % 4
    && (a.args / 256) % 64 == (if env.flBufSz(v) < 0x4000 then env.flBufSz(v) / 256 else 63)
    && (BitAt(a.args, 0x4000) <==> multicast) && (BitAt(a.args, 0x8000) <==> cont)
  }

  predicate IsTxWire(a: Action, env: Env, cont: bool, multicast: bool) {
    && a.op == TX_WIRE && a.args % 2048 == env.tmq % 2048
    && (BitAt(a.args, 0x4000) <==> multicast) && (BitAt(a.args, 0x8000) <==> cont)
  }

  /** The MTU with the Ethernet header and one byte more, and whether to check outer checksums. */
  predicate IsRxHost(a: Action, env: Env, outer: bool) {
    a.op == RX_HOST && a.args / 4 == (env.mtu + 15) % 0x4000 && a.args % 4 == if outer then 3 else 0
  }

  predicate IsRxWire(a: Action, env: Env, vxlan: bool, nvgre: bool, csum: bool) {
    && a.op == RX_WIRE && (BitAt(a.args, 1) <==> csum) && (BitAt(a.args, 2) <==> nvgre) && !BitAt(a.args, 4)
    && (a.args / 8) % 8 == (if vxlan then env.vxlanPorts % 8 else 0)
    && a.args / 64 == (if vxlan then env.vxlanNnIdx % 128 else 0)
  }

  /** The MAC's upper 16 bits with the opcode and its lower 32 in the parameter word. */
  predicate CarriesMac(a: Action, mac: Mac) { a.args * 0x1_0000_0000 + a.param == mac }

  lemma ChecksumFields(outer: bool, inner: bool, complete: bool)
    ensures IsChecksum(Checksum(outer, inner, complete), outer, inner, complete)
  {
  }

  lemma TxHostFields(env: Env, v: Vnic, cont: bool, multicast: bool)
    ensures IsTxHost(TxHost(env, v, cont, multicast), env, v, cont, multicast)
  {
    var rxb := if env.flBufSz(v) / 256 > 63 then 63 else env.flBufSz(v) / 256;
    TxHostBits(env.queueOf(v), env.pcie % 4, rxb, multicast, cont);
  }

  lemma TxHostBits(q: nat, p: nat, rxb: nat, multicast: bool, cont: bool)
    requires q < 64 && p < 4 && rxb < 64
    ensures var args := Bit(cont, 0x8000) + Bit(multicast, 0x4000) + rxb * 256 + p * 64 + q;
      && args < 0x1_0000 && args % 64 == q && (args / 64) % 4 == p && (args / 256) % 64 == rxb
      && (BitAt(args, 0x4000) <==> multicast) && (BitAt(args, 0x8000) <==> cont)
  {
    var args := Bit(cont, 0x8000) + Bit(multicast, 0x4000) + rxb * 256 + p * 64 + q;
    assert args / 64 == Bit(cont, 512) + Bit(multicast, 256) + rxb * 4 + p;
    assert args / 256 == Bit(cont, 128) + Bit(multicast, 64) + rxb;
    assert args / 0x4000 == Bit(cont, 2) + Bit(multicast, 1);
  }

  lemma TxWireFields(env: Env, cont: bool, multicast: bool)
    ensures IsTxWire(TxWire(env, cont, multicast), env, cont, multicast)
  {
    var args := TxWire(env, cont, multicast).args;
    assert args / 0x4000 == Bit(cont, 2) + Bit(multicast, 1);
  }

  lemma RxHostFields(env: Env, outer: bool)
    ensures IsRxHost(RxHost(env, outer), env, outer)
  {
  }

  lemma RxWireFields(env: Env, vxlan: bool, nvgre: bool, csum: bool)
    ensures IsRxWire(RxWire(env, vxlan, nvgre, csum), env, vxlan, nvgre, csum)
  {
    RxWireBits(if vxlan then env.vxlanNnIdx % 128 else 0, if vxlan then env.vxlanPorts % 8 else 0, nvgre, csum);
  }

  lemma RxWireBits(nn: nat, ports: nat, nvgre: bool, csum: bool)
    requires nn < 128 && ports < 8
    ensures var args := nn * 64 + ports * 8 + Bit(nvgre, 2) + Bit(csum, 1);
      && args < 0x1_0000 && (BitAt(args, 1) <==> csum) && (BitAt(args, 2) <==> nvgre) && !BitAt(args, 4)
      && (args / 8) % 8 == ports && args / 64 == nn
  {
    var args := nn * 64 + ports * 8 + Bit(nvgre, 2) + Bit(csum, 1);
    assert args / 2 == nn * 32 + ports * 4 + Bit(nvgre, 1);
    assert args / 4 == nn * 16 + ports * 2;
    assert args / 8 == nn * 8 + ports;
  }

  lemma MacFields(mac: Mac)
    ensures CarriesMac(VebLookup(mac), mac) && CarriesMac(DstMacMatch(mac), mac)
  {
  }

  // ---- Lists by kinds ----

  function Acts(ws: seq<Word>): seq<Action> { if Decode(ws).Some? then Decode(ws).value else [] }

  /** The actions of the kinds below `n` that are due, each once and in the order of their kinds, and no others. */
  ghost predicate InKinds(acts: seq<Action>, kind: Action -> int, due: int -> bool, n: int) {
    && (forall i, j | 0 <= i < j < |acts| :: kind(acts[i]) < kind(acts[j]))
    && (forall a | a in acts :: 0 <= kind(a) < n && due(kind(a)))
    && (forall q | 0 <= q < n && due(q) :: exists a :: a in acts && kind(a) == q)
  }

  /** An action that a list holds or not. */
  datatype Item = Item(there: bool, action: Action)

  function Those(items: seq<Item>): seq<Action> {
    if items == [] then [] else Those(items[..|items| - 1]) + Opt(items[|items| - 1].there, items[|items| - 1].action)
  }

  lemma ThoseMore(items: seq<Item>, x: Item)
    ensures Those(items + [x]) == Those(items) + Opt(x.there, x.action)
  {
    assert (items + [x])[..|items|] == items;
  }

  lemma {:induction false} InThose(items: seq<Item>, a: Action)
    requires a in Those(items)
    ensures exists r | 0 <= r < |items| :: items[r].there && items[r].action == a
  {
    var r := |items| - 1;
    if a in Those(items[..r]) { InThose(items[..r], a); } else { assert items[r].there && items[r].action == a; }
  }

  predicate Fitting(x: Item, kind: Action -> int, due: int -> bool, r: int) {
    (x.there <==> due(r)) && (x.there ==> kind(x.action) == r)
  }

  /** One kind more, if it is due. */
  lemma OneMore(acts: seq<Action>, kind: Action -> int, due: int -> bool, r: int, x: Item)
    requires InKinds(acts, kind, due, r) && r >= 0 && Fitting(x, kind, due, r)
    ensures InKinds(acts + Opt(x.there, x.action), kind, due, r + 1)
  {
    var t := acts + Opt(x.there, x.action);
    assert x.there ==> x.action in t;
    forall q | 0 <= q < r + 1 && due(q) ensures exists a :: a in t && kind(a) == q {
      if q == r {
        assert x.action in t && kind(x.action) == q;
      } else {
        var a :| a in acts && kind(a) == q;
        assert a in t;
      }
    }
  }

  lemma {:induction false} ThoseInKinds(items: seq<Item>, kind: Action -> int, due: int -> bool)
    requires forall r | 0 <= r < |items| :: Fitting(items[r], kind, due, r)
    ensures InKinds(Those(items), kind, due, |items|)
  {
    if items != [] {
      var r := |items| - 1;
      ThoseInKinds(items[..r], kind, due);
      OneMore(Those(items[..r]), kind, due, r, items[r]);
    }
  }

  lemma EncActs(acts: seq<Action>)
    requires AllValid(acts)
    ensures Acts(Enc(NONE, acts)) == acts
  {
    EncMeans(acts);
  }

  lemma FirstTwo(x: seq<Item>)
    requires |x| == 2
    ensures Those(x) == [] + Opt(x[0].there, x[0].action) + Opt(x[1].there, x[1].action)
  {
    assert x[..1] == x[..0] + [x[0]];
    assert x == x[..1] + [x[1]];
    assert x[..0] == [];
    ThoseMore(x[..0], x[0]);
    ThoseMore(x[..1], x[1]);
  }

  lemma FirstFour(x: seq<Item>)
    requires |x| == 4
    ensures Those(x) == [] + Opt(x[0].there, x[0].action) + Opt(x[1].there, x[1].action)
      + Opt(x[2].there, x[2].action) + Opt(x[3].there, x[3].action)
  {
    assert x[..1] == x[..0] + [x[0]];
    assert x[..2] == x[..1] + [x[1]];
    assert x[..3] == x[..2] + [x[2]];
    assert x == x[..3] + [x[3]];
    assert x[..0] == [];
    ThoseMore(x[..0], x[0]);
    ThoseMore(x[..1], x[1]);
    ThoseMore(x[..2], x[2]);
    ThoseMore(x[..3], x[3]);
  }

  lemma FirstSeven(x: seq<Item>)
    requires |x| == 7
    ensures Those(x) == [] + Opt(x[0].there, x[0].action) + Opt(x[1].there, x[1].action)
      + Opt(x[2].there, x[2].action) + Opt(x[3].there, x[3].action) + Opt(x[4].there, x[4].action)
      + Opt(x[5].there, x[5].action) + Opt(x[6].there, x[6].action)
  {
    assert x[..1] == x[..0] + [x[0]];
    assert x[..2] == x[..1] + [x[1]];
    assert x[..3] == x[..2] + [x[2]];
    assert x[..4] == x[..3] + [x[3]];
    assert x[..5] == x[..4] + [x[4]];
    assert x[..6] == x[..5] + [x[5]];
    assert x == x[..6] + [x[6]];
    assert x[..0] == [];
    ThoseMore(x[..0], x[0]);
    ThoseMore(x[..1], x[1]);
    ThoseMore(x[..2], x[2]);
    ThoseMore(x[..3], x[3]);
    ThoseMore(x[..4], x[4]);
    ThoseMore(x[..5], x[5]);
    ThoseMore(x[..6], x[6]);
  }

  lemma FirstNine(x: seq<Item>)
    requires |x| == 9
    ensures Those(x) == [] + Opt(x[0].there, x[0].action) + Opt(x[1].there, x[1].action)
      + Opt(x[2].there, x[2].action) + Opt(x[3].there, x[3].action) + Opt(x[4].there, x[4].action)
      + Opt(x[5].there, x[5].action) + Opt(x[6].there, x[6].action) + Opt(x[7].there, x[7].action)
      + Opt(x[8].there, x[8].action)
  {
    assert x[..1] == x[..0] + [x[0]];
    assert x[..2] == x[..1] + [x[1]];
    assert x[..3] == x[..2] + [x[2]];
    assert x[..4] == x[..3] + [x[3]];
    assert x[..5] == x[..4] + [x[4]];
    assert x[..6] == x[..5] + [x[5]];
    assert x[..7] == x[..6] + [x[6]];
    assert x[..8] == x[..7] + [x[7]];
    assert x == x[..8] + [x[8]];
    assert x[..0] == [];
    ThoseMore(x[..0], x[0]);
    ThoseMore(x[..1], x[1]);
    ThoseMore(x[..2], x[2]);
    ThoseMore(x[..3], x[3]);
    ThoseMore(x[..4], x[4]);
    ThoseMore(x[..5], x[5]);
    ThoseMore(x[..6], x[6]);
    ThoseMore(x[..7], x[7]);
    ThoseMore(x[..8], x[8]);
  }

  lemma FirstTen(x: seq<Item>)
    requires |x| == 10
    ensures Those(x) == [] + Opt(x[0].there, x[0].action) + Opt(x[1].there, x[1].action)
      + Opt(x[2].there, x[2].action) + Opt(x[3].there, x[3].action) + Opt(x[4].there, x[4].action)
      + Opt(x[5].there, x[5].action) + Opt(x[6].there, x[6].action) + Opt(x[7].there, x[7].action)
      + Opt(x[8].there, x[8].action) + Opt(x[9].there, x[9].action)
  {
    assert x[..1] == x[..0] + [x[0]];
    assert x[..2] == x[..1] + [x[1]];
    assert x[..3] == x[..2] + [x[2]];
    assert x[..4] == x[..3] + [x[3]];
    assert x[..5] == x[..4] + [x[4]];
    assert x[..6] == x[..5] + [x[5]];
    assert x[..7] == x[..6] + [x[6]];
    assert x[..8] == x[..7] + [x[7]];
    assert x[..9] == x[..8] + [x[8]];
    assert x == x[..9] + [x[9]];
    assert x[..0] == [];
    ThoseMore(x[..0], x[0]);
    ThoseMore(x[..1], x[1]);
    ThoseMore(x[..2], x[2]);
    ThoseMore(x[..3], x[3]);
    ThoseMore(x[..4], x[4]);
    ThoseMore(x[..5], x[5]);
    ThoseMore(x[..6], x[6]);
    ThoseMore(x[..7], x[7]);
    ThoseMore(x[..8], x[8]);
    ThoseMore(x[..9], x[9]);
  }

  // ---- Fields of all the actions of one opcode ----

  ghost predicate TxHostsTo(ws: seq<Word>, env: Env, v: Vnic, cont: bool, multicast: bool) {
    forall a | a in Acts(ws) && a.op == TX_HOST :: IsTxHost(a, env, v, cont, multicast)
  }

  ghost predicate TxWires(ws: seq<Word>, env: Env, cont: bool, multicast: bool) {
    forall a | a in Acts(ws) && a.op == TX_WIRE :: IsTxWire(a, env, cont, multicast)
  }

  ghost predicate RxHosts(ws: seq<Word>, env: Env, outer: bool) {
    forall a | a in Acts(ws) && a.op == RX_HOST :: IsRxHost(a, env, outer)
  }

  ghost predicate RxWires(ws: seq<Word>, env: Env, vxlan: bool, nvgre: bool, csum: bool) {
    forall a | a in Acts(ws) && a.op == RX_WIRE :: IsRxWire(a, env, vxlan, nvgre, csum)
  }

  ghost predicate Macs(ws: seq<Word>, op: Opcode, mac: Mac) {
    forall a | a in Acts(ws) && a.op == op :: CarriesMac(a, mac)
  }

  ghost predicate Checksums(ws: seq<Word>, outer: bool, inner: bool, complete: bool) {
    forall a | a in Acts(ws) && a.op == CHECKSUM :: IsChecksum(a, outer, inner, complete)
  }

  ghost predicate BpfAndRss(ws: seq<Word>, env: Env, n: nat) {
    && (forall a | a in Acts(ws) && a.op == EBPF :: a.args == (3072 + 2560 * n) % 0x1_0000)
    && (forall a | a in Acts(ws) && a.op == RSS :: a.args == env.rssArgs && a.param == env.rssKey)
  }

  // If all the actions of an opcode are one action, its fields are theirs.

  lemma TxHostsAre(ws: seq<Word>, env: Env, v: Vnic, cont: bool, multicast: bool)
    requires forall a | a in Acts(ws) && a.op == TX_HOST :: a == TxHost(env, v, cont, multicast)
    ensures TxHostsTo(ws, env, v, cont, multicast)
  {
    TxHostFields(env, v, cont, multicast);
  }

  lemma TxWiresAre(ws: seq<Word>, env: Env, cont: bool, multicast: bool)
    requires forall a | a in Acts(ws) && a.op == TX_WIRE :: a == TxWire(env, cont, multicast)
    ensures TxWires(ws, env, cont, multicast)
  {
    TxWireFields(env, cont, multicast);
  }

  lemma RxHostsAre(ws: seq<Word>, env: Env, outer: bool)
    requires forall a | a in Acts(ws) && a.op == RX_HOST :: a == RxHost(env, outer)
    ensures RxHosts(ws, env, outer)
  {
    RxHostFields(env, outer);
  }

  lemma RxWiresAre(ws: seq<Word>, env: Env, vxlan: bool, nvgre: bool, csum: bool)
    requires forall a | a in Acts(ws) && a.op == RX_WIRE :: a == RxWire(env, vxlan, nvgre, csum)
    ensures RxWires(ws, env, vxlan, nvgre, csum)
  {
    RxWireFields(env, vxlan, nvgre, csum);
  }

  lemma LookupsAre(ws: seq<Word>, mac: Mac)
    requires forall a | a in Acts(ws) && a.op == VEB_LOOKUP :: a == VebLookup(mac)
    ensures Macs(ws, VEB_LOOKUP, mac)
  {
    MacFields(mac);
  }

  lemma MatchesAre(ws: seq<Word>, mac: Mac)
    requires forall a | a in Acts(ws) && a.op == DST_MAC_MATCH :: a == DstMacMatch(mac)
    ensures Macs(ws, DST_MAC_MATCH, mac)
  {
    MacFields(mac);
  }

  lemma ChecksumsAre(ws: seq<Word>, outer: bool, inner: bool, complete: bool)
    requires forall a | a in Acts(ws) && a.op == CHECKSUM :: a == Checksum(outer, inner, complete)
    ensures Checksums(ws, outer, inner, complete)
  {
    ChecksumFields(outer, inner, complete);
  }

  lemma BpfAndRssAre(ws: seq<Word>, env: Env, n: nat)
    requires forall a | a in Acts(ws) && a.op == EBPF :: a == BpfAction(n)
    requires forall a | a in Acts(ws) && a.op == RSS :: a == RssAction(env)
    ensures BpfAndRss(ws, env, n)
  {
  }

  /** The other actions take no arguments. */
  predicate Bare(a: Action) {
    a.op in [DROP, CMSG, PUSH_PKT, POP_PKT, POP_VLAN, TX_VLAN] ==> a.args == 0
  }

  ghost predicate AllBare(ws: seq<Word>) { forall a | a in Acts(ws) :: Bare(a) }

  predicate RssWanted(c: Control) { Rss in c || Rss2 in c || Bpf in c }

  // ---- A PF's wire list ----

  function WireKind(a: Action): int {
    if a.op == RX_WIRE then 0 else if a.op == VEB_LOOKUP then 1 else if a.op == DST_MAC_MATCH then 2
    else if a.op == CHECKSUM then 3 else if a.op == EBPF then 4 else if a.op == RSS then 5
    else if a.op == TX_HOST then 6 else if a.op == PUSH_PKT then 7 else if a.op == TX_VLAN then 8 else -1
  }

  /** The VEB looks up, else a port that is not promiscuous matches its MAC. */
  predicate WireDue(r: int, vebUp: bool, c: Control) {
    if r == 1 || r == 7 || r == 8 then vebUp
    else if r == 2 then !vebUp && Promisc !in c
    else if r == 3 then vebUp || CsumComplete in c
    else if r == 4 then Bpf in c
    else if r == 5 then RssWanted(c)
    else r == 0 || r == 6
  }

  /** Receives from the wire, filters, and delivers to the PF alone, with BPF and RSS before exactly when set. */
  ghost predicate WireList(ws: seq<Word>, env: Env, n: nat, vebUp: bool, c: Control) {
    && Decode(ws).Some? && InKinds(Acts(ws), WireKind, (r: int) => WireDue(r, vebUp, c), 9)
    && RxWires(ws, env, Vxlan in c, Nvgre in c, RxCsum in c && CsumComplete !in c)
    && Macs(ws, VEB_LOOKUP, if Promisc in c then 0 else env.mac) && Macs(ws, DST_MAC_MATCH, env.mac)
    && Checksums(ws, vebUp, vebUp, CsumComplete in c) && BpfAndRss(ws, env, n)
    && TxHostsTo(ws, env, Pf(n), false, vebUp) && AllBare(ws)
  }

  lemma NbiValid(env: Env, n: nat, vebUp: bool, c: Control)
    ensures AllValid(NbiActions(env, n, vebUp, c))
  {
  }

  function NbiItems(env: Env, n: nat, vebUp: bool, c: Control): seq<Item> {
    var compl := CsumComplete in c;
    [Item(true, RxWire(env, Vxlan in c, Nvgre in c, RxCsum in c && !compl)),
     Item(vebUp, VebLookup(if Promisc in c then 0 else env.mac)), Item(!vebUp && Promisc !in c, DstMacMatch(env.mac)),
     Item(vebUp || compl, Checksum(vebUp, vebUp, compl)), Item(Bpf in c, BpfAction(n)),
     Item(WantsRss(c), RssAction(env)), Item(true, TxHost(env, Pf(n), false, vebUp)), Item(vebUp, PushPkt()),
     Item(vebUp, TxVlan())]
  }

  lemma NbiItemsAre(env: Env, n: nat, vebUp: bool, c: Control)
    ensures Those(NbiItems(env, n, vebUp, c)) == NbiActions(env, n, vebUp, c)
  {
    var x := NbiItems(env, n, vebUp, c);
    FirstNine(x);
    assert [] + Opt(true, x[0].action) == [x[0].action];
  }

  lemma NbiInKinds(env: Env, n: nat, vebUp: bool, c: Control)
    ensures InKinds(NbiActions(env, n, vebUp, c), WireKind, (r: int) => WireDue(r, vebUp, c), 9)
  {
    var items, due := NbiItems(env, n, vebUp, c), (r: int) => WireDue(r, vebUp, c);
    assert forall r | 0 <= r < 9 :: Fitting(items[r], WireKind, due, r);
    ThoseInKinds(items, WireKind, due);
    NbiItemsAre(env, n, vebUp, c);
  }

  /** Which action each opcode of the list stands for. */
  lemma NbiAction(env: Env, n: nat, vebUp: bool, c: Control, a: Action)
    requires a in NbiActions(env, n, vebUp, c)
    ensures a.op == RX_WIRE ==> a == RxWire(env, Vxlan in c, Nvgre in c, RxCsum in c && CsumComplete !in c)
    ensures a.op == VEB_LOOKUP ==> a == VebLookup(if Promisc in c then 0 else env.mac)
    ensures a.op == DST_MAC_MATCH ==> a == DstMacMatch(env.mac)
    ensures a.op == CHECKSUM ==> a == Checksum(vebUp, vebUp, CsumComplete in c)
    ensures a.op == EBPF ==> a == BpfAction(n)
    ensures a.op == RSS ==> a == RssAction(env)
    ensures a.op == TX_HOST ==> a == TxHost(env, Pf(n), false, vebUp)
    ensures Bare(a)
  {
  }

  /** cfg_act_build_nbi builds such a list. */
  lemma NbiIsWireList(env: Env, n: nat, vebUp: bool, c: Control)
    ensures WireList(Enc(NONE, NbiActions(env, n, vebUp, c)), env, n, vebUp, c)
  {
    var acts := NbiActions(env, n, vebUp, c);
    NbiValid(env, n, vebUp, c);
    EncActs(acts);
    EncMeans(acts);
    NbiInKinds(env, n, vebUp, c);
    forall a | a in acts { NbiAction(env, n, vebUp, c, a); }
    var ws := Enc(NONE, acts);
    RxWiresAre(ws, env, Vxlan in c, Nvgre in c, RxCsum in c && CsumComplete !in c);
    LookupsAre(ws, if Promisc in c then 0 else env.mac);
    MatchesAre(ws, env.mac);
    ChecksumsAre(ws, vebUp, vebUp, CsumComplete in c);
    BpfAndRssAre(ws, env, n);
    TxHostsAre(ws, env, Pf(n), false, vebUp);
  }

  /** The first action that sends the packet anywhere. */
  function FirstTransmit(acts: seq<Action>): Option<Action> {
    if acts == [] then None
    else if acts[0].op == TX_HOST || acts[0].op == TX_WIRE then Some(acts[0])
    else FirstTransmit(acts[1..])
  }

  lemma {:induction false} FirstTransmitIs(acts: seq<Action>)
    ensures match FirstTransmit(acts)
      case None => forall a | a in acts :: a.op != TX_HOST && a.op != TX_WIRE
      case Some(a) => a in acts && (a.op == TX_HOST || a.op == TX_WIRE)
    decreases |acts|
  {
    if acts != [] { FirstTransmitIs(acts[1..]); }
  }

  /** A wire list hands the packet to the PF's queue before it sends it anywhere else. */
  lemma WireDelivers(ws: seq<Word>, env: Env, n: nat, vebUp: bool, c: Control)
    requires WireList(ws, env, n, vebUp, c)
    ensures var tx := FirstTransmit(Acts(ws));
      tx.Some? && tx.value.op == TX_HOST && tx.value.args % 64 == env.queueOf(Pf(n))
  {
    var due := (r: int) => WireDue(r, vebUp, c);
    assert due(6);
    var a :| a in Acts(ws) && WireKind(a) == 6;
    FirstTransmitIs(Acts(ws));
  }

  // ---- A PF's host list ----

  function PfKind(a: Action): int {
    if a.op == RX_HOST then 0 else if a.op == CHECKSUM then (if BitAt(a.args, 8) then 1 else 4)
    else if a.op == VEB_LOOKUP then 2 else if a.op == TX_WIRE then 3 else if a.op == PUSH_PKT then 5
    else if a.op == TX_VLAN then 6 else -1
  }

  predicate PfDue(r: int, vebUp: bool, c: Control) {
    if r == 1 then TxCsum in c && Vxlan in c
    else if r == 4 then vebUp && TxCsum in c
    else if r == 2 || r == 5 || r == 6 then vebUp
    else r == 0 || r == 3
  }

  /** The inner checksums before the transmit or the outer ones after it, never both at once. */
  ghost predicate SplitChecksums(ws: seq<Word>) {
    forall a | a in Acts(ws) && a.op == CHECKSUM ::
      if BitAt(a.args, 8) then IsChecksum(a, false, true, false) else IsChecksum(a, true, false, false)
  }

  /** Receives from the host, looks the packet up in the VEB if that is up, and sends it to the wire. */
  ghost predicate PfHostList(ws: seq<Word>, env: Env, vebUp: bool, c: Control) {
    && Decode(ws).Some? && InKinds(Acts(ws), PfKind, (r: int) => PfDue(r, vebUp, c), 7)
    && RxHosts(ws, env, vebUp) && Macs(ws, VEB_LOOKUP, 0) && SplitChecksums(ws) && TxWires(ws, env, false, vebUp)
    && AllBare(ws)
  }

  lemma SplitChecksumsAre(ws: seq<Word>)
    requires forall a | a in Acts(ws) && a.op == CHECKSUM ::
      a == Checksum(false, true, false) || a == Checksum(true, false, false)
    ensures SplitChecksums(ws)
  {
    ChecksumFields(false, true, false);
    ChecksumFields(true, false, false);
  }

  function PfItems(env: Env, vebUp: bool, c: Control): seq<Item> {
    var o := TxCsum in c;
    [Item(true, RxHost(env, vebUp)), Item(o && Vxlan in c, Checksum(false, true, false)), Item(vebUp, VebLookup(0)),
     Item(true, TxWire(env, false, vebUp)), Item(vebUp && o, Checksum(true, false, false)), Item(vebUp, PushPkt()),
     Item(vebUp, TxVlan())]
  }

  lemma PfItemsAre(env: Env, vebUp: bool, c: Control)
    ensures Those(PfItems(env, vebUp, c)) == PfActions(env, vebUp, c)
  {
    var x := PfItems(env, vebUp, c);
    FirstSeven(x);
    assert [] + Opt(true, x[0].action) == [x[0].action];
  }

  lemma SplitKinds()
    ensures PfKind(Checksum(false, true, false)) == 1 && PfKind(Checksum(true, false, false)) == 4
    ensures VfKind(Checksum(false, true, false)) == 4 && VfKind(Checksum(true, false, false)) == 6
  {
    ChecksumFields(false, true, false);
    ChecksumFields(true, false, false);
  }

  lemma PfFits(env: Env, vebUp: bool, c: Control, r: int)
    requires 0 <= r < 7
    ensures Fitting(PfItems(env, vebUp, c)[r], PfKind, (r: int) => PfDue(r, vebUp, c), r)
  {
    SplitKinds();
  }

  lemma PfInKinds(env: Env, vebUp: bool, c: Control)
    ensures InKinds(PfActions(env, vebUp, c), PfKind, (r: int) => PfDue(r, vebUp, c), 7)
  {
    var items, due := PfItems(env, vebUp, c), (r: int) => PfDue(r, vebUp, c);
    forall r | 0 <= r < 7 ensures Fitting(items[r], PfKind, due, r) { PfFits(env, vebUp, c, r); }
    ThoseInKinds(items, PfKind, due);
    PfItemsAre(env, vebUp, c);
  }

  lemma PfAction(env: Env, vebUp: bool, c: Control, a: Action)
    requires a in PfActions(env, vebUp, c)
    ensures a.op == RX_HOST ==> a == RxHost(env, vebUp)
    ensures a.op == VEB_LOOKUP ==> a == VebLookup(0)
    ensures a.op == CHECKSUM ==> a == Checksum(false, true, false) || a == Checksum(true, false, false)
    ensures a.op == TX_WIRE ==> a == TxWire(env, false, vebUp)
    ensures a.Valid()
    ensures Bare(a)
  {
  }

  /** cfg_act_build_pf builds such a list. */
  lemma PfIsHostList(env: Env, vebUp: bool, c: Control)
    ensures PfHostList(Enc(NONE, PfActions(env, vebUp, c)), env, vebUp, c)
  {
    var acts := PfActions(env, vebUp, c);
    forall a | a in acts ensures a.Valid() { PfAction(env, vebUp, c, a); }
    EncActs(acts);
    EncMeans(acts);
    PfInKinds(env, vebUp, c);
    forall a | a in acts { PfAction(env, vebUp, c, a); }
    var ws := Enc(NONE, acts);
    RxHostsAre(ws, env, vebUp);
    LookupsAre(ws, 0);
    SplitChecksumsAre(ws);
    TxWiresAre(ws, env, false, vebUp);
  }

  // ---- A VF's host list ----

  function VfKind(a: Action): int {
    if a.op == RX_HOST then 0 else if a.op == PUSH_VLAN then 1 else if a.op == SRC_MAC_MATCH then 2
    else if a.op == VEB_LOOKUP then 3 else if a.op == CHECKSUM then (if BitAt(a.args, 8) then 4 else 6)
    else if a.op == TX_WIRE then 5 else if a.op == TX_HOST then 7 else if a.op == PUSH_PKT then 8
    else if a.op == TX_VLAN then 9 else -1
  }

  /** The tag and the spoof check come before the lookup, each exactly when it is set. */
  predicate VfDue(r: int, env: Env, c: Control) {
    if r == 1 then env.vlanTag != 0
    else if r == 2 then env.spoofCheck
    else if r == 4 then TxCsum in c && Vxlan in c
    else if r == 6 then TxCsum in c
    else 0 <= r < 10
  }

  ghost predicate TagsAndSources(ws: seq<Word>, env: Env) {
    && (forall a | a in Acts(ws) && a.op == PUSH_VLAN :: a.args == env.vlanTag)
    && (forall a | a in Acts(ws) && a.op == SRC_MAC_MATCH :: a.param == env.srcMacHi && a.args == env.srcMacLo)
  }

  /** After a miss in the VEB the packet goes to the wire, and to the PF after it if the PF is promiscuous. */
  ghost predicate VfHostList(ws: seq<Word>, env: Env, pc: Control, c: Control) {
    && Decode(ws).Some? && InKinds(Acts(ws), VfKind, (r: int) => VfDue(r, env, c), 10)
    && RxHosts(ws, env, true) && TagsAndSources(ws, env) && Macs(ws, VEB_LOOKUP, 0) && SplitChecksums(ws)
    && TxWires(ws, env, Promisc in pc, true) && TxHostsTo(ws, env, Pf(0), false, true) && AllBare(ws)
  }

  function VfItems(env: Env, pc: Control, c: Control): seq<Item> {
    var o := TxCsum in c;
    [Item(true, RxHost(env, true)), Item(env.vlanTag != 0, PushVlan(env)), Item(env.spoofCheck, SrcMacMatch(env)),
     Item(true, VebLookup(0)), Item(o && Vxlan in c, Checksum(false, true, false)),
     Item(true, TxWire(env, Promisc in pc, true)), Item(o, Checksum(true, false, false)),
     Item(true, TxHost(env, Pf(0), false, true)), Item(true, PushPkt()), Item(true, TxVlan())]
  }

  lemma VfItemsAre(env: Env, pc: Control, c: Control)
    ensures Those(VfItems(env, pc, c)) == VfActions(env, pc, c)
  {
    var x := VfItems(env, pc, c);
    FirstTen(x);
    assert [] + Opt(true, x[0].action) == [x[0].action];
  }

  lemma VfInKinds(env: Env, pc: Control, c: Control)
    ensures InKinds(VfActions(env, pc, c), VfKind, (r: int) => VfDue(r, env, c), 10)
  {
    var items, due := VfItems(env, pc, c), (r: int) => VfDue(r, env, c);
    SplitKinds();
    assert forall r | 0 <= r < 10 :: Fitting(items[r], VfKind, due, r);
    ThoseInKinds(items, VfKind, due);
    VfItemsAre(env, pc, c);
  }

  lemma VfAction(env: Env, pc: Control, c: Control, a: Action)
    requires a in VfActions(env, pc, c)
    ensures a.op == RX_HOST ==> a == RxHost(env, true)
    ensures a.op == PUSH_VLAN ==> a == PushVlan(env)
    ensures a.op == SRC_MAC_MATCH ==> a == SrcMacMatch(env)
    ensures a.op == VEB_LOOKUP ==> a == VebLookup(0)
    ensures a.op == CHECKSUM ==> a == Checksum(false, true, false) || a == Checksum(true, false, false)
    ensures a.op == TX_WIRE ==> a == TxWire(env, Promisc in pc, true)
    ensures a.op == TX_HOST ==> a == TxHost(env, Pf(0), false, true)
    ensures a.Valid()
    ensures Bare(a)
  {
  }

  /** cfg_act_build_vf builds such a list. */
  lemma VfIsHostList(env: Env, pc: Control, c: Control)
    ensures VfHostList(Enc(NONE, VfActions(env, pc, c)), env, pc, c)
  {
    var acts := VfActions(env, pc, c);
    forall a | a in acts ensures a.Valid() { VfAction(env, pc, c, a); }
    EncActs(acts);
    EncMeans(acts);
    VfInKinds(env, pc, c);
    forall a | a in acts { VfAction(env, pc, c, a); }
    var ws := Enc(NONE, acts);
    RxHostsAre(ws, env, true);
    LookupsAre(ws, 0);
    SplitChecksumsAre(ws);
    TxWiresAre(ws, env, Promisc in pc, true);
    TxHostsAre(ws, env, Pf(0), false, true);
  }

  // ---- The control vNIC's list ----

  function CtrlKind(a: Action): int { if a.op == RX_HOST then 0 else if a.op == CMSG then 1 else -1 }

  ghost predicate CtrlList(ws: seq<Word>, env: Env) {
    && Decode(ws).Some? && InKinds(Acts(ws), CtrlKind, (r: int) => 0 <= r < 2, 2) && RxHosts(ws, env, false)
    && AllBare(ws)
  }

  lemma CtrlInKinds(env: Env)
    ensures InKinds(CtrlActions(env), CtrlKind, (r: int) => 0 <= r < 2, 2)
  {
    var due := (r: int) => 0 <= r < 2;
    var items := [Item(true, RxHost(env, false)), Item(true, CmsgAction())];
    assert forall r | 0 <= r < 2 :: Fitting(items[r], CtrlKind, due, r);
    ThoseInKinds(items, CtrlKind, due);
    FirstTwo(items);
    assert Those(items) == CtrlActions(env);
  }

  lemma CtrlAction(env: Env, a: Action)
    requires a in CtrlActions(env)
    ensures a.Valid() && Bare(a) && (a.op == RX_HOST ==> a == RxHost(env, false))
  {
  }

  /** cfg_act_build_ctrl builds such a list. */
  lemma CtrlIsList(env: Env)
    ensures CtrlList(Enc(NONE, CtrlActions(env)), env)
  {
    var acts := CtrlActions(env);
    forall a | a in acts ensures a.Valid() { CtrlAction(env, a); }
    EncActs(acts);
    EncMeans(acts);
    CtrlInKinds(env);
    forall a | a in acts { CtrlAction(env, a); }
    RxHostsAre(Enc(NONE, acts), env, false);
  }

  // ---- The PF's VEB list ----

  function VebPfKind(a: Action): int {
    if a.op == CHECKSUM then 0 else if a.op == EBPF then 1 else if a.op == RSS then 2
    else if a.op == TX_HOST then 3 else -1
  }

  predicate VebPfDue(r: int, c: Control) {
    if r == 1 then Bpf in c else if r == 2 then RssWanted(c) else r == 0 || r == 3
  }

  ghost predicate VebPfList(ws: seq<Word>, env: Env, n: nat, c: Control) {
    && Decode(ws).Some? && InKinds(Acts(ws), VebPfKind, (r: int) => VebPfDue(r, c), 4)
    && Checksums(ws, true, true, CsumComplete in c) && BpfAndRss(ws, env, n) && TxHostsTo(ws, env, Pf(n), false, false)
    && AllBare(ws)
  }

  function VebPfItems(env: Env, n: nat, c: Control): seq<Item> {
    [Item(true, Checksum(true, true, CsumComplete in c)), Item(Bpf in c, BpfAction(n)),
     Item(WantsRss(c), RssAction(env)), Item(true, TxHost(env, Pf(n), false, false))]
  }

  lemma VebPfItemsAre(env: Env, n: nat, c: Control)
    ensures Those(VebPfItems(env, n, c)) == VebPfActions(env, n, c)
  {
    var x := VebPfItems(env, n, c);
    FirstFour(x);
    assert [] + Opt(true, x[0].action) == [x[0].action];
  }

  lemma VebPfInKinds(env: Env, n: nat, c: Control)
    ensures InKinds(VebPfActions(env, n, c), VebPfKind, (r: int) => VebPfDue(r, c), 4)
  {
    var items, due := VebPfItems(env, n, c), (r: int) => VebPfDue(r, c);
    assert forall r | 0 <= r < 4 :: Fitting(items[r], VebPfKind, due, r);
    ThoseInKinds(items, VebPfKind, due);
    VebPfItemsAre(env, n, c);
  }

  lemma VebPfAction(env: Env, n: nat, c: Control, a: Action)
    requires a in VebPfActions(env, n, c)
    ensures a.op == CHECKSUM ==> a == Checksum(true, true, CsumComplete in c)
    ensures a.op == EBPF ==> a == BpfAction(n)
    ensures a.op == RSS ==> a == RssAction(env)
    ensures a.op == TX_HOST ==> a == TxHost(env, Pf(n), false, false)
    ensures a.Valid()
    ensures Bare(a)
  {
  }

  /** cfg_act_build_veb_pf builds such a list. */
  lemma VebPfIsList(env: Env, n: nat, c: Control)
    ensures VebPfList(Enc(NONE, VebPfActions(env, n, c)), env, n, c)
  {
    var acts := VebPfActions(env, n, c);
    forall a | a in acts ensures a.Valid() { VebPfAction(env, n, c, a); }
    EncActs(acts);
    EncMeans(acts);
    VebPfInKinds(env, n, c);
    forall a | a in acts { VebPfAction(env, n, c, a); }
    var ws := Enc(NONE, acts);
    ChecksumsAre(ws, true, true, CsumComplete in c);
    BpfAndRssAre(ws, env, n);
    TxHostsAre(ws, env, Pf(n), false, false);
  }

  // ---- A VF's VEB list ----

  /** With a promiscuous PF the first of two transmits continues and the last does not. */
  function VebVfKind(promisc: bool): Action -> int {
    (a: Action) =>
      if a.op == PUSH_PKT then 0 else if a.op == POP_VLAN then 1
      else if a.op == CHECKSUM then (if BitAt(a.args, 1) then 2 else 5)
      else if a.op == TX_HOST then (if BitAt(a.args, 0x8000) <==> promisc then 3 else 8)
      else if a.op == POP_PKT then 4 else if a.op == EBPF then 6 else if a.op == RSS then 7 else -1
  }

  predicate VebVfDue(r: int, env: Env, pc: Control) {
    if r == 1 then env.vlanTag != 0
    else if r == 2 || r == 3 then true
    else if r == 5 then Promisc in pc && CsumComplete in pc
    else if r == 6 then Promisc in pc && Bpf in pc
    else if r == 7 then Promisc in pc && RssWanted(pc)
    else (r == 0 || r == 4 || r == 8) && Promisc in pc
  }

  ghost predicate VebVfChecksums(ws: seq<Word>, c: Control) {
    forall a | a in Acts(ws) && a.op == CHECKSUM ::
      if BitAt(a.args, 1) then IsChecksum(a, true, true, CsumComplete in c) else IsChecksum(a, false, false, true)
  }

  ghost predicate VebVfTransmits(ws: seq<Word>, env: Env, n: nat, promisc: bool) {
    forall a | a in Acts(ws) && a.op == TX_HOST ::
      if BitAt(a.args, 0x8000) <==> promisc then IsTxHost(a, env, Vf(n), promisc, false)
      else IsTxHost(a, env, Pf(0), false, false)
  }

  /** Strips the tag if there is one and delivers to the VF; if the PF is promiscuous a copy goes to it. */
  ghost predicate VebVfList(ws: seq<Word>, env: Env, n: nat, pc: Control, c: Control) {
    && Decode(ws).Some? && InKinds(Acts(ws), VebVfKind(Promisc in pc), (r: int) => VebVfDue(r, env, pc), 9)
    && VebVfChecksums(ws, c) && BpfAndRss(ws, env, n) && VebVfTransmits(ws, env, n, Promisc in pc)
    && AllBare(ws)
  }

  function VebVfItems(env: Env, n: nat, pc: Control, c: Control): seq<Item> {
    var p := Promisc in pc;
    [Item(p, PushPkt()), Item(env.vlanTag != 0, StripVlan()), Item(true, Checksum(true, true, CsumComplete in c)),
     Item(true, TxHost(env, Vf(n), p, false)), Item(p, PopPkt()),
     Item(p && CsumComplete in pc, Checksum(false, false, true)), Item(p && Bpf in pc, BpfAction(n)),
     Item(p && WantsRss(pc), RssAction(env)), Item(p, TxHost(env, Pf(0), false, false))]
  }

  lemma VebVfItemsAre(env: Env, n: nat, pc: Control, c: Control)
    ensures Those(VebVfItems(env, n, pc, c)) == VebVfActions(env, n, pc, c)
  {
    FirstNine(VebVfItems(env, n, pc, c));
    assert [] + Opt(Promisc in pc, PushPkt()) == Opt(Promisc in pc, PushPkt());
  }

  lemma ChecksumKinds(promisc: bool, complete: bool)
    ensures VebVfKind(promisc)(Checksum(true, true, complete)) == 2
    ensures VebVfKind(promisc)(Checksum(false, false, true)) == 5
  {
    ChecksumFields(true, true, complete);
    ChecksumFields(false, false, true);
  }

  lemma TransmitKinds(env: Env, n: nat, promisc: bool)
    ensures VebVfKind(promisc)(TxHost(env, Vf(n), promisc, false)) == 3
    ensures promisc ==> VebVfKind(promisc)(TxHost(env, Pf(0), false, false)) == 8
  {
    TxHostFields(env, Vf(n), promisc, false);
    TxHostFields(env, Pf(0), false, false);
  }

  lemma VebVfInKinds(env: Env, n: nat, pc: Control, c: Control)
    ensures InKinds(VebVfActions(env, n, pc, c), VebVfKind(Promisc in pc), (r: int) => VebVfDue(r, env, pc), 9)
  {
    var items, due, kind := VebVfItems(env, n, pc, c), (r: int) => VebVfDue(r, env, pc), VebVfKind(Promisc in pc);
    ChecksumKinds(Promisc in pc, CsumComplete in c);
    TransmitKinds(env, n, Promisc in pc);
    assert forall r | 0 <= r < 9 :: Fitting(items[r], kind, due, r);
    ThoseInKinds(items, kind, due);
    VebVfItemsAre(env, n, pc, c);
  }

  lemma VebVfAction(env: Env, n: nat, pc: Control, c: Control, a: Action)
    requires a in VebVfActions(env, n, pc, c)
    ensures a.op == CHECKSUM ==> a == Checksum(true, true, CsumComplete in c) || a == Checksum(false, false, true)
    ensures a.op == EBPF ==> a == BpfAction(n)
    ensures a.op == RSS ==> a == RssAction(env)
    ensures a.op == TX_HOST ==>
      a == TxHost(env, Vf(n), Promisc in pc, false) || (Promisc in pc && a == TxHost(env, Pf(0), false, false))
    ensures a.Valid()
    ensures Bare(a)
  {
  }

  lemma VebVfChecksumsAre(ws: seq<Word>, c: Control)
    requires forall a | a in Acts(ws) && a.op == CHECKSUM ::
      a == Checksum(true, true, CsumComplete in c) || a == Checksum(false, false, true)
    ensures VebVfChecksums(ws, c)
  {
    ChecksumFields(true, true, CsumComplete in c);
    ChecksumFields(false, false, true);
  }

  lemma VebVfTransmitsAre(ws: seq<Word>, env: Env, n: nat, promisc: bool)
    requires forall a | a in Acts(ws) && a.op == TX_HOST ::
      a == TxHost(env, Vf(n), promisc, false) || (promisc && a == TxHost(env, Pf(0), false, false))
    ensures VebVfTransmits(ws, env, n, promisc)
  {
    TxHostFields(env, Vf(n), promisc, false);
    TxHostFields(env, Pf(0), false, false);
  }

  /** cfg_act_build_veb_vf builds such a list; so it is for the words of those actions after a strip was removed. */
  lemma MeansVebVfList(ws: seq<Word>, env: Env, n: nat, pc: Control, c: Control)
    requires Means(ws, VebVfActions(env, n, pc, c))
    ensures VebVfList(ws, env, n, pc, c)
  {
    forall a | a in Acts(ws) { VebVfAction(env, n, pc, c, a); }
    VebVfInKinds(env, n, pc, c);
    VebVfChecksumsAre(ws, c);
    BpfAndRssAre(ws, env, n);
    VebVfTransmitsAre(ws, env, n, Promisc in pc);
  }

  lemma VebVfIsList(env: Env, n: nat, pc: Control, c: Control)
    ensures VebVfList(Enc(NONE, VebVfActions(env, n, pc, c)), env, n, pc, c)
  {
    var acts := VebVfActions(env, n, pc, c);
    forall a | a in acts ensures a.Valid() { VebVfAction(env, n, pc, c, a); }
    EncMeans(acts);
    MeansVebVfList(Enc(NONE, acts), env, n, pc, c);
  }

  // ---- The order of the code store ----

  /** The opcodes in the order in which the worker's code follows. */
  const CODE_ORDER: seq<int> := [DROP, RX_WIRE, DST_MAC_MATCH, CHECKSUM, RSS, TX_HOST, RX_HOST, TX_WIRE, CMSG,
                                 EBPF, POP_VLAN, PUSH_VLAN, SRC_MAC_MATCH, VEB_LOOKUP, POP_PKT, PUSH_PKT, TX_VLAN]

  lemma CodeOrder(i: nat)
    requires i < 17
    ensures CODE_ORDER[i] == i
  {
  }

  /** A port's list with checksum and RSS but no VEB falls through from the first action to the last. */
  lemma WireFallsThrough(env: Env, n: nat, c: Control)
    requires CsumComplete in c && Rss in c && Bpf !in c && Promisc !in c
    ensures var ws := Enc(NONE, NbiActions(env, n, false, c));
      |ws| == 7 && !Pipe(ws[0]) && Pipe(ws[1]) && Pipe(ws[3]) && Pipe(ws[4]) && Pipe(ws[6])
  {
    var a0, a1, a2 := RxWire(env, Vxlan in c, Nvgre in c, false), DstMacMatch(env.mac), Checksum(false, false, true);
    var a3, a4 := RssAction(env), TxHost(env, Pf(n), false, false);
    assert NbiActions(env, n, false, c) == [a0, a1, a2, a3, a4];
    var e4 := Enc(a3.op, [a4]);
    var e3 := Enc(a2.op, [a3, a4]);
    var e2 := Enc(a1.op, [a2, a3, a4]);
    var e1 := Enc(a0.op, [a1, a2, a3, a4]);
    assert [a4][1..] == [] && [a3, a4][1..] == [a4] && [a2, a3, a4][1..] == [a3, a4];
    assert [a1, a2, a3, a4][1..] == [a2, a3, a4] && [a0, a1, a2, a3, a4][1..] == [a1, a2, a3, a4];
    assert e4 == EncOne(a3.op, a4) + Enc(a4.op, []) && e3 == EncOne(a2.op, a3) + e4;
    assert e2 == EncOne(a1.op, a2) + e3 && e1 == EncOne(a0.op, a1) + e2;
  }
}
