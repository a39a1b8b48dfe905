/**
 The builders of action lists: for every vNIC type and configuration, which
 actions a queue runs. Each method appends to a list; the function beside it
 says which actions the finished list means.
 */
module ActionBuilders {
  import opened Common
  import opened ActionList

  /** Bits of NFP_NET_CFG_CTRL; the rest are numbered. */
  datatype Flag =
    | Enable | Promisc | RxCsum | TxCsum | Rss | Rss2 | ChainMeta | CsumComplete
    | Vxlan | Nvgre | Bpf | MsixAuto | Gather | Lso | IrqMod | LiveAddr | OtherFlag(bit: nat)

  type Control = set<Flag>

  datatype Vnic = Pf(n: nat) | Vf(n: nat) | Ctrl

  type Queue = q: int | 0 <= q < 64

  /** What the builders read from the config BARs, the SR-IOV area and the platform. */
  datatype Env = Env(
    mtu: nat, mac: Mac, vxlanPorts: nat, vxlanNnIdx: nat, rssArgs: Half, rssKey: Word,
    pcie: nat, tmq: nat, txWireJunk: nat, flBufSz: Vnic -> nat, queueOf: Vnic -> Queue,
    vlanTag: Half, spoofCheck: bool, srcMacHi: Word, srcMacLo: Half)

  function Bit(b: bool, weight: nat): nat { if b then weight else 0 }
  function Opt(b: bool, a: Action): seq<Action> { if b then [a] else [] }

  // ---- Single actions ----

  function DropAction(): Action { Action(DROP, 0, 0) }
  function CmsgAction(): Action { Action(CMSG, 0, 0) }
  function PushPkt(): Action { Action(PUSH_PKT, 0, 0) }
  function PopPkt(): Action { Action(POP_PKT, 0, 0) }
  function TxVlan(): Action { Action(TX_VLAN, 0, 0) }
  function StripVlan(): Action { Action(POP_VLAN, 0, 0) }
  function PushVlan(env: Env): Action { Action(PUSH_VLAN, env.vlanTag, 0) }

  function RxHost(env: Env, outer: bool): Action {
    Action(RX_HOST, ((env.mtu + 14 + 1) % 0x4000) * 4 + Bit(outer, 3), 0)
  }

  function RxWire(env: Env, vxlan: bool, nvgre: bool, csum: bool): Action {
    Action(RX_WIRE, Bit(vxlan, (env.vxlanNnIdx % 128) * 64 + (env.vxlanPorts % 8) * 8) + Bit(nvgre, 2)
      + Bit(csum, 1), 0)
  }

  function VebLookup(mac: Mac): Action { Action(VEB_LOOKUP, mac / 0x1_0000_0000, mac % 0x1_0000_0000) }
  function DstMacMatch(mac: Mac): Action { Action(DST_MAC_MATCH, mac / 0x1_0000_0000, mac % 0x1_0000_0000) }
  function SrcMacMatch(env: Env): Action { Action(SRC_MAC_MATCH, env.srcMacLo, env.srcMacHi) }

  function Checksum(outer: bool, inner: bool, complete: bool): Action {
    Action(CHECKSUM, Bit(complete, 256) + Bit(inner, 12) + Bit(outer, 3), 0)
  }

  function RssAction(env: Env): Action { Action(RSS, env.rssArgs, env.rssKey) }

  function TxHost(env: Env, v: Vnic, cont: bool, multicast: bool): Action {
    var rxb := env.flBufSz(v) / 256;
    Action(TX_HOST,
           Bit(cont, 0x8000) + Bit(multicast, 0x4000) + (if rxb > 63 then 63 else rxb) * 256 + (env.pcie % 4) * 64
             + env.queueOf(v), 0)
  }

  function TxWire(env: Env, cont: bool, multicast: bool): Action {
    Action(TX_WIRE, Bit(cont, 0x8000) + Bit(multicast, 0x4000) + (env.txWireJunk % 8) * 2048 + env.tmq % 2048, 0)
  }

  function BpfAction(n: nat): Action { Action(EBPF, (3072 + n * 2560) % 0x1_0000, 0) }

  predicate WantsRss(c: Control) { Rss in c || Rss2 in c || Bpf in c }

  // ---- What each list means ----

  function CtrlActions(env: Env): seq<Action> { [RxHost(env, false), CmsgAction()] }
  function HostDownActions(env: Env): seq<Action> { [RxHost(env, false), DropAction()] }
  function WireDownActions(env: Env): seq<Action> { [RxWire(env, false, false, false), DropAction()] }

  function PfActions(env: Env, vebUp: bool, c: Control): seq<Action> {
    var o := TxCsum in c;
    var i := o && Vxlan in c;
    [RxHost(env, vebUp)] + Opt(i, Checksum(false, true, false)) + Opt(vebUp, VebLookup(0)) + [TxWire(env, false, vebUp)]
    + Opt(vebUp && o, Checksum(true, false, false)) + Opt(vebUp, PushPkt()) + Opt(vebUp, TxVlan())
  }

  function VfActions(env: Env, pc: Control, c: Control): seq<Action> {
    var o := TxCsum in c;
    var i := o && Vxlan in c;
    [RxHost(env, true)] + Opt(env.vlanTag != 0, PushVlan(env)) + Opt(env.spoofCheck, SrcMacMatch(env)) + [VebLookup(0)]
    + Opt(i, Checksum(false, true, false)) + [TxWire(env, Promisc in pc, true)] + Opt(o, Checksum(true, false, false))
    + [TxHost(env, Pf(0), false, true)] + [PushPkt()] + [TxVlan()]
  }

  function NbiActions(env: Env, n: nat, vebUp: bool, c: Control): seq<Action> {
    var compl := CsumComplete in c;
    [RxWire(env, Vxlan in c, Nvgre in c, RxCsum in c && !compl)]
    + Opt(vebUp, VebLookup(if Promisc in c then 0 else env.mac)) + Opt(!vebUp && Promisc !in c, DstMacMatch(env.mac))
    + Opt(vebUp || compl, Checksum(vebUp, vebUp, compl)) + Opt(Bpf in c, BpfAction(n))
      + Opt(WantsRss(c), RssAction(env))
    + [TxHost(env, Pf(n), false, vebUp)] + Opt(vebUp, PushPkt()) + Opt(vebUp, TxVlan())
  }

  function VebPfActions(env: Env, n: nat, c: Control): seq<Action> {
    [Checksum(true, true, CsumComplete in c)] + Opt(Bpf in c, BpfAction(n)) + Opt(WantsRss(c), RssAction(env))
    + [TxHost(env, Pf(n), false, false)]
  }

  /** In promiscuous mode the VF's copy is made first and the PF gets the packet after it. */
  function VebVfActions(env: Env, n: nat, pc: Control, c: Control): seq<Action> {
    var p := Promisc in pc;
    Opt(p, PushPkt()) + Opt(env.vlanTag != 0, StripVlan()) + [Checksum(true, true, CsumComplete in c)]
      + [TxHost(env, Vf(n), p, false)]
    + Opt(p, PopPkt()) + Opt(p && CsumComplete in pc, Checksum(false, false, true)) + Opt(p && Bpf in pc, BpfAction(n))
    + Opt(p && WantsRss(pc), RssAction(env)) + Opt(p, TxHost(env, Pf(0), false, false))
  }

  // ---- The builders ----

  method BuildCtrl(l: ActionBuffer, env: Env, v: Vnic)
    requires l.Valid()
    modifies l, l.instr
    ensures l.Valid() && l.acts == if v.Ctrl? then CtrlActions(env) else []
  {
    l.Init();
    if !v.Ctrl? { return; }
    Put(l, RxHost(env, false));
    Put(l, CmsgAction());
  }

  method Put(l: ActionBuffer, a: Action)
    requires l.Valid() && l.count + 2 <= MAX_INSTR && a.Valid()
    modifies l, l.instr
    ensures l.Valid() && l.acts == old(l.acts) + [a]
    ensures l.count <= old(l.count) + if TwoWords(a.op) then 2 else 1
  {
    l.Append(a.op, a.args, a.param);
  }

  method PutIf(l: ActionBuffer, b: bool, a: Action)
    requires l.Valid() && l.count + 2 <= MAX_INSTR && a.Valid()
    modifies l, l.instr
    ensures l.Valid() && l.acts == old(l.acts) + Opt(b, a)
    ensures l.count <= old(l.count) + if TwoWords(a.op) then 2 else 1
  {
    if b { Put(l, a); }
  }

  /** The tail that the PF's wire and VEB lists share: BPF, RSS and delivery to the PF. */
  method PutDelivery(l: ActionBuffer, env: Env, n: nat, c: Control, multicast: bool)
    requires l.Valid() && l.count + 5 <= MAX_INSTR
    modifies l, l.instr
    ensures l.Valid() && l.count <= old(l.count) + 4
    ensures l.acts
      == old(l.acts) + Opt(Bpf in c, BpfAction(n)) + Opt(WantsRss(c), RssAction(env))
      + [TxHost(env, Pf(n), false, multicast)]
  {
    PutIf(l, Bpf in c, BpfAction(n));
    PutIf(l, WantsRss(c), RssAction(env));
    Put(l, TxHost(env, Pf(n), false, multicast));
  }

  method BuildHostDown(l: ActionBuffer, env: Env)
    requires l.Valid()
    modifies l, l.instr
    ensures l.Valid() && l.acts == HostDownActions(env)
  {
    l.Init();
    Put(l, RxHost(env, false));
    Put(l, DropAction());
  }

  method BuildWireDown(l: ActionBuffer, env: Env)
    requires l.Valid()
    modifies l, l.instr
    ensures l.Valid() && l.acts == WireDownActions(env)
  {
    l.Init();
    Put(l, RxWire(env, false, false, false));
    Put(l, DropAction());
  }

  method BuildPf(l: ActionBuffer, env: Env, v: Vnic, vebUp: bool, c: Control)
    requires l.Valid()
    modifies l, l.instr
    ensures l.Valid() && l.acts == if v.Pf? then PfActions(env, vebUp, c) else []
  {
    l.Init();
    if !v.Pf? { return; }
    var o := TxCsum in c;
    var i := o && Vxlan in c;
    Put(l, RxHost(env, vebUp));
    assert l.acts == [RxHost(env, vebUp)];
    PutIf(l, i, Checksum(false, true, false));
    PutIf(l, vebUp, VebLookup(0));
    Put(l, TxWire(env, false, vebUp));
    PutIf(l, vebUp && o, Checksum(true, false, false));
    PutIf(l, vebUp, PushPkt());
    PutIf(l, vebUp, TxVlan());
  }

  method BuildVf(l: ActionBuffer, env: Env, v: Vnic, pc: Control, c: Control)
    requires l.Valid()
    modifies l, l.instr
    ensures l.Valid() && l.acts == if v.Vf? then VfActions(env, pc, c) else []
  {
    l.Init();
    if !v.Vf? { return; }
    Put(l, RxHost(env, true));
    assert l.acts == [RxHost(env, true)];
    PutIf(l, env.vlanTag != 0, PushVlan(env));
    PutIf(l, env.spoofCheck, SrcMacMatch(env));
    Put(l, VebLookup(0));
    PutVfMiss(l, env, pc, c);
  }

  /** What a VF's packet does after missing in the VEB. */
  method PutVfMiss(l: ActionBuffer, env: Env, pc: Control, c: Control)
    requires l.Valid() && l.count + 7 <= MAX_INSTR
    modifies l, l.instr
    ensures l.Valid()
    ensures var o := TxCsum in c;
      l.acts == old(l.acts) + Opt(o && Vxlan in c, Checksum(false, true, false)) + [TxWire(env, Promisc in pc, true)]
                + Opt(o, Checksum(true, false, false)) + [TxHost(env, Pf(0), false, true)] + [PushPkt()] + [TxVlan()]
  {
    var o := TxCsum in c;
    PutIf(l, o && Vxlan in c, Checksum(false, true, false));
    Put(l, TxWire(env, Promisc in pc, true));
    PutIf(l, o, Checksum(true, false, false));
    Put(l, TxHost(env, Pf(0), false, true));
    Put(l, PushPkt());
    Put(l, TxVlan());
  }

  method BuildNbi(l: ActionBuffer, env: Env, v: Vnic, vebUp: bool, c: Control)
    requires l.Valid()
    modifies l, l.instr
    ensures l.Valid() && l.acts == if v.Pf? then NbiActions(env, v.n, vebUp, c) else []
  {
    l.Init();
    if !v.Pf? { return; }
    var compl := CsumComplete in c;
    Put(l, RxWire(env, Vxlan in c, Nvgre in c, RxCsum in c && !compl));
    assert l.acts == [RxWire(env, Vxlan in c, Nvgre in c, RxCsum in c && !compl)];
    PutIf(l, vebUp, VebLookup(if Promisc in c then 0 else env.mac));
    PutIf(l, !vebUp && Promisc !in c, DstMacMatch(env.mac));
    PutIf(l, vebUp || compl, Checksum(vebUp, vebUp, compl));
    PutDelivery(l, env, v.n, c, vebUp);
    PutIf(l, vebUp, PushPkt());
    PutIf(l, vebUp, TxVlan());
  }

  method BuildVebPf(l: ActionBuffer, env: Env, v: Vnic, c: Control)
    requires l.Valid()
    modifies l, l.instr
    ensures l.Valid() && l.acts == if v.Pf? then VebPfActions(env, v.n, c) else []
  {
    l.Init();
    if !v.Pf? { return; }
    Put(l, Checksum(true, true, CsumComplete in c));
    assert l.acts == [Checksum(true, true, CsumComplete in c)];
    PutDelivery(l, env, v.n, c, false);
  }

  method BuildVebVf(l: ActionBuffer, env: Env, v: Vnic, pc: Control, c: Control)
    requires l.Valid()
    modifies l, l.instr
    ensures l.Valid() && l.acts == if v.Vf? then VebVfActions(env, v.n, pc, c) else []
  {
    l.Init();
    if !v.Vf? { return; }
    var p := Promisc in pc;
    PutIf(l, p, PushPkt());
    assert l.acts == Opt(p, PushPkt());
    PutIf(l, env.vlanTag != 0, StripVlan());
    Put(l, Checksum(true, true, CsumComplete in c));
    Put(l, TxHost(env, v, p, false));
    PutIf(l, p, PopPkt());
    PutPromiscCopy(l, env, v.n, pc);
  }

  /** The rest of a VF's VEB list when the PF is promiscuous: the saved packet goes to the PF too. */
  method PutPromiscCopy(l: ActionBuffer, env: Env, n: nat, pc: Control)
    requires l.Valid() && l.count + 6 <= MAX_INSTR
    modifies l, l.instr
    ensures l.Valid() && l.count <= old(l.count) + 5
    ensures var p := Promisc in pc;
      l.acts == old(l.acts) + Opt(p && CsumComplete in pc, Checksum(false, false, true))
        + Opt(p && Bpf in pc, BpfAction(n))
                + Opt(p && WantsRss(pc), RssAction(env)) + Opt(p, TxHost(env, Pf(0), false, false))
  {
    var p := Promisc in pc;
    PutIf(l, p && CsumComplete in pc, Checksum(false, false, true));
    PutIf(l, p && Bpf in pc, BpfAction(n));
    PutIf(l, p && WantsRss(pc), RssAction(env));
    PutIf(l, p, TxHost(env, Pf(0), false, false));
  }
}
