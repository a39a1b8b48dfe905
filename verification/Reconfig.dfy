/**
 Reconfiguration messages for PFs, VFs and the control vNIC, as functions of
 the shared state, and what holds over every run of messages and link checks.
 */
module Reconfig {
  import opened Common
  import opened ActionList
  import opened ActionBuilders
  import opened LinkState
  import L = ListMeanings

  datatype Update =
    | GenUpdate | RingUpdate | RssUpdate | MsixUpdate | ResetUpdate | IrqModUpdate
    | VxlanUpdate | BpfUpdate | MacUpdate | VfUpdate | OtherUpdate(bit: nat)

  /**
   What is fixed when the firmware is built: the vNICs, whether PFs may be
   promiscuous, the control vNIC's capabilities, and the vNICs whose host lists
   the image initialises.
   */
  datatype Board = Board(y: Layout, promiscPf: bool, ctrlCap: Control, imaged: set<nat>)

  const VF_CAP: Control := {Enable, Promisc, RxCsum, TxCsum, MsixAuto, CsumComplete, Gather, Lso, IrqMod, Vxlan}
  const VF_UPDATES: set<Update> := {GenUpdate, RingUpdate, MsixUpdate, ResetUpdate, IrqModUpdate, MacUpdate,
    VxlanUpdate}
  const PF_UPDATES: set<Update> :=
    {GenUpdate, RingUpdate, RssUpdate, MsixUpdate, ResetUpdate, IrqModUpdate, VxlanUpdate, BpfUpdate, MacUpdate,
      VfUpdate}

  function PfCap(b: Board): Control {
    {Enable, RxCsum, TxCsum, Rss, Rss2, MsixAuto, CsumComplete, Gather, Lso, IrqMod, Bpf, LiveAddr, Vxlan, Nvgre}
    + if b.promiscPf then {Promisc} else {}
  }

  /** What a message meets outside: the config of each vNIC, and which table writes and MAC operations fail. */
  datatype Io = Io(env: nat -> Env, vfFails: nat -> bool, pfFails: bool, rxStuck: bool)

  /** The SR-IOV area's entry for a VF. */
  datatype Sriov = Sriov(mode: Mode, hasMac: bool, trusted: bool)

  datatype Message =
    | CtrlMessage(control: Control)
    | PfMessage(port: nat, control: Control, update: set<Update>)
    | VfMessage(vf: nat, control: Control, update: set<Update>, sriov: Sriov, barEnabled: bool)

  /** Control words by vNIC, action lists by port and by vNIC, and the link state. */
  datatype State = State(links: Links, control: seq<Control>, wire: seq<seq<Word>>, host: seq<seq<Word>>)

  datatype Outcome = Outcome(s: State, ok: bool)

  ghost predicate Fits(y: Layout, s: State) {
    && y.ports > 0 && Shaped(y, s.links)
    && |s.control| == |s.host| == y.Vids() && |s.wire| == y.ports
  }

  predicate AnyVf(y: Layout, control: seq<Control>)
    requires |control| == y.Vids()
  {
    exists v | 0 <= v < y.vfs :: Enable in control[v]
  }

  function EnabledIn(control: seq<Control>): nat -> bool { (v: nat) => v < |control| && Enable in control[v] }

  // ---- The messages ----

  function SetHost(s: State, vid: nat, acts: seq<Action>): State
    requires vid < |s.host|
  {
    s.(host := s.host[vid := Enc(NONE, acts)])
  }

  /** cfg_act_vf_up on every enabled VF below `upto`, stopping at the first that fails. */
  ghost function UpVfs(y: Layout, s: State, pc: Control, io: Io, upto: nat): (r: Outcome)
    requires Fits(y, s) && upto <= y.vfs
    ensures Fits(y, r.s) && r.s == s.(host := r.s.host)
    ensures forall vid | upto <= vid < y.Vids() :: r.s.host[vid] == s.host[vid]
  {
    if upto == 0 then Outcome(s, true) else
    var r, v := UpVfs(y, s, pc, io, upto - 1), upto - 1;
    if !r.ok || Enable !in s.control[v] then r
    else if io.vfFails(v) then Outcome(r.s, false)
    else Outcome(SetHost(r.s, v, VfActions(io.env(v), pc, s.control[v])), true)
  }

  /** cfg_act_vf_down: the drop list is written even if the VEB then fails. */
  function DownVf(s: State, io: Io, v: nat): Outcome
    requires v < |s.host|
  {
    Outcome(SetHost(s, v, HostDownActions(io.env(v))), !io.vfFails(v))
  }

  /** cfg_act_vf_down on every VF below `upto`, stopping at the first that fails. */
  ghost function DownVfs(y: Layout, s: State, io: Io, upto: nat): (r: Outcome)
    requires Fits(y, s) && upto <= y.vfs
    ensures Fits(y, r.s) && r.s == s.(host := r.s.host)
    ensures forall vid | upto <= vid < y.Vids() :: r.s.host[vid] == s.host[vid]
  {
    if upto == 0 then Outcome(s, true) else
    var r := DownVfs(y, s, io, upto - 1);
    if r.ok then DownVf(r.s, io, upto - 1) else r
  }

  /** cfg_act_pf_up: both lists are written; only port 0 has VEB entries, whose writing may fail. */
  function UpPf(y: Layout, s: State, port: nat, vebUp: bool, c: Control, io: Io): Outcome
    requires |s.host| == y.Vids() && port < y.ports == |s.wire|
  {
    var env := io.env(y.PfVid(port));
    var s1 := s.(wire := s.wire[port := Enc(NONE, NbiActions(env, port, vebUp, c))]);
    Outcome(SetHost(s1, y.PfVid(port), PfActions(env, vebUp, c)), !(port == 0 && io.pfFails))
  }

  /** cfg_act_pf_down, whose result is ignored. */
  function DownPf(y: Layout, s: State, port: nat, io: Io): State
    requires |s.host| == y.Vids() && port < y.ports == |s.wire|
  {
    var env := io.env(y.PfVid(port));
    SetHost(s.(wire := s.wire[port := Enc(NONE, WireDownActions(env))]), y.PfVid(port), HostDownActions(env))
  }

  /** The part of a PF message that brings the PF and its VFs up. */
  ghost function EnablePf(y: Layout, s: State, port: nat, c: Control, io: Io): (r: Outcome)
    requires Fits(y, s) && port < y.ports
    ensures Fits(y, r.s) && r.s.control == s.control && r.s.links == s.links
  {
    if Enable !in c then Outcome(s, true) else
    var r := UpVfs(y, s, c, io, y.vfs);
    if r.ok then UpPf(y, r.s, port, AnyVf(y, s.control), c, io) else r
  }

  /** process_pf_reconfig. */
  ghost function ProcessPf(b: Board, s: State, port: nat, c: Control, update: set<Update>, io: Io): (r: Outcome)
    requires Fits(b.y, s) && port < b.y.ports
    ensures Fits(b.y, r.s) && r.s.links == s.links
  {
    if !(c <= PfCap(b)) || !(update <= PF_UPDATES) then Outcome(s, false) else
    var up, pf := EnablePf(b.y, s, port, c, io), b.y.PfVid(port);
    if !up.ok then up else
    var s1 := up.s.(control := s.control[pf := c]);
    if Enable in c || Enable !in s.control[pf] then Outcome(s1, true)
    else if io.rxStuck then Outcome(s1, false)
    else DownVfs(b.y, DownPf(b.y, s1, port, io), io, b.y.vfs)
  }

  /** The VF's own list: brought up for PF 0, or dropped. */
  ghost function SwitchVf(y: Layout, s: State, m: Message, io: Io): (r: Outcome)
    requires Fits(y, s) && m.VfMessage? && m.vf < y.vfs
    ensures Fits(y, r.s) && r.s.control == s.control && r.s.links == s.links
  {
    var pc := s.control[y.PfVid(0)];
    if Enable in m.control then
      if Enable !in pc || io.vfFails(m.vf) then Outcome(s, false)
      else Outcome(SetHost(s, m.vf, VfActions(io.env(m.vf), pc, m.control)), true)
    else if MacUpdate in m.update && m.sriov.hasMac && !m.sriov.trusted then Outcome(s, false)
    else DownVf(s, io, m.vf)
  }

  /** process_vf_reconfig: the control word is stored first, the link state last. */
  ghost function ProcessVf(y: Layout, s: State, m: Message, io: Io): (r: Outcome)
    requires Fits(y, s) && m.VfMessage? && m.vf < y.vfs
    ensures Fits(y, r.s)
  {
    if !(m.control <= VF_CAP) || !(m.update <= VF_UPDATES) then Outcome(s, false) else
    var r := SwitchVf(y, s.(control := s.control[m.vf := m.control]), m, io);
    if !r.ok then r else
    var t := UpPf(y, r.s, 0, AnyVf(y, r.s.control), r.s.control[y.PfVid(0)], io);
    if !t.ok then t else
    var mode := if Enable in m.control then m.sriov.mode else Down;
    Outcome(t.s.(links := UpdateVf(y, t.s.links, 0, m.vf, Enable in m.control, mode, m.barEnabled)), true)
  }

  /** process_ctrl_reconfig. */
  ghost function ProcessCtrl(b: Board, s: State, c: Control, io: Io): (r: Outcome)
    requires Fits(b.y, s)
    ensures Fits(b.y, r.s)
  {
    if !(c <= b.ctrlCap) then Outcome(s, false) else
    var vid := b.y.CtrlVid();
    var s1 := SetHost(s, vid, CtrlActions(io.env(vid)));
    Outcome(s1.(links := s.links.(bar := s.links.bar[vid := Enable in c]), control := s.control[vid := c]), true)
  }

  // ---- Runs ----

  /** One pass of the configuration thread or of the link-state thread. */
  datatype Step =
    | Configure(m: Message, io: Io)
    | CheckLink(port: nat, macUp: bool, fails: nat -> bool)
    | Retry(fails: nat -> bool)

  predicate Addressed(y: Layout, e: Step) {
    match e
    case Configure(m, _) => (m.PfMessage? ==> m.port < y.ports) && (m.VfMessage? ==> m.vf < y.vfs)
    case CheckLink(port, _, _) => port < y.ports
    case Retry(_) => true
  }

  ghost function Next(b: Board, s: State, e: Step): (r: Outcome)
    requires Fits(b.y, s) && Addressed(b.y, e)
    ensures Fits(b.y, r.s)
  {
    match e
    case Configure(CtrlMessage(c), io) => ProcessCtrl(b, s, c, io)
    case Configure(PfMessage(port, c, update), io) => ProcessPf(b, s, port, c, update, io)
    case Configure(VfMessage(_, _, _, _, _), io) => ProcessVf(b.y, s, e.m, io)
    case CheckLink(port, macUp, fails) =>
      Outcome(s.(links := LscCheck(b.y, s.links, port, macUp, Enable in s.control[b.y.PfVid(port)], fails)), true)
    case Retry(fails) =>
      Outcome(s.(links := HandlePending(b.y, s.links, EnabledIn(s.control), fails, b.y.Vids())), true)
  }

  /** The state after a run, whether or not its messages were accepted. */
  ghost function Run(b: Board, s: State, es: seq<Step>): (r: State)
    requires Fits(b.y, s) && forall e | e in es :: Addressed(b.y, e)
    ensures Fits(b.y, r)
    decreases |es|
  {
    if es == [] then s else Run(b, Next(b, s, es[0]).s, es[1..])
  }

  ghost predicate AllAccepted(b: Board, s: State, es: seq<Step>)
    requires Fits(b.y, s) && forall e | e in es :: Addressed(b.y, e)
    decreases |es|
  {
    es == [] || (Next(b, s, es[0]).ok && AllAccepted(b, Next(b, s, es[0]).s, es[1..]))
  }

  /** The lists in the firmware image: receive and drop. Where it has none, memory is zero, and a zero word drops. */
  const WIRE_IMAGE: seq<Word> := [Make(RX_WIRE, false, 16383), Make(DROP, false, 0)]
  const HOST_IMAGE: seq<Word> := [Make(RX_HOST, false, 16383), Make(DROP, false, 0)]
  const NO_IMAGE: seq<Word> := [0]

  function HostImage(b: Board, vid: int): seq<Word> { if vid in b.imaged then HOST_IMAGE else NO_IMAGE }

  ghost function Boot(b: Board): (s: State)
    requires b.y.ports > 0
    ensures Fits(b.y, s)
  {
    ResetInv(b.y);
    State(Reset(b.y), seq(b.y.Vids(), _ => {}),
          seq(b.y.ports, _ => WIRE_IMAGE), seq(b.y.Vids(), vid => HostImage(b, vid)))
  }

  // ---- Refusals ----

  /** Outside the capabilities or the legal updates of the vNIC's type. */
  predicate Masked(b: Board, m: Message) {
    match m
    case CtrlMessage(c) => !(c <= b.ctrlCap)
    case PfMessage(_, c, u) => !(c <= PfCap(b)) || !(u <= PF_UPDATES)
    case VfMessage(_, c, u, _, _) => !(c <= VF_CAP) || !(u <= VF_UPDATES)
  }

  /** A message refused by a mask changes no control word, no list and no link bit. */
  lemma MaskedChangesNothing(b: Board, s: State, m: Message, io: Io)
    requires Fits(b.y, s) && Addressed(b.y, Configure(m, io)) && Masked(b, m)
    ensures Next(b, s, Configure(m, io)) == Outcome(s, false)
  {
  }

  // ---- Link state over every run ----

  ghost predicate LinksOk(y: Layout, s: Links) {
    Inv(y, s) && forall v: nat | v < y.vfs && s.applied[v].Applied? :: s.applied[v].port == 0
  }

  lemma CtrlBarKeeps(y: Layout, s: Links, up: bool)
    requires Inv(y, s)
    ensures Inv(y, s.(bar := s.bar[y.CtrlVid() := up]))
  {
    var t := s.(bar := s.bar[y.CtrlVid() := up]);
    forall v: nat | v < y.vfs ensures VfOk(y, t, v) { assert VfOk(y, s, v); }
    forall p: nat | p < y.ports ensures FollowersAgree(y, t, p) { assert FollowersAgree(y, s, p); }
  }

  lemma VfLinks(y: Layout, s: State, m: Message, io: Io)
    requires Fits(y, s) && m.VfMessage? && m.vf < y.vfs && LinksOk(y, s.links)
    ensures LinksOk(y, ProcessVf(y, s, m, io).s.links)
  {
    var mode := if Enable in m.control then m.sriov.mode else Down;
    UpdateVfKeeps(y, s.links, 0, m.vf, Enable in m.control, mode, m.barEnabled);
  }

  lemma StepLinks(b: Board, s: State, e: Step)
    requires Fits(b.y, s) && Addressed(b.y, e) && LinksOk(b.y, s.links)
    ensures LinksOk(b.y, Next(b, s, e).s.links)
  {
    match e
    case Configure(CtrlMessage(c), io) => CtrlBarKeeps(b.y, s.links, Enable in c);
    case Configure(PfMessage(_, _, _), _) =>
    case Configure(VfMessage(_, _, _, _, _), io) => VfLinks(b.y, s, e.m, io);
    case CheckLink(port, macUp, fails) =>
      LscCheckKeeps(b.y, s.links, port, macUp, Enable in s.control[b.y.PfVid(port)], fails);
    case Retry(fails) =>
      HandlePendingKeeps(b.y, s.links, EnabledIn(s.control), fails);
  }

  lemma {:induction false} RunLinks(b: Board, s: State, es: seq<Step>)
    requires Fits(b.y, s) && (forall e | e in es :: Addressed(b.y, e)) && LinksOk(b.y, s.links)
    ensures LinksOk(b.y, Run(b, s, es).links)
    decreases |es|
  {
    if es != [] {
      StepLinks(b, s, es[0]);
      RunLinks(b, Next(b, s, es[0]).s, es[1..]);
    }
  }

  /** The mode of a VF's last accepted message, and PF 0's link bit when it was processed. */
  datatype Given = Nothing | Given(mode: Mode, pfUp: bool)

  /** What a step gives to a VF, if it is an accepted message to it. */
  ghost function GivenBy(b: Board, s: State, e: Step, v: nat, g: Given): Given
    requires Fits(b.y, s) && Addressed(b.y, e)
  {
    if e.Configure? && e.m.VfMessage? && e.m.vf == v && Next(b, s, e).ok then
      Given(if Enable in e.m.control then e.m.sriov.mode else Down, Has(s.links.ls, b.y.PfVid(0)))
    else g
  }

  /** What the last accepted message of a run gave to a VF. */
  ghost function LastGiven(b: Board, s: State, es: seq<Step>, v: nat, g: Given): Given
    requires Fits(b.y, s) && forall e | e in es :: Addressed(b.y, e)
    decreases |es|
  {
    if es == [] then g else LastGiven(b, Next(b, s, es[0]).s, es[1..], v, GivenBy(b, s, es[0], v, g))
  }

  /** The record of a VF's last update is that message's. */
  ghost predicate Recorded(a: Applied, g: Given) {
    match g
    case Nothing => a == Never
    case Given(mode, pfUp) => a == Applied(mode, 0, mode == Up || pfUp)
  }

  lemma VfRecords(b: Board, s: State, m: Message, io: Io, v: nat, g: Given)
    requires Fits(b.y, s) && m.VfMessage? && m.vf < b.y.vfs && v < b.y.vfs && Recorded(s.links.applied[v], g)
    ensures Recorded(ProcessVf(b.y, s, m, io).s.links.applied[v], GivenBy(b, s, Configure(m, io), v, g))
  {
    var r := ProcessVf(b.y, s, m, io);
    if r.ok {
      var mode := if Enable in m.control then m.sriov.mode else Down;
      assert r.s.links == UpdateVf(b.y, s.links, 0, m.vf, Enable in m.control, mode, m.barEnabled);
      UpdateGives(b.y, s.links, 0, m.vf, Enable in m.control, mode, m.barEnabled);
    } else {
      assert r.s.links == s.links;
    }
  }

  lemma StepRecords(b: Board, s: State, e: Step, v: nat, g: Given)
    requires Fits(b.y, s) && Addressed(b.y, e) && v < b.y.vfs && Recorded(s.links.applied[v], g)
    ensures Recorded(Next(b, s, e).s.links.applied[v], GivenBy(b, s, e, v, g))
  {
    if e.Configure? && e.m.VfMessage? { VfRecords(b, s, e.m, e.io, v, g); }
  }

  lemma {:induction false} RunRecords(b: Board, s: State, es: seq<Step>, v: nat, g: Given)
    requires Fits(b.y, s) && (forall e | e in es :: Addressed(b.y, e)) && v < b.y.vfs && Recorded(s.links.applied[v], g)
    ensures Recorded(Run(b, s, es).links.applied[v], LastGiven(b, s, es, v, g))
    decreases |es|
  {
    if es != [] {
      StepRecords(b, s, es[0], v, g);
      RunRecords(b, Next(b, s, es[0]).s, es[1..], v, GivenBy(b, s, es[0], v, g));
    }
  }

  /**
   In every reachable state, refused messages included: a VF follows at most
   one port; while PF 0 counts as up, a VF whose last accepted message set it to
   automatic has PF 0's link bit; one that it forced up is up; one that it
   forced down or disabled has the bit that PF 0 had at that message; and the
   BAR of a VF that had one shows its link bit.
   */
  lemma LinksInEveryState(b: Board, es: seq<Step>, v: nat, p: nat, q: nat)
    requires b.y.ports > 0 && (forall e | e in es :: Addressed(b.y, e))
    requires v < b.y.vfs && p < b.y.ports && q < b.y.ports
    ensures var s, pf := Run(b, Boot(b), es).links, b.y.PfVid(0);
      && (Has(s.follows[p], v) && Has(s.follows[q], v) ==> p == q)
      && match LastGiven(b, Boot(b), es, v, Nothing)
         case Nothing => true
         case Given(mode, pfUp) =>
           && (mode == Auto && Has(s.vs, pf) ==> (Has(s.ls, v) <==> Has(s.ls, pf)))
           && (mode == Up ==> Has(s.ls, v))
           && (mode == Down ==> (Has(s.ls, v) <==> pfUp))
           && (s.bar[v] <==> Has(s.ls, v))
  {
    ResetInv(b.y);
    RunLinks(b, Boot(b), es);
    RunRecords(b, Boot(b), es, v, Nothing);
    var s := Run(b, Boot(b), es).links;
    InvMeans(b.y, s, v, p, q);
    InvMeans(b.y, s, v, 0, 0);
  }

  // ---- Lists over every accepted run ----

  ghost predicate LooksUp(ws: seq<Word>) {
    Decode(ws).Some? && exists a | a in Decode(ws).value :: a.op == VEB_LOOKUP
  }

  /** The list drops every packet, at once or after receiving it. */
  ghost predicate Drops(ws: seq<Word>) {
    && Decode(ws).Some?
    && var acts := Decode(ws).value;
       || acts == [DropAction()]
       || (|acts| == 2 && (acts[0].op == RX_WIRE || acts[0].op == RX_HOST) && acts[1] == DropAction())
  }

  /** At boot every list drops. */
  lemma BootDrops(b: Board)
    requires b.y.ports > 0
    ensures forall p | 0 <= p < b.y.ports :: Drops(Boot(b).wire[p])
    ensures forall v | 0 <= v < b.y.Vids() :: Drops(Boot(b).host[v])
  {
    ImageDrops(RX_WIRE);
    ImageDrops(RX_HOST);
    DecodeOne(NONE, DropAction(), []);
    assert EncOne(NONE, DropAction()) + [] == NO_IMAGE && [DropAction()] + [] == [DropAction()];
    assert Drops(NO_IMAGE);
  }

  lemma ImageDrops(op: Opcode)
    requires op == RX_WIRE || op == RX_HOST
    ensures Drops([Make(op, false, 16383), Make(DROP, false, 0)])
  {
    var acts := [Action(op, 16383, 0), DropAction()];
    EncMeans(acts);
    assert Enc(NONE, acts) == EncOne(NONE, acts[0]) + Enc(op, acts[1..]);
    assert acts[1..] == [DropAction()] && Enc(op, [DropAction()]) == EncOne(op, DropAction()) + Enc(DROP, []);
    assert Enc(NONE, acts) == [Make(op, false, 16383), Make(DROP, false, 0)];
  }

  lemma NbiLooksUp(env: Env, n: nat, vebUp: bool, c: Control)
    ensures LooksUp(Enc(NONE, NbiActions(env, n, vebUp, c))) <==> vebUp
  {
    var acts, look := NbiActions(env, n, vebUp, c), VebLookup(if Promisc in c then 0 else env.mac);
    L.NbiValid(env, n, vebUp, c);
    EncMeans(acts);
    assert vebUp ==> look in acts;
    assert !vebUp ==> forall a | a in acts :: a.op != VEB_LOOKUP;
  }

  lemma PfLooksUp(env: Env, vebUp: bool, c: Control)
    ensures LooksUp(Enc(NONE, PfActions(env, vebUp, c))) <==> vebUp
  {
    var acts := PfActions(env, vebUp, c);
    assert AllValid(acts);
    EncMeans(acts);
    assert vebUp ==> VebLookup(0) in acts;
  }

  lemma DownListsDrop(env: Env)
    ensures Drops(Enc(NONE, HostDownActions(env))) && Drops(Enc(NONE, WireDownActions(env)))
  {
    EncMeans(HostDownActions(env));
    EncMeans(WireDownActions(env));
  }

  /** PF 0's wire and host lists both drop, or both look up the VEB exactly when some VF's control word is enabled. */
  ghost predicate ListsAgree(y: Layout, s: State)
    requires Fits(y, s)
  {
    var wire, host, any := s.wire[0], s.host[y.PfVid(0)], AnyVf(y, s.control);
    (Drops(wire) && Drops(host)) || ((LooksUp(wire) <==> any) && (LooksUp(host) <==> any))
  }

  lemma UpPfAgrees(y: Layout, s: State, c: Control, io: Io)
    requires Fits(y, s)
    ensures ListsAgree(y, UpPf(y, s, 0, AnyVf(y, s.control), c, io).s)
  {
    var env, any := io.env(y.PfVid(0)), AnyVf(y, s.control);
    NbiLooksUp(env, 0, any, c);
    PfLooksUp(env, any, c);
  }

  /** An accepted message to PF 0 that leaves it enabled or disables it restores the property from any state. */
  lemma PfEstablishes(b: Board, s: State, c: Control, update: set<Update>, io: Io)
    requires Fits(b.y, s) && ProcessPf(b, s, 0, c, update, io).ok && (Enable in c || Enable in s.control[b.y.PfVid(0)])
    ensures ListsAgree(b.y, ProcessPf(b, s, 0, c, update, io).s)
  {
    var pf := b.y.PfVid(0);
    var up := EnablePf(b.y, s, 0, c, io);
    var s1 := up.s.(control := s.control[pf := c]);
    SameVfs(b.y, s.control, s1.control);
    if Enable in c {
      UpPfAgrees(b.y, UpVfs(b.y, s, c, io, b.y.vfs).s, c, io);
    } else {
      DownListsDrop(io.env(pf));
    }
  }

  lemma SameVfs(y: Layout, c: seq<Control>, d: seq<Control>)
    requires |c| == |d| == y.Vids() && forall v | 0 <= v < y.vfs :: c[v] == d[v]
    ensures AnyVf(y, c) == AnyVf(y, d)
  {
    if AnyVf(y, c) { var v :| 0 <= v < y.vfs && Enable in c[v]; assert Enable in d[v]; }
    if AnyVf(y, d) { var v :| 0 <= v < y.vfs && Enable in d[v]; assert Enable in c[v]; }
  }

  /** So does every accepted message to a VF. */
  lemma VfEstablishes(y: Layout, s: State, m: Message, io: Io)
    requires Fits(y, s) && m.VfMessage? && m.vf < y.vfs && ProcessVf(y, s, m, io).ok
    ensures ListsAgree(y, ProcessVf(y, s, m, io).s)
  {
    var r := SwitchVf(y, s.(control := s.control[m.vf := m.control]), m, io);
    UpPfAgrees(y, r.s, r.s.control[y.PfVid(0)], io);
  }

  /** The lists depend on PF 0's two and on whether any VF is enabled. */
  lemma SameLists(y: Layout, s: State, t: State)
    requires Fits(y, s) && Fits(y, t) && ListsAgree(y, s)
    requires t.wire[0] == s.wire[0] && t.host[y.PfVid(0)] == s.host[y.PfVid(0)]
    requires forall v | 0 <= v < y.vfs :: t.control[v] == s.control[v]
    ensures ListsAgree(y, t)
  {
    SameVfs(y, s.control, t.control);
  }

  lemma EnableKeepsLists(y: Layout, s: State, port: nat, c: Control, io: Io)
    requires Fits(y, s) && port < y.ports && ListsAgree(y, s)
    ensures ListsAgree(y, EnablePf(y, s, port, c, io).s)
  {
    var r := UpVfs(y, s, c, io, y.vfs);
    if Enable in c && r.ok && port == 0 {
      UpPfAgrees(y, r.s, c, io);
    } else {
      SameLists(y, s, EnablePf(y, s, port, c, io).s);
    }
  }

  lemma DownAgrees(y: Layout, s: State, port: nat, io: Io)
    requires Fits(y, s) && port < y.ports && ListsAgree(y, s)
    ensures ListsAgree(y, DownVfs(y, DownPf(y, s, port, io), io, y.vfs).s)
  {
    if port == 0 {
      DownListsDrop(io.env(y.PfVid(0)));
    } else {
      SameLists(y, s, DownVfs(y, DownPf(y, s, port, io), io, y.vfs).s);
    }
  }

  /** No PF message breaks the property, accepted or refused. */
  lemma PfKeepsLists(b: Board, s: State, port: nat, c: Control, update: set<Update>, io: Io)
    requires Fits(b.y, s) && port < b.y.ports && ListsAgree(b.y, s)
    ensures ListsAgree(b.y, ProcessPf(b, s, port, c, update, io).s)
  {
    if c <= PfCap(b) && update <= PF_UPDATES {
      var up, pf := EnablePf(b.y, s, port, c, io), b.y.PfVid(port);
      EnableKeepsLists(b.y, s, port, c, io);
      var s1 := up.s.(control := s.control[pf := c]);
      SameLists(b.y, up.s, s1);
      DownAgrees(b.y, s1, port, io);
    }
  }

  /**
   The reasons to refuse a VF message before PF 0's lists are rebuilt: PF 0 is down, the
   VEB fails, or the MAC may not change.
   */
  predicate RefusedEarly(y: Layout, s: State, m: Message, io: Io)
    requires |s.control| == y.Vids() && y.ports > 0 && m.VfMessage? && m.vf < y.vfs
  {
    || io.vfFails(m.vf)
    || (if Enable in m.control then Enable !in s.control[y.PfVid(0)]
        else MacUpdate in m.update && m.sriov.hasMac && !m.sriov.trusted)
  }

  /**
   A VF message that is refused after its control word was stored, when that
   word changes whether any VF is enabled and PF 0's lists do not drop anyway.
   */
  ghost predicate Breaks(b: Board, s: State, e: Step)
    requires Fits(b.y, s) && Addressed(b.y, e)
  {
    && e.Configure? && e.m.VfMessage? && !Masked(b, e.m) && RefusedEarly(b.y, s, e.m, e.io)
    && !(Drops(s.wire[0]) && Drops(s.host[b.y.PfVid(0)]))
    && AnyVf(b.y, s.control[e.m.vf := e.m.control]) != AnyVf(b.y, s.control)
  }

  lemma VfListsExact(b: Board, s: State, m: Message, io: Io)
    requires Fits(b.y, s) && m.VfMessage? && m.vf < b.y.vfs && ListsAgree(b.y, s)
    ensures ListsAgree(b.y, ProcessVf(b.y, s, m, io).s) <==> !Breaks(b, s, Configure(m, io))
    ensures Breaks(b, s, Configure(m, io)) ==> !ProcessVf(b.y, s, m, io).ok
  {
    if !Masked(b, m) {
      var r := SwitchVf(b.y, s.(control := s.control[m.vf := m.control]), m, io);
      assert r.ok <==> !RefusedEarly(b.y, s, m, io);
      if r.ok {
        UpPfAgrees(b.y, r.s, r.s.control[b.y.PfVid(0)], io);
        SameLists(b.y, UpPf(b.y, r.s, 0, AnyVf(b.y, r.s.control), r.s.control[b.y.PfVid(0)], io).s,
          ProcessVf(b.y, s, m, io).s);
      } else {
        assert r.s.wire[0] == s.wire[0] && r.s.host[b.y.PfVid(0)] == s.host[b.y.PfVid(0)];
      }
    }
  }

  /** Every step, accepted or refused, keeps the property exactly when it is not such a message. */
  lemma StepLists(b: Board, s: State, e: Step)
    requires Fits(b.y, s) && Addressed(b.y, e) && ListsAgree(b.y, s)
    ensures ListsAgree(b.y, Next(b, s, e).s) <==> !Breaks(b, s, e)
    ensures Breaks(b, s, e) ==> !Next(b, s, e).ok
  {
    match e
    case Configure(VfMessage(_, _, _, _, _), io) => VfListsExact(b, s, e.m, io);
    case Configure(PfMessage(port, c, update), io) => PfKeepsLists(b, s, port, c, update, io);
    case _ => SameLists(b.y, s, Next(b, s, e).s);
  }

  /** The property holds at every point of a run. */
  ghost predicate AlwaysAgree(b: Board, s: State, es: seq<Step>)
    requires Fits(b.y, s) && forall e | e in es :: Addressed(b.y, e)
    decreases |es|
  {
    ListsAgree(b.y, s) && (es == [] || AlwaysAgree(b, Next(b, s, es[0]).s, es[1..]))
  }

  ghost predicate NeverBreaks(b: Board, s: State, es: seq<Step>)
    requires Fits(b.y, s) && forall e | e in es :: Addressed(b.y, e)
    decreases |es|
  {
    es == [] || (!Breaks(b, s, es[0]) && NeverBreaks(b, Next(b, s, es[0]).s, es[1..]))
  }

  lemma {:induction false} RunLists(b: Board, s: State, es: seq<Step>)
    requires Fits(b.y, s) && (forall e | e in es :: Addressed(b.y, e)) && ListsAgree(b.y, s)
    ensures AlwaysAgree(b, s, es) <==> NeverBreaks(b, s, es)
    ensures AllAccepted(b, s, es) ==> NeverBreaks(b, s, es)
    ensures NeverBreaks(b, s, es) ==> ListsAgree(b.y, Run(b, s, es))
    decreases |es|
  {
    if es != [] {
      StepLists(b, s, es[0]);
      if !Breaks(b, s, es[0]) { RunLists(b, Next(b, s, es[0]).s, es[1..]); }
    }
  }

  /**
   Over every run from boot, refused messages included, PF 0's two lists agree
   with the VFs' control words all along exactly when no message breaks them.
   */
  lemma ListsInEveryRun(b: Board, es: seq<Step>)
    requires b.y.ports > 0 && (forall e | e in es :: Addressed(b.y, e))
    ensures AlwaysAgree(b, Boot(b), es) <==> NeverBreaks(b, Boot(b), es)
  {
    BootDrops(b);
    RunLists(b, Boot(b), es);
  }

  /** In particular over every run of accepted messages and link steps. */
  lemma ListsInEveryAcceptedRun(b: Board, es: seq<Step>)
    requires b.y.ports > 0 && (forall e | e in es :: Addressed(b.y, e)) && AllAccepted(b, Boot(b), es)
    ensures ListsAgree(b.y, Run(b, Boot(b), es)) && AlwaysAgree(b, Boot(b), es)
  {
    BootDrops(b);
    RunLists(b, Boot(b), es);
  }
}
