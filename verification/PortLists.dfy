/**
 What every message leaves of the stored lists and control words, for each port
 and vNIC: the lists are told by what their words hold, and whatever a message
 is not about keeps its list and its word.
 */
module PortLists {
  import opened Common
  import opened ActionList
  import opened ActionBuilders
  import opened LinkState
  import opened Reconfig
  import opened ListMeanings
  import V = VfHostLists

  // ---- Control words ----

  /** When a PF's control word is stored: after the mask checks, and for an enable if everything came up. */
  ghost predicate PfStored(b: Board, s: State, m: Message, io: Io)
    requires Fits(b.y, s) && m.PfMessage? && m.port < b.y.ports
  {
    !Masked(b, m) && (Enable in m.control ==> V.VfsComeUp(b.y, s, io, b.y.vfs) && !(m.port == 0 && io.pfFails))
  }

  lemma PfControl(b: Board, s: State, m: Message, io: Io)
    requires Fits(b.y, s) && m.PfMessage? && m.port < b.y.ports
    ensures ProcessPf(b, s, m.port, m.control, m.update, io).s.control
      == if PfStored(b, s, m, io) then s.control[b.y.PfVid(m.port) := m.control] else s.control
  {
    V.UpVfsOk(b.y, s, m.control, io, b.y.vfs);
  }

  /** A VF's control word is stored once it passed the masks, whatever happens then. */
  lemma VfControl(b: Board, s: State, m: Message, io: Io)
    requires Fits(b.y, s) && m.VfMessage? && m.vf < b.y.vfs
    ensures ProcessVf(b.y, s, m, io).s.control == if Masked(b, m) then s.control else s.control[m.vf := m.control]
  {
  }

  /** The vNIC that a message configures. */
  function Sender(y: Layout, m: Message): int {
    match m
    case CtrlMessage(_) => y.CtrlVid()
    case PfMessage(port, _, _) => y.PfVid(port)
    case VfMessage(vf, _, _, _, _) => vf
  }

  /** An accepted message's control word is stored whole, and no other word changes. */
  lemma AcceptedControl(b: Board, s: State, e: Step)
    requires Fits(b.y, s) && Addressed(b.y, e) && Next(b, s, e).ok && e.Configure?
    ensures Next(b, s, e).s.control == s.control[Sender(b.y, e.m) := e.m.control]
  {
    if e.m.PfMessage? { PfControl(b, s, e.m, e.io); V.UpVfsOk(b.y, s, e.m.control, e.io, b.y.vfs); }
    if e.m.VfMessage? { VfControl(b, s, e.m, e.io); }
  }

  // ---- The lists of a port ----

  /** Whether a step is a message to this port, or one to a VF that may rebuild port 0. */
  predicate Concerns(e: Step, p: nat) {
    e.Configure? && ((e.m.PfMessage? && e.m.port == p) || (e.m.VfMessage? && p == 0))
  }

  predicate SameLists(y: Layout, s: State, t: State, p: nat)
    requires p < y.ports == |s.wire| == |t.wire| && |s.host| == |t.host| == y.Vids()
  {
    t.wire[p] == s.wire[p] && t.host[y.PfVid(p)] == s.host[y.PfVid(p)]
  }

  lemma OtherPort(b: Board, s: State, q: nat, c: Control, update: set<Update>, io: Io, p: nat)
    requires Fits(b.y, s) && p < b.y.ports && q < b.y.ports && p != q
    ensures SameLists(b.y, s, ProcessPf(b, s, q, c, update, io).s, p)
  {
  }

  lemma OtherVf(y: Layout, s: State, m: Message, io: Io, p: nat)
    requires Fits(y, s) && m.VfMessage? && m.vf < y.vfs && 0 < p < y.ports
    ensures SameLists(y, s, ProcessVf(y, s, m, io).s, p)
  {
  }

  /** No other step changes the port's lists. */
  lemma PortUntouched(b: Board, s: State, e: Step, p: nat)
    requires Fits(b.y, s) && Addressed(b.y, e) && p < b.y.ports && !Concerns(e, p)
    ensures SameLists(b.y, s, Next(b, s, e).s, p)
  {
    match e
    case Configure(PfMessage(q, c, update), io) => OtherPort(b, s, q, c, update, io, p);
    case Configure(VfMessage(_, _, _, _, _), io) => OtherVf(b.y, s, e.m, io, p);
    case _ =>
  }

  /** The port's two lists serve it with these settings. */
  ghost predicate Serves(y: Layout, s: State, p: nat, env: Env, vebUp: bool, c: Control)
    requires Fits(y, s) && p < y.ports
  {
    WireList(s.wire[p], env, p, vebUp, c) && PfHostList(s.host[y.PfVid(p)], env, vebUp, c)
  }

  lemma UpPfServes(y: Layout, s: State, p: nat, vebUp: bool, c: Control, io: Io)
    requires Fits(y, s) && p < y.ports
    ensures Serves(y, UpPf(y, s, p, vebUp, c, io).s, p, io.env(y.PfVid(p)), vebUp, c)
  {
    NbiIsWireList(io.env(y.PfVid(p)), p, vebUp, c);
    PfIsHostList(io.env(y.PfVid(p)), vebUp, c);
  }

  /** After an accepted enable of any port, its lists serve it, with the VEB exactly if a VF is enabled. */
  lemma EnableServes(b: Board, s: State, p: nat, c: Control, update: set<Update>, io: Io)
    requires Fits(b.y, s) && p < b.y.ports && Enable in c && ProcessPf(b, s, p, c, update, io).ok
    ensures Serves(b.y, ProcessPf(b, s, p, c, update, io).s, p, io.env(b.y.PfVid(p)), AnyVf(b.y, s.control), c)
  {
    UpPfServes(b.y, UpVfs(b.y, s, c, io, b.y.vfs).s, p, AnyVf(b.y, s.control), c, io);
  }

  /** In particular its wire list delivers to the PF's queue first, and its host list reaches the wire. */
  lemma EnableDelivers(b: Board, s: State, p: nat, c: Control, update: set<Update>, io: Io)
    requires Fits(b.y, s) && p < b.y.ports && Enable in c && ProcessPf(b, s, p, c, update, io).ok
    ensures var t, pf := ProcessPf(b, s, p, c, update, io).s, b.y.PfVid(p);
      var tx := FirstTransmit(Acts(t.wire[p]));
      && tx.Some? && tx.value.op == TX_HOST && tx.value.args % 64 == io.env(pf).queueOf(Pf(p))
      && exists a :: a in Acts(t.host[pf]) && a.op == TX_WIRE
  {
    EnableServes(b, s, p, c, update, io);
    var t, pf, vebUp := ProcessPf(b, s, p, c, update, io).s, b.y.PfVid(p), AnyVf(b.y, s.control);
    WireDelivers(t.wire[p], io.env(pf), p, vebUp, c);
    HostReachesWire(t.host[pf], io.env(pf), vebUp, c);
  }

  lemma HostReachesWire(ws: seq<Word>, env: Env, vebUp: bool, c: Control)
    requires PfHostList(ws, env, vebUp, c)
    ensures exists a :: a in Acts(ws) && a.op == TX_WIRE
  {
    var due := (r: int) => PfDue(r, vebUp, c);
    assert due(3);
    var a :| a in Acts(ws) && PfKind(a) == 3;
  }

  /** After an accepted disable of an enabled port both its lists drop. */
  lemma DisableDrops(b: Board, s: State, p: nat, c: Control, update: set<Update>, io: Io)
    requires Fits(b.y, s) && p < b.y.ports && Enable !in c && Enable in s.control[b.y.PfVid(p)]
    requires ProcessPf(b, s, p, c, update, io).ok
    ensures var t := ProcessPf(b, s, p, c, update, io).s; Drops(t.wire[p]) && Drops(t.host[b.y.PfVid(p)])
  {
    DownListsDrop(io.env(b.y.PfVid(p)));
  }

  /** A message that leaves a port disabled leaves its lists. */
  lemma StillDisabled(b: Board, s: State, p: nat, c: Control, update: set<Update>, io: Io)
    requires Fits(b.y, s) && p < b.y.ports && Enable !in c && Enable !in s.control[b.y.PfVid(p)]
    ensures var t := ProcessPf(b, s, p, c, update, io).s;
      t.wire == s.wire && t.host == s.host
  {
  }

  /** An accepted VF message rebuilds port 0 with its own control word. */
  lemma VfServes(y: Layout, s: State, m: Message, io: Io)
    requires Fits(y, s) && m.VfMessage? && m.vf < y.vfs && ProcessVf(y, s, m, io).ok
    ensures var t := ProcessVf(y, s, m, io).s;
      Serves(y, t, 0, io.env(y.PfVid(0)), AnyVf(y, t.control), s.control[y.PfVid(0)])
  {
    var r := SwitchVf(y, s.(control := s.control[m.vf := m.control]), m, io);
    UpPfServes(y, r.s, 0, AnyVf(y, r.s.control), r.s.control[y.PfVid(0)], io);
  }

  // ---- The lists of a VF ----

  /** Its list drops or is one for its own and PF 0's settings, and no other VF's list changes. */
  lemma VfOwnList(y: Layout, s: State, m: Message, io: Io)
    requires Fits(y, s) && m.VfMessage? && m.vf < y.vfs && ProcessVf(y, s, m, io).ok
    ensures var t := ProcessVf(y, s, m, io).s;
      && (Enable in m.control ==> VfHostList(t.host[m.vf], io.env(m.vf), s.control[y.PfVid(0)], m.control))
      && (Enable !in m.control ==> Drops(t.host[m.vf]))
      && (forall v | 0 <= v < y.vfs && v != m.vf :: t.host[v] == s.host[v])
  {
    VfIsHostList(io.env(m.vf), s.control[y.PfVid(0)], m.control);
    DownListsDrop(io.env(m.vf));
  }

  lemma UpVfsOne(y: Layout, s: State, pc: Control, io: Io, upto: nat)
    requires Fits(y, s) && 0 < upto <= y.vfs
    ensures var v, q := upto - 1, UpVfs(y, s, pc, io, upto - 1);
      UpVfs(y, s, pc, io, upto).s.host
      == if q.ok && Enable in s.control[v] && !io.vfFails(v)
         then q.s.host[v := Enc(NONE, VfActions(io.env(v), pc, s.control[v]))]
         else q.s.host
  {
  }

  lemma ComeUpOne(y: Layout, s: State, io: Io, upto: nat)
    requires Fits(y, s) && 0 < upto <= y.vfs
    ensures V.VfsComeUp(y, s, io, upto)
      <==> V.VfsComeUp(y, s, io, upto - 1) && (Enable in s.control[upto - 1] ==> !io.vfFails(upto - 1))
  {
  }

  /** Bringing the VFs up touches a VF in its turn only. */
  lemma {:induction false} UpVfsTurn(y: Layout, s: State, pc: Control, io: Io, upto: nat, v: nat)
    requires Fits(y, s) && upto <= y.vfs && v < y.vfs
    ensures UpVfs(y, s, pc, io, upto).s.host[v] == if v < upto then UpVfs(y, s, pc, io, v + 1).s.host[v] else s.host[v]
  {
    if upto > 0 && v != upto - 1 {
      UpVfsTurn(y, s, pc, io, upto - 1, v);
      UpVfsOne(y, s, pc, io, upto);
    }
  }

  /** It rebuilds each enabled VF that no failure stops before, and no other. */
  lemma UpVfsLists(y: Layout, s: State, pc: Control, io: Io, upto: nat, v: nat)
    requires Fits(y, s) && upto <= y.vfs && v < y.vfs
    ensures UpVfs(y, s, pc, io, upto).s.host[v]
      == if v < upto && Enable in s.control[v] && V.VfsComeUp(y, s, io, v + 1)
         then Enc(NONE, VfActions(io.env(v), pc, s.control[v]))
         else s.host[v]
  {
    UpVfsTurn(y, s, pc, io, upto, v);
    UpVfsTurn(y, s, pc, io, v, v);
    V.UpVfsOk(y, s, pc, io, v);
    ComeUpOne(y, s, io, v + 1);
    UpVfsOne(y, s, pc, io, v + 1);
  }

  /** An accepted enable of a port gives each enabled VF a list for its own settings and the port's. */
  lemma EnableRebuildsVfs(b: Board, s: State, p: nat, c: Control, update: set<Update>, io: Io, v: nat)
    requires Fits(b.y, s) && p < b.y.ports && Enable in c && ProcessPf(b, s, p, c, update, io).ok && v < b.y.vfs
    ensures var t := ProcessPf(b, s, p, c, update, io).s;
      if Enable in s.control[v] then VfHostList(t.host[v], io.env(v), c, s.control[v]) else t.host[v] == s.host[v]
  {
    V.UpVfsOk(b.y, s, c, io, b.y.vfs);
    UpVfsLists(b.y, s, c, io, b.y.vfs, v);
    VfIsHostList(io.env(v), c, s.control[v]);
  }

  // ---- The control vNIC ----

  /** An accepted control message sets its link bit and its word, and leaves all other vNICs. */
  lemma CtrlStep(b: Board, s: State, c: Control, io: Io)
    requires Fits(b.y, s) && ProcessCtrl(b, s, c, io).ok
    ensures var t, vid := ProcessCtrl(b, s, c, io).s, b.y.vfs + b.y.ports;
      && t.links == s.links.(bar := s.links.bar[vid := Enable in c])
      && t.control == s.control[vid := c] && t.wire == s.wire
      && forall v | 0 <= v < vid :: t.host[v] == s.host[v]
  {
  }

  /** And its list receives and hands to the control application. */
  lemma CtrlServes(b: Board, s: State, c: Control, io: Io)
    requires Fits(b.y, s) && ProcessCtrl(b, s, c, io).ok
    ensures var t, vid := ProcessCtrl(b, s, c, io).s, b.y.vfs + b.y.ports; CtrlList(t.host[vid], io.env(vid))
  {
    var env := io.env(b.y.vfs + b.y.ports);
    CtrlIsList(env);
    assert ProcessCtrl(b, s, c, io).s.host[b.y.vfs + b.y.ports] == Enc(NONE, CtrlActions(env));
  }

  // ---- Over every accepted run ----

  /**
   An enabled port is served with its own control word; a disabled one drops,
   but for port 0, which VF messages rebuild.
   */
  ghost predicate PortOk(y: Layout, s: State, p: nat)
    requires Fits(y, s) && p < y.ports
  {
    var c := s.control[y.PfVid(p)];
    && (Enable in c ==> exists env, vebUp :: Serves(y, s, p, env, vebUp, c))
    && (Enable !in c && p > 0 ==> Drops(s.wire[p]) && Drops(s.host[y.PfVid(p)]))
  }

  lemma PfPortOk(b: Board, s: State, p: nat, c: Control, update: set<Update>, io: Io)
    requires Fits(b.y, s) && p < b.y.ports && PortOk(b.y, s, p) && ProcessPf(b, s, p, c, update, io).ok
    ensures PortOk(b.y, ProcessPf(b, s, p, c, update, io).s, p)
  {
    if Enable in c {
      EnableServes(b, s, p, c, update, io);
    } else if Enable in s.control[b.y.PfVid(p)] {
      DisableDrops(b, s, p, c, update, io);
    } else {
      StillDisabled(b, s, p, c, update, io);
    }
  }

  lemma KeptPortOk(y: Layout, s: State, t: State, p: nat)
    requires Fits(y, s) && Fits(y, t) && p < y.ports && PortOk(y, s, p) && SameLists(y, s, t, p)
    requires t.control[y.PfVid(p)] == s.control[y.PfVid(p)]
    ensures PortOk(y, t, p)
  {
    var c := s.control[y.PfVid(p)];
    if Enable in c {
      var env, vebUp :| Serves(y, s, p, env, vebUp, c);
      assert Serves(y, t, p, env, vebUp, c);
    }
  }

  lemma StepPortOk(b: Board, s: State, e: Step, p: nat)
    requires Fits(b.y, s) && Addressed(b.y, e) && p < b.y.ports && PortOk(b.y, s, p) && Next(b, s, e).ok
    ensures PortOk(b.y, Next(b, s, e).s, p)
  {
    if e.Configure? { AcceptedControl(b, s, e); }
    if !Concerns(e, p) {
      PortUntouched(b, s, e, p);
      KeptPortOk(b.y, s, Next(b, s, e).s, p);
    } else if e.m.PfMessage? {
      PfPortOk(b, s, p, e.m.control, e.m.update, e.io);
    } else {
      VfServes(b.y, s, e.m, e.io);
    }
  }

  lemma {:induction false} RunPortOk(b: Board, s: State, es: seq<Step>, p: nat)
    requires Fits(b.y, s) && (forall e | e in es :: Addressed(b.y, e)) && AllAccepted(b, s, es)
    requires p < b.y.ports && PortOk(b.y, s, p)
    ensures PortOk(b.y, Run(b, s, es), p)
    decreases |es|
  {
    if es != [] {
      StepPortOk(b, s, es[0], p);
      RunPortOk(b, Next(b, s, es[0]).s, es[1..], p);
    }
  }

  /** Over every accepted run from boot each enabled port is served, and each other but port 0 drops. */
  lemma PortsServed(b: Board, es: seq<Step>, p: nat)
    requires p < b.y.ports && (forall e | e in es :: Addressed(b.y, e)) && AllAccepted(b, Boot(b), es)
    ensures PortOk(b.y, Run(b, Boot(b), es), p)
  {
    BootDrops(b);
    RunPortOk(b, Boot(b), es, p);
  }

  // ---- Interrupts over every run ----

  /**
   Whether a VF is owed an interrupt: an accepted message owes it one if its BAR
   is enabled; a link check of a port that it follows, if the port changed and is
   enabled, sends it one or leaves it owed; a retry does so if it is owed and the
   VF is enabled, and forgets it if not.
   */
  ghost function OwedAfter(b: Board, s: State, e: Step, v: nat, owed: bool): bool
    requires Fits(b.y, s) && Addressed(b.y, e) && v < b.y.vfs
  {
    match e
    case Configure(m, _) => owed || (m.VfMessage? && m.vf == v && m.barEnabled && Next(b, s, e).ok)
    case CheckLink(port, macUp, fails) =>
      var pf := b.y.PfVid(port);
      var changed := macUp != Has(s.links.ls, pf) || !Has(s.links.vs, pf);
      if Enable in s.control[pf] && changed && Has(s.links.follows[port], v) then fails(v) else owed
    case Retry(fails) => owed && Enable in s.control[v] && fails(v)
  }

  ghost function Owed(b: Board, s: State, es: seq<Step>, v: nat, owed: bool): bool
    requires Fits(b.y, s) && (forall e | e in es :: Addressed(b.y, e)) && v < b.y.vfs
    decreases |es|
  {
    if es == [] then owed else Owed(b, Next(b, s, es[0]).s, es[1..], v, OwedAfter(b, s, es[0], v, owed))
  }

  lemma VfOwed(b: Board, s: State, m: Message, io: Io, v: nat)
    requires Fits(b.y, s) && m.VfMessage? && m.vf < b.y.vfs && v < b.y.vfs
    ensures Has(ProcessVf(b.y, s, m, io).s.links.pending, v)
      <==> Has(s.links.pending, v) || (m.vf == v && m.barEnabled && ProcessVf(b.y, s, m, io).ok)
  {
    var r := ProcessVf(b.y, s, m, io);
    var mode := if Enable in m.control then m.sriov.mode else Down;
    if r.ok {
      assert r.s.links == UpdateVf(b.y, s.links, 0, m.vf, Enable in m.control, mode, m.barEnabled);
      UpdateVfEffect(b.y, s.links, 0, m.vf, Enable in m.control, mode, m.barEnabled, v);
    } else {
      assert r.s.links == s.links;
    }
  }

  lemma StepOwed(b: Board, s: State, e: Step, v: nat)
    requires Fits(b.y, s) && Addressed(b.y, e) && v < b.y.vfs
    ensures Has(Next(b, s, e).s.links.pending, v) <==> OwedAfter(b, s, e, v, Has(s.links.pending, v))
  {
    match e
    case Configure(m, io) => if m.VfMessage? { VfOwed(b, s, m, io, v); }
    case CheckLink(port, macUp, fails) =>
      LscCheckPending(b.y, s.links, port, macUp, Enable in s.control[b.y.PfVid(port)], fails, v);
    case Retry(fails) => HandlePendingEffect(b.y, s.links, EnabledIn(s.control), fails, b.y.Vids(), v);
  }

  lemma {:induction false} RunOwed(b: Board, s: State, es: seq<Step>, v: nat)
    requires Fits(b.y, s) && (forall e | e in es :: Addressed(b.y, e)) && v < b.y.vfs
    ensures Has(Run(b, s, es).links.pending, v) <==> Owed(b, s, es, v, Has(s.links.pending, v))
    decreases |es|
  {
    if es != [] {
      StepOwed(b, s, es[0], v);
      RunOwed(b, Next(b, s, es[0]).s, es[1..], v);
    }
  }

  /** Over every run from boot, refused messages included, a VF's interrupt is pending exactly while it is owed. */
  lemma PendingIsOwed(b: Board, es: seq<Step>, v: nat)
    requires b.y.ports > 0 && (forall e | e in es :: Addressed(b.y, e)) && v < b.y.vfs
    ensures Has(Run(b, Boot(b), es).links.pending, v) <==> Owed(b, Boot(b), es, v, false)
  {
    RunOwed(b, Boot(b), es, v);
  }
}
