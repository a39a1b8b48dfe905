/**
 When each message is accepted, told by the message, the control words and what
 fails outside, and what each pass leaves of the link state.
 */
module MessageResults {
  import opened Common
  import opened ActionBuilders
  import opened LinkState
  import opened Reconfig
  import opened PortLists
  import V = VfHostLists

  // ---- When a message is accepted ----

  /**
   A control message needs only its capabilities; a PF enable needs the tables of
   each enabled VF, and for port 0 its own, to be written; a disable of an enabled
   PF needs the receive path to stop and every VF to come down; a VF enable needs
   PF 0 enabled, and a VF disable no MAC change that is barred, and both need the
   tables of the VF and of PF 0 to be written.
   */
  ghost predicate Acceptable(b: Board, s: State, m: Message, io: Io)
    requires Fits(b.y, s) && Addressed(b.y, Configure(m, io))
  {
    && !Masked(b, m)
    && match m
       case CtrlMessage(_) => true
       case PfMessage(port, c, _) =>
         if Enable in c then
           (forall v: nat | v < b.y.vfs && Enable in s.control[v] :: !io.vfFails(v)) && (port == 0 ==> !io.pfFails)
         else
           Enable in s.control[b.y.vfs + port] ==> !io.rxStuck && forall v: nat | v < b.y.vfs :: !io.vfFails(v)
       case VfMessage(vf, c, update, sriov, _) =>
         && (Enable in c ==> Enable in s.control[b.y.vfs])
         && (Enable !in c && MacUpdate in update && sriov.hasMac ==> sriov.trusted)
         && !io.vfFails(vf) && !io.pfFails
  }

  lemma PfAccepted(b: Board, s: State, m: Message, io: Io)
    requires Fits(b.y, s) && m.PfMessage? && m.port < b.y.ports
    ensures ProcessPf(b, s, m.port, m.control, m.update, io).ok <==> Acceptable(b, s, m, io)
  {
    V.UpVfsOk(b.y, s, m.control, io, b.y.vfs);
    var s1 := s.(control := s.control[b.y.PfVid(m.port) := m.control]);
    DownOk(b.y, DownPf(b.y, s1, m.port, io), io, b.y.vfs);
  }

  lemma {:induction false} DownOk(y: Layout, s: State, io: Io, upto: nat)
    requires Fits(y, s) && upto <= y.vfs
    ensures DownVfs(y, s, io, upto).ok <==> forall v: nat | v < upto :: !io.vfFails(v)
  {
    if upto > 0 { DownOk(y, s, io, upto - 1); }
  }

  /** Every message is accepted exactly when this holds. */
  lemma AcceptedExactly(b: Board, s: State, m: Message, io: Io)
    requires Fits(b.y, s) && Addressed(b.y, Configure(m, io))
    ensures Next(b, s, Configure(m, io)).ok <==> Acceptable(b, s, m, io)
  {
    if m.PfMessage? { PfAccepted(b, s, m, io); }
  }

  /** An accepted disable of an enabled port leaves every VF a drop list, whichever port the VFs are served by. */
  lemma DisableDropsVfs(b: Board, s: State, p: nat, c: Control, update: set<Update>, io: Io, v: nat)
    requires Fits(b.y, s) && p < b.y.ports && Enable !in c && Enable in s.control[b.y.PfVid(p)] && v < b.y.vfs
    requires ProcessPf(b, s, p, c, update, io).ok
    ensures Drops(ProcessPf(b, s, p, c, update, io).s.host[v])
  {
    var s1 := DownPf(b.y, s.(control := s.control[b.y.PfVid(p) := c]), p, io);
    V.DownVfsReach(b.y, s1, io, b.y.vfs, v);
    V.HostDownSilent(io.env(v));
  }

  // ---- Link state ----

  /**
   Of a vNIC's link state an accepted VF message sets its own only: it follows
   port 0 if enabled in automatic mode, is up with PF 0 or when enabled and forced
   up, and counts as enabled if it is. A refused message, and one to a PF, sets none.
   */
  lemma LinksAfterMessage(b: Board, s: State, m: Message, io: Io, v: nat)
    requires Fits(b.y, s) && Addressed(b.y, Configure(m, io)) && v < b.y.Vids()
    requires m.CtrlMessage? ==> v != b.y.CtrlVid()
    ensures var r := Next(b, s, Configure(m, io));
      var own := m.VfMessage? && m.vf == v && r.ok;
      var mode := if own && Enable in m.control then m.sriov.mode else Down;
      LinkBits(b.y, s.links, r.s.links, v, own, Enable in m.control, mode)
  {
    if m.VfMessage? { LinksAfterVf(b.y, s, m, io, v); }
  }

  /** The bits of a vNIC, but for the pending one, are those it had, or set as a VF message sets its own. */
  ghost predicate LinkBits(y: Layout, l: Links, t: Links, v: nat, own: bool, enabled: bool, mode: Mode)
    requires Shaped(y, l) && Shaped(y, t) && y.ports > 0 && v < y.Vids()
  {
    var up := mode == Up || Has(l.ls, y.vfs);
    && (Has(t.ls, v) <==> if own then up else Has(l.ls, v))
    && (Has(t.vs, v) <==> if own then enabled else Has(l.vs, v))
    && (t.bar[v] <==> if own then up else l.bar[v])
    && (forall p: nat | p < y.ports ::
          Has(t.follows[p], v) <==> if own then p == 0 && mode == Auto else Has(l.follows[p], v))
  }

  lemma LinksAfterVf(y: Layout, s: State, m: Message, io: Io, v: nat)
    requires Fits(y, s) && m.VfMessage? && m.vf < y.vfs && v < y.Vids()
    ensures var r := ProcessVf(y, s, m, io);
      var mode := if Enable in m.control then m.sriov.mode else Down;
      LinkBits(y, s.links, r.s.links, v, m.vf == v && r.ok, Enable in m.control, mode)
  {
    VfLinksOnly(y, s, m, io);
    var mode := if Enable in m.control then m.sriov.mode else Down;
    UpdateVfEffect(y, s.links, 0, m.vf, Enable in m.control, mode, m.barEnabled, v);
  }

  lemma VfLinksOnly(y: Layout, s: State, m: Message, io: Io)
    requires Fits(y, s) && m.VfMessage? && m.vf < y.vfs
    ensures var r := ProcessVf(y, s, m, io);
      var mode := if Enable in m.control then m.sriov.mode else Down;
      r.s.links == if r.ok then UpdateVf(y, s.links, 0, m.vf, Enable in m.control, mode, m.barEnabled) else s.links
  {
  }

  /** What the last link check of a port saw: the MAC's link, and whether the PF was enabled. */
  datatype Seen = Unseen | Seen(macUp: bool, enabled: bool)

  ghost function LastSeen(b: Board, s: State, es: seq<Step>, p: nat, seen: Seen): Seen
    requires Fits(b.y, s) && (forall e | e in es :: Addressed(b.y, e)) && p < b.y.ports
    decreases |es|
  {
    if es == [] then seen else
    var now := match es[0]
      case CheckLink(port, macUp, _) => if port == p then Seen(macUp, Enable in s.control[b.y.vfs + p]) else seen
      case _ => seen;
    LastSeen(b, Next(b, s, es[0]).s, es[1..], p, now)
  }

  /** A PF's link bit is the MAC's, it counts as enabled if it was, and its BAR shows the link if both. */
  ghost predicate Shows(y: Layout, s: Links, p: nat, seen: Seen)
    requires Shaped(y, s) && p < y.ports
  {
    && (Has(s.ls, y.PfVid(p)) <==> seen.Seen? && seen.macUp)
    && (Has(s.vs, y.PfVid(p)) <==> seen.Seen? && seen.enabled)
    && (s.bar[y.PfVid(p)] <==> seen.Seen? && seen.macUp && seen.enabled)
  }

  lemma StepShows(b: Board, s: State, e: Step, p: nat, seen: Seen)
    requires Fits(b.y, s) && Addressed(b.y, e) && p < b.y.ports && Shows(b.y, s.links, p, seen)
    ensures Shows(b.y, Next(b, s, e).s.links, p,
      if e.CheckLink? && e.port == p then Seen(e.macUp, Enable in s.control[b.y.PfVid(p)]) else seen)
  {
    match e
    case Configure(m, io) => LinksAfterMessage(b, s, m, io, b.y.PfVid(p));
    case CheckLink(port, macUp, fails) =>
      LscCheckPf(b.y, s.links, port, macUp, Enable in s.control[b.y.PfVid(port)], fails, p);
    case Retry(_) =>
  }

  lemma {:induction false} RunShows(b: Board, s: State, es: seq<Step>, p: nat, seen: Seen)
    requires Fits(b.y, s) && (forall e | e in es :: Addressed(b.y, e)) && p < b.y.ports && Shows(b.y, s.links, p, seen)
    ensures Shows(b.y, Run(b, s, es).links, p, LastSeen(b, s, es, p, seen))
    decreases |es|
  {
    if es != [] {
      var e := es[0];
      StepShows(b, s, e, p, seen);
      var now := if e.CheckLink? && e.port == p then Seen(e.macUp, Enable in s.control[b.y.PfVid(p)]) else seen;
      RunShows(b, Next(b, s, e).s, es[1..], p, now);
    }
  }

  /** Over every run from boot a PF shows what the last check of its port saw, and no link before the first. */
  lemma PfShowsLastCheck(b: Board, es: seq<Step>, p: nat)
    requires p < b.y.ports && forall e | e in es :: Addressed(b.y, e)
    ensures Shows(b.y, Run(b, Boot(b), es).links, p, LastSeen(b, Boot(b), es, p, Unseen))
  {
    RunShows(b, Boot(b), es, p, Unseen);
  }
}
