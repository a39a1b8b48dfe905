/**
 What the VFs' own queues run after accepted messages: a disabled VF's queues
 drop, an enabled VF's queues look up the VEB while PF 0 is enabled; and the
 messages for which the firmware does not keep that.
 */
module VfHostLists {
  import opened Common
  import opened ActionList
  import opened ActionBuilders
  import opened LinkState
  import opened Reconfig
  import L = ListMeanings

  ghost predicate DisabledSilent(y: Layout, s: State)
    requires Fits(y, s)
  {
    forall v: nat | v < y.vfs && Enable !in s.control[v] :: Drops(s.host[v])
  }

  ghost predicate EnabledLive(y: Layout, s: State)
    requires Fits(y, s)
  {
    Enable in s.control[y.PfVid(0)] ==> forall v: nat | v < y.vfs && Enable in s.control[v] :: LooksUp(s.host[v])
  }

  lemma VfLooksUp(env: Env, pc: Control, c: Control)
    ensures LooksUp(Enc(NONE, VfActions(env, pc, c)))
  {
    var acts := VfActions(env, pc, c);
    EncMeans(acts) by { assert AllValid(acts); }
    assert VebLookup(0) in acts;
  }

  /** One more VF: its list is made live if it is enabled and nothing has failed. */
  lemma UpVfsNext(y: Layout, s: State, pc: Control, io: Io, upto: nat)
    requires Fits(y, s) && 0 < upto <= y.vfs
    ensures var q, r, v := UpVfs(y, s, pc, io, upto - 1), UpVfs(y, s, pc, io, upto), upto - 1;
      && (forall u: nat | u < y.vfs && u != v :: r.s.host[u] == q.s.host[u])
      && (r.s.host[v] == q.s.host[v] || (Enable in s.control[v] && LooksUp(r.s.host[v])))
      && (r.ok ==> q.ok && (Enable in s.control[v] ==> LooksUp(r.s.host[v])))
  {
    VfLooksUp(io.env(upto - 1), pc, s.control[upto - 1]);
  }

  /** Bringing the VFs up touches enabled VFs only, and leaves each of them looking up the VEB. */
  lemma {:induction false} UpVfsHost(y: Layout, s: State, pc: Control, io: Io, upto: nat, v: nat)
    requires Fits(y, s) && upto <= y.vfs && v < y.vfs
    ensures var r := UpVfs(y, s, pc, io, upto);
      && (Enable !in s.control[v] ==> r.s.host[v] == s.host[v])
      && (LooksUp(s.host[v]) ==> LooksUp(r.s.host[v]))
      && (r.ok && v < upto && Enable in s.control[v] ==> LooksUp(r.s.host[v]))
  {
    if upto > 0 {
      UpVfsHost(y, s, pc, io, upto - 1, v);
      UpVfsNext(y, s, pc, io, upto);
    }
  }

  lemma HostDownSilent(env: Env)
    ensures Drops(Enc(NONE, HostDownActions(env))) && !LooksUp(Enc(NONE, HostDownActions(env)))
  {
    EncMeans(HostDownActions(env));
  }

  /** An accepted PF message that takes its PF from enabled to disabled. */
  predicate TakesDown(y: Layout, s: State, m: Message)
    requires |s.control| == y.Vids() && m.PfMessage? && m.port < y.ports
  {
    Enable !in m.control && Enable in s.control[y.PfVid(m.port)]
  }

  /** However far it gets, taking the VFs down leaves each list alone or makes it a drop list. */
  lemma {:induction false} DownVfsSilences(y: Layout, s: State, io: Io, upto: nat, v: nat)
    requires Fits(y, s) && upto <= y.vfs && v < y.vfs
    ensures var t := DownVfs(y, s, io, upto).s; t.host[v] == s.host[v] || Drops(t.host[v])
  {
    if upto > 0 {
      DownVfsSilences(y, s, io, upto - 1, v);
      HostDownSilent(io.env(upto - 1));
    }
  }

  lemma PfKeepsSilent(b: Board, s: State, m: Message, io: Io, v: nat)
    requires Fits(b.y, s) && m.PfMessage? && m.port < b.y.ports && v < b.y.vfs && Enable !in s.control[v]
    ensures var t := ProcessPf(b, s, m.port, m.control, m.update, io).s;
      t.control[v] == s.control[v] && (t.host[v] == s.host[v] || Drops(t.host[v]))
  {
    UpVfsHost(b.y, s, m.control, io, b.y.vfs, v);
    var up, pf := EnablePf(b.y, s, m.port, m.control, io), b.y.PfVid(m.port);
    var s1 := up.s.(control := s.control[pf := m.control]);
    DownVfsSilences(b.y, DownPf(b.y, s1, m.port, io), io, b.y.vfs, v);
  }

  /** A VF that may not change its MAC tries to while it goes down: its word is stored, its list stays. */
  ghost predicate LeavesLive(b: Board, s: State, e: Step)
    requires Fits(b.y, s) && Addressed(b.y, e)
  {
    && e.Configure? && e.m.VfMessage? && !Masked(b, e.m) && Enable !in e.m.control
    && MacUpdate in e.m.update && e.m.sriov.hasMac && !e.m.sriov.trusted && !Drops(s.host[e.m.vf])
  }

  lemma VfSilentExact(b: Board, s: State, m: Message, io: Io)
    requires Fits(b.y, s) && m.VfMessage? && m.vf < b.y.vfs && DisabledSilent(b.y, s)
    ensures DisabledSilent(b.y, ProcessVf(b.y, s, m, io).s) <==> !LeavesLive(b, s, Configure(m, io))
    ensures LeavesLive(b, s, Configure(m, io)) ==> !ProcessVf(b.y, s, m, io).ok
  {
    var t := ProcessVf(b.y, s, m, io).s;
    HostDownSilent(io.env(m.vf));
    if !Masked(b, m) {
      assert t.control == s.control[m.vf := m.control];
      assert forall v: nat | v < b.y.vfs && v != m.vf :: t.host[v] == s.host[v];
      assert Enable !in m.control ==>
        (if LeavesLive(b, s, Configure(m, io)) then !Drops(t.host[m.vf]) else Drops(t.host[m.vf]));
    }
  }

  /** Every step, accepted or refused, keeps disabled VFs silent exactly when it is not such a message. */
  lemma StepSilent(b: Board, s: State, e: Step)
    requires Fits(b.y, s) && Addressed(b.y, e) && DisabledSilent(b.y, s)
    ensures DisabledSilent(b.y, Next(b, s, e).s) <==> !LeavesLive(b, s, e)
    ensures LeavesLive(b, s, e) ==> !Next(b, s, e).ok
  {
    var t := Next(b, s, e).s;
    if e.Configure? && e.m.VfMessage? {
      VfSilentExact(b, s, e.m, e.io);
    } else if e.Configure? && e.m.PfMessage? {
      forall v: nat | v < b.y.vfs && Enable !in t.control[v] ensures Drops(t.host[v]) {
        PfKeepsWords(b, s, e.m, e.io);
        PfKeepsSilent(b, s, e.m, e.io, v);
      }
    }
  }

  lemma PfKeepsWords(b: Board, s: State, m: Message, io: Io)
    requires Fits(b.y, s) && m.PfMessage? && m.port < b.y.ports
    ensures var t := ProcessPf(b, s, m.port, m.control, m.update, io).s;
      forall v | 0 <= v < b.y.vfs :: t.control[v] == s.control[v]
  {
  }

  ghost predicate AlwaysSilent(b: Board, s: State, es: seq<Step>)
    requires Fits(b.y, s) && forall e | e in es :: Addressed(b.y, e)
    decreases |es|
  {
    DisabledSilent(b.y, s) && (es == [] || AlwaysSilent(b, Next(b, s, es[0]).s, es[1..]))
  }

  ghost predicate NeverLeavesLive(b: Board, s: State, es: seq<Step>)
    requires Fits(b.y, s) && forall e | e in es :: Addressed(b.y, e)
    decreases |es|
  {
    es == [] || (!LeavesLive(b, s, es[0]) && NeverLeavesLive(b, Next(b, s, es[0]).s, es[1..]))
  }

  lemma {:induction false} RunSilent(b: Board, s: State, es: seq<Step>)
    requires Fits(b.y, s) && (forall e | e in es :: Addressed(b.y, e)) && DisabledSilent(b.y, s)
    ensures AlwaysSilent(b, s, es) <==> NeverLeavesLive(b, s, es)
    ensures AllAccepted(b, s, es) ==> NeverLeavesLive(b, s, es)
    decreases |es|
  {
    if es != [] {
      StepSilent(b, s, es[0]);
      if !LeavesLive(b, s, es[0]) { RunSilent(b, Next(b, s, es[0]).s, es[1..]); }
    }
  }

  /**
   Over every run from boot, no queue of a disabled VF ever does anything but
   drop exactly when no message leaves one live; accepted messages never do.
   */
  lemma DisabledVfsDrop(b: Board, es: seq<Step>)
    requires b.y.ports > 0 && (forall e | e in es :: Addressed(b.y, e))
    ensures AlwaysSilent(b, Boot(b), es) <==> NeverLeavesLive(b, Boot(b), es)
    ensures AllAccepted(b, Boot(b), es) ==> AlwaysSilent(b, Boot(b), es)
  {
    BootDrops(b);
    RunSilent(b, Boot(b), es);
  }

  ghost predicate NoneFails(io: Io, upto: nat) { forall u: nat | u < upto :: !io.vfFails(u) }

  /** Taking the VFs down reaches a VF exactly when none before it fails. */
  lemma {:induction false} DownVfsReach(y: Layout, s: State, io: Io, upto: nat, v: nat)
    requires Fits(y, s) && upto <= y.vfs && v < y.vfs
    ensures var r := DownVfs(y, s, io, upto);
      && (r.ok <==> NoneFails(io, upto))
      && r.s.host[v] == if v < upto && NoneFails(io, v) then Enc(NONE, HostDownActions(io.env(v))) else s.host[v]
  {
    if upto > 0 {
      DownVfsReach(y, s, io, upto - 1, v);
      assert NoneFails(io, upto) <==> NoneFails(io, upto - 1) && !io.vfFails(upto - 1);
    }
  }

  /** An enabled VF that taking the VFs down reaches. */
  ghost predicate ReachesEnabled(y: Layout, s: State, io: Io)
    requires Fits(y, s)
  {
    exists v: nat :: v < y.vfs && Enable in s.control[v] && NoneFails(io, v)
  }

  /**
   What silences an enabled VF under an enabled PF 0: an enable that fails in
   the VEB while the VF's list is not live, and taking down another port, which
   takes down the VFs that PF 0 still serves.
   */
  ghost predicate Silences(b: Board, s: State, e: Step)
    requires Fits(b.y, s) && Addressed(b.y, e)
  {
    && e.Configure? && !Masked(b, e.m) && Enable in s.control[b.y.PfVid(0)]
    && match e.m
       case VfMessage(vf, c, _, _, _) => Enable in c && e.io.vfFails(vf) && !LooksUp(s.host[vf])
       case PfMessage(port, _, _) => port != 0 && TakesDown(b.y, s, e.m) && !e.io.rxStuck
         && ReachesEnabled(b.y, s, e.io)
       case CtrlMessage(_) => false
  }

  lemma VfLive(b: Board, s: State, m: Message, io: Io)
    requires Fits(b.y, s) && m.VfMessage? && m.vf < b.y.vfs && EnabledLive(b.y, s)
    ensures EnabledLive(b.y, ProcessVf(b.y, s, m, io).s) <==> !Silences(b, s, Configure(m, io))
  {
    if !Masked(b, m) {
      var t := ProcessVf(b.y, s, m, io).s;
      VfLooksUp(io.env(m.vf), s.control[b.y.PfVid(0)], m.control);
      assert t.control == s.control[m.vf := m.control];
      assert forall v: nat | v < b.y.vfs && v != m.vf :: t.host[v] == s.host[v];
      assert Enable in m.control && Enable in s.control[b.y.PfVid(0)] ==>
        (if io.vfFails(m.vf) then t.host[m.vf] == s.host[m.vf] else LooksUp(t.host[m.vf]));
    }
  }

  /** An enable of any PF leaves live what was live, and all enabled VFs if it is carried through. */
  lemma PfEnableLive(b: Board, s: State, m: Message, io: Io)
    requires Fits(b.y, s) && m.PfMessage? && m.port < b.y.ports && EnabledLive(b.y, s) && Enable in m.control
    ensures EnabledLive(b.y, ProcessPf(b, s, m.port, m.control, m.update, io).s)
  {
    var t := ProcessPf(b, s, m.port, m.control, m.update, io).s;
    PfKeepsWords(b, s, m, io);
    forall v: nat | v < b.y.vfs && Enable in s.control[v] && Enable in t.control[b.y.PfVid(0)]
      ensures LooksUp(t.host[v]) {
      UpVfsHost(b.y, s, m.control, io, b.y.vfs, v);
    }
  }

  lemma PfDisableLive(b: Board, s: State, m: Message, io: Io)
    requires Fits(b.y, s) && m.PfMessage? && m.port < b.y.ports && EnabledLive(b.y, s) && Enable !in m.control
    ensures EnabledLive(b.y, ProcessPf(b, s, m.port, m.control, m.update, io).s) <==> !Silences(b, s, Configure(m, io))
  {
    var t, pf0 := ProcessPf(b, s, m.port, m.control, m.update, io).s, b.y.PfVid(0);
    PfKeepsWords(b, s, m, io);
    if !Masked(b, m) && m.port != 0 && TakesDown(b.y, s, m) && !io.rxStuck {
      var s1 := DownPf(b.y, s.(control := s.control[b.y.PfVid(m.port) := m.control]), m.port, io);
      forall v: nat | v < b.y.vfs
        ensures if NoneFails(io, v) then !LooksUp(t.host[v]) else t.host[v] == s.host[v]
      {
        DownVfsReach(b.y, s1, io, b.y.vfs, v);
        HostDownSilent(io.env(v));
      }
      assert t.control[pf0] == s.control[pf0];
    }
  }

  /**
   Every step, accepted or refused, keeps the enabled VFs live under an enabled PF 0
   exactly when it is none of these.
   */
  lemma StepLive(b: Board, s: State, e: Step)
    requires Fits(b.y, s) && Addressed(b.y, e) && EnabledLive(b.y, s)
    ensures EnabledLive(b.y, Next(b, s, e).s) <==> !Silences(b, s, e)
  {
    if e.Configure? && e.m.VfMessage? { VfLive(b, s, e.m, e.io); }
    if e.Configure? && e.m.PfMessage? {
      if Enable in e.m.control {
        PfEnableLive(b, s, e.m, e.io);
      } else {
        PfDisableLive(b, s, e.m, e.io);
      }
    }
  }

  /** For an accepted step: exactly when it does not take down another port while PF 0 and some VF are enabled. */
  lemma AcceptedLive(b: Board, s: State, e: Step)
    requires Fits(b.y, s) && Addressed(b.y, e) && EnabledLive(b.y, s) && Next(b, s, e).ok
    ensures EnabledLive(b.y, Next(b, s, e).s) <==>
      !(&& e.Configure? && e.m.PfMessage? && e.m.port != 0 && TakesDown(b.y, s, e.m)
        && Enable in s.control[b.y.PfVid(0)] && AnyVf(b.y, s.control))
  {
    StepLive(b, s, e);
    if e.Configure? && e.m.PfMessage? && TakesDown(b.y, s, e.m) {
      var s1 := DownPf(b.y, s.(control := s.control[b.y.PfVid(e.m.port) := e.m.control]), e.m.port, e.io);
      if b.y.vfs > 0 { DownVfsReach(b.y, s1, e.io, b.y.vfs, 0); }
      if AnyVf(b.y, s.control) {
        var v :| 0 <= v < b.y.vfs && Enable in s.control[v];
        assert NoneFails(e.io, v);
      }
    }
  }

  lemma {:induction false} RunLive(b: Board, s: State, es: seq<Step>)
    requires Fits(b.y, s) && b.y.ports == 1 && (forall e | e in es :: Addressed(b.y, e)) && AllAccepted(b, s, es)
      && EnabledLive(b.y, s)
    ensures EnabledLive(b.y, Run(b, s, es))
    decreases |es|
  {
    if es != [] {
      AcceptedLive(b, s, es[0]);
      RunLive(b, Next(b, s, es[0]).s, es[1..]);
    }
  }

  /** With a single port nothing can: every accepted run from boot keeps its enabled VFs live. */
  lemma SinglePortVfsLive(b: Board, es: seq<Step>)
    requires b.y.ports == 1 && (forall e | e in es :: Addressed(b.y, e)) && AllAccepted(b, Boot(b), es)
    ensures EnabledLive(b.y, Run(b, Boot(b), es))
  {
    RunLive(b, Boot(b), es);
  }

  // ---- A disabled PF 0 ----

  ghost predicate DisabledPfSilent(y: Layout, s: State)
    requires Fits(y, s)
  {
    Enable !in s.control[y.PfVid(0)] ==> Drops(s.wire[0])
  }

  lemma NbiNotSilent(env: Env, n: nat, vebUp: bool, c: Control)
    ensures !Drops(Enc(NONE, NbiActions(env, n, vebUp, c)))
  {
    var acts := NbiActions(env, n, vebUp, c);
    L.NbiValid(env, n, vebUp, c);
    EncMeans(acts);
    assert forall a | a in acts :: a.op != DROP;
  }

  /** All the enabled VFs come up. */
  ghost predicate VfsComeUp(y: Layout, s: State, io: Io, upto: nat)
    requires Fits(y, s) && upto <= y.vfs
  {
    forall v: nat | v < upto && Enable in s.control[v] :: !io.vfFails(v)
  }

  lemma {:induction false} UpVfsOk(y: Layout, s: State, pc: Control, io: Io, upto: nat)
    requires Fits(y, s) && upto <= y.vfs
    ensures UpVfs(y, s, pc, io, upto).ok <==> VfsComeUp(y, s, io, upto)
  {
    if upto > 0 { UpVfsOk(y, s, pc, io, upto - 1); }
  }

  /**
   What brings a wire list to life under a disabled PF 0: a VF message that
   rebuilds the lists, an enable whose VEB write fails after they are written,
   and a disable that cannot stop the MAC.
   */
  ghost predicate Revives(b: Board, s: State, e: Step)
    requires Fits(b.y, s) && Addressed(b.y, e)
  {
    var off := Enable !in s.control[b.y.PfVid(0)];
    && e.Configure? && !Masked(b, e.m)
    && match e.m
       case VfMessage(_, _, _, _, _) => off && !RefusedEarly(b.y, s, e.m, e.io)
       case PfMessage(port, c, _) =>
         && port == 0
         && (if Enable in c then off && VfsComeUp(b.y, s, e.io, b.y.vfs) && e.io.pfFails
             else !off && e.io.rxStuck && !Drops(s.wire[0]))
       case CtrlMessage(_) => false
  }

  lemma VfRevives(b: Board, s: State, m: Message, io: Io)
    requires Fits(b.y, s) && m.VfMessage? && m.vf < b.y.vfs && DisabledPfSilent(b.y, s)
    ensures DisabledPfSilent(b.y, ProcessVf(b.y, s, m, io).s) <==> !Revives(b, s, Configure(m, io))
  {
    if !Masked(b, m) {
      var s1 := s.(control := s.control[m.vf := m.control]);
      var r := SwitchVf(b.y, s1, m, io);
      var c := r.s.control[b.y.PfVid(0)];
      assert c == s.control[b.y.PfVid(0)] && (r.ok <==> !RefusedEarly(b.y, s, m, io));
      NbiNotSilent(io.env(b.y.PfVid(0)), 0, AnyVf(b.y, r.s.control), c);
    }
  }

  lemma EnableRevives(b: Board, s: State, m: Message, io: Io)
    requires Fits(b.y, s) && m.PfMessage? && m.port == 0 && Enable in m.control && DisabledPfSilent(b.y, s)
    requires !Masked(b, m)
    ensures DisabledPfSilent(b.y, ProcessPf(b, s, 0, m.control, m.update, io).s) <==> !Revives(b, s, Configure(m, io))
  {
    UpVfsOk(b.y, s, m.control, io, b.y.vfs);
    NbiNotSilent(io.env(b.y.PfVid(0)), 0, AnyVf(b.y, s.control), m.control);
  }

  lemma DisableRevives(b: Board, s: State, m: Message, io: Io)
    requires Fits(b.y, s) && m.PfMessage? && m.port == 0 && Enable !in m.control && DisabledPfSilent(b.y, s)
    requires !Masked(b, m)
    ensures DisabledPfSilent(b.y, ProcessPf(b, s, 0, m.control, m.update, io).s) <==> !Revives(b, s, Configure(m, io))
  {
    DownListsDrop(io.env(b.y.PfVid(0)));
  }

  lemma PfRevives(b: Board, s: State, m: Message, io: Io)
    requires Fits(b.y, s) && m.PfMessage? && m.port < b.y.ports && DisabledPfSilent(b.y, s)
    ensures DisabledPfSilent(b.y, ProcessPf(b, s, m.port, m.control, m.update, io).s)
      <==> !Revives(b, s, Configure(m, io))
  {
    if !Masked(b, m) && m.port == 0 {
      if Enable in m.control {
        EnableRevives(b, s, m, io);
      } else {
        DisableRevives(b, s, m, io);
      }
    }
  }

  /** Every step, accepted or refused, keeps a disabled PF 0's wire list silent exactly when it is none of these. */
  lemma StepPfSilent(b: Board, s: State, e: Step)
    requires Fits(b.y, s) && Addressed(b.y, e) && DisabledPfSilent(b.y, s)
    ensures DisabledPfSilent(b.y, Next(b, s, e).s) <==> !Revives(b, s, e)
  {
    if e.Configure? && e.m.VfMessage? { VfRevives(b, s, e.m, e.io); }
    if e.Configure? && e.m.PfMessage? { PfRevives(b, s, e.m, e.io); }
  }

  /** For an accepted step: exactly when it is not a VF message sent while PF 0 is disabled. */
  lemma AcceptedPfSilent(b: Board, s: State, e: Step)
    requires Fits(b.y, s) && Addressed(b.y, e) && DisabledPfSilent(b.y, s) && Next(b, s, e).ok
    ensures DisabledPfSilent(b.y, Next(b, s, e).s)
      <==> !(e.Configure? && e.m.VfMessage? && Enable !in s.control[b.y.PfVid(0)])
  {
    StepPfSilent(b, s, e);
  }

  // ---- A refused enable ----

  /** Everything that a step meets succeeds. */
  ghost predicate Smooth(io: Io) { !io.pfFails && !io.rxStuck && forall v: nat :: !io.vfFails(v) }

  /** After PF 0 was enabled at boot, a VF enable that the VEB refuses breaks the agreement of PF 0's lists. */
  lemma RefusedEnableBreaks(b: Board, first: Io, io: Io, sriov: Sriov)
    requires b.y.ports > 0 && b.y.vfs > 0 && Smooth(first) && io.vfFails(0)
    ensures var up := Next(b, Boot(b), Configure(PfMessage(0, {Enable}, {}), first));
      var e := Configure(VfMessage(0, {Enable}, {}, sriov, true), io);
      && up.ok && ListsAgree(b.y, up.s)
      && Breaks(b, up.s, e) && !Next(b, up.s, e).ok && !ListsAgree(b.y, Next(b, up.s, e).s)
  {
    var up := Next(b, Boot(b), Configure(PfMessage(0, {Enable}, {}), first));
    var e := Configure(VfMessage(0, {Enable}, {}, sriov, true), io);
    UpVfsOk(b.y, Boot(b), {Enable}, first, b.y.vfs);
    PfEstablishes(b, Boot(b), {Enable}, {}, first);
    NbiNotSilent(first.env(b.y.PfVid(0)), 0, AnyVf(b.y, Boot(b).control), {Enable});
    assert !AnyVf(b.y, up.s.control);
    assert Enable in up.s.control[0 := {Enable}][0];
    StepLists(b, up.s, e);
  }

  /** Before that it breaks nothing: the image's lists drop. */
  lemma RefusedAtBoot(b: Board, io: Io, sriov: Sriov)
    requires b.y.ports > 0 && b.y.vfs > 0
    ensures var r := Next(b, Boot(b), Configure(VfMessage(0, {Enable}, {}, sriov, true), io));
      !r.ok && ListsAgree(b.y, r.s)
  {
    BootDrops(b);
    StepLists(b, Boot(b), Configure(VfMessage(0, {Enable}, {}, sriov, true), io));
  }
}
