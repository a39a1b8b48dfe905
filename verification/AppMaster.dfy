/**
 The configuration and link-state threads of the App Master: the shared state
 that both update, and their steps, each proved to be the step of the model.
 */
module AppMaster {
  import opened Common
  import opened ActionList
  import opened ActionBuilders
  import opened LinkState
  import opened Reconfig

  class App {
    const b: Board
    const links: LinkTable
    var control: seq<Control>
    var wire: seq<seq<Word>>
    var host: seq<seq<Word>>

    ghost function View(): State reads this, links { State(links.View(), control, wire, host) }

    ghost predicate Valid() reads this, links { links.y == b.y && Fits(b.y, View()) }

    constructor (b: Board)
      requires b.y.ports > 0
      ensures this.b == b && Valid() && fresh(links) && View() == Boot(b)
    {
      this.b := b;
      links := new LinkTable(b.y);
      control := seq(b.y.Vids(), _ => {});
      wire, host := seq(b.y.ports, _ => WIRE_IMAGE), seq(b.y.Vids(), vid => HostImage(b, vid));
    }

    /** cfg_act_vf_up without its table writes, which `vebOk` reports. */
    method VfUp(v: nat, env: Env, pc: Control, c: Control, vebOk: bool) returns (ok: bool)
      requires Valid() && v < b.y.vfs
      modifies this`host
      ensures Valid() && ok == vebOk
      ensures View() == if vebOk then SetHost(old(View()), v, VfActions(env, pc, c)) else old(View())
    {
      if !vebOk { return false; }
      var l := new ActionBuffer();
      BuildVf(l, env, Vf(v), pc, c);
      host := host[v := l.instr[..l.count]];
      return true;
    }

    /** cfg_act_vf_down. */
    method VfDown(v: nat, io: Io) returns (ok: bool)
      requires Valid() && v < b.y.vfs
      modifies this`host
      ensures Valid() && Outcome(View(), ok) == DownVf(old(View()), io, v)
    {
      var l := new ActionBuffer();
      BuildHostDown(l, io.env(v));
      host := host[v := l.instr[..l.count]];
      return !io.vfFails(v);
    }

    /** cfg_act_pf_up. */
    method PfUp(port: nat, vebUp: bool, c: Control, io: Io) returns (ok: bool)
      requires Valid() && port < b.y.ports
      modifies this`wire, this`host
      ensures Valid() && Outcome(View(), ok) == UpPf(b.y, old(View()), port, vebUp, c, io)
    {
      var pf := b.y.PfVid(port);
      var env := io.env(pf);
      var l := new ActionBuffer();
      BuildNbi(l, env, Pf(port), vebUp, c);
      wire := wire[port := l.instr[..l.count]];
      BuildPf(l, env, Pf(port), vebUp, c);
      host := host[pf := l.instr[..l.count]];
      return !(port == 0 && io.pfFails);
    }

    /** cfg_act_pf_down. */
    method PfDown(port: nat, io: Io)
      requires Valid() && port < b.y.ports
      modifies this`wire, this`host
      ensures Valid() && View() == DownPf(b.y, old(View()), port, io)
    {
      var pf := b.y.PfVid(port);
      var l := new ActionBuffer();
      BuildWireDown(l, io.env(pf));
      wire := wire[port := l.instr[..l.count]];
      BuildHostDown(l, io.env(pf));
      host := host[pf := l.instr[..l.count]];
    }

    /** The loop of a PF enable over the enabled VFs. */
    method VfsUp(pc: Control, io: Io) returns (ok: bool, vebUp: bool)
      requires Valid()
      modifies this`host
      ensures Valid() && Outcome(View(), ok) == UpVfs(b.y, old(View()), pc, io, b.y.vfs)
      ensures ok ==> vebUp == AnyVf(b.y, control)
    {
      vebUp := false;
      var i := 0;
      while i < b.y.vfs
        modifies this`host
        invariant 0 <= i <= b.y.vfs && Valid()
        invariant Outcome(View(), true) == UpVfs(b.y, old(View()), pc, io, i)
        invariant vebUp <==> exists v | 0 <= v < i :: Enable in control[v]
      {
        if Enable in control[i] {
          ok := VfUp(i, io.env(i), pc, control[i], !io.vfFails(i));
          if !ok {
            UpStaysFailed(b.y, old(View()), pc, io, i + 1, b.y.vfs);
            return;
          }
          vebUp := true;
        }
        i := i + 1;
      }
      ok := true;
    }

    /** The loop of a PF disable over all VFs. */
    method VfsDown(io: Io) returns (ok: bool)
      requires Valid()
      modifies this`host
      ensures Valid() && Outcome(View(), ok) == DownVfs(b.y, old(View()), io, b.y.vfs)
    {
      var i := 0;
      while i < b.y.vfs
        modifies this`host
        invariant 0 <= i <= b.y.vfs && Valid()
        invariant Outcome(View(), true) == DownVfs(b.y, old(View()), io, i)
      {
        ok := VfDown(i, io);
        if !ok {
          DownStaysFailed(b.y, old(View()), io, i + 1, b.y.vfs);
          return;
        }
        i := i + 1;
      }
      ok := true;
    }

    method EnablePort(port: nat, c: Control, io: Io) returns (ok: bool)
      requires Valid() && port < b.y.ports
      modifies this`wire, this`host
      ensures Valid() && Outcome(View(), ok) == EnablePf(b.y, old(View()), port, c, io)
    {
      if Enable !in c { return true; }
      var vebUp;
      ok, vebUp := VfsUp(c, io);
      if !ok { return; }
      ok := PfUp(port, vebUp, c, io);
    }

    method ProcessPfReconfig(port: nat, c: Control, update: set<Update>, io: Io) returns (ok: bool)
      requires Valid() && port < b.y.ports
      modifies this
      ensures Valid() && Outcome(View(), ok) == ProcessPf(b, old(View()), port, c, update, io)
    {
      if !(c <= PfCap(b)) { return false; }
      if !(update <= PF_UPDATES) { return false; }
      ok := EnablePort(port, c, io);
      if !ok { return; }
      var prev := control[b.y.PfVid(port)];
      control := control[b.y.PfVid(port) := c];
      if Enable in prev && Enable !in c {
        if io.rxStuck { return false; }
        PfDown(port, io);
        ok := VfsDown(io);
      }
    }

    /** Whether any VF is still up, stopping at the first. */
    method AnyVfUp() returns (up: bool)
      requires Valid()
      ensures up == AnyVf(b.y, control)
    {
      var v := 0;
      while v < b.y.vfs
        invariant 0 <= v <= b.y.vfs && forall u | 0 <= u < v :: Enable !in control[u]
      {
        if Enable in control[v] { return true; }
        v := v + 1;
      }
      return false;
    }

    method SwitchVfList(m: Message, io: Io) returns (ok: bool, vebUp: bool)
      requires Valid() && m.VfMessage? && m.vf < b.y.vfs && control[m.vf] == m.control
      modifies this`host
      ensures Valid() && Outcome(View(), ok) == SwitchVf(b.y, old(View()), m, io)
      ensures ok ==> vebUp == AnyVf(b.y, control)
    {
      vebUp := true;
      if Enable in m.control {
        if Enable !in control[b.y.PfVid(0)] { return false, vebUp; }
        ok := VfUp(m.vf, io.env(m.vf), control[b.y.PfVid(0)], m.control, !io.vfFails(m.vf));
      } else {
        if MacUpdate in m.update && m.sriov.hasMac && !m.sriov.trusted { return false, vebUp; }
        ok := VfDown(m.vf, io);
        if !ok { return; }
        vebUp := AnyVfUp();
      }
    }

    method ProcessVfReconfig(m: Message, io: Io) returns (ok: bool)
      requires Valid() && m.VfMessage? && m.vf < b.y.vfs
      modifies this, links
      ensures Valid() && Outcome(View(), ok) == ProcessVf(b.y, old(View()), m, io)
    {
      if !(m.control <= VF_CAP) { return false; }
      if !(m.update <= VF_UPDATES) { return false; }
      control := control[m.vf := m.control];
      var vebUp;
      ok, vebUp := SwitchVfList(m, io);
      if !ok { return; }
      ok := PfUp(0, vebUp, control[b.y.PfVid(0)], io);
      if !ok { return; }
      var mode := if Enable in m.control then m.sriov.mode else Down;
      links.UpdateVfLscList(0, m.vf, Enable in m.control, mode, m.barEnabled);
    }

    method ProcessCtrlReconfig(c: Control, io: Io) returns (ok: bool)
      requires Valid()
      modifies this, links`bar
      ensures Valid() && Outcome(View(), ok) == ProcessCtrl(b, old(View()), c, io)
    {
      if !(c <= b.ctrlCap) { return false; }
      var vid := b.y.CtrlVid();
      var l := new ActionBuffer();
      BuildCtrl(l, io.env(vid), Ctrl);
      host := host[vid := l.instr[..l.count]];
      links.bar := links.bar[vid := Enable in c];
      control := control[vid := c];
      return true;
    }

    /** One pass of either thread is the model's step, so what holds over runs of the model holds of this code. */
    method DoStep(e: Step) returns (ok: bool)
      requires Valid() && Addressed(b.y, e)
      modifies this, links
      ensures Valid() && Outcome(View(), ok) == Next(b, old(View()), e)
    {
      match e {
        case Configure(CtrlMessage(c), io) => ok := ProcessCtrlReconfig(c, io);
        case Configure(PfMessage(port, c, update), io) => ok := ProcessPfReconfig(port, c, update, io);
        case Configure(VfMessage(_, _, _, _, _), io) => ok := ProcessVfReconfig(e.m, io);
        case CheckLink(port, macUp, fails) =>
          links.Check(port, macUp, Enable in control[b.y.PfVid(port)], fails);
          ok := true;
        case Retry(fails) =>
          var words := control;
          links.HandlePendingInterrupts(EnabledIn(words), fails);
          ok := true;
      }
    }

    /** The threads' endless loops, over any finite schedule of their passes. */
    method Serve(es: seq<Step>)
      requires Valid() && forall e | e in es :: Addressed(b.y, e)
      modifies this, links
      ensures Valid() && View() == Run(b, old(View()), es)
    {
      var i := 0;
      while i < |es|
        invariant 0 <= i <= |es| && Valid()
        invariant Run(b, View(), es[i..]) == Run(b, old(View()), es)
      {
        assert es[i..][1..] == es[i + 1..] && es[i] in es;
        var _ := DoStep(es[i]);
        i := i + 1;
      }
    }
  }

  lemma {:induction false} UpStaysFailed(y: Layout, s: State, pc: Control, io: Io, i: nat, n: nat)
    requires Fits(y, s) && i <= n <= y.vfs && !UpVfs(y, s, pc, io, i).ok
    ensures UpVfs(y, s, pc, io, n) == UpVfs(y, s, pc, io, i)
    decreases n - i
  {
    if i < n { UpStaysFailed(y, s, pc, io, i, n - 1); }
  }

  lemma {:induction false} DownStaysFailed(y: Layout, s: State, io: Io, i: nat, n: nat)
    requires Fits(y, s) && i <= n <= y.vfs && !DownVfs(y, s, io, i).ok
    ensures DownVfs(y, s, io, n) == DownVfs(y, s, io, i)
    decreases n - i
  {
    if i < n { DownStaysFailed(y, s, io, i, n - 1); }
  }
}
