/**
 Concurrent adds and deletes on the MAC lookup table: any number of threads,
 one lock bit per bucket packed 32 to a word, and one memory access per step.
 */
module MacLookupLocks {
  import opened Common
  import opened Bits
  import opened MacLookup

  type Index = i: int | 0 <= i < 1024

  datatype Call = Call(idx: Index, op: Op)

  /** Spinning on the lock, or inside the bucket; `snap` records the bucket when the lock was taken. */
  datatype Where = Waiting | Inside(pc: Pc, snap: Bucket)

  datatype Thread = Thread(call: Call, at: Where)

  datatype Done = Done(call: Call, ret: nat)

  /** `init` is the table before the run and `log` the finished calls in the order of their unlocks. */
  datatype State = State(init: seq<Bucket>, locks: seq<Word32>, table: seq<Bucket>, threads: map<nat, Thread>,
    log: seq<Done>)

  datatype Step = Begin(t: nat, call: Call) | TryLock(t: nat) | Load(t: nat) | StoreLine(t: nat) | StoreRes(t: nat)
    | EndWrite(t: nat) | Unlock(t: nat)

  predicate Shaped(s: State) { |s.init| == BUCKETS && |s.table| == BUCKETS && |s.locks| == BUCKETS / 32 }

  predicate IsInside(s: State, t: nat) { t in s.threads && s.threads[t].at.Inside? }

  predicate Enabled(s: State, step: Step) {
    && Shaped(s)
    && match step
       case Begin(t, _) => t !in s.threads
       case TryLock(t) => t in s.threads && s.threads[t].at.Waiting?
       case Load(t) => IsInside(s, t) && !s.threads[t].at.pc.Write? && !s.threads[t].at.pc.Release?
       case StoreLine(t) => IsInside(s, t) && s.threads[t].at.pc.Write? && s.threads[t].at.pc.at != 0
       case StoreRes(t) => IsInside(s, t) && s.threads[t].at.pc.Write? && s.threads[t].at.pc.res.PutRes?
       case EndWrite(t) =>
         IsInside(s, t) && s.threads[t].at.pc.Write? && s.threads[t].at.pc.at == 0 && s.threads[t].at.pc.res.NoRes?
       case Unlock(t) => IsInside(s, t) && s.threads[t].at.pc.Release?
  }

  function Move(s: State, t: nat, pc: Pc): State
    requires IsInside(s, t)
  {
    s.(threads := s.threads[t := s.threads[t].(at := Inside(pc, s.threads[t].at.snap))])
  }

  function Apply(s: State, step: Step): State
    requires Enabled(s, step)
  {
    if step.Begin? then s.(threads := s.threads[step.t := Thread(step.call, Waiting)])
    else
      var th := s.threads[step.t];
      var b := th.call.idx;
      match step
      case TryLock(t) =>
        // mem_test_set returns the old word and sets the bit in any case
        if Test(s.locks, b) then s.(locks := Set(s.locks, b))
        else s.(locks := Set(s.locks, b), threads := s.threads[t := th.(at := Inside(Read1, s.table[b]))])
      case Load(t) => Move(s, t, AfterRead(th.call.op, th.at.pc, s.table[b]))
      case StoreLine(t) =>
        Move(s, t, th.at.pc.(at := 0)).(table := s.table[b := WriteLine(s.table[b], th.at.pc.at, th.at.pc.line)])
      case StoreRes(t) =>
        Move(s, t, th.at.pc.(res := NoRes)).(table := s.table[b := WriteRes(s.table[b], th.at.pc.res)])
      case EndWrite(t) => Move(s, t, Release(th.at.pc.ret))
      case Unlock(t) =>
        s.(locks := Clear(s.locks, b), threads := s.threads - {t}, log := s.log + [Done(th.call, th.at.pc.ret)])
  }

  // ---- The sequential history ----

  /** The table after the logged calls, each performed whole. */
  function Replay(init: seq<Bucket>, log: seq<Done>): (r: seq<Bucket>)
    requires |init| == BUCKETS
    ensures |r| == BUCKETS
  {
    if log == [] then init else
    var r, c := Replay(init, log[..|log| - 1]), log[|log| - 1].call;
    r[c.idx := Perform(c.op, r[c.idx]).0]
  }

  /** Every logged return code is the one of the sequential call. */
  ghost predicate Faithful(init: seq<Bucket>, log: seq<Done>)
    requires |init| == BUCKETS
  {
    log == [] ||
    var rest, d := log[..|log| - 1], log[|log| - 1];
    Faithful(init, rest) && d.ret == Perform(d.call.op, Replay(init, rest)[d.call.idx]).1
  }

  lemma ReplaySnoc(init: seq<Bucket>, log: seq<Done>, d: Done)
    requires |init| == BUCKETS
    ensures var r := Replay(init, log); Replay(init, log + [d]) == r[d.call.idx := Perform(d.call.op, r[d.call.idx]).0]
    ensures Faithful(init, log + [d])
      <==> Faithful(init, log) && d.ret == Perform(d.call.op, Replay(init, log)[d.call.idx]).1
  {
    assert (log + [d])[..|log|] == log;
  }

  // ---- The invariant ----

  /** At most one thread is inside a bucket, and the lock bit tells whether one is. */
  ghost predicate Exclusive(s: State)
    requires Shaped(s)
  {
    && (forall t, u | IsInside(s, t) && IsInside(s, u) && s.threads[t].call.idx == s.threads[u].call.idx :: t == u)
    && (forall t | IsInside(s, t) :: Test(s.locks, s.threads[t].call.idx))
    && (forall b: Index | Test(s.locks, b) :: exists t :: IsInside(s, t) && s.threads[t].call.idx == b)
  }

  /** Left alone, each thread inside would finish with what its whole call does to the bucket it found. */
  ghost predicate OnTrack(s: State, t: nat)
    requires Shaped(s) && IsInside(s, t)
  {
    var th := s.threads[t];
    && Finish(th.call.op, th.at.pc, s.table[th.call.idx]) == Perform(th.call.op, th.at.snap)
    && th.at.snap == Replay(s.init, s.log)[th.call.idx]
  }

  ghost predicate AllOnTrack(s: State)
    requires Shaped(s)
  {
    forall t | IsInside(s, t) :: OnTrack(s, t)
  }

  /** Buckets that nobody holds are those of the history. */
  ghost predicate Settled(s: State)
    requires Shaped(s)
  {
    forall b: Index | !Test(s.locks, b) :: s.table[b] == Replay(s.init, s.log)[b]
  }

  ghost predicate Inv(s: State) {
    Shaped(s) && Exclusive(s) && Faithful(s.init, s.log) && AllOnTrack(s) && Settled(s)
  }

  ghost predicate Init(s: State) {
    Shaped(s) && s.table == s.init && s.locks == seq(BUCKETS / 32, _ => {}) && s.threads == map[] && s.log == []
  }

  /** Steps of a thread inside its bucket: others keep their buckets, and the outcome does not change. */
  lemma InsideStep(s: State, step: Step)
    requires Inv(s) && Enabled(s, step) && (step.Load? || step.StoreLine? || step.StoreRes? || step.EndWrite?)
    ensures Inv(Apply(s, step))
  {
    var n, t := Apply(s, step), step.t;
    assert OnTrack(s, t);
    forall u ensures IsInside(n, u) <==> IsInside(s, u) {}
    forall u | IsInside(s, u) ensures n.threads[u].call == s.threads[u].call {}
    SameInside(s, n);
    OutcomeKept(s, step);
    forall u | IsInside(n, u) ensures OnTrack(n, u) {
      if u != t { assert OnTrack(s, u); }
    }
  }

  lemma SameInside(s: State, n: State)
    requires Shaped(s) && Shaped(n) && Exclusive(s) && n.locks == s.locks
    requires forall u :: IsInside(n, u) <==> IsInside(s, u)
    requires forall u | IsInside(s, u) :: IsInside(n, u) && n.threads[u].call == s.threads[u].call
    ensures Exclusive(n)
  {
    forall b: Index | Test(n.locks, b) ensures exists u :: IsInside(n, u) && n.threads[u].call.idx == b {
      var u :| IsInside(s, u) && s.threads[u].call.idx == b;
      assert IsInside(n, u);
    }
  }

  lemma OutcomeKept(s: State, step: Step)
    requires Enabled(s, step) && (step.Load? || step.StoreLine? || step.StoreRes? || step.EndWrite?)
    ensures var n, t := Apply(s, step), step.t;
      var th := s.threads[t];
      Finish(th.call.op, n.threads[t].at.pc, n.table[th.call.idx]) == Finish(th.call.op, th.at.pc, s.table[th.call.idx])
  {
  }

  lemma BeginKeeps(s: State, step: Step)
    requires Inv(s) && Enabled(s, step) && step.Begin?
    ensures Inv(Apply(s, step))
  {
    var n := Apply(s, step);
    forall u ensures IsInside(n, u) <==> IsInside(s, u) {}
    SameInside(s, n);
    forall u | IsInside(n, u) ensures OnTrack(n, u) { assert OnTrack(s, u); }
  }

  lemma SpinKeeps(s: State, step: Step)
    requires Inv(s) && Enabled(s, step) && step.TryLock? && Test(s.locks, s.threads[step.t].call.idx)
    ensures Inv(Apply(s, step))
  {
    var n, b := Apply(s, step), s.threads[step.t].call.idx;
    assert n.locks == s.locks by { assert s.locks[b / 32] + {b % 32} == s.locks[b / 32]; }
    assert n == s;
  }

  lemma LockInside(s: State, step: Step, u: nat)
    requires Enabled(s, step) && step.TryLock? && !Test(s.locks, s.threads[step.t].call.idx)
    ensures IsInside(Apply(s, step), u) <==> u == step.t || IsInside(s, u)
    ensures IsInside(s, u) ==> Apply(s, step).threads[u] == s.threads[u]
    ensures Apply(s, step).threads[step.t].call == s.threads[step.t].call
  {
  }

  lemma LockOwned(s: State, step: Step, c: Index)
    requires Shaped(s) && Exclusive(s)
    requires Enabled(s, step) && step.TryLock? && !Test(s.locks, s.threads[step.t].call.idx)
    requires Test(Apply(s, step).locks, c)
    ensures var n := Apply(s, step); exists u :: IsInside(n, u) && n.threads[u].call.idx == c
  {
    var n, t := Apply(s, step), step.t;
    if c == s.threads[t].call.idx {
      LockInside(s, step, t);
      assert IsInside(n, t) && n.threads[t].call.idx == c;
    } else {
      var u :| IsInside(s, u) && s.threads[u].call.idx == c;
      LockInside(s, step, u);
      assert IsInside(n, u) && n.threads[u].call.idx == c;
    }
  }

  lemma LockExclusive(s: State, step: Step)
    requires Shaped(s) && Exclusive(s)
    requires Enabled(s, step) && step.TryLock? && !Test(s.locks, s.threads[step.t].call.idx)
    ensures Exclusive(Apply(s, step))
  {
    var n := Apply(s, step);
    forall u { LockInside(s, step, u); }
    forall c: Index | Test(n.locks, c) ensures exists u :: IsInside(n, u) && n.threads[u].call.idx == c {
      LockOwned(s, step, c);
    }
  }

  lemma LockKeeps(s: State, step: Step)
    requires Inv(s) && Enabled(s, step) && step.TryLock? && !Test(s.locks, s.threads[step.t].call.idx)
    ensures Inv(Apply(s, step))
  {
    var n, t := Apply(s, step), step.t;
    LockExclusive(s, step);
    forall u | IsInside(n, u) ensures OnTrack(n, u) {
      if u != t {
        assert IsInside(s, u) && OnTrack(s, u) && n.threads[u] == s.threads[u];
      }
    }
  }

  lemma UnlockInside(s: State, step: Step, u: nat)
    requires Enabled(s, step) && step.Unlock?
    ensures IsInside(Apply(s, step), u) <==> u != step.t && IsInside(s, u)
    ensures IsInside(Apply(s, step), u) ==> Apply(s, step).threads[u] == s.threads[u]
  {
  }

  lemma UnlockExclusive(s: State, step: Step)
    requires Shaped(s) && Exclusive(s) && Enabled(s, step) && step.Unlock?
    ensures Exclusive(Apply(s, step))
  {
    var n := Apply(s, step);
    var b := s.threads[step.t].call.idx;
    forall u { UnlockInside(s, step, u); }
    forall u | IsInside(n, u) ensures Test(n.locks, n.threads[u].call.idx) {
      assert s.threads[u].call.idx != b;
    }
    forall c: Index | Test(n.locks, c) ensures exists u :: IsInside(n, u) && n.threads[u].call.idx == c {
      var u :| IsInside(s, u) && s.threads[u].call.idx == c;
      assert IsInside(n, u);
    }
  }

  lemma UnlockOthers(s: State, step: Step, u: nat)
    requires Inv(s) && Enabled(s, step) && step.Unlock? && IsInside(Apply(s, step), u)
    ensures OnTrack(Apply(s, step), u)
  {
    var n, th := Apply(s, step), s.threads[step.t];
    ReplaySnoc(s.init, s.log, Done(th.call, th.at.pc.ret));
    UnlockInside(s, step, u);
    assert OnTrack(s, u) && s.threads[u].call.idx != th.call.idx;
  }

  /** At its release a call has the return code of the whole call on the bucket it found. */
  lemma ReleasedWith(s: State, t: nat)
    requires Shaped(s) && IsInside(s, t) && OnTrack(s, t) && s.threads[t].at.pc.Release?
    ensures var th := s.threads[t];
      th.at.pc.ret == Perform(th.call.op, Replay(s.init, s.log)[th.call.idx]).1
  {
  }

  lemma UnlockFaithful(s: State, step: Step)
    requires Shaped(s) && Faithful(s.init, s.log) && AllOnTrack(s) && Enabled(s, step) && step.Unlock?
    ensures Faithful(s.init, Apply(s, step).log)
  {
    var th := s.threads[step.t];
    ReleasedWith(s, step.t);
    ReplaySnoc(s.init, s.log, Done(th.call, th.at.pc.ret));
  }

  lemma UnlockBucket(s: State, step: Step, b: Index)
    requires Shaped(s) && AllOnTrack(s) && Settled(s)
    requires Enabled(s, step) && step.Unlock? && !Test(Apply(s, step).locks, b)
    ensures Apply(s, step).table[b] == Replay(s.init, Apply(s, step).log)[b]
  {
    var th := s.threads[step.t];
    ReplaySnoc(s.init, s.log, Done(th.call, th.at.pc.ret));
    if b == th.call.idx {
      assert OnTrack(s, step.t);
    } else {
      assert !Test(s.locks, b);
    }
  }

  lemma UnlockSettles(s: State, step: Step)
    requires Inv(s) && Enabled(s, step) && step.Unlock?
    ensures Settled(Apply(s, step))
  {
    var n := Apply(s, step);
    forall b: Index | !Test(n.locks, b) ensures n.table[b] == Replay(n.init, n.log)[b] { UnlockBucket(s, step, b); }
  }

  lemma UnlockTracks(s: State, step: Step)
    requires Inv(s) && Enabled(s, step) && step.Unlock?
    ensures AllOnTrack(Apply(s, step))
  {
    var n := Apply(s, step);
    forall u | IsInside(n, u) ensures OnTrack(n, u) { UnlockOthers(s, step, u); }
  }

  /** The unlock is where the whole call takes effect in the history. */
  lemma UnlockKeeps(s: State, step: Step)
    requires Inv(s) && Enabled(s, step) && step.Unlock?
    ensures Inv(Apply(s, step))
  {
    UnlockExclusive(s, step);
    UnlockFaithful(s, step);
    UnlockTracks(s, step);
    UnlockSettles(s, step);
  }

  lemma StepKeeps(s: State, step: Step)
    requires Inv(s) && Enabled(s, step)
    ensures Inv(Apply(s, step))
  {
    match step
    case Begin(_, _) => BeginKeeps(s, step);
    case TryLock(t) => if Test(s.locks, s.threads[t].call.idx) { SpinKeeps(s, step); } else { LockKeeps(s, step); }
    case Unlock(_) => UnlockKeeps(s, step);
    case _ => InsideStep(s, step);
  }

  /** A step changes no bucket's lock bit but that of its own thread's bucket. */
  lemma OwnLockBitOnly(s: State, step: Step, b: Index)
    requires Enabled(s, step) && (step.Begin? || s.threads[step.t].call.idx != b)
    ensures Test(Apply(s, step).locks, b) == Test(s.locks, b)
  {
  }

  // ---- Whole runs ----

  ghost predicate IsRun(s: State, steps: seq<Step>)
    decreases |steps|
  {
    steps == [] || (Enabled(s, steps[0]) && IsRun(Apply(s, steps[0]), steps[1..]))
  }

  ghost function Final(s: State, steps: seq<Step>): State
    requires IsRun(s, steps)
    decreases |steps|
  {
    if steps == [] then s else Final(Apply(s, steps[0]), steps[1..])
  }

  lemma {:induction false} RunKeeps(s: State, steps: seq<Step>)
    requires Inv(s) && IsRun(s, steps)
    ensures Inv(Final(s, steps)) && Final(s, steps).init == s.init
    decreases |steps|
  {
    if steps != [] {
      StepKeeps(s, steps[0]);
      RunKeeps(Apply(s, steps[0]), steps[1..]);
    }
  }

  lemma InitHolds(s: State)
    requires Init(s)
    ensures Inv(s)
  {
    forall b: Index ensures !Test(s.locks, b) {}
  }

  /**
   In every interleaving at most one thread is inside a bucket, every call
   returned what it returns when the finished calls are performed one after
   another in unlock order, and every bucket that is not locked holds exactly
   the result of that sequence: no update of a shared line was lost.
   */
  lemma CallsLinearise(s: State, steps: seq<Step>)
    requires Init(s) && IsRun(s, steps)
    ensures var n := Final(s, steps);
      && Shaped(n) && n.init == s.init && Faithful(s.init, n.log)
      && (forall t, u | IsInside(n, t) && IsInside(n, u) && n.threads[t].call.idx == n.threads[u].call.idx :: t == u)
      && (forall b: Index | !Test(n.locks, b) :: n.table[b] == Replay(s.init, n.log)[b])
  {
    InitHolds(s);
    RunKeeps(s, steps);
  }

  // ---- The table as a map ----

  datatype Addr = Addr(idx: Index, key: Key)

  function AddrOf(c: Call): Addr { Addr(c.idx, c.op.key) }

  /** The map that a history of calls and return codes stands for. */
  function MapAfter(log: seq<Done>): map<Addr, nat> {
    if log == [] then map[] else
    var m, d := MapAfter(log[..|log| - 1]), log[|log| - 1];
    if d.ret != 0 then m
    else if d.call.op.Add? then m[AddrOf(d.call) := Value(d.call.op.result)]
    else m - {AddrOf(d.call)}
  }

  /** No call adds a MAC that is still present. */
  ghost predicate NoReAdd(log: seq<Done>) {
    log == [] ||
    var rest, d := log[..|log| - 1], log[|log| - 1];
    NoReAdd(rest) && (d.call.op.Add? ==> AddrOf(d.call) !in MapAfter(rest))
  }

  /** No call adds a MAC that is present while a slot before its own is free. */
  ghost predicate NoHarm(init: seq<Bucket>, log: seq<Done>)
    requires |init| == BUCKETS
  {
    log == [] ||
    var rest, c := log[..|log| - 1], log[|log| - 1].call;
    NoHarm(init, rest) && !Harmful(SlotsOf(Replay(init, rest)[c.idx]), c.op)
  }

  ghost predicate AllOrdered(r: seq<Bucket>)
    requires |r| == BUCKETS
  {
    forall b: Index :: Ordered(SlotsOf(r[b]))
  }

  /** All buckets are in order after every call of the history. */
  ghost predicate AlwaysOrdered(init: seq<Bucket>, log: seq<Done>)
    requires |init| == BUCKETS
  {
    AllOrdered(Replay(init, log)) && (log == [] || AlwaysOrdered(init, log[..|log| - 1]))
  }

  const EMPTY_TABLE: seq<Bucket> := seq(BUCKETS, _ => EMPTY)

  ghost predicate IsMap(r: seq<Bucket>, m: map<Addr, nat>)
    requires |r| == BUCKETS
  {
    && AllOrdered(r)
    && (forall b: Index, k: Key :: Get(SlotsOf(r[b]), k) == if Addr(b, k) in m then Some(m[Addr(b, k)]) else None)
  }

  lemma EmptyIsMap()
    ensures IsMap(EMPTY_TABLE, map[])
  {
    assert forall i: nat | i < 6 :: !Live(SlotsOf(EMPTY), i);
  }

  lemma OneCall(r: seq<Bucket>, m: map<Addr, nat>, c: Call)
    requires |r| == BUCKETS && IsMap(r, m) && !Harmful(SlotsOf(r[c.idx]), c.op)
    ensures var (b, ret) := Perform(c.op, r[c.idx]);
      var after := if c.op.Add? then m[AddrOf(c) := Value(c.op.result)] else m - {AddrOf(c)};
      IsMap(r[c.idx := b], if ret != 0 then m else after)
    ensures c.op.Del? ==> (Perform(c.op, r[c.idx]).1 == 0 <==> AddrOf(c) in m)
  {
    var s := SlotsOf(r[c.idx]);
    PerformIsSlotOp(c.op, r[c.idx]);
    assert Get(s, c.op.key) == if AddrOf(c) in m then Some(m[AddrOf(c)]) else None;
    if c.op.Del? {
      DelEffect(s, c.op);
    } else if Present(s, c.op.key) {
      HarmlessReAdd(s, c.op);
    } else {
      AddAbsent(s, c.op);
    }
  }

  /** A harmful re-add leaves its bucket out of order. */
  lemma HarmDisorders(r: seq<Bucket>, c: Call)
    requires |r| == BUCKETS && AllOrdered(r) && Harmful(SlotsOf(r[c.idx]), c.op)
    ensures !AllOrdered(r[c.idx := Perform(c.op, r[c.idx]).0])
  {
    var after := r[c.idx := Perform(c.op, r[c.idx]).0];
    PerformIsSlotOp(c.op, r[c.idx]);
    HarmfulReAdd(SlotsOf(r[c.idx]), c.op);
    assert !Ordered(SlotsOf(after[c.idx]));
  }

  /**
   A history keeps every bucket in order exactly when it has no harmful re-add,
   and then it leaves exactly a finite map.
   */
  lemma {:induction false} HistoryIsMap(log: seq<Done>)
    requires Faithful(EMPTY_TABLE, log)
    ensures AlwaysOrdered(EMPTY_TABLE, log) <==> NoHarm(EMPTY_TABLE, log)
    ensures NoHarm(EMPTY_TABLE, log) ==> IsMap(Replay(EMPTY_TABLE, log), MapAfter(log))
  {
    if log == [] {
      EmptyIsMap();
    } else {
      var rest, d := log[..|log| - 1], log[|log| - 1];
      HistoryIsMap(rest);
      if NoHarm(EMPTY_TABLE, log) {
        OneCall(Replay(EMPTY_TABLE, rest), MapAfter(rest), d.call);
      } else if NoHarm(EMPTY_TABLE, rest) {
        HarmDisorders(Replay(EMPTY_TABLE, rest), d.call);
      }
    }
  }

  /** Not adding a MAC that is still present is enough. */
  lemma {:induction false} NoReAddNoHarm(log: seq<Done>)
    requires Faithful(EMPTY_TABLE, log) && NoReAdd(log)
    ensures NoHarm(EMPTY_TABLE, log)
  {
    if log != [] {
      var rest, c := log[..|log| - 1], log[|log| - 1].call;
      NoReAddNoHarm(rest);
      HistoryIsMap(rest);
      var s := SlotsOf(Replay(EMPTY_TABLE, rest)[c.idx]);
      assert c.op.Add? ==> Get(s, c.op.key) == None && !Present(s, c.op.key);
    }
  }

  /**
   After every interleaving from an empty table whose history has no harmful
   re-add, the CAM answers for every unlocked bucket as a finite map.
   */
  lemma CamIsMap(s: State, steps: seq<Step>, b: Index, k: Key)
    requires Init(s) && s.init == EMPTY_TABLE && IsRun(s, steps) && NoHarm(EMPTY_TABLE, Final(s, steps).log)
    ensures var n := Final(s, steps);
      var m := MapAfter(n.log);
      Shaped(n) && (!Test(n.locks, b) ==>
        CamAnswer(SlotsOf(n.table[b]), k) == if Addr(b, k) in m then Some(m[Addr(b, k)]) else None)
  {
    CallsLinearise(s, steps);
    var n := Final(s, steps);
    HistoryIsMap(n.log);
    if !Test(n.locks, b) {
      var r := Replay(EMPTY_TABLE, n.log);
      assert n.table[b] == r[b];
      CamIsGet(SlotsOf(r[b]), k);
    }
  }
}
