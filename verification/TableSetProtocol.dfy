/**
 The double-buffered write and the lookups of the preclassifier engines, one
 memory access at a time, in any interleaving. The writer is the microengine
 running the table-set write; a reader latches the active copy when its lookup
 starts and keeps that copy's in-use bit set until it ends.
 */
module TableSetProtocol {
  import opened Common
  import opened NbiMemory

  type Image = seq<Word>

  datatype Writer =
    | Idle
    | Shadow(at: nat, data: seq<Word>, k: nat)  // writing the inactive copy
    | Poll(at: nat, data: seq<Word>, i: nat)    // switched, waiting for old readers
    | Other(at: nat, data: seq<Word>, k: nat)   // writing the copy that was active

  /** A lookup in progress. `seen` records the window of the active copy when it started. */
  datatype Reader = Reader(copy: bool, at: nat, len: nat, got: seq<Word>, seen: seq<Word>)

  datatype Lookup = Lookup(seen: seq<Word>, got: seq<Word>)

  datatype State = State(c0: Image, c1: Image, active: bool, writer: Writer, readers: map<nat, Reader>,
    done: seq<Lookup>) {
    function Copy(c: bool): Image { if c then c1 else c0 }

    function WithCopy(c: bool, image: Image): State { if c then this.(c1 := image) else this.(c0 := image) }

    ghost predicate InUse(c: bool) { exists r :: r in readers && readers[r].copy == c }
  }

  datatype Step =
    | BeginWrite(at: nat, data: seq<Word>) | ShadowWord | Switch | PollBusy | PollClear | PollTimeout | OtherWord
      | EndWrite
    | StartLookup(r: nat, at: nat, len: nat) | ReadWord(r: nat) | EndLookup(r: nat)

  function Advance(s: State, d: Reader): Reader
    requires d.at + |d.got| < |s.Copy(d.copy)|
  {
    d.(got := d.got + [s.Copy(d.copy)[d.at + |d.got|]])
  }

  ghost predicate Enabled(s: State, step: Step) {
    match step
    case BeginWrite(at, data) => s.writer.Idle? && at + |data| <= |s.c0| && at + |data| <= |s.c1|
    case ShadowWord =>
      s.writer.Shadow? && s.writer.k < |s.writer.data| && s.writer.at + s.writer.k < |s.Copy(!s.active)|
    case Switch => s.writer.Shadow? && s.writer.k == |s.writer.data|
    case PollBusy => s.writer.Poll? && s.writer.i < POLL_TIMEOUT && s.InUse(!s.active)
    case PollClear => s.writer.Poll? && s.writer.i < POLL_TIMEOUT && !s.InUse(!s.active)
    case PollTimeout => s.writer.Poll? && s.writer.i == POLL_TIMEOUT
    case OtherWord =>
      s.writer.Other? && s.writer.k < |s.writer.data| && s.writer.at + s.writer.k < |s.Copy(!s.active)|
    case EndWrite => s.writer.Other? && s.writer.k == |s.writer.data|
    case StartLookup(r, at, len) => r !in s.readers && at + len <= |s.Copy(s.active)|
    case ReadWord(r) => r in s.readers && var d := s.readers[r]; |d.got| < d.len && d.at + |d.got| < |s.Copy(d.copy)|
    case EndLookup(r) => r in s.readers && |s.readers[r].got| == s.readers[r].len
  }

  ghost function Apply(s: State, step: Step): State
    requires Enabled(s, step)
  {
    match step
    case BeginWrite(at, data) => s.(writer := Shadow(at, data, 0))
    case ShadowWord =>
      var Shadow(at, data, k) := s.writer;
      s.WithCopy(!s.active, s.Copy(!s.active)[at + k := data[k]]).(writer := Shadow(at, data, k + 1))
    case Switch => s.(active := !s.active, writer := Poll(s.writer.at, s.writer.data, 0))
    case PollBusy => s.(writer := s.writer.(i := s.writer.i + 1))
    case PollClear => s.(writer := Other(s.writer.at, s.writer.data, 0))
    case PollTimeout => s.(writer := Other(s.writer.at, s.writer.data, 0))
    case OtherWord =>
      var Other(at, data, k) := s.writer;
      s.WithCopy(!s.active, s.Copy(!s.active)[at + k := data[k]]).(writer := Other(at, data, k + 1))
    case EndWrite => s.(writer := Idle)
    case StartLookup(r, at, len) =>
      s.(readers := s.readers[r := Reader(s.active, at, len, [], s.Copy(s.active)[at..at + len])])
    case ReadWord(r) =>
      s.(readers := s.readers[r := Advance(s, s.readers[r])])
    case EndLookup(r) =>
      var d := s.readers[r];
      s.(readers := s.readers - {r}, done := s.done + [Lookup(d.seen, d.got)])
  }

  /** The table that lookups starting now will see. */
  function Committed(s: State): Image { s.Copy(s.active) }

  ghost predicate WriterOk(s: State) {
    var live, other := s.Copy(s.active), s.Copy(!s.active);
    match s.writer
    case Idle => other == live && !s.InUse(!s.active)
    case Shadow(at, data, k) =>
      && k <= |data| && at + |data| <= |live| && !s.InUse(!s.active)
      && other == Splice(live, at, data[..k])
    case Poll(at, data, i) =>
      i <= POLL_TIMEOUT && at + |data| <= |other| && live == Splice(other, at, data)
    case Other(at, data, k) =>
      && k <= |data| && at + |data| <= |other| && !s.InUse(!s.active)
      && live == Splice(other, at, data) && other[at..at + k] == data[..k]
  }

  ghost predicate ReaderOk(s: State, d: Reader) {
    && d.at + d.len <= |s.Copy(d.copy)| && d.seen == s.Copy(d.copy)[d.at..d.at + d.len]
    && |d.got| <= d.len && d.got == d.seen[..|d.got|]
  }

  ghost predicate ReadersOk(s: State) { forall r | r in s.readers :: ReaderOk(s, s.readers[r]) }

  ghost predicate Safe(s: State) {
    |s.c0| == |s.c1| && WriterOk(s) && ReadersOk(s) && forall l | l in s.done :: l.got == l.seen
  }

  ghost predicate Init(s: State) {
    s.c0 == s.c1 && s.writer == Idle && s.readers == map[] && s.done == []
  }

  lemma SpliceOneMore(image: Image, at: nat, data: seq<Word>, k: nat)
    requires k < |data| && at + |data| <= |image|
    ensures Splice(image, at, data[..k])[at + k := data[k]] == Splice(image, at, data[..k + 1])
  {
  }

  lemma SpliceFull(image: Image, at: nat, data: seq<Word>)
    requires at + |data| <= |image| && image[at..at + |data|] == data
    ensures Splice(image, at, data) == image
  {
    forall i | at <= i < at + |data| ensures data[i - at] == image[i] {
      assert image[at..at + |data|][i - at] == image[i];
    }
  }

  lemma OverwriteOne(image: Image, at: nat, data: seq<Word>, k: nat)
    requires k < |data| && at + |data| <= |image| && image[at..at + k] == data[..k]
    ensures var r := image[at + k := data[k]];
      Splice(r, at, data) == Splice(image, at, data) && r[at..at + k + 1] == data[..k + 1]
  {
    var r := image[at + k := data[k]];
    assert r[at..at + k] == image[at..at + k];
    assert r[at..at + k + 1] == r[at..at + k] + [data[k]];
    assert data[..k + 1] == data[..k] + [data[k]];
  }

  /** The copy that a writer step is storing into. */
  predicate Writing(s: State, c: bool) {
    (s.writer.Shadow? || s.writer.Other?) && c == !s.active
  }

  ghost predicate IsReaderStep(step: Step) {
    step.StartLookup? || step.ReadWord? || step.EndLookup?
  }

  /** The poll gives up although a reader is still on the old copy. */
  ghost predicate Late(s: State, step: Step) { step.PollTimeout? && s.InUse(!s.active) }

  /** A reader is on a copy being written. */
  ghost predicate Clash(s: State) { exists r :: r in s.readers && Writing(s, s.readers[r].copy) }

  lemma WriterKeepsOrder(s: State, step: Step)
    requires |s.c0| == |s.c1| && WriterOk(s) && Enabled(s, step) && !Late(s, step) && !IsReaderStep(step)
    requires !step.ShadowWord? && !step.OtherWord?
    ensures WriterOk(Apply(s, step))
  {
    match step {
      case BeginWrite(at, data) => assert data[..0] == [];
      case Switch => assert s.writer.data[..s.writer.k] == s.writer.data;
      case EndWrite =>
        assert s.writer.data[..s.writer.k] == s.writer.data;
        SpliceFull(s.Copy(!s.active), s.writer.at, s.writer.data);
      case _ =>
    }
  }

  lemma ShadowWordOk(s: State)
    requires |s.c0| == |s.c1| && WriterOk(s) && Enabled(s, ShadowWord)
    ensures WriterOk(Apply(s, ShadowWord))
  {
    var t := Apply(s, ShadowWord);
    SpliceOneMore(s.Copy(s.active), s.writer.at, s.writer.data, s.writer.k);
    assert t.readers == s.readers && !t.InUse(!t.active);
  }

  lemma OtherWordOk(s: State)
    requires |s.c0| == |s.c1| && WriterOk(s) && Enabled(s, OtherWord)
    ensures WriterOk(Apply(s, OtherWord))
  {
    var t := Apply(s, OtherWord);
    OverwriteOne(s.Copy(!s.active), s.writer.at, s.writer.data, s.writer.k);
    assert t.readers == s.readers && !t.InUse(!t.active);
  }

  lemma WriterStepSafe(s: State, step: Step)
    requires Safe(s) && Enabled(s, step) && !Late(s, step) && !IsReaderStep(step)
    ensures Safe(Apply(s, step))
  {
    var t := Apply(s, step);
    if step.ShadowWord? {
      ShadowWordOk(s);
    } else if step.OtherWord? {
      OtherWordOk(s);
    } else {
      WriterKeepsOrder(s, step);
    }
    assert t.readers == s.readers && t.done == s.done;
    forall r | r in t.readers ensures ReaderOk(t, t.readers[r]) { ReaderUndisturbed(s, step, r); }
  }

  /** A writer step stores into no copy that a reader is on. */
  lemma ReaderUndisturbed(s: State, step: Step, r: nat)
    requires Safe(s) && Enabled(s, step) && !IsReaderStep(step) && r in s.readers
    ensures ReaderOk(Apply(s, step), s.readers[r])
  {
    assert ReaderOk(s, s.readers[r]);
    assert Apply(s, step).Copy(s.readers[r].copy) == s.Copy(s.readers[r].copy);
  }

  lemma ReaderAdvances(s: State, d: Reader)
    requires ReaderOk(s, d) && |d.got| < d.len
    ensures ReaderOk(s, Advance(s, d))
  {
    assert d.seen[..|d.got| + 1] == d.seen[..|d.got|] + [d.seen[|d.got|]];
  }

  /** Reader steps change only the readers and the finished lookups. */
  lemma WriterUnaffected(s: State, t: State)
    requires WriterOk(s) && t == s.(readers := t.readers, done := t.done)
    requires s.InUse(!s.active) || !t.InUse(!t.active)
    ensures WriterOk(t)
  {
  }

  lemma StartLookupSafe(s: State, step: Step)
    requires Safe(s) && Enabled(s, step) && step.StartLookup?
    ensures Safe(Apply(s, step))
  {
    var t := Apply(s, step);
    WriterUnaffected(s, t);
    forall q | q in t.readers ensures ReaderOk(t, t.readers[q]) {
      if q != step.r { assert ReaderOk(s, s.readers[q]); }
    }
  }

  lemma SetReaderUse(s: State, r: nat, d: Reader, c: bool)
    requires r in s.readers && d.copy == s.readers[r].copy
    ensures s.(readers := s.readers[r := d]).InUse(c) ==> s.InUse(c)
  {
    var t := s.(readers := s.readers[r := d]);
    if t.InUse(c) {
      var q :| q in t.readers && t.readers[q].copy == c;
      assert q in s.readers && s.readers[q].copy == c;
    }
  }

  lemma SetReaderOk(s: State, r: nat, d: Reader)
    requires ReadersOk(s) && r in s.readers && ReaderOk(s, d)
    ensures ReadersOk(s.(readers := s.readers[r := d]))
  {
    var t := s.(readers := s.readers[r := d]);
    forall q | q in t.readers ensures ReaderOk(t, t.readers[q]) {
      if q != r { assert ReaderOk(s, s.readers[q]); }
    }
  }

  lemma SetReaderSafe(s: State, r: nat, d: Reader)
    requires Safe(s) && r in s.readers && ReaderOk(s, d) && d.copy == s.readers[r].copy
    ensures Safe(s.(readers := s.readers[r := d]))
  {
    var t := s.(readers := s.readers[r := d]);
    SetReaderUse(s, r, d, !s.active);
    WriterUnaffected(s, t);
    SetReaderOk(s, r, d);
  }

  lemma ReadWordSafe(s: State, r: nat)
    requires Safe(s) && Enabled(s, ReadWord(r))
    ensures Safe(Apply(s, ReadWord(r)))
  {
    assert ReaderOk(s, s.readers[r]);
    ReaderAdvances(s, s.readers[r]);
    SetReaderSafe(s, r, Advance(s, s.readers[r]));
  }

  lemma EndLookupSafe(s: State, step: Step)
    requires Safe(s) && Enabled(s, step) && step.EndLookup?
    ensures Safe(Apply(s, step))
  {
    var t, d := Apply(s, step), s.readers[step.r];
    WriterUnaffected(s, t);
    assert ReaderOk(s, d) && d.seen[..d.len] == d.seen;
    forall q | q in t.readers ensures ReaderOk(t, t.readers[q]) {
      assert ReaderOk(s, s.readers[q]);
    }
  }

  lemma OnTimeSafe(s: State, step: Step)
    requires Safe(s) && Enabled(s, step) && !Late(s, step)
    ensures Safe(Apply(s, step))
  {
    match step
    case StartLookup(_, _, _) => StartLookupSafe(s, step);
    case ReadWord(r) => ReadWordSafe(s, r);
    case EndLookup(_) => EndLookupSafe(s, step);
    case _ => WriterStepSafe(s, step);
  }

  lemma SafeNoClash(s: State)
    requires Safe(s)
    ensures !Clash(s)
  {
  }

  lemma LateClash(s: State, step: Step)
    requires Enabled(s, step) && Late(s, step)
    ensures Clash(Apply(s, step))
  {
    var r :| r in s.readers && s.readers[r].copy == !s.active;
    assert r in Apply(s, step).readers;
  }

  /** A step does harm exactly when it is a timeout with a reader still on the old copy. */
  lemma StepSafe(s: State, step: Step)
    requires Safe(s) && Enabled(s, step)
    ensures Safe(Apply(s, step)) <==> !Late(s, step)
    ensures Clash(Apply(s, step)) <==> Late(s, step)
  {
    if Late(s, step) {
      LateClash(s, step);
      if Safe(Apply(s, step)) { SafeNoClash(Apply(s, step)); }
    } else {
      OnTimeSafe(s, step);
      SafeNoClash(Apply(s, step));
    }
  }

  // ---- Whole runs ----

  ghost predicate IsRun(s: State, steps: seq<Step>)
    decreases |steps|
  {
    steps == [] || (Enabled(s, steps[0]) && IsRun(Apply(s, steps[0]), steps[1..]))
  }

  ghost function Final(s: State, steps: seq<Step>): State
    requires IsRun(s, steps)
    decreases |steps|
  {
    if steps == [] then s else Final(Apply(s, steps[0]), steps[1..])
  }

  /** No poll of the run gives up while a reader is still on the old copy; giving up after the last has left is fine. */
  ghost predicate OnTime(s: State, steps: seq<Step>)
    requires IsRun(s, steps)
    decreases |steps|
  {
    steps == [] || (!Late(s, steps[0]) && OnTime(Apply(s, steps[0]), steps[1..]))
  }

  /** At no point of the run is a reader on a copy being written. */
  ghost predicate NeverClashes(s: State, steps: seq<Step>)
    requires IsRun(s, steps)
    decreases |steps|
  {
    !Clash(s) && (steps == [] || NeverClashes(Apply(s, steps[0]), steps[1..]))
  }

  lemma {:induction false} RunSafe(s: State, steps: seq<Step>)
    requires Safe(s) && IsRun(s, steps)
    ensures OnTime(s, steps) ==> Safe(Final(s, steps))
    ensures NeverClashes(s, steps) <==> OnTime(s, steps)
    decreases |steps|
  {
    SafeNoClash(s);
    if steps != [] {
      StepSafe(s, steps[0]);
      if Late(s, steps[0]) {
        assert !NeverClashes(Apply(s, steps[0]), steps[1..]);
      } else {
        RunSafe(Apply(s, steps[0]), steps[1..]);
      }
    }
  }

  /**
   In every interleaving, no reader is ever on a copy being written exactly when
   no poll gives up while one is still on the old copy. Then every finished
   lookup returned the whole entry that was committed when it started, and
   between writes both copies agree.
   */
  lemma DoubleBufferSafety(s: State, steps: seq<Step>)
    requires Init(s) && IsRun(s, steps)
    ensures NeverClashes(s, steps) <==> OnTime(s, steps)
    ensures var t := Final(s, steps);
      OnTime(s, steps) ==>
        && (forall r | r in t.readers :: !Writing(t, t.readers[r].copy))
        && (forall l | l in t.done :: l.got == l.seen)
        && (t.writer.Idle? ==> t.c0 == t.c1)
  {
    RunSafe(s, steps);
    if OnTime(s, steps) { SafeNoClash(Final(s, steps)); }
  }

  /**
   The committed table changes only at the switch, and there by exactly the whole write;
   a late timeout does not change it.
   */
  lemma CommitsAtomically(s: State, step: Step)
    requires Safe(s) && Enabled(s, step)
    ensures Committed(Apply(s, step)) ==
      if step.Switch? then Splice(Committed(s), s.writer.at, s.writer.data) else Committed(s)
  {
    if step.Switch? {
      assert s.writer.data[..s.writer.k] == s.writer.data;
    }
  }

  // ---- What a timeout breaks ----

  function Busy(n: nat): seq<Step> {
    if n == 0 then [] else [PollBusy] + Busy(n - 1)
  }

  lemma {:induction false} BusyPolls(s: State, n: nat, rest: seq<Step>)
    requires s.writer.Poll? && s.writer.i + n <= POLL_TIMEOUT && s.InUse(!s.active)
    requires IsRun(s.(writer := s.writer.(i := s.writer.i + n)), rest)
    ensures IsRun(s, Busy(n) + rest)
    ensures Final(s, Busy(n) + rest) == Final(s.(writer := s.writer.(i := s.writer.i + n)), rest)
    decreases n
  {
    if n == 0 {
      assert Busy(n) + rest == rest;
      assert s.(writer := s.writer.(i := s.writer.i + n)) == s;
    } else {
      var t := Apply(s, PollBusy);
      assert t.InUse(!t.active);
      BusyPolls(t, n - 1, rest);
      assert (Busy(n) + rest)[1..] == Busy(n - 1) + rest;
    }
  }

  lemma Cons(s: State, step: Step, t: State, rest: seq<Step>)
    requires Enabled(s, step) && Apply(s, step) == t && IsRun(t, rest)
    ensures IsRun(s, [step] + rest) && Final(s, [step] + rest) == Final(t, rest)
  {
    assert ([step] + rest)[1..] == rest;
  }

  /** The old entry is [1, 2], the new one [8, 9]; the reader has the first word of the old one. */
  function Torn(c0: Image, active: bool, writer: Writer, got: seq<Word>): State {
    State(c0, [8, 9], active, writer, map[0 := Reader(false, 0, 2, got, [1, 2])], [])
  }

  lemma TornRead(c0: Image, active: bool, writer: Writer, got: seq<Word>)
    requires |got| < 2 && |c0| == 2
    ensures Enabled(Torn(c0, active, writer, got), ReadWord(0))
    ensures Apply(Torn(c0, active, writer, got), ReadWord(0)) == Torn(c0, active, writer, got + [c0[|got|]])
  {
    assert Apply(Torn(c0, active, writer, got), ReadWord(0)).readers
      == Torn(c0, active, writer, got + [c0[|got|]]).readers;
  }

  lemma TornEnd() returns (end: seq<Step>)
    ensures var late := Torn([1, 2], true, Poll(0, [8, 9], POLL_TIMEOUT), [1]);
      IsRun(late, end) && Lookup([1, 2], [1, 9]) in Final(late, end).done
  {
    var w := [8, 9];
    var s0 := Torn([1, 2], true, Poll(0, w, POLL_TIMEOUT), [1]);
    var s1 := Torn([1, 2], true, Other(0, w, 0), [1]);
    var s2 := Torn([8, 2], true, Other(0, w, 1), [1]);
    var s3 := Torn([8, 9], true, Other(0, w, 2), [1]);
    var s4 := Torn([8, 9], true, Other(0, w, 2), [1, 9]);
    var s5 := Apply(s4, EndLookup(0));
    end := [];
    Cons(s4, EndLookup(0), s5, end);
    end := [EndLookup(0)] + end;
    TornRead([8, 9], true, Other(0, w, 2), [1]);
    assert [1] + [9] == [1, 9];
    Cons(s3, ReadWord(0), s4, end);
    end := [ReadWord(0)] + end;
    Cons(s2, OtherWord, s3, end);
    end := [OtherWord] + end;
    Cons(s1, OtherWord, s2, end);
    end := [OtherWord] + end;
    Cons(s0, PollTimeout, s1, end);
    end := [PollTimeout] + end;
  }

  /**
   A lookup that outlives all 100 polls can return a mixture of the two
   entries: the first word of the old one and the second word of the new one.
   */
  lemma TimeoutTears()
    ensures exists s: State, steps: seq<Step> ::
      Init(s) && IsRun(s, steps) && Lookup([1, 2], [1, 9]) in Final(s, steps).done
  {
    var w := [8, 9];
    var steps := TornEnd();
    var s6 := Torn([1, 2], true, Poll(0, w, 0), [1]);
    assert s6.InUse(false) by { assert 0 in s6.readers; }
    BusyPolls(s6, POLL_TIMEOUT, steps);
    TornStart(Busy(POLL_TIMEOUT) + steps);
  }

  lemma TornMiddle(steps: seq<Step>) returns (all: seq<Step>)
    requires IsRun(Torn([1, 2], true, Poll(0, [8, 9], 0), [1]), steps)
    ensures var s := State([1, 2], [8, 9], false, Shadow(0, [8, 9], 2), map[], []);
      IsRun(s, all) && Final(s, all) == Final(Torn([1, 2], true, Poll(0, [8, 9], 0), [1]), steps)
  {
    var w := [8, 9];
    var s3 := State([1, 2], w, false, Shadow(0, w, 2), map[], []);
    var s4 := Torn([1, 2], false, Shadow(0, w, 2), []);
    var s5 := Torn([1, 2], false, Shadow(0, w, 2), [1]);
    all := steps;
    Cons(s5, Switch, Torn([1, 2], true, Poll(0, w, 0), [1]), all);
    all := [Switch] + all;
    TornRead([1, 2], false, Shadow(0, w, 2), []);
    assert [] + [1] == [1];
    Cons(s4, ReadWord(0), s5, all);
    all := [ReadWord(0)] + all;
    assert s3.Copy(false)[0..2] == [1, 2];
    Cons(s3, StartLookup(0, 0, 2), s4, all);
    all := [StartLookup(0, 0, 2)] + all;
  }

  lemma TornStart(steps: seq<Step>)
    requires var s := Torn([1, 2], true, Poll(0, [8, 9], 0), [1]);
      IsRun(s, steps) && Lookup([1, 2], [1, 9]) in Final(s, steps).done
    ensures exists s: State, all: seq<Step> ::
      Init(s) && IsRun(s, all) && Lookup([1, 2], [1, 9]) in Final(s, all).done
  {
    var w := [8, 9];
    var all := TornMiddle(steps);
    var s0 := State([1, 2], [1, 2], false, Idle, map[], []);
    var s1 := s0.(writer := Shadow(0, w, 0));
    var s2 := s1.(c1 := [8, 2], writer := Shadow(0, w, 1));
    var s3 := s2.(c1 := [8, 9], writer := Shadow(0, w, 2));
    Cons(s2, ShadowWord, s3, all);
    all := [ShadowWord] + all;
    Cons(s1, ShadowWord, s2, all);
    all := [ShadowWord] + all;
    Cons(s0, BeginWrite(0, w), s1, all);
    all := [BeginWrite(0, w)] + all;
    assert Init(s0) && IsRun(s0, all);
  }
}
