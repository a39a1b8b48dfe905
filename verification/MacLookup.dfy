/**
 The six-slot bucket of the MAC lookup table. A bucket is four 16-byte lines:
 three hold two keys and the result of the first, and the fourth holds the
 results of slots 1, 3 and 5, with slot 3's result split in two halves.
 A MAC is its bucket index and the key that remains of it after the shift.
 */
module MacLookup {
  import opened Common

  const USED: nat := 0x4000_0000

  const BUCKETS: nat := 1024

  type Key = k: int | 0 <= k < 0x1_0000_0000_0000

  datatype Line = Line(key0: Key, res0: Word, key1: Key)
  datatype ResLine = ResLine(res1: Word, res3lo: Half, res3hi: Half, res5: Word)
  datatype Bucket = Bucket(l1: Line, l2: Line, l3: Line, l4: ResLine)

  const EMPTY: Bucket := Bucket(Line(0, 0, 0), Line(0, 0, 0), Line(0, 0, 0), ResLine(0, 0, 0, 0))

  predicate InUse(res: Word) { (res / USED) % 2 == 1 }
  predicate InUse3(l: ResLine) { (l.res3hi / 0x4000) % 2 == 1 }

  /** `result & 0x3fffffff | MAC_LKUP_USED`. */
  function Stored(result: Word): (r: Word)
    ensures InUse(r)
  {
    result % USED + USED
  }

  /** `result & 0xffff` and `(result >> 16) & 0x7fff | MAC_LKUP_USED >> 16`. */
  function StoredLo(result: Word): Half { result % 0x1_0000 }
  function StoredHi(result: Word): Half { (result / 0x1_0000) % 0x4000 + 0x4000 }

  datatype Op = Add(key: Key, result: Word) | Del(key: Key)

  // ---- The code, one memory access at a time ----

  /** Where an operation is between two memory accesses, with the lines it holds in registers. */
  datatype Pc =
    | Read1
    | Read4(l1: Line)
    | Read2(l4: ResLine)
    | Read3(l4: ResLine)
    | Write(at: nat, line: Line, res: Res, ret: nat)  // `at` = 0: no entry line to write
    | Release(ret: nat)

  datatype Res = NoRes | PutRes(l4: ResLine)

  /** Whether a slot takes the operation: free or same key for an add, live and same key for a delete. */
  predicate Takes(op: Op, used: bool, key: Key) {
    if op.Add? then !used || key == op.key else used && key == op.key
  }

  function Res0(op: Op): Word { if op.Add? then Stored(op.result) else 0 }

  function EditLine0(op: Op, l: Line): Line { if op.Add? then Line(op.key, Res0(op), l.key1) else l.(res0 := 0) }
  function EditLine1(op: Op, l: Line): Line { if op.Add? then l.(key1 := op.key) else l }

  /** An entry line is rewritten with a result in line 4 only by an add; a delete leaves the keys alone. */
  function WriteBoth(op: Op, at: nat, l: Line, l4: ResLine): Pc {
    Write(if op.Add? then at else 0, EditLine1(op, l), PutRes(l4), 0)
  }

  function EditRes1(op: Op, l: ResLine): ResLine { l.(res1 := Res0(op)) }
  function EditRes5(op: Op, l: ResLine): ResLine { l.(res5 := Res0(op)) }
  function EditRes3(op: Op, l: ResLine): ResLine {
    if op.Add? then l.(res3lo := StoredLo(op.result), res3hi := StoredHi(op.result)) else l.(res3lo := 0, res3hi := 0)
  }

  /** One read of the goto chain and the tests that follow it. */
  function AfterRead(op: Op, pc: Pc, b: Bucket): Pc
    requires !pc.Write? && !pc.Release?
  {
    match pc
    case Read1 =>
      if Takes(op, InUse(b.l1.res0), b.l1.key0) then Write(1, EditLine0(op, b.l1), NoRes, 0) else Read4(b.l1)
    case Read4(l1) =>
      if Takes(op, InUse(b.l4.res1), l1.key1) then WriteBoth(op, 1, l1, EditRes1(op, b.l4)) else Read2(b.l4)
    case Read2(l4) =>
      if Takes(op, InUse(b.l2.res0), b.l2.key0) then Write(2, EditLine0(op, b.l2), NoRes, 0)
      else if Takes(op, InUse3(l4), b.l2.key1) then WriteBoth(op, 2, b.l2, EditRes3(op, l4))
      else Read3(l4)
    case Read3(l4) =>
      if Takes(op, InUse(b.l3.res0), b.l3.key0) then Write(3, EditLine0(op, b.l3), NoRes, 0)
      else if Takes(op, InUse(l4.res5), b.l3.key1) then WriteBoth(op, 3, b.l3, EditRes5(op, l4))
      else Release(1)
  }

  function WriteLine(b: Bucket, at: nat, l: Line): Bucket {
    if at == 1 then b.(l1 := l) else if at == 2 then b.(l2 := l) else if at == 3 then b.(l3 := l) else b
  }

  function WriteRes(b: Bucket, r: Res): Bucket { if r.PutRes? then b.(l4 := r.l4) else b }

  function Rank(pc: Pc): nat {
    match pc
    case Read1 => 4 case Read4(_) => 3 case Read2(_) => 2 case Read3(_) => 1 case _ => 0
  }

  /** The bucket and return code that an operation reaches from `pc` if nobody interferes. */
  function Finish(op: Op, pc: Pc, b: Bucket): (Bucket, nat)
    decreases Rank(pc)
  {
    match pc
    case Write(at, line, res, ret) => (WriteRes(WriteLine(b, at, line), res), ret)
    case Release(ret) => (b, ret)
    case _ => Finish(op, AfterRead(op, pc, b), b)
  }

  /** The whole operation. */
  function Perform(op: Op, b: Bucket): (Bucket, nat) { Finish(op, Read1, b) }

  // ---- The same on six slots ----

  datatype Slot = Slot(key: Key, res: Word)

  type Slots = s: seq<Slot> | |s| == 6 witness seq(6, _ => Slot(0, 0))

  function SlotsOf(b: Bucket): Slots {
    [Slot(b.l1.key0, b.l1.res0), Slot(b.l1.key1, b.l4.res1), Slot(b.l2.key0, b.l2.res0),
     Slot(b.l2.key1, b.l4.res3hi * 0x1_0000 + b.l4.res3lo), Slot(b.l3.key0, b.l3.res0), Slot(b.l3.key1, b.l4.res5)]
  }

  /** The first slot that takes the operation, or 6. */
  function Find(op: Op, s: Slots, from: nat): (i: nat)
    requires from <= 6
    ensures from <= i <= 6
    ensures forall j | from <= j < i :: !Takes(op, InUse(s[j].res), s[j].key)
    ensures i < 6 ==> Takes(op, InUse(s[i].res), s[i].key)
    decreases 6 - from
  {
    if from == 6 || Takes(op, InUse(s[from].res), s[from].key) then from else Find(op, s, from + 1)
  }

  function Edit(op: Op, x: Slot): Slot { if op.Add? then Slot(op.key, Stored(op.result)) else x.(res := 0) }

  function SlotOp(op: Op, s: Slots): (Slots, nat) {
    var i := Find(op, s, 0);
    if i == 6 then (s, 1)
    else (s[i := Edit(op, s[i])], 0)
  }

  lemma SplitResult(op: Op, l: ResLine)
    ensures InUse3(l) <==> InUse(l.res3hi * 0x1_0000 + l.res3lo)
    ensures op.Add? ==> StoredHi(op.result) * 0x1_0000 + StoredLo(op.result) == Stored(op.result)
  {
  }

  /** The goto chain, test by test. */
  lemma PerformCases(op: Op, b: Bucket)
    ensures Perform(op, b) ==
      if Takes(op, InUse(b.l1.res0), b.l1.key0) then (b.(l1 := EditLine0(op, b.l1)), 0)
      else if Takes(op, InUse(b.l4.res1), b.l1.key1) then (b.(l1 := EditLine1(op, b.l1), l4 := EditRes1(op, b.l4)), 0)
      else if Takes(op, InUse(b.l2.res0), b.l2.key0) then (b.(l2 := EditLine0(op, b.l2)), 0)
      else if Takes(op, InUse3(b.l4), b.l2.key1) then (b.(l2 := EditLine1(op, b.l2), l4 := EditRes3(op, b.l4)), 0)
      else if Takes(op, InUse(b.l3.res0), b.l3.key0) then (b.(l3 := EditLine0(op, b.l3)), 0)
      else if Takes(op, InUse(b.l4.res5), b.l3.key1) then (b.(l3 := EditLine1(op, b.l3), l4 := EditRes5(op, b.l4)), 0)
      else (b, 1)
  {
    assert Perform(op, b) == Finish(op, AfterRead(op, Read1, b), b);
    assert Finish(op, Read4(b.l1), b) == Finish(op, AfterRead(op, Read4(b.l1), b), b);
    assert Finish(op, Read2(b.l4), b) == Finish(op, AfterRead(op, Read2(b.l4), b), b);
    assert Finish(op, Read3(b.l4), b) == Finish(op, AfterRead(op, Read3(b.l4), b), b);
  }

  lemma FindIs(op: Op, s: Slots, from: nat, i: nat)
    requires from <= i <= 6 && forall j | from <= j < i :: !Takes(op, InUse(s[j].res), s[j].key)
    requires i < 6 ==> Takes(op, InUse(s[i].res), s[i].key)
    ensures Find(op, s, from) == i
  {
  }

  /** The operation takes effect in slot `i`, the first that takes it. */
  lemma SlotOpAt(op: Op, s: Slots, i: nat)
    requires i < 6 && Takes(op, InUse(s[i].res), s[i].key)
    requires forall j | 0 <= j < i :: !Takes(op, InUse(s[j].res), s[j].key)
    ensures SlotOp(op, s) == (s[i := Edit(op, s[i])], 0)
  {
    FindIs(op, s, 0, i);
  }

  /** The line-by-line code does to the six slots what its comments say. */
  lemma PerformIsSlotOp(op: Op, b: Bucket)
    ensures SlotsOf(Perform(op, b).0) == SlotOp(op, SlotsOf(b)).0
    ensures Perform(op, b).1 == SlotOp(op, SlotsOf(b)).1
  {
    SplitResult(op, b.l4);
    PerformCases(op, b);
    var s := SlotsOf(b);
    var i := Find(op, s, 0);
    if i == 6 {
      assert !Takes(op, InUse(s[0].res), s[0].key) && !Takes(op, InUse(s[1].res), s[1].key)
        && !Takes(op, InUse(s[2].res), s[2].key);
      assert !Takes(op, InUse(s[3].res), s[3].key) && !Takes(op, InUse(s[4].res), s[4].key)
        && !Takes(op, InUse(s[5].res), s[5].key);
    } else {
      SlotOpAt(op, s, i);
      PerformAt(op, b, i);
    }
  }

  lemma PerformAt(op: Op, b: Bucket, i: nat)
    requires i < 6 && var s := SlotsOf(b);
      Takes(op, InUse(s[i].res), s[i].key) && forall j | 0 <= j < i :: !Takes(op, InUse(s[j].res), s[j].key)
    ensures SlotsOf(Perform(op, b).0) == SlotsOf(b)[i := Edit(op, SlotsOf(b)[i])] && Perform(op, b).1 == 0
  {
    SplitResult(op, b.l4);
    PerformCases(op, b);
    var s := SlotsOf(b);
    assert i > 0 ==> !Takes(op, InUse(s[0].res), s[0].key);
    assert i > 1 ==> !Takes(op, InUse(s[1].res), s[1].key);
    assert i > 2 ==> !Takes(op, InUse(s[2].res), s[2].key);
    assert i > 3 ==> !Takes(op, InUse(s[3].res), s[3].key);
    assert i > 4 ==> !Takes(op, InUse(s[4].res), s[4].key);
    if i == 0 {} else if i == 1 {} else if i == 2 {} else if i == 3 {} else if i == 4 {} else {}
  }

  // ---- The bucket as a map, and as the CAM sees it ----

  predicate Live(s: Slots, i: nat)
    requires i < 6
  {
    InUse(s[i].res)
  }

  /** No slot before a live entry carries its key. */
  ghost predicate Ordered(s: Slots) {
    forall i: nat, j: nat | i < j < 6 && Live(s, j) :: s[i].key != s[j].key
  }

  ghost predicate Present(s: Slots, key: Key) {
    exists i: nat :: i < 6 && Live(s, i) && s[i].key == key
  }

  /** The user's 30 bits of a result. */
  function Value(res: Word): nat { res % USED }

  /** The map that the live slots stand for. */
  ghost function Get(s: Slots, key: Key): Option<nat>
    requires Ordered(s)
  {
    if Present(s, key) then
      var i: nat :| i < 6 && Live(s, i) && s[i].key == key;
      Some(Value(s[i].res))
    else None
  }

  /** The first slot with an equal key, in use or not: what the CAM returns. */
  function CamResult(s: Slots, key: Key, from: nat): Word
    requires from <= 6
    decreases 6 - from
  {
    if from == 6 then 0 else if s[from].key == key then s[from].res else CamResult(s, key, from + 1)
  }

  function CamAnswer(s: Slots, key: Key): Option<nat> {
    var r := CamResult(s, key, 0);
    if InUse(r) then Some(Value(r)) else None
  }

  lemma {:induction false} CamFinds(s: Slots, key: Key, from: nat, i: nat)
    requires from <= i < 6 && s[i].key == key && forall j: nat | from <= j < i :: s[j].key != key
    ensures CamResult(s, key, from) == s[i].res
    decreases i - from
  {
    if from < i { CamFinds(s, key, from + 1, i); }
  }

  lemma {:induction false} CamMisses(s: Slots, key: Key, from: nat)
    requires from <= 6 && !Present(s, key)
    ensures !InUse(CamResult(s, key, from))
    decreases 6 - from
  {
    if from < 6 && s[from].key != key { CamMisses(s, key, from + 1); }
  }

  lemma GetAt(s: Slots, i: nat)
    requires Ordered(s) && i < 6 && Live(s, i)
    ensures Get(s, s[i].key) == Some(Value(s[i].res))
  {
    assert Present(s, s[i].key);
  }

  /** A CAM that takes the first equal key and ignores the in-use bit answers as the map does. */
  lemma CamIsGet(s: Slots, key: Key)
    requires Ordered(s)
    ensures CamAnswer(s, key) == Get(s, key)
  {
    if Present(s, key) {
      var i: nat :| i < 6 && Live(s, i) && s[i].key == key;
      CamFinds(s, key, 0, i);
      GetAt(s, i);
    } else {
      CamMisses(s, key, 0);
    }
  }

  lemma AddOrdered(s: Slots, op: Op)
    requires Ordered(s) && op.Add? && !Present(s, op.key)
    ensures Ordered(SlotOp(op, s).0)
  {
  }

  /** An add of a key that is absent stores it, or fails when all six slots are live. */
  lemma AddAbsent(s: Slots, op: Op)
    requires Ordered(s) && op.Add? && !Present(s, op.key)
    ensures Ordered(SlotOp(op, s).0)
    ensures SlotOp(op, s).1 == 0 <==> exists i: nat :: i < 6 && !Live(s, i)
    ensures forall k ::
      Get(SlotOp(op, s).0, k) == if k == op.key && SlotOp(op, s).1 == 0 then Some(Value(op.result)) else Get(s, k)
  {
    AddOrdered(s, op);
    var t, i := SlotOp(op, s).0, Find(op, s, 0);
    if i < 6 {
      assert !Live(s, i) && Live(t, i);
      GetAt(t, i);
      assert Value(Stored(op.result)) == Value(op.result);
      forall k | k != op.key ensures Get(t, k) == Get(s, k) {
        OtherKeys(s, t, i, k);
      }
    } else {
      assert forall j: nat | j < 6 :: Live(s, j);
    }
  }

  /** Changing a slot that is not a live entry of `k`, before and after, does not change `k`. */
  lemma OtherKeys(s: Slots, t: Slots, i: nat, k: Key)
    requires Ordered(s) && Ordered(t) && i < 6 && t == s[i := t[i]]
    requires !(Live(s, i) && s[i].key == k) && !(Live(t, i) && t[i].key == k)
    ensures Get(t, k) == Get(s, k)
  {
    if Present(s, k) {
      var j: nat :| j < 6 && Live(s, j) && s[j].key == k;
      assert Live(t, j);
      GetAt(s, j);
      GetAt(t, j);
    } else if Present(t, k) {
      var j: nat :| j < 6 && Live(t, j) && t[j].key == k;
      assert Live(s, j);
    }
  }

  /** A delete removes the key, and reports whether it was there. */
  lemma DelEffect(s: Slots, op: Op)
    requires Ordered(s) && op.Del?
    ensures Ordered(SlotOp(op, s).0)
    ensures SlotOp(op, s).1 == 0 <==> Present(s, op.key)
    ensures forall k :: Get(SlotOp(op, s).0, k) == if k == op.key then None else Get(s, k)
  {
    var t, i := SlotOp(op, s).0, Find(op, s, 0);
    if i < 6 {
      assert !InUse(0) && !Live(t, i);
      assert !Present(t, op.key) by {
        forall j: nat | j < 6 && Live(t, j) ensures t[j].key != op.key { assert Live(s, j); }
      }
      forall k | k != op.key ensures Get(t, k) == Get(s, k) {
        OtherKeys(s, t, i, k);
      }
    }
  }

  /**
   Adding a key that is live in slot `j` keeps the bucket ordered exactly when
   no earlier slot is free; otherwise the key ends up in two live slots.
   */
  lemma ReAdd(s: Slots, op: Op, j: nat)
    requires Ordered(s) && op.Add? && j < 6 && Live(s, j) && s[j].key == op.key
    ensures Ordered(SlotOp(op, s).0) <==> forall i: nat | i < j :: Live(s, i)
  {
    var t, i := SlotOp(op, s).0, Find(op, s, 0);
    if i < j {
      assert Live(t, j) && t[i].key == t[j].key;
      assert !Live(s, i);
    } else {
      assert i == j;
      assert forall m: nat | m < 6 :: t[m].key == s[m].key && (Live(t, m) <==> Live(s, m));
    }
  }

  /** A re-add with a free slot before the live one. */
  ghost predicate Harmful(s: Slots, op: Op) {
    op.Add? && exists i: nat, j: nat :: i < j < 6 && !Live(s, i) && Live(s, j) && s[j].key == op.key
  }

  /** Any other add of a present key replaces its result in place. */
  lemma HarmlessReAdd(s: Slots, op: Op)
    requires Ordered(s) && op.Add? && Present(s, op.key) && !Harmful(s, op)
    ensures Ordered(SlotOp(op, s).0) && SlotOp(op, s).1 == 0
    ensures forall k :: Get(SlotOp(op, s).0, k) == if k == op.key then Some(Value(op.result)) else Get(s, k)
  {
    var j: nat :| j < 6 && Live(s, j) && s[j].key == op.key;
    assert forall i: nat | i < j :: Live(s, i) && s[i].key != op.key;
    SlotOpAt(op, s, j);
    ReAdd(s, op, j);
    var t := SlotOp(op, s).0;
    GetAt(t, j);
    StoredValue(op.result);
    forall k | k != op.key ensures Get(t, k) == Get(s, k) { OtherKeys(s, t, j, k); }
  }

  lemma StoredValue(result: Word)
    ensures Value(Stored(result)) == Value(result)
  {
  }

  /** A harmful one leaves the bucket out of order. */
  lemma HarmfulReAdd(s: Slots, op: Op)
    requires Ordered(s) && Harmful(s, op)
    ensures !Ordered(SlotOp(op, s).0)
  {
    var i: nat, j: nat :| i < j < 6 && !Live(s, i) && Live(s, j) && s[j].key == op.key;
    ReAdd(s, op, j);
  }

  /** With slot 0 freed, a key live in slot 1 is added again, deleted once, and still found. */
  lemma SecondCopySurvives(a: Key, b: Key, r: Word)
    requires a != b
    ensures var s0 := SlotOp(Add(b, r), SlotOp(Add(a, r), SlotsOf(EMPTY)).0).0;
      var s1 := SlotOp(Del(a), s0).0;
      var s2 := SlotOp(Del(b), SlotOp(Add(b, r), s1).0).0;
      Present(s2, b)
  {
    var z, e := Slot(0, 0), Stored(r);
    var s: Slots := SlotsOf(EMPTY);
    SlotOpAt(Add(a, r), s, 0);
    var s0: Slots := s[0 := Slot(a, e)];
    SlotOpAt(Add(b, r), s0, 1);
    var s1: Slots := s0[1 := Slot(b, e)];
    SlotOpAt(Del(a), s1, 0);
    var s2: Slots := s1[0 := Slot(a, 0)];
    SlotOpAt(Add(b, r), s2, 0);
    var s3: Slots := s2[0 := Slot(b, e)];
    SlotOpAt(Del(b), s3, 0);
    var s4: Slots := s3[0 := Slot(b, 0)];
    assert Live(s4, 1) && s4[1].key == b;
  }
}
