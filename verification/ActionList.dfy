/**
 The action list of the datapath interpreter: words of a 15-bit opcode, a
 pipeline bit and 16 argument bits, where four opcodes carry a second word of
 parameters. The pipeline bit tells the worker to fall through to the code
 that follows the previous action instead of branching on the opcode.
 */
module ActionList {
  import opened Common

  const MAX_INSTR: nat := 16

  const DROP: Opcode := 0
  const RX_WIRE: Opcode := 1
  const DST_MAC_MATCH: Opcode := 2
  const CHECKSUM: Opcode := 3
  const RSS: Opcode := 4
  const TX_HOST: Opcode := 5
  const RX_HOST: Opcode := 6
  const TX_WIRE: Opcode := 7
  const CMSG: Opcode := 8
  const EBPF: Opcode := 9
  const POP_VLAN: Opcode := 10
  const PUSH_VLAN: Opcode := 11
  const SRC_MAC_MATCH: Opcode := 12
  const VEB_LOOKUP: Opcode := 13
  const POP_PKT: Opcode := 14
  const PUSH_PKT: Opcode := 15
  const TX_VLAN: Opcode := 16

  type Opcode = o: int | 0 <= o < 31

  /** Actions that are followed by a parameter word. */
  predicate TwoWords(op: int) {
    op in {DST_MAC_MATCH, RSS, SRC_MAC_MATCH, VEB_LOOKUP}
  }

  datatype Action = Action(op: Opcode, args: Half, param: Word) {
    ghost predicate Valid() { !TwoWords(op) ==> param == 0 }
  }

  // ---- Words ----

  function Op(w: Word): int { w / 0x2_0000 }
  predicate Pipe(w: Word) { (w / 0x1_0000) % 2 == 1 }
  function Args(w: Word): Half { w % 0x1_0000 }

  function Make(op: Opcode, pipe: bool, args: Half): (w: Word)
    ensures Op(w) == op && Pipe(w) == pipe && Args(w) == args
  {
    op * 0x2_0000 + (if pipe then 0x1_0000 else 0) + args
  }

  function ClearPipe(w: Word): (r: Word)
    ensures Op(r) == Op(w) && !Pipe(r) && Args(r) == Args(w)
  {
    if !Pipe(w) then w else
    assert w / 0x1_0000 == 2 * (w / 0x2_0000) + 1;
    w - 0x1_0000
  }

  // ---- Encoding ----

  /** The opcode before the first action. */
  const NONE: int := -2

  /** The words of one action placed after opcode `prev`. */
  function EncOne(prev: int, a: Action): (ws: seq<Word>)
    ensures |ws| == if TwoWords(a.op) then 2 else 1
  {
    [Make(a.op, prev + 1 == a.op, a.args)] + if TwoWords(a.op) then [a.param] else []
  }

  function Enc(prev: int, acts: seq<Action>): seq<Word>
    decreases |acts|
  {
    if acts == [] then [] else EncOne(prev, acts[0]) + Enc(acts[0].op, acts[1..])
  }

  function LastOp(prev: int, acts: seq<Action>): int {
    if acts == [] then prev else acts[|acts| - 1].op
  }

  lemma {:induction false} EncAppend(prev: int, a: seq<Action>, b: seq<Action>)
    ensures Enc(prev, a + b) == Enc(prev, a) + Enc(LastOp(prev, a), b)
    decreases |a|
  {
    if a == [] {
      assert a + b == b;
    } else {
      var one, mid, last := EncOne(prev, a[0]), Enc(a[0].op, a[1..]), Enc(LastOp(prev, a), b);
      EncAppend(a[0].op, a[1..], b);
      assert LastOp(prev, a) == LastOp(a[0].op, a[1..]);
      assert (a + b)[0] == a[0] && (a + b)[1..] == a[1..] + b;
      assert Enc(prev, a + b) == one + (mid + last);
      JoinWords(one, mid, last);
    }
  }

  lemma JoinWords(a: seq<Word>, b: seq<Word>, c: seq<Word>)
    ensures a + (b + c) == (a + b) + c
  {
  }

  // ---- The reader and the worker ----

  function Prepend(a: Action, rest: Option<seq<Action>>): Option<seq<Action>> {
    if rest.None? then None else Some([a] + rest.value)
  }

  /** Reads words back by opcode; a list that ends inside a two-word action is refused. */
  function Decode(ws: seq<Word>): Option<seq<Action>>
    decreases |ws|
  {
    if ws == [] then Some([])
    else if Op(ws[0]) >= 31 then None
    else if TwoWords(Op(ws[0])) then
      if |ws| < 2 then None else Prepend(Action(Op(ws[0]), Args(ws[0]), ws[1]), Decode(ws[2..]))
    else Prepend(Action(Op(ws[0]), Args(ws[0]), 0), Decode(ws[1..]))
  }

  /** The code the worker runs for a word, coming from the action `prev`. */
  function Dispatched(prev: int, w: Word): int {
    if Pipe(w) then prev + 1 else Op(w)
  }

  /** What the worker runs: the same walk, but by fall-through where the bit is set. */
  function Exec(prev: int, ws: seq<Word>): Option<seq<Action>>
    decreases |ws|
  {
    if ws == [] then Some([])
    else
      var op := Dispatched(prev, ws[0]);
      if !(0 <= op < 31) then None
      else if TwoWords(op) then
        if |ws| < 2 then None else Prepend(Action(op, Args(ws[0]), ws[1]), Exec(op, ws[2..]))
      else Prepend(Action(op, Args(ws[0]), 0), Exec(op, ws[1..]))
  }

  ghost predicate AllValid(acts: seq<Action>) {
    forall a | a in acts :: a.Valid()
  }

  function Join(acts: seq<Action>, rest: Option<seq<Action>>): Option<seq<Action>> {
    if rest.None? then None else Some(acts + rest.value)
  }

  lemma JoinFirst(acts: seq<Action>, rest: Option<seq<Action>>)
    requires acts != []
    ensures Prepend(acts[0], Join(acts[1..], rest)) == Join(acts, rest)
  {
    assert rest.Some? ==> [acts[0]] + (acts[1..] + rest.value) == acts + rest.value;
  }

  lemma DecodeOne(prev: int, a: Action, tail: seq<Word>)
    requires a.Valid()
    ensures Decode(EncOne(prev, a) + tail) == Prepend(a, Decode(tail))
  {
    var ws := EncOne(prev, a) + tail;
    assert ws[|EncOne(prev, a)|..] == tail;
  }

  lemma {:induction false} DecodeEnc(prev: int, acts: seq<Action>, rest: seq<Word>)
    requires AllValid(acts)
    ensures Decode(Enc(prev, acts) + rest) == Join(acts, Decode(rest))
    decreases |acts|
  {
    if acts == [] {
      assert Enc(prev, acts) + rest == rest;
      assert Decode(rest).Some? ==> acts + Decode(rest).value == Decode(rest).value;
    } else {
      var a, one, tail := acts[0], EncOne(prev, acts[0]), Enc(acts[0].op, acts[1..]);
      assert a.Valid() && AllValid(acts[1..]);
      DecodeEnc(a.op, acts[1..], rest);
      JoinWords(one, tail, rest);
      DecodeOne(prev, a, tail + rest);
      JoinFirst(acts, Decode(rest));
    }
  }

  /** The pipeline bit is set only where falling through reaches the same code. */
  lemma ExecOne(prev: int, a: Action, tail: seq<Word>)
    requires a.Valid()
    ensures Exec(prev, EncOne(prev, a) + tail) == Prepend(a, Exec(a.op, tail))
  {
    var ws := EncOne(prev, a) + tail;
    assert ws[|EncOne(prev, a)|..] == tail;
  }

  lemma {:induction false} ExecEnc(prev: int, acts: seq<Action>, rest: seq<Word>)
    requires AllValid(acts)
    ensures Exec(prev, Enc(prev, acts) + rest) == Join(acts, Exec(LastOp(prev, acts), rest))
    decreases |acts|
  {
    if acts == [] {
      assert Enc(prev, acts) + rest == rest;
      assert Exec(prev, rest).Some? ==> acts + Exec(prev, rest).value == Exec(prev, rest).value;
    } else {
      var a, one, tail := acts[0], EncOne(prev, acts[0]), Enc(acts[0].op, acts[1..]);
      assert a.Valid() && AllValid(acts[1..]) && LastOp(prev, acts) == LastOp(a.op, acts[1..]);
      ExecEnc(a.op, acts[1..], rest);
      JoinWords(one, tail, rest);
      ExecOne(prev, a, tail + rest);
      JoinFirst(acts, Exec(LastOp(prev, acts), rest));
    }
  }

  /** A list of words stands for `acts`: the reader and the worker agree on it. */
  ghost predicate Means(ws: seq<Word>, acts: seq<Action>) {
    Decode(ws) == Some(acts) && Exec(NONE, ws) == Some(acts)
  }

  /** Whatever the parameter words hold, the words read back as the appended actions, by opcode and by fall-through. */
  lemma EncMeans(acts: seq<Action>)
    requires AllValid(acts)
    ensures Means(Enc(NONE, acts), acts)
  {
    DecodeEnc(NONE, acts, []);
    ExecEnc(NONE, acts, []);
    assert Enc(NONE, acts) + [] == Enc(NONE, acts) && acts + [] == acts;
  }

  // ---- Removing the VLAN strip ----

  predicate LooksLikeStrip(w: Word) { Op(w) == POP_VLAN }

  /** The first word but the last that looks like a strip, or the last index. */
  function StripAt(ws: seq<Word>, from: nat): (i: nat)
    requires from < |ws|
    ensures from <= i < |ws|
    ensures forall j | from <= j < i :: !LooksLikeStrip(ws[j])
    ensures i < |ws| - 1 ==> LooksLikeStrip(ws[i])
    decreases |ws| - from
  {
    if from == |ws| - 1 || LooksLikeStrip(ws[from]) then from else StripAt(ws, from + 1)
  }

  function RemoveStrip(ws: seq<Word>): seq<Word>
    requires ws != []
  {
    var i := StripAt(ws, 0);
    if i == |ws| - 1 then ws else ws[..i] + [ClearPipe(ws[i + 1])] + ws[i + 2..]
  }

  /** Word `j` once the words after index `at` have moved down by one. */
  function Shifted(ws: seq<Word>, at: nat, j: nat): Word
    requires j < |ws| - 1
  {
    if j < at then ws[j] else if j == at then ClearPipe(ws[j + 1]) else ws[j + 1]
  }

  lemma MovedDown(ws: seq<Word>, at: nat, c: Word, r: seq<Word>)
    requires at < |ws| - 1 == |r| && r[at] == c
    requires (forall j | 0 <= j < at :: r[j] == ws[j]) && forall j | at < j < |r| :: r[j] == ws[j + 1]
    ensures r == ws[..at] + [c] + ws[at + 2..]
  {
  }

  lemma ShiftedMoves(ws: seq<Word>, at: nat, r: seq<Word>)
    requires at < |ws| - 1 == |r| && forall j | 0 <= j < |r| :: r[j] == Shifted(ws, at, j)
    ensures r == ws[..at] + [ClearPipe(ws[at + 1])] + ws[at + 2..]
  {
    assert r[at] == Shifted(ws, at, at);
    MovedDown(ws, at, r[at], r);
  }

  lemma RemovalAt(ws: seq<Word>, at: nat)
    requires ws != [] && at == StripAt(ws, 0)
    ensures RemoveStrip(ws) == if at == |ws| - 1 then ws else ws[..at] + [ClearPipe(ws[at + 1])] + ws[at + 2..]
  {
  }

  lemma StripAtIs(ws: seq<Word>, from: nat, i: nat)
    requires from <= i < |ws| - 1 && LooksLikeStrip(ws[i]) && forall j | from <= j < i :: !LooksLikeStrip(ws[j])
    ensures StripAt(ws, from) == i
  {
  }

  lemma MeansCleared(prev: int, a: Action, post: seq<Action>, w: Word, rest: seq<Word>)
    requires AllValid([a] + post)
    requires [w] + rest == Enc(POP_VLAN, [a] + post)
    ensures Decode([ClearPipe(w)] + rest) == Some([a] + post)
    ensures Exec(prev, [ClearPipe(w)] + rest) == Some([a] + post)
  {
    var all := [a] + post;
    var ws := [ClearPipe(w)] + rest;
    var n := |EncOne(POP_VLAN, a)|;
    assert all[0] == a && all[1..] == post && a in all && a.Valid();
    assert forall b | b in post :: b in all;
    assert ([w] + rest)[n..] == Enc(a.op, post) == ws[n..];
    assert w == ([w] + rest)[0] == EncOne(POP_VLAN, a)[0];
    assert n == 2 ==> ws[1] == ([w] + rest)[1] == a.param;
    DecodeEnc(a.op, post, []);
    ExecEnc(a.op, post, []);
    assert Enc(a.op, post) + [] == Enc(a.op, post) && post + [] == post;
  }

  lemma RemoveStripWords(head: seq<Word>, strip: Word, tail: seq<Word>)
    requires LooksLikeStrip(strip) && tail != [] && forall w | w in head :: !LooksLikeStrip(w)
    ensures RemoveStrip(head + [strip] + tail) == head + ([ClearPipe(tail[0])] + tail[1..])
  {
    var ws := head + [strip] + tail;
    StripAtIs(ws, 0, |head|);
    assert ws[..|head|] == head && ws[|head| + 1] == tail[0] && ws[|head| + 2..] == tail[1..];
  }

  lemma EncStrip(pre: seq<Action>, strip: Action, post: seq<Action>)
    requires strip.op == POP_VLAN
    ensures var sw := Make(POP_VLAN, LastOp(NONE, pre) + 1 == POP_VLAN, strip.args);
      Enc(NONE, pre + [strip] + post) == Enc(NONE, pre) + [sw] + Enc(POP_VLAN, post)
  {
    EncAppend(NONE, pre + [strip], post);
    EncAppend(NONE, pre, [strip]);
    assert Enc(LastOp(NONE, pre), [strip]) == EncOne(LastOp(NONE, pre), strip) + Enc(POP_VLAN, [strip][1..]);
  }

  /**
   If the first word that looks like a strip is a strip action and not the last
   word, its removal leaves the same actions without it, still dispatched as read.
   */
  lemma RemoveStripMeans(pre: seq<Action>, strip: Action, post: seq<Action>)
    requires AllValid(pre) && AllValid(post) && strip.op == POP_VLAN && post != []
    requires forall w | w in Enc(NONE, pre) :: !LooksLikeStrip(w)
    ensures Enc(NONE, pre + [strip] + post) != []
    ensures Means(RemoveStrip(Enc(NONE, pre + [strip] + post)), pre + post)
  {
    var tail := Enc(POP_VLAN, post);
    EncStrip(pre, strip, post);
    assert tail == EncOne(POP_VLAN, post[0]) + Enc(post[0].op, post[1..]);
    var w, rest := tail[0], tail[1..];
    RemoveStripWords(Enc(NONE, pre), Make(POP_VLAN, LastOp(NONE, pre) + 1 == POP_VLAN, strip.args), tail);
    assert [post[0]] + post[1..] == post && [w] + rest == tail;
    MeansCleared(LastOp(NONE, pre), post[0], post[1..], w, rest);
    DecodeEnc(NONE, pre, [ClearPipe(w)] + rest);
    ExecEnc(NONE, pre, [ClearPipe(w)] + rest);
  }

  /** A list in which no word but perhaps the last looks like a strip is not changed. */
  lemma RemoveStripKeeps(ws: seq<Word>)
    requires ws != [] && forall i | 0 <= i < |ws| - 1 :: !LooksLikeStrip(ws[i])
    ensures RemoveStrip(ws) == ws
  {
  }

  // ---- The list object ----

  class ActionBuffer {
    const instr: array<Word>
    var count: nat
    var prev: int
    ghost var acts: seq<Action>

    ghost predicate Valid()
      reads this, instr
    {
      && instr.Length == MAX_INSTR && count <= MAX_INSTR
      && AllValid(acts) && instr[..count] == Enc(NONE, acts)
      && (acts != [] ==> prev == LastOp(NONE, acts))
    }

    constructor ()
      ensures Valid() && acts == [] && fresh(instr)
    {
      instr := new Word[MAX_INSTR](_ => 0);
      count, prev, acts := 0, 0, [];
    }

    /** cfg_act_init: zeroes NIC_MAX_INSTR bytes, which is the first four words, and the counters. */
    method Init()
      requires instr.Length == MAX_INSTR
      modifies this, instr
      ensures Valid() && acts == [] && count == 0
    {
      for i := 0 to MAX_INSTR / 4 {
        instr[i] := 0;
      }
      count, prev, acts := 0, 0, [];
    }

    /** cfg_act_append: the opcode word, with the pipeline bit if the previous action precedes it in the code store. */
    method AppendWord(op: Opcode, args: Half)
      requires instr.Length == MAX_INSTR && count < MAX_INSTR
      modifies this`count, this`prev, instr
      ensures count == old(count) + 1 && prev == op
      ensures instr[..count] == old(instr[..count]) + [Make(op, old(count) != 0 && old(prev) + 1 == op, args)]
    {
      var precursor := 2 * op - (op + 1);
      instr[count] := Make(op, count != 0 && prev == precursor, args);
      prev := op;
      count := count + 1;
    }

    /** An action of one word, or of two with its parameter. */
    method Append(op: Opcode, args: Half, param: Word)
      requires Valid() && count + 2 <= MAX_INSTR && Action(op, args, param).Valid()
      modifies this, instr
      ensures Valid() && acts == old(acts) + [Action(op, args, param)]
      ensures count == old(count) + if TwoWords(op) then 2 else 1
    {
      ghost var a := Action(op, args, param);
      EncAppend(NONE, acts, [a]);
      assert Enc(LastOp(NONE, acts), [a]) == EncOne(LastOp(NONE, acts), a);
      assert acts == [] <==> count == 0 by { if acts != [] { assert Enc(NONE, acts) != []; } }
      AppendWord(op, args);
      if TwoWords(op) {
        instr[count] := param;
        count := count + 1;
      }
      acts := acts + [a];
    }

    /** cfg_act_remove_strip_vlan, shifting the words after the strip down in place. */
    method RemoveStripVlan()
      requires instr.Length == MAX_INSTR && 0 < count <= MAX_INSTR
      modifies this`count, instr
      ensures count <= MAX_INSTR && instr[..count] == RemoveStrip(old(instr[..count]))
    {
      ghost var ws := instr[..count];
      ghost var at := StripAt(ws, 0);
      var found := false;
      var i := 0;
      while i < count - 1
        invariant count == |ws| && 0 <= i <= count - 1 && (found <==> at < i)
        invariant forall j | 0 <= j < i :: instr[j] == Shifted(ws, at, j)
        invariant forall j | i <= j < count :: instr[j] == ws[j]
      {
        assert instr[i] == ws[i] && instr[i + 1] == ws[i + 1];
        assert !found && LooksLikeStrip(ws[i]) ==> at == i;
        if found {
          instr[i] := instr[i + 1];
        } else if Op(instr[i]) == POP_VLAN {
          found := true;
          instr[i] := ClearPipe(instr[i + 1]);
        }
        i := i + 1;
      }
      RemovalAt(ws, at);
      if found {
        count := count - 1;
        ShiftedMoves(ws, at, instr[..count]);
      } else {
        assert instr[..count] == ws;
      }
    }
  }
}
