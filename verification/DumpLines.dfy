/**
 What the lines of a dump specification mean: the levels and entries that a
 listing reads as, and the complaint each refused line draws.
 */
module DumpLines {
  import opened Common
  import opened DumpSpec

  const TYPE_NAMES: seq<string> := ["cpp", "xpb", "me_csr", "me_ind_csr", "rtsym", "hwinfo", "fwname", "hwinfo_field"]

  /** Names are told apart, and each stands for its place in the list. */
  lemma TypesAreNumbered(name: string, t: Type)
    ensures TypeOf(name) == Some(t) <==> name == TYPE_NAMES[t]
    ensures TypeOf(name).Some? <==> name in TYPE_NAMES
  {
    if name in TYPE_NAMES {
      var i :| 0 <= i < |TYPE_NAMES| && TYPE_NAMES[i] == name;
      NamesDiffer(i, t);
    }
  }

  lemma NamesDiffer(i: nat, j: nat)
    requires i < 8 && j < 8
    ensures TYPE_NAMES[i] == TYPE_NAMES[j] <==> i == j
    ensures TypeOf(TYPE_NAMES[i]) == Some(i)
  {
    assert |TYPE_NAMES[0]| == 3 && |TYPE_NAMES[1]| == 3 && TYPE_NAMES[0][0] != TYPE_NAMES[1][0];
    assert |TYPE_NAMES[2]| == 6 && |TYPE_NAMES[3]| == 10 && |TYPE_NAMES[4]| == 5;
    assert |TYPE_NAMES[5]| == 6 && |TYPE_NAMES[6]| == 6 && |TYPE_NAMES[7]| == 12;
    assert TYPE_NAMES[2][0] != TYPE_NAMES[5][0] && TYPE_NAMES[2][0] != TYPE_NAMES[6][0];
    assert TYPE_NAMES[5][0] != TYPE_NAMES[6][0];
  }

  // ---- A listing reads as its levels ----

  datatype Item = Item(ty: Type, text: string)

  datatype Part = Part(n: int, items: seq<Item>)

  function ItemLines(items: seq<Item>): seq<Line> {
    if items == [] then [] else
    var last := items[|items| - 1];
    ItemLines(items[..|items| - 1]) + [TypeLine(TYPE_NAMES[last.ty]), EntryLine(last.text)]
  }

  function PartLines(p: Part): seq<Line> { [LevelLine(p.n)] + ItemLines(p.items) + [LevelEnd] }

  function Listing(ps: seq<Part>): seq<Line> {
    if ps == [] then [] else Listing(ps[..|ps| - 1]) + PartLines(ps[|ps| - 1])
  }

  type Csrs = string -> Option<Csr>

  /** A name fits 127 characters; a register is one that the assembler knows. */
  predicate Acceptable(i: Item, csr: Csrs) {
    && (i.ty == 4 || i.ty == 7 ==> |i.text| <= 127)
    && (i.ty < 4 ==> csr(i.text).Some?)
  }

  /** Only a level numbered -1 has to be empty. */
  predicate Sound(p: Part, csr: Csrs) {
    (p.n == -1 ==> p.items == []) && forall i | i in p.items :: Acceptable(i, csr)
  }

  ghost predicate StandsFor(e: Entry, i: Item, csr: Csrs) {
    && (i.ty < 4 ==> csr(i.text).Some? && e == Register(i.ty, csr(i.text).value))
    && (i.ty == 4 || i.ty == 7 ==> e == Named(i.ty, i.text))
    && (i.ty == 5 || i.ty == 6 ==> e == Plain(i.ty))
  }

  ghost predicate AllStandFor(es: seq<Entry>, items: seq<Item>, csr: Csrs) {
    |es| == |items| && forall k | 0 <= k < |es| :: StandsFor(es[k], items[k], csr)
  }

  /** A level that has ended, with the part's number and its entries. */
  ghost predicate IsClosed(c: Chunk, p: Part, csr: Csrs) {
    c.Closed? && c.level.n == p.n && AllStandFor(c.level.entries, p.items, csr)
  }

  /** ReadAll from where `p` left off. */
  function ReadOn(p: Progress, lines: seq<Line>, csr: Csrs): Progress {
    if lines == [] then p else
    var q := ReadOn(p, lines[..|lines| - 1], csr);
    if q.Failed? then q else Read(q.doc, lines[|lines| - 1], csr)
  }

  lemma {:induction false} ReadOnAppend(p: Progress, a: seq<Line>, b: seq<Line>, csr: Csrs)
    ensures ReadOn(p, a + b, csr) == ReadOn(ReadOn(p, a, csr), b, csr)
  {
    if b == [] {
      assert a + b == a;
    } else {
      ReadOnAppend(p, a, b[..|b| - 1], csr);
      assert (a + b)[..|a + b| - 1] == a + b[..|b| - 1];
    }
  }

  lemma {:induction false} ReadAllIsReadOn(lines: seq<Line>, csr: Csrs)
    ensures ReadAll(lines, csr) == ReadOn(Going(START), lines, csr)
  {
    if lines != [] { ReadAllIsReadOn(lines[..|lines| - 1], csr); }
  }

  lemma ReadOne(p: Progress, line: Line, csr: Csrs)
    ensures ReadOn(p, [line], csr) == if p.Failed? then p else Read(p.doc, line, csr)
  {
    assert [line][..0] == [];
    assert ReadOn(p, [], csr) == p;
  }

  /** A type line and an entry line, in an open level. */
  lemma ReadItem(d: Doc, i: Item, csr: Csrs)
    requires d.open.Some?
    ensures var r := ReadOn(Going(d), [TypeLine(TYPE_NAMES[i.ty]), EntryLine(i.text)], csr);
      && (r.Going? <==> d.level != -1 && Acceptable(i, csr))
      && (r.Going? ==> exists e ::
        StandsFor(e, i, csr) && r == Going(WithEntry(d, e).(ty := Some(i.ty))))
  {
    var a, b := TypeLine(TYPE_NAMES[i.ty]), EntryLine(i.text);
    ReadOnAppend(Going(d), [a], [b], csr);
    assert [a] + [b] == [a, b];
    ReadOne(Going(d), a, csr);
    NamesDiffer(i.ty, i.ty);
    if d.level != -1 {
      var d1 := d.(ty := Some(i.ty));
      ReadOne(Going(d1), b, csr);
      if Acceptable(i, csr) {
        var e := EntryOf(i.ty, i.text, csr).value;
        assert StandsFor(e, i, csr) && WithEntry(d1, e) == WithEntry(d, e).(ty := Some(i.ty));
      }
    } else {
      ReadOne(Failed(LevelNotSet), b, csr);
    }
  }

  lemma {:induction false} ReadItems(d: Doc, items: seq<Item>, csr: Csrs)
    requires d.open.Some? && d.open.value.entries == []
    ensures var r := ReadOn(Going(d), ItemLines(items), csr);
      && (r.Going? <==> Sound(Part(d.level, items), csr))
      && (r.Going? ==> r.doc.open.Some? && r.doc.done == d.done && r.doc.level == d.level)
      && (r.Going? ==> r.doc.open.value.n == d.open.value.n && AllStandFor(r.doc.open.value.entries, items, csr))
  {
    if items != [] {
      var front, last := items[..|items| - 1], items[|items| - 1];
      assert items == front + [last];
      ReadItems(d, front, csr);
      var tail := [TypeLine(TYPE_NAMES[last.ty]), EntryLine(last.text)];
      ReadOnAppend(Going(d), ItemLines(front), tail, csr);
      var r := ReadOn(Going(d), ItemLines(front), csr);
      if r.Going? {
        ReadItem(r.doc, last, csr);
      } else {
        FailedStays(r, tail, csr);
      }
    }
  }

  lemma {:induction false} FailedStays(p: Progress, lines: seq<Line>, csr: Csrs)
    requires p.Failed?
    ensures ReadOn(p, lines, csr) == p
  {
    if lines != [] { FailedStays(p, lines[..|lines| - 1], csr); }
  }

  lemma ReadPart(d: Doc, p: Part, csr: Csrs)
    requires d.open.None?
    ensures var r := ReadOn(Going(d), PartLines(p), csr);
      && (r.Going? <==> Sound(p, csr))
      && (r.Going? ==> r.doc.open.None? && |r.doc.done| == |d.done| + 1 && r.doc.done[..|d.done|] == d.done)
      && (r.Going? ==> IsClosed(r.doc.done[|d.done|], p, csr))
  {
    var d1 := d.(open := Some(Level(p.n, [])), level := p.n);
    var head, body := [LevelLine(p.n)], ItemLines(p.items);
    ReadOne(Going(d), LevelLine(p.n), csr);
    ReadOnAppend(Going(d), head, body, csr);
    ReadOnAppend(Going(d), head + body, [LevelEnd], csr);
    ReadItems(d1, p.items, csr);
    ReadOne(ReadOn(Going(d1), body, csr), LevelEnd, csr);
  }

  /**
   A listing of levels, each with its entries under their type names, is accepted
   exactly when every part is sound, and then reads as one level to a part, in
   order, with one entry to an item.
   */
  lemma {:induction false} ListingReads(ps: seq<Part>, csr: Csrs)
    ensures var r := ReadAll(Listing(ps), csr);
      && (r.Going? <==> forall p | p in ps :: Sound(p, csr))
      && (r.Going? ==> r.doc.open.None? && |r.doc.done| == |ps|)
      && (r.Going? ==> forall k | 0 <= k < |ps| :: IsClosed(r.doc.done[k], ps[k], csr))
  {
    if ps != [] {
      var front, last := ps[..|ps| - 1], ps[|ps| - 1];
      assert ps == front + [last];
      ListingReads(front, csr);
      ReadAllIsReadOn(Listing(front), csr);
      ReadAllIsReadOn(Listing(ps), csr);
      ReadOnAppend(Going(START), Listing(front), PartLines(last), csr);
      var r := ReadAll(Listing(front), csr);
      if r.Going? {
        ReadPart(r.doc, last, csr);
        var s := ReadAll(Listing(ps), csr);
        if s.Going? {
          assert forall k | 0 <= k < |front| :: s.doc.done[k] == s.doc.done[..|front|][k] == r.doc.done[k];
        }
      } else {
        FailedStays(r, PartLines(last), csr);
      }
    }
  }

  // ---- Which line draws which complaint ----

  /** The number of the last level line, -1 before the first. */
  function LastLevel(lines: seq<Line>): int {
    if lines == [] then -1 else
    match lines[|lines| - 1]
    case LevelLine(n) => n
    case _ => LastLevel(lines[..|lines| - 1])
  }

  function LastType(lines: seq<Line>): Option<string> {
    if lines == [] then None else
    match lines[|lines| - 1]
    case TypeLine(name) => Some(name)
    case _ => LastType(lines[..|lines| - 1])
  }

  /** A level line came after the last end of a level. */
  predicate InLevel(lines: seq<Line>) {
    if lines == [] then false else
    match lines[|lines| - 1]
    case LevelLine(_) => true
    case LevelEnd => false
    case _ => InLevel(lines[..|lines| - 1])
  }

  lemma {:induction false} Context(lines: seq<Line>, csr: Csrs)
    requires ReadAll(lines, csr).Going?
    ensures var d := ReadAll(lines, csr).doc;
      && d.level == LastLevel(lines) && (d.open.Some? <==> InLevel(lines))
      && (d.ty.None? <==> LastType(lines).None?)
      && (LastType(lines).Some? ==> LastType(lines).value in TYPE_NAMES && d.ty == TypeOf(LastType(lines).value))
  {
    if lines != [] {
      Context(lines[..|lines| - 1], csr);
      var last := lines[|lines| - 1];
      if last.TypeLine? { TypesAreNumbered(last.name, 0); }
    }
  }

  ghost predicate Draws(lines: seq<Line>, line: Line, csr: Csrs, e: Error) {
    var (typed, leveled) := (LastType(lines).Some?, LastLevel(lines) != -1);
    match e
    case LevelNotEnded => line.LevelLine? && InLevel(lines)
    case EndWithoutLevel => line.LevelEnd? && !InLevel(lines)
    case UnknownMetadata => line.OtherMeta?
    case LevelNotSet => !leveled && (line.TypeLine? || (line.EntryLine? && typed))
    case UnknownType => (line.TypeLine? && leveled && line.name !in TYPE_NAMES) || (line.EntryLine? && !typed)
    case NameTooLong =>
      line.EntryLine? && typed && leveled && LastType(lines).value in {"rtsym", "hwinfo_field"} && |line.text| > 127
    case BadRegister =>
      line.EntryLine? && typed && leveled && LastType(lines).value in {"cpp", "xpb", "me_csr", "me_ind_csr"}
      && csr(line.text).None?
  }

  /** After lines that were accepted, a line is refused with an error exactly when it draws it. */
  lemma RefusedExactly(lines: seq<Line>, line: Line, csr: Csrs, e: Error)
    requires ReadAll(lines, csr).Going?
    ensures ReadAll(lines + [line], csr) == Failed(e) <==> Draws(lines, line, csr, e)
  {
    assert (lines + [line])[..|lines|] == lines;
    Context(lines, csr);
    if line.TypeLine? { TypesAreNumbered(line.name, 0); }
    if line.EntryLine? && LastType(lines).Some? { NamedOrNot(LastType(lines).value); }
  }

  lemma NamedOrNot(name: string)
    requires name in TYPE_NAMES
    ensures TypeOf(name).Some?
    ensures IsNamed(TypeOf(name).value) <==> name in {"rtsym", "hwinfo_field"}
    ensures !IsNamed(TypeOf(name).value) && !IsPlain(TypeOf(name).value)
      <==> name in {"cpp", "xpb", "me_csr", "me_ind_csr"}
  {
    TypesAreNumbered(name, 0);
  }
}
