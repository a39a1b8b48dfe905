/**
 The generator of the dump image: one pass over the specification that keeps a
 running offset and level length, appends initialisation directives, and goes
 back to insert each level's header and each register's length.
 */
module DumpGenerator {
  import opened Common
  import opened DumpSpec

  /** Initialise the word at this byte offset of the image. */
  datatype Directive = At(offset: int, word: Word)

  function Put(k: int, w: Word): Directive { At(4 * k, w) }

  /** Consecutive words, the first of them word `k` of the image. */
  function Place(k: int, ws: seq<Word>): (r: seq<Directive>)
    ensures |r| == |ws|
  {
    seq(|ws|, i requires 0 <= i < |ws| => Put(k + i, ws[i]))
  }

  lemma PlaceAppend(k: int, a: seq<Word>, b: seq<Word>)
    ensures Place(k, a + b) == Place(k, a) + Place(k + |a|, b)
  {
  }

  /** The directives while `base` is finished and, in a level not yet ended, `body` follows a gap for the header. */
  function Directives(base: seq<Word>, ended: bool, body: seq<Word>): seq<Directive> {
    Place(0, base) + if ended then [] else Place(|base| + 2, body)
  }

  function Size(base: seq<Word>, ended: bool, body: seq<Word>): nat {
    |base| + if ended then 0 else 2 + |body|
  }

  function OpenBody(open: Option<Level>): seq<Word> {
    match open case None => [] case Some(l) => Body(l.entries)
  }

  function DocDirectives(d: Doc): seq<Directive> { Directives(Image(d.done), d.open.None?, OpenBody(d.open)) }

  /** The next multiple of 8 after the last byte. */
  function Allocated(d: Doc): int { RoundUp(4 * Size(Image(d.done), d.open.None?, OpenBody(d.open))) }

  function RoundUp(n: nat): (r: nat)
    ensures n < r <= n + 8 && r % 8 == 0
  {
    n + (8 - n % 8)
  }

  function InsertAt<T>(s: seq<T>, idx: nat, x: T): seq<T>
    requires idx <= |s|
  {
    s[..idx] + [x] + s[idx..]
  }

  /** Words `k` and `k + 1` inserted before the directive at that index. */
  function InsertPair(out: seq<Directive>, k: nat, a: Word, b: Word): seq<Directive>
    requires k <= |out|
  {
    InsertAt(InsertAt(out, k, Put(k, a)), k + 1, Put(k + 1, b))
  }

  datatype Output = Made(out: seq<Directive>, size: int) | Raised(error: Error)

  class Generator {
    var level: int
    var ty: Option<Type>
    var ended: bool
    var offset: int
    var lvlLen: int
    var lvlLenOffset: int
    var lvlIdx: int
    var out: seq<Directive>
    ghost var base: seq<Word>
    ghost var body: seq<Word>

    /** The directives and counters are those of the words `base` and `body`. */
    ghost predicate Placed() reads this {
      && out == Directives(base, ended, body) && offset == 4 * Size(base, ended, body)
      && (!ended ==> lvlIdx == |base| && lvlLenOffset == 4 * |base| && lvlLen == 4 * |body|)
    }

    /** And those words are the document's. */
    ghost predicate Reads(d: Doc) reads this {
      && Placed() && level == d.level && ty == d.ty && ended == d.open.None?
      && (d.open.Some? ==> d.open.value.n == level)
      && base == Image(d.done) && body == OpenBody(d.open)
    }

    constructor ()
      ensures Reads(START)
    {
      level, ty, ended, offset := -1, None, true, 0;
      lvlLen, lvlLenOffset, lvlIdx, out := 0, 0, -1, [];
      base, body := [], [];
    }

    /** Since these were `out` and `lvlLen`, just the words `ws` were written, the first as word `k`. */
    ghost predicate Wrote(was: seq<Directive>, k: int, len: int, ws: seq<Word>) reads this {
      out == was + Place(k, ws) && offset == 4 * (k + |ws|) && lvlLen == len + 4 * |ws|
    }

    method Emit(w: Word, ghost k: int)
      requires offset == 4 * k
      modifies this`out, this`offset, this`lvlLen
      ensures out == old(out) + [Put(k, w)] && offset == 4 * (k + 1) && lvlLen == old(lvlLen) + 4
    {
      out := out + [At(offset, w)];
      offset, lvlLen := offset + 4, lvlLen + 4;
    }

    /** One word more of a sequence being written. */
    method EmitNext(w: Word, ghost was: seq<Directive>, ghost k: int, ghost len: int, ghost ws: seq<Word>)
      requires Wrote(was, k, len, ws)
      modifies this`out, this`offset, this`lvlLen
      ensures Wrote(was, k, len, ws + [w])
    {
      PlaceAppend(k, ws, [w]);
      Emit(w, k + |ws|);
    }

    /** One character's turn in the loop below: its digits, and a directive if it is a fourth. */
    method EmitChar(name: string, i: nat, digits: nat, ghost p: NameProgress, ghost was: seq<Directive>,
      ghost k: int, ghost len: int)
      returns (digits': nat, ghost p': NameProgress)
      requires i < |name| && p.Ok(name, i, digits) && Wrote(was, k, len, p.sent)
      modifies this`out, this`offset, this`lvlLen
      ensures p'.Ok(name, i + 1, digits') && Wrote(was, k, len, p'.sent)
    {
      digits', p' := digits * HexShift(name[i]) + name[i] as int, p;
      CharRead(name, i, digits, p);
      if (i + 1) % 4 == 0 {
        EmitNext(Low32(digits'), was, k, len, p.sent);
        digits', p' := 0, NameProgress(i + 1, p.sent + [Low32(digits')]);
      }
    }

    /** The loop over the characters of a name: a directive after every fourth, and one more for the rest. */
    method EmitName(name: string, ghost k: int)
      requires offset == 4 * k
      modifies this`out, this`offset, this`lvlLen
      ensures Wrote(old(out), k, old(lvlLen), NameWords(name))
    {
      var digits, count := 0, 0;
      ghost var p := NameProgress(0, []);
      while count < |name|
        modifies this`out, this`offset, this`lvlLen
        invariant 0 <= count <= |name| && p.Ok(name, count, digits) && Wrote(old(out), k, old(lvlLen), p.sent)
      {
        digits, p := EmitChar(name, count, digits, p, old(out), k, old(lvlLen));
        count := count + 1;
      }
      NameRead(name, digits, p);
      digits := PadDigits(digits, 4 - |name| % 4);
      EmitNext(Low32(digits), old(out), k, old(lvlLen), p.sent);
    }

    method EmitHeader(tag: Word, len: Word, ghost k: int)
      requires offset == 4 * k
      modifies this`out, this`offset, this`lvlLen
      ensures out == old(out) + [Put(k, tag), Put(k + 1, len)] && offset == 4 * (k + 2) && lvlLen == old(lvlLen) + 8
    {
      Emit(tag, k);
      Emit(len, k + 1);
    }

    method EmitNamed(t: Type, name: string, ghost k: int)
      requires IsNamed(t) && |name| <= 127 && offset == 4 * k
      modifies this`out, this`offset, this`lvlLen
      ensures Wrote(old(out), k, old(lvlLen), EntryWords(Named(t, name)))
    {
      var strLen := |name| + (4 - |name| % 4);
      EmitHeader(t, strLen, k);
      EmitName(name, k + 2);
      NameWordsLength(name);
      NamedWords(t, name, strLen);
      ItemPlaced(k, t, strLen, NameWords(name));
      JoinDirectives(old(out), [Put(k, t), Put(k + 1, strLen)], Place(k + 2, NameWords(name)));
    }

    method EmitPlain(t: Type, ghost k: int)
      requires IsPlain(t) && offset == 4 * k
      modifies this`out, this`offset, this`lvlLen
      ensures Wrote(old(out), k, old(lvlLen), EntryWords(Plain(t)))
    {
      EmitHeader(t, 0, k);
      ItemPlaced(k, t, 0, []);
    }

    /** The four words of a register, counted so that their length can be inserted before them. */
    method EmitCsr(c: Csr, ghost k: int) returns (size: int)
      requires offset == 4 * k
      modifies this`out, this`offset, this`lvlLen
      ensures Wrote(old(out), k, old(lvlLen), CsrWords(c)) && size == 16
    {
      size := 0;
      Emit(c.tat, k);
      size := size + 4;
      Emit(c.offset, k + 1);
      size := size + 4;
      Emit(c.bytes, k + 2);
      size := size + 4;
      Emit(c.width, k + 3);
      size := size + 4;
      ItemPlaced(k, c.tat, c.offset, [c.bytes, c.width]);
    }

    method EmitRegister(t: Type, c: Csr, ghost k: int)
      requires t < 4 && offset == 4 * k
      modifies this`out, this`offset, this`lvlLen
      ensures Wrote(old(out), k, old(lvlLen), EntryWords(Register(t, c)))
    {
      Emit(t, k);
      var idx, lenOffset := |out|, offset;
      offset, lvlLen := offset + 4, lvlLen + 4;
      var size := EmitCsr(c, k + 2);
      RegisterPlaced(old(out), k, t, c);
      Insert(idx, At(lenOffset, Low32(size)));
    }

    /** `insert` on the list of output lines. */
    method Insert(idx: int, x: Directive)
      requires 0 <= idx <= |out|
      modifies this`out
      ensures out == InsertAt(old(out), idx, x)
    {
      out := out[..idx] + [x] + out[idx..];
    }

    /** An entry's words, or the error of its line. */
    method EmitEntry(text: string, csr: string -> Option<Csr>, ghost k: int)
      returns (r: Option<Error>, ghost e: Option<Entry>)
      requires offset == 4 * k
      modifies this`out, this`offset, this`lvlLen
      ensures r == EntryError(ty, level, text, csr)
      ensures r == None
        ==> e == EntryOf(ty.value, text, csr) && e.Some? && Wrote(old(out), k, old(lvlLen), EntryWords(e.value))
    {
      e := None;
      if ty == None { return Some(UnknownType), e; }
      if level == -1 { return Some(LevelNotSet), e; }
      var t := ty.value;
      if IsNamed(t) {
        if |text| + (4 - |text| % 4) > 128 { return Some(NameTooLong), e; }
        e := Some(Named(t, text));
        EmitNamed(t, text, k);
      } else if IsPlain(t) {
        e := Some(Plain(t));
        EmitPlain(t, k);
      } else {
        var c := csr(text);
        if c == None { return Some(BadRegister), e; }
        e := Some(Register(t, c.value));
        EmitRegister(t, c.value, k);
      }
      r := None;
    }

    /** Words written while the counters were right leave them right. */
    ghost method Absorb(was: seq<Directive>, len: int, ws: seq<Word>)
      requires was == Directives(base, ended, body) && Wrote(was, Size(base, ended, body), len, ws)
      requires !ended ==> lvlIdx == |base| && lvlLenOffset == 4 * |base| && len == 4 * |body|
      modifies this`base, this`body
      ensures Placed()
      ensures if ended then base == old(base) + ws && body == old(body) else base == old(base) && body == old(body) + ws
    {
      Grows(base, ended, body, ws);
      if ended {
        base := base + ws;
      } else {
        body := body + ws;
      }
    }

    method Entry(text: string, csr: string -> Option<Csr>, ghost d: Doc) returns (r: Option<Error>)
      requires Reads(d)
      modifies this
      ensures Answers(Read(d, EntryLine(text), csr), r)
    {
      ghost var was, k, len := out, Size(base, ended, body), lvlLen;
      ghost var e;
      r, e := EmitEntry(text, csr, k);
      if r == None {
        Absorb(was, len, EntryWords(e.value));
        EntryAdded(d, text, csr, e.value);
      }
    }

    /** What reading a line answers: its error, or nothing and the document read so far. */
    ghost predicate Answers(p: Progress, r: Option<Error>) reads this {
      match p case Failed(e) => r == Some(e) case Going(d) => r == None && Reads(d)
    }

    method StartLevel(n: int)
      requires Placed() && ended
      modifies this`level, this`lvlLen, this`lvlLenOffset, this`offset, this`lvlIdx, this`ended, this`body
      ensures Placed() && !ended && level == n && body == []
    {
      level, lvlLen, lvlLenOffset := n, 0, offset;
      offset := offset + 8;
      lvlIdx := |out|;
      ended, body := false, [];
    }

    /** The two header words go in where the level began. */
    method InsertHeader(tag: Word, len: Word)
      requires 0 <= lvlIdx <= |out| && lvlLenOffset == 4 * lvlIdx
      modifies this`out, this`lvlLenOffset, this`lvlIdx
      ensures out == InsertPair(old(out), old(lvlIdx), tag, len)
    {
      Insert(lvlIdx, At(lvlLenOffset, tag));
      lvlLenOffset, lvlIdx := lvlLenOffset + 4, lvlIdx + 1;
      Insert(lvlIdx, At(lvlLenOffset, len));
      lvlLenOffset := lvlLenOffset + 4;
    }

    method EndLevel()
      requires Placed() && !ended
      modifies this`out, this`lvlLenOffset, this`lvlIdx, this`ended, this`base, this`body
      ensures Placed() && ended && base == old(base) + ([Low32(level), Low32(4 * |old(body)|)] + old(body))
      ensures body == []
    {
      var tag, len := Low32(level), Low32(lvlLen);
      ghost var all := base + ([tag, len] + body);
      CloseWords(base, tag, len, body);
      CloseSize(base, tag, len, body);
      InsertHeader(tag, len);
      ended, base, body := true, all, [];
    }

    /** The end of a level, in terms of the document. */
    method CloseLevel(ghost d: Doc)
      requires Reads(d) && !ended
      modifies this
      ensures Reads(d.(done := d.done + [Closed(d.open.value)], open := None))
    {
      ImageOne(d.done, Closed(d.open.value));
      EndLevel();
    }

    method OneLine(line: Line, csr: string -> Option<Csr>, ghost d: Doc) returns (r: Option<Error>)
      requires Reads(d)
      modifies this
      ensures Answers(Read(d, line, csr), r)
    {
      r := None;
      match line {
        case Blank =>
        case Version(_) =>
        case OtherMeta => return Some(UnknownMetadata);
        case TypeLine(name) =>
          if level == -1 { return Some(LevelNotSet); }
          if TypeOf(name) == None { return Some(UnknownType); }
          ty := TypeOf(name);
        case LevelLine(n) =>
          if !ended { return Some(LevelNotEnded); }
          StartLevel(n);
        case LevelEnd =>
          if ended { return Some(EndWithoutLevel); }
          CloseLevel(d);
        case EntryLine(text) => r := Entry(text, csr, d);
      }
    }
  }

  method PadDigits(v: nat, n: nat) returns (r: nat)
    ensures r == Zeros(v, n)
  {
    r := v;
    for i := 0 to n
      invariant r == Zeros(v, i)
    {
      r := r * 0x100;
    }
  }

  /** The whole run: the error of the first bad line, or the directives of everything the specification lists. */
  method Generate(lines: seq<Line>, csr: string -> Option<Csr>) returns (r: Output)
    ensures match ReadAll(lines, csr)
      case Failed(e) => r == Raised(e)
      case Going(d) => r == Made(DocDirectives(d), Allocated(d))
  {
    var g := new Generator();
    ghost var d := START;
    for i := 0 to |lines|
      invariant ReadAll(lines[..i], csr) == Going(d) && g.Reads(d)
    {
      assert lines[..i + 1][..i] == lines[..i];
      var err := g.OneLine(lines[i], csr, d);
      if err.Some? {
        FailureStays(lines, i + 1, csr);
        return Raised(err.value);
      }
      d := Read(d, lines[i], csr).doc;
    }
    assert lines[..|lines|] == lines;
    return Made(g.out, RoundUp(g.offset));
  }

  // ---- Proofs of the steps ----

  /** How far a name has been written: the words sent, and where the digits being gathered began. */
  datatype NameProgress = NameProgress(from: nat, sent: seq<Word>) {
    ghost predicate Ok(name: string, count: nat, digits: nat) {
      && from <= count <= |name| && count < from + 4 && from % 4 == 0 && digits == Hex(name[from..count])
      && sent + NameWords(name[from..]) == NameWords(name)
    }
  }

  lemma HexGrows(name: string, from: nat, count: nat)
    requires from <= count < |name|
    ensures Hex(name[from..count + 1]) == Hex(name[from..count]) * HexShift(name[count]) + name[count] as int
  {
    assert name[from..count + 1][..count - from] == name[from..count];
  }

  lemma WordSplits(rest: string)
    requires |rest| >= 4
    ensures NameWords(rest) == [Low32(Hex(rest[..4]))] + NameWords(rest[4..])
  {
  }

  lemma WordDone(name: string, from: nat, sent: seq<Word>)
    requires from + 4 <= |name| && sent + NameWords(name[from..]) == NameWords(name)
    ensures sent + [Low32(Hex(name[from..from + 4]))] + NameWords(name[from + 4..]) == NameWords(name)
  {
    var rest := name[from..];
    assert rest[..4] == name[from..from + 4] && rest[4..] == name[from + 4..];
    var w, tail := [Low32(Hex(rest[..4]))], NameWords(rest[4..]);
    WordSplits(rest);
    Assoc(sent, w, tail);
  }

  lemma CharRead(name: string, i: nat, digits: nat, p: NameProgress)
    requires i < |name| && p.Ok(name, i, digits)
    ensures var v := digits * HexShift(name[i]) + name[i] as int;
      if (i + 1) % 4 == 0 then NameProgress(i + 1, p.sent + [Low32(v)]).Ok(name, i + 1, 0) else p.Ok(name, i + 1, v)
  {
    HexGrows(name, p.from, i);
    Fourth(p.from, i);
    if (i + 1) % 4 == 0 {
      WordDone(name, p.from, p.sent);
      assert name[i + 1..i + 1] == "";
    }
  }

  lemma Fourth(from: nat, i: nat)
    requires from <= i < from + 4 && from % 4 == 0
    ensures (i + 1) % 4 == 0 <==> i + 1 == from + 4
  {
  }

  lemma TailWord(rest: string)
    requires |rest| < 4
    ensures NameWords(rest) == [Low32(Zeros(Hex(rest), 4 - |rest|))]
  {
  }

  lemma NameRead(name: string, digits: nat, p: NameProgress)
    requires p.Ok(name, |name|, digits)
    ensures p.sent + [Low32(Zeros(digits, 4 - |name| % 4))] == NameWords(name)
  {
    var rest := name[p.from..];
    assert rest == name[p.from..|name|];
    assert |name| % 4 == |rest|;
    TailWord(rest);
  }

  lemma NamedWords(t: Type, name: string, len: Word)
    requires IsNamed(t) && 4 * |NameWords(name)| == len
    ensures EntryWords(Named(t, name)) == [t, len] + NameWords(name)
  {
    ItemWords(Named(t, name), len);
  }

  lemma ItemWords(e: Entry, len: Word)
    requires 4 * |Payload(e)| == len
    ensures EntryWords(e) == [e.ty, len] + Payload(e)
  {
    Low32Is(len);
  }

  /** An item is its two header words and then its payload. */
  lemma ItemPlaced(k: int, tag: Word, len: Word, payload: seq<Word>)
    ensures Place(k, [tag, len] + payload) == [Put(k, tag), Put(k + 1, len)] + Place(k + 2, payload)
  {
  }

  lemma JoinDirectives(a: seq<Directive>, b: seq<Directive>, c: seq<Directive>)
    ensures a + (b + c) == (a + b) + c
  {
  }

  lemma InsertBetween<T>(a: seq<T>, b: seq<T>, x: T)
    ensures InsertAt(a + b, |a|, x) == a + [x] + b
  {
  }

  lemma RegisterPlaced(was: seq<Directive>, k: int, t: Type, c: Csr)
    requires t < 4
    ensures InsertAt(was + [Put(k, t)] + Place(k + 2, CsrWords(c)), |was| + 1, Put(k + 1, 16))
      == was + Place(k, EntryWords(Register(t, c)))
  {
    var tag: Word := t;
    assert EntryWords(Register(t, c)) == [tag, 16] + CsrWords(c);
    ItemPlaced(k, tag, 16, CsrWords(c));
    InsertBetween(was + [Put(k, t)], Place(k + 2, CsrWords(c)), Put(k + 1, 16));
  }

  lemma ImageOne(cs: seq<Chunk>, c: Chunk)
    ensures Image(cs + [c]) == Image(cs) + ChunkWords(c)
  {
    assert (cs + [c])[..|cs|] == cs;
  }

  /** Words after the last one: of the finished part, or of the open level. */
  lemma Grows(base: seq<Word>, ended: bool, body: seq<Word>, ws: seq<Word>)
    ensures ended ==> Directives(base + ws, true, body) == Directives(base, true, body) + Place(|base|, ws)
    ensures !ended
      ==> Directives(base, false, body + ws) == Directives(base, false, body) + Place(|base| + 2 + |body|, ws)
  {
    PlaceAppend(0, base, ws);
    PlaceAppend(|base| + 2, body, ws);
  }

  /** The document's own words grow the same way. */
  lemma DocGrows(d: Doc, e: Entry)
    ensures var t := WithEntry(d, e);
      if d.open.None? then Image(t.done) == Image(d.done) + EntryWords(e) && OpenBody(t.open) == OpenBody(d.open)
      else Image(t.done) == Image(d.done) && OpenBody(t.open) == OpenBody(d.open) + EntryWords(e)
  {
    match d.open
    case None => ImageOne(d.done, Stray(e));
    case Some(l) => assert (l.entries + [e])[..|l.entries|] == l.entries;
  }

  /** An accepted entry line adds the entry's words where the document stands. */
  lemma EntryAdded(d: Doc, text: string, csr: string -> Option<Csr>, e: Entry)
    requires EntryError(d.ty, d.level, text, csr).None? && EntryOf(d.ty.value, text, csr) == Some(e)
    ensures var p := Read(d, EntryLine(text), csr);
      && p.Going? && p.doc.level == d.level && p.doc.ty == d.ty && p.doc.open.Some? == d.open.Some?
      && (d.open.Some? ==> p.doc.open.value.n == d.open.value.n)
      && Image(p.doc.done) == Image(d.done) + (if d.open.None? then EntryWords(e) else [])
      && OpenBody(p.doc.open) == OpenBody(d.open) + (if d.open.None? then [] else EntryWords(e))
  {
    DocGrows(d, e);
  }

  /** Inserting the two header words closes the gap before the level's entries. */
  lemma CloseWords(base: seq<Word>, tag: Word, len: Word, body: seq<Word>)
    ensures InsertPair(Directives(base, false, body), |base|, tag, len)
      == Directives(base + ([tag, len] + body), true, [])
  {
    var n := |base|;
    DirectivesClosed(base, [tag, len] + body);
    ItemPlaced(n, tag, len, body);
    InsertTwo(Place(0, base), Place(n + 2, body), Put(n, tag), Put(n + 1, len));
  }

  lemma DirectivesClosed(base: seq<Word>, ws: seq<Word>)
    ensures Directives(base + ws, true, []) == Place(0, base) + Place(|base|, ws)
  {
    PlaceAppend(0, base, ws);
    assert Place(0, base + ws) + [] == Place(0, base + ws);
  }

  lemma CloseSize(base: seq<Word>, tag: Word, len: Word, body: seq<Word>)
    ensures Size(base + ([tag, len] + body), true, []) == Size(base, false, body)
  {
  }

  lemma InsertTwo<T>(a: seq<T>, b: seq<T>, x: T, y: T)
    ensures InsertAt(InsertAt(a + b, |a|, x), |a| + 1, y) == a + ([x, y] + b)
  {
  }

  lemma {:induction false} FailureStays(lines: seq<Line>, i: nat, csr: string -> Option<Csr>)
    requires i <= |lines| && ReadAll(lines[..i], csr).Failed?
    ensures ReadAll(lines, csr) == ReadAll(lines[..i], csr)
    decreases |lines|
  {
    if i == |lines| {
      assert lines[..i] == lines;
    } else {
      var front := lines[..|lines| - 1];
      assert front[..i] == lines[..i];
      FailureStays(front, i, csr);
    }
  }

  // ---- The image ----

  /** Offsets 0, 4, 8, … with none missing, repeated or out of order, inside the allocation. */
  ghost predicate Tiles(out: seq<Directive>, size: int) {
    && (forall i | 0 <= i < |out| :: out[i].offset == 4 * i)
    && 4 * |out| < size <= 4 * |out| + 8 && size % 8 == 0
  }

  function Words(out: seq<Directive>): seq<Word> { seq(|out|, i requires 0 <= i < |out| => out[i].word) }

  /** The directives of a specification with no fault tile the image exactly when its last level was ended. */
  lemma TilesWhenEnded(d: Doc)
    ensures Tiles(DocDirectives(d), Allocated(d)) <==> d.open.None?
  {
    GapShows(Image(d.done), d.open.None?, OpenBody(d.open));
  }

  lemma GapShows(base: seq<Word>, ended: bool, body: seq<Word>)
    ensures Tiles(Directives(base, ended, body), RoundUp(4 * Size(base, ended, body))) <==> ended
  {
    var out := Directives(base, ended, body);
    if !ended && body != [] {
      assert out[|base|] == Place(|base| + 2, body)[0];
    }
  }

  /** Entries only inside levels that are ended, printable names, numbers that fit a word. */
  ghost predicate WellFormed(d: Doc) {
    d.open.None? && forall c | c in d.done :: c.Closed? && GoodLevel(c.level)
  }

  /** The levels of a document whose entries all lie inside ended levels. */
  function Levels(d: Doc): seq<Level>
    requires forall c | c in d.done :: c.Closed?
  {
    seq(|d.done|, i requires 0 <= i < |d.done| => d.done[i].level)
  }

  /** Walking the words by their lengths recovers the levels and entries of every well-formed specification. */
  lemma WalkRecovers(lines: seq<Line>, csr: string -> Option<Csr>)
    requires ReadAll(lines, csr).Going? && WellFormed(ReadAll(lines, csr).doc)
    ensures var d := ReadAll(lines, csr).doc;
      Tiles(DocDirectives(d), Allocated(d)) && WalkLevels(Words(DocDirectives(d))) == Some(Levels(d))
  {
    var d := ReadAll(lines, csr).doc;
    TilesWhenEnded(d);
    PlacedWords(Image(d.done));
    WalkDone(d);
  }

  lemma PlacedWords(base: seq<Word>)
    ensures Words(Directives(base, true, [])) == base
  {
  }

  lemma WalkDone(d: Doc)
    requires WellFormed(d)
    ensures WalkLevels(Image(d.done)) == Some(Levels(d))
  {
    assert AllClosed(Levels(d)) == d.done;
    forall l | l in Levels(d) ensures GoodLevel(l) {
      var i :| 0 <= i < |Levels(d)| && Levels(d)[i] == l;
      assert d.done[i] in d.done;
    }
    LevelsRoundTrip(Levels(d));
  }
}
