/**
 The dump specification and the image that describes it: which levels and
 entries a specification lists, the 32-bit words they become, and a reader
 that walks those words by their lengths alone.
 */
module DumpSpec {
  import opened Common

  /** Register types 0 to 3, run-time symbol 4, hardware info 5, firmware name 6, hardware info field 7. */
  type Type = t: int | 0 <= t < 8

  predicate IsNamed(t: Type) { t == 4 || t == 7 }
  predicate IsPlain(t: Type) { t == 5 || t == 6 }

  /** What the assembler makes of a register range: target and action, offset, length in bytes, width. */
  datatype Csr = Csr(tat: Word, offset: Word, bytes: Word, width: Word)

  datatype Entry = Named(ty: Type, name: string) | Plain(ty: Type) | Register(ty: Type, csr: Csr)

  datatype Level = Level(n: int, entries: seq<Entry>)

  /** An entry after a level's end belongs to no level. */
  datatype Chunk = Closed(level: Level) | Stray(entry: Entry)

  function TypeOf(name: string): Option<Type> {
    match name
    case "cpp" => Some(0)
    case "xpb" => Some(1)
    case "me_csr" => Some(2)
    case "me_ind_csr" => Some(3)
    case "rtsym" => Some(4)
    case "hwinfo" => Some(5)
    case "fwname" => Some(6)
    case "hwinfo_field" => Some(7)
    case _ => None
  }

  // ---- What a specification lists ----

  /** A line of the input, stripped. */
  datatype Line =
    | Blank
    | TypeLine(name: string)
    | LevelLine(n: int)
    | LevelEnd
    | Version(text: string)
    | OtherMeta
    | EntryLine(text: string)

  datatype Error = LevelNotSet | LevelNotEnded | EndWithoutLevel | UnknownMetadata | UnknownType | NameTooLong
    | BadRegister

  /** Chunks so far, the level being read if it has not ended, the last level number and the current type. */
  datatype Doc = Doc(done: seq<Chunk>, open: Option<Level>, level: int, ty: Option<Type>)

  datatype Progress = Going(doc: Doc) | Failed(error: Error)

  const START: Doc := Doc([], None, -1, None)

  /** The entry a line stands for, given the current type. */
  function EntryOf(ty: Type, text: string, csr: string -> Option<Csr>): Option<Entry> {
    if IsNamed(ty) then Some(Named(ty, text))
    else if IsPlain(ty) then Some(Plain(ty))
    else if csr(text).None? then None
    else Some(Register(ty, csr(text).value))
  }

  function WithEntry(d: Doc, e: Entry): Doc {
    match d.open
    case None => d.(done := d.done + [Stray(e)])
    case Some(l) => d.(open := Some(Level(l.n, l.entries + [e])))
  }

  function Read(d: Doc, line: Line, csr: string -> Option<Csr>): Progress {
    match line
    case Blank => Going(d)
    case Version(_) => Going(d)
    case OtherMeta => Failed(UnknownMetadata)
    case TypeLine(name) =>
      if d.level == -1 then Failed(LevelNotSet)
      else if TypeOf(name).None? then Failed(UnknownType)
      else Going(d.(ty := TypeOf(name)))
    case LevelLine(n) =>
      if d.open.Some? then Failed(LevelNotEnded)
      else Going(d.(open := Some(Level(n, [])), level := n))
    case LevelEnd =>
      if d.open.None? then Failed(EndWithoutLevel)
      else Going(d.(done := d.done + [Closed(d.open.value)], open := None))
    case EntryLine(text) =>
      var err := EntryError(d.ty, d.level, text, csr);
      if err.Some? then Failed(err.value) else Going(WithEntry(d, EntryOf(d.ty.value, text, csr).value))
  }

  /** The complaint about an entry line, if any. */
  function EntryError(ty: Option<Type>, level: int, text: string, csr: string -> Option<Csr>): (r: Option<Error>)
    ensures r.None? ==> ty.Some? && EntryOf(ty.value, text, csr).Some?
  {
    if ty.None? then Some(UnknownType)
    else if level == -1 then Some(LevelNotSet)
    else if IsNamed(ty.value) && |text| > 127 then Some(NameTooLong)
    else if EntryOf(ty.value, text, csr).None? then Some(BadRegister)
    else None
  }

  function ReadAll(lines: seq<Line>, csr: string -> Option<Csr>): Progress {
    if lines == [] then Going(START) else
    var p := ReadAll(lines[..|lines| - 1], csr);
    if p.Failed? then p else Read(p.doc, lines[|lines| - 1], csr)
  }

  // ---- The words ----

  /** The 32 bits that a directive writes of a number. */
  function Low32(n: int): Word { n % 0x1_0000_0000 }

  /** How far a character's hexadecimal digits, without leading zeros, push the digits before them. */
  function HexShift(c: char): (k: int)
    ensures 0x20 <= c as int < 0x7f ==> k == 0x100
  {
    var n := c as int;
    if n < 0x10 then 0x10 else if n < 0x100 then 0x100 else if n < 0x1000 then 0x1000
    else if n < 0x1_0000 then 0x1_0000 else if n < 0x10_0000 then 0x10_0000 else 0x100_0000
  }

  /** The number whose digits are those of the characters in turn. */
  function Hex(s: string): nat {
    if s == [] then 0 else Hex(s[..|s| - 1]) * HexShift(s[|s| - 1]) + s[|s| - 1] as int
  }

  /** `n` zero bytes written after the digits. */
  function Zeros(v: nat, n: nat): nat { if n == 0 then v else Zeros(v, n - 1) * 0x100 }

  /** Four characters to a word; the last word always has at least one zero byte. */
  function NameWords(s: string): seq<Word> {
    if |s| < 4 then [Low32(Zeros(Hex(s), 4 - |s|))] else [Low32(Hex(s[..4]))] + NameWords(s[4..])
  }

  /** The words of a name take its length rounded up, past at least one zero. */
  lemma {:induction false} NameWordsLength(s: string)
    ensures 4 * |NameWords(s)| == |s| + (4 - |s| % 4)
  {
    if |s| >= 4 {
      NameWordsLength(s[4..]);
      assert |s[4..]| % 4 == |s| % 4;
    }
  }

  function Payload(e: Entry): seq<Word> {
    match e
    case Named(_, name) => NameWords(name)
    case Plain(_) => []
    case Register(_, c) => CsrWords(c)
  }

  function CsrWords(c: Csr): seq<Word> { [c.tat, c.offset] + [c.bytes, c.width] }

  function EntryWords(e: Entry): (ws: seq<Word>)
    ensures |ws| >= 2
  {
    [e.ty, Low32(4 * |Payload(e)|)] + Payload(e)
  }

  function Body(es: seq<Entry>): seq<Word> {
    if es == [] then [] else Body(es[..|es| - 1]) + EntryWords(es[|es| - 1])
  }

  function ChunkWords(c: Chunk): seq<Word> {
    match c
    case Closed(l) => [Low32(l.n), Low32(4 * |Body(l.entries)|)] + Body(l.entries)
    case Stray(e) => EntryWords(e)
  }

  function Image(cs: seq<Chunk>): seq<Word> {
    if cs == [] then [] else Image(cs[..|cs| - 1]) + ChunkWords(cs[|cs| - 1])
  }

  // ---- The reader ----

  /** The bytes before the first zero. */
  function Visible(a: Byte, b: Byte, c: Byte, d: Byte): string {
    if a == 0 then [] else if b == 0 then [a as char] else if c == 0 then [a as char, b as char]
    else if d == 0 then [a as char, b as char, c as char] else [a as char, b as char, c as char, d as char]
  }

  function Chars(w: Word): string {
    Visible(w / 0x100 / 0x100 / 0x100, w / 0x100 / 0x100 % 0x100, w / 0x100 % 0x100, w % 0x100)
  }

  function NameOf(ws: seq<Word>): string {
    if ws == [] then [] else Chars(ws[0]) + NameOf(ws[1..])
  }

  function ReadEntry(ty: Word, payload: seq<Word>): Option<Entry> {
    if ty >= 8 then None
    else if IsNamed(ty) then Some(Named(ty, NameOf(payload)))
    else if IsPlain(ty) then (if payload == [] then Some(Plain(ty)) else None)
    else if |payload| == 4 then Some(Register(ty, Csr(payload[0], payload[1], payload[2], payload[3])))
    else None
  }

  /** The first item of a list of (tag, length in bytes, value) items: tag, value, rest. */
  function Split(ws: seq<Word>): (r: Option<(Word, seq<Word>, seq<Word>)>)
    ensures r.Some? ==> |r.value.2| < |ws|
  {
    if |ws| < 2 || ws[1] % 4 != 0 || 2 + ws[1] / 4 > |ws| then None
    else Some((ws[0], ws[2..2 + ws[1] / 4], ws[2 + ws[1] / 4..]))
  }

  function WalkEntries(ws: seq<Word>): Option<seq<Entry>>
    decreases |ws|
  {
    if ws == [] then Some([]) else
    var t := Split(ws);
    if t.None? then None else
    var e, rest := ReadEntry(t.value.0, t.value.1), WalkEntries(t.value.2);
    if e.None? || rest.None? then None else Some([e.value] + rest.value)
  }

  function WalkLevels(ws: seq<Word>): Option<seq<Level>>
    decreases |ws|
  {
    if ws == [] then Some([]) else
    var t := Split(ws);
    if t.None? then None else
    var es, rest := WalkEntries(t.value.1), WalkLevels(t.value.2);
    if es.None? || rest.None? then None else Some([Level(t.value.0, es.value)] + rest.value)
  }

  // ---- Names survive ----

  predicate Printable(s: string) { forall i | 0 <= i < |s| :: 0x20 <= s[i] as int < 0x7f }

  function At(s: string, i: nat): int { if i < |s| then s[i] as int else 0 }

  /** The number with the first `n` characters of `s` as its bytes, zeros after the last. */
  function Value(s: string, n: nat): int { if n == 0 then 0 else Value(s, n - 1) * 0x100 + At(s, n - 1) }

  lemma {:induction false} HexValue(s: string, k: nat)
    requires Printable(s) && k <= |s|
    ensures Hex(s[..k]) == Value(s, k)
  {
    if k > 0 {
      assert s[..k][..k - 1] == s[..k - 1];
      HexValue(s, k - 1);
    }
  }

  lemma {:induction false} PaddedValue(s: string, n: nat)
    requires Printable(s)
    ensures Zeros(Hex(s), n) == Value(s, |s| + n)
  {
    if n > 0 {
      PaddedValue(s, n - 1);
    } else {
      HexValue(s, |s|);
      assert s[..|s|] == s;
    }
  }

  lemma Digit(v: nat, c: int)
    requires 0 <= c < 0x100
    ensures (v * 0x100 + c) / 0x100 == v && (v * 0x100 + c) % 0x100 == c
  {
  }

  /** The bytes of a word that holds up to four characters are those characters. */
  lemma BytesOf(s: string)
    requires Printable(s)
    ensures var w := Value(s, 4);
      && 0 <= w < 0x1_0000_0000 && w / 0x100 / 0x100 / 0x100 == At(s, 0)
      && w / 0x100 / 0x100 % 0x100 == At(s, 1) && w / 0x100 % 0x100 == At(s, 2) && w % 0x100 == At(s, 3)
  {
    var v1, v2, v3 := At(s, 0), Value(s, 2), Value(s, 3);
    assert Value(s, 1) == v1 && v2 == v1 * 0x100 + At(s, 1) && v3 == v2 * 0x100 + At(s, 2)
      && Value(s, 4) == v3 * 0x100 + At(s, 3);
    Digit(v1, At(s, 1));
    Digit(v2, At(s, 2));
    Digit(v3, At(s, 3));
  }

  lemma Low32Is(v: int)
    requires 0 <= v < 0x1_0000_0000
    ensures Low32(v) == v
  {
  }

  lemma CharsAre(s: string, w: Word)
    requires Printable(s) && |s| <= 4
    requires w / 0x100 / 0x100 / 0x100 == At(s, 0) && w / 0x100 / 0x100 % 0x100 == At(s, 1)
    requires w / 0x100 % 0x100 == At(s, 2) && w % 0x100 == At(s, 3)
    ensures Chars(w) == s
  {
    var a, b, c, d := At(s, 0), At(s, 1), At(s, 2), At(s, 3);
    assert Chars(w) == Visible(a, b, c, d);
    assert forall i | 0 <= i < |s| :: At(s, i) as char == s[i] && At(s, i) != 0;
    assert forall i | |s| <= i < 4 :: At(s, i) == 0;
  }

  /** A word gives back the characters it was made from. */
  lemma WordChars(s: string)
    requires Printable(s) && |s| <= 4
    ensures Chars(Low32(Zeros(Hex(s), 4 - |s|))) == s
  {
    PaddedValue(s, 4 - |s|);
    var v := Value(s, 4);
    BytesOf(s);
    Low32Is(v);
    CharsAre(s, v);
  }

  lemma {:induction false} NameRoundTrip(s: string)
    requires Printable(s)
    ensures NameOf(NameWords(s)) == s
  {
    if |s| < 4 {
      WordChars(s);
      assert NameOf(NameWords(s)) == Chars(NameWords(s)[0]) + NameOf([]);
    } else {
      WordChars(s[..4]);
      NameRoundTrip(s[4..]);
      assert NameWords(s)[1..] == NameWords(s[4..]);
      assert s == s[..4] + s[4..];
    }
  }

  // ---- Entries and levels survive ----

  /** Printable, and short enough for the generator to accept; what it writes for the other types is right already. */
  ghost predicate GoodEntry(e: Entry) {
    match e
    case Named(ty, name) => IsNamed(ty) && Printable(name) && |name| <= 127
    case Plain(ty) => IsPlain(ty)
    case Register(ty, _) => ty < 4
  }

  lemma SplitItem(tag: Word, payload: seq<Word>, rest: seq<Word>)
    requires 4 * |payload| < 0x1_0000_0000
    ensures Split([tag, Low32(4 * |payload|)] + payload + rest) == Some((tag, payload, rest))
  {
    var ws := [tag, Low32(4 * |payload|)] + payload + rest;
    assert ws[2..2 + |payload|] == payload && ws[2 + |payload|..] == rest;
  }

  lemma EntryRoundTrip(e: Entry)
    requires GoodEntry(e)
    ensures 4 * |Payload(e)| <= 128 && ReadEntry(e.ty, Payload(e)) == Some(e)
  {
    if e.Named? {
      NameRoundTrip(e.name);
      NameWordsLength(e.name);
    }
  }

  lemma Assoc(a: seq<Word>, b: seq<Word>, c: seq<Word>)
    ensures (a + b) + c == a + (b + c)
  {
  }

  /** Body, read from the front. */
  lemma {:induction false} BodyFront(e: Entry, es: seq<Entry>)
    ensures Body([e] + es) == EntryWords(e) + Body(es)
  {
    var all := [e] + es;
    if es == [] {
      assert all[..0] == [] && all[0] == e && Body(all) == EntryWords(e);
    } else {
      var front, last := es[..|es| - 1], es[|es| - 1];
      assert all[..|es|] == [e] + front && all[|es|] == last;
      BodyFront(e, front);
      Assoc(EntryWords(e), Body(front), EntryWords(last));
    }
  }

  lemma {:induction false} EntriesRoundTrip(es: seq<Entry>)
    requires forall e | e in es :: GoodEntry(e)
    ensures WalkEntries(Body(es)) == Some(es)
  {
    if es != [] {
      var e, rest := es[0], es[1..];
      assert es == [e] + rest;
      BodyFront(e, rest);
      EntryRoundTrip(e);
      SplitItem(e.ty, Payload(e), Body(rest));
      EntriesRoundTrip(rest);
    }
  }

  /** Good entries only, and numbers that fit the words that hold them. */
  ghost predicate GoodLevel(l: Level) {
    0 <= l.n < 0x1_0000_0000 && 4 * |Body(l.entries)| < 0x1_0000_0000 && forall e | e in l.entries :: GoodEntry(e)
  }

  function AllClosed(ls: seq<Level>): seq<Chunk> { seq(|ls|, i requires 0 <= i < |ls| => Closed(ls[i])) }

  lemma {:induction false} ImageFront(c: Chunk, cs: seq<Chunk>)
    ensures Image([c] + cs) == ChunkWords(c) + Image(cs)
  {
    var all := [c] + cs;
    if cs == [] {
      assert all[..0] == [] && all[0] == c && Image(all) == ChunkWords(c);
    } else {
      var front, last := cs[..|cs| - 1], cs[|cs| - 1];
      assert all[..|cs|] == [c] + front && all[|cs|] == last;
      ImageFront(c, front);
      Assoc(ChunkWords(c), Image(front), ChunkWords(last));
    }
  }

  lemma LevelFirst(l: Level, cs: seq<Chunk>)
    requires GoodLevel(l)
    ensures Split(ChunkWords(Closed(l)) + Image(cs)) == Some((l.n, Body(l.entries), Image(cs)))
    ensures WalkEntries(Body(l.entries)) == Some(l.entries)
  {
    var body := Body(l.entries);
    SplitItem(l.n, body, Image(cs));
    assert ChunkWords(Closed(l)) == [l.n, Low32(4 * |body|)] + body;
    EntriesRoundTrip(l.entries);
  }

  /** Walking an image by its lengths gives back the levels and their entries, in order. */
  lemma {:induction false} LevelsRoundTrip(ls: seq<Level>)
    requires forall l | l in ls :: GoodLevel(l)
    ensures WalkLevels(Image(AllClosed(ls))) == Some(ls)
  {
    if ls == [] {
      assert AllClosed(ls) == [];
    } else {
      var l, rest := ls[0], ls[1..];
      assert ls == [l] + rest && GoodLevel(l);
      assert AllClosed(ls) == [Closed(l)] + AllClosed(rest);
      ImageFront(Closed(l), AllClosed(rest));
      LevelFirst(l, AllClosed(rest));
      LevelsRoundTrip(rest);
    }
  }
}
