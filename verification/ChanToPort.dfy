/**
 The channel-to-port table: 128 channels, eight to a 16-byte block, two bytes
 to a channel, kept in both table-set copies of the preclassifier local memory.
 */
module ChanToPort {
  import opened Common
  import opened NbiMemory

  const NUM_CHANS: nat := 128
  const MODE_MAC_DA_MATCH: Byte := 3

  datatype Chan = Chan(port: Byte, mode: Byte)

  // ---- Bytes of a block ----

  function Join(b0: Byte, b1: Byte, b2: Byte, b3: Byte): Word {
    b0 + 0x100 * b1 + 0x1_0000 * b2 + 0x100_0000 * b3
  }

  function WordByte(w: Word, k: nat): Byte
    requires k < 4
  {
    if k == 0 then w % 256
    else if k == 1 then (w / 0x100) % 256
    else if k == 2 then (w / 0x1_0000) % 256
    else w / 0x100_0000
  }

  lemma JoinSplit(b0: Byte, b1: Byte, b2: Byte, b3: Byte)
    ensures var w := Join(b0, b1, b2, b3);
      WordByte(w, 0) == b0 && WordByte(w, 1) == b1 && WordByte(w, 2) == b2 && WordByte(w, 3) == b3
  {
    var w := Join(b0, b1, b2, b3);
    assert w / 0x100 == b1 + 0x100 * b2 + 0x1_0000 * b3;
    assert w / 0x1_0000 == b2 + 0x100 * b3;
  }

  /** Byte `k` of a word replaced, the other three kept. */
  function SetWordByte(w: Word, k: nat, v: Byte): (r: Word)
    requires k < 4
    ensures forall j: nat | j < 4 :: WordByte(r, j) == if j == k then v else WordByte(w, j)
  {
    var b0, b1, b2, b3 := WordByte(w, 0), WordByte(w, 1), WordByte(w, 2), WordByte(w, 3);
    var c0, c1 := if k == 0 then v else b0, if k == 1 then v else b1;
    var c2, c3 := if k == 2 then v else b2, if k == 3 then v else b3;
    JoinSplit(c0, c1, c2, c3);
    Join(c0, c1, c2, c3)
  }

  function ByteAt(data: seq<Word>, off: nat): Byte
    requires |data| == 4 && off < 16
  {
    WordByte(data[off / 4], off % 4)
  }

  function PutByte(data: seq<Word>, off: nat, v: Byte): (r: seq<Word>)
    requires |data| == 4 && off < 16
    ensures |r| == 4
    ensures forall o: nat | o < 16 :: ByteAt(r, o) == if o == off then v else ByteAt(data, o)
  {
    data[off / 4 := SetWordByte(data[off / 4], off % 4, v)]
  }

  /** The nibble `2 * chan` xor 0xf, and xor 0xe: the bytes run from the end of the block. */
  function PortOff(chan: nat): nat { 15 - (2 * chan) % 16 }
  function ModeOff(chan: nat): nat { 14 - (2 * chan) % 16 }

  function ChanIn(data: seq<Word>, c: nat): Chan
    requires |data| == 4 && c < 8
  {
    Chan(ByteAt(data, PortOff(c)), ByteAt(data, ModeOff(c)))
  }

  lemma OffsetsDistinct(c: nat, d: nat)
    requires c < 8 && d < 8
    ensures PortOff(c) < 16 && ModeOff(c) < 16 && PortOff(c) != ModeOff(d)
    ensures c != d ==> PortOff(c) != PortOff(d) && ModeOff(c) != ModeOff(d)
  {
  }

  function PutChan(data: seq<Word>, c: nat, e: Chan): (r: seq<Word>)
    requires |data| == 4 && c < 8
    ensures |r| == 4
  {
    PutByte(PutByte(data, PortOff(c), e.port), ModeOff(c), e.mode)
  }

  lemma WordIsBytes(w: Word)
    ensures w == WordByte(w, 0) + 0x100 * WordByte(w, 1) + 0x1_0000 * WordByte(w, 2) + 0x100_0000 * WordByte(w, 3)
  {
    var a: int, b: int := w / 0x100, w / 0x1_0000;
    assert b == a / 0x100 && w / 0x100_0000 == b / 0x100;
    assert w == w % 256 + 0x100 * a;
    assert a == a % 256 + 0x100 * b;
    assert b == b % 256 + 0x100 * (b / 0x100);
  }

  lemma BlockBytes(data: seq<Word>, j: nat)
    requires |data| == 4 && j < 4
    ensures var odd, even := ChanIn(data, 7 - 2 * j), ChanIn(data, 6 - 2 * j);
      && odd.mode == WordByte(data[j], 0) && odd.port == WordByte(data[j], 1)
      && even.mode == WordByte(data[j], 2) && even.port == WordByte(data[j], 3)
  {
    assert ModeOff(7 - 2 * j) == 4 * j && PortOff(7 - 2 * j) == 4 * j + 1;
    assert ModeOff(6 - 2 * j) == 4 * j + 2 && PortOff(6 - 2 * j) == 4 * j + 3;
  }

  /**
   A block from its last channel to its first: each word holds an odd channel in
   its low half and the even one before it in its high half, mode below port.
   */
  lemma BlockWords(data: seq<Word>, j: nat)
    requires |data| == 4 && j < 4
    ensures var odd, even := ChanIn(data, 7 - 2 * j), ChanIn(data, 6 - 2 * j);
      data[j] == odd.mode + 0x100 * odd.port + 0x1_0000 * even.mode + 0x100_0000 * even.port
  {
    BlockBytes(data, j);
    WordIsBytes(data[j]);
  }

  /** Writing one channel of a block leaves the other seven alone. */
  lemma PutChanEffect(data: seq<Word>, c: nat, e: Chan)
    requires |data| == 4 && c < 8
    ensures forall d: nat | d < 8 :: ChanIn(PutChan(data, c, e), d) == if d == c then e else ChanIn(data, d)
  {
    forall d: nat | d < 8 ensures ChanIn(PutChan(data, c, e), d) == if d == c then e else ChanIn(data, d) {
      OffsetsDistinct(c, d);
      OffsetsDistinct(d, c);
    }
  }

  // ---- The table in preclassifier memory ----

  type Block = b: nat | b < 16

  function PriAddr(b: Block): nat { 0xC0000 + 4 * (0x1a0 + b) }
  function SecAddr(b: Block): nat { 0xC0000 + 4 * (0x1b0 + b) }

  type BlockData = d: seq<Word> | |d| == 4 witness [0, 0, 0, 0]
  const ZERO_BLOCK: BlockData := [0, 0, 0, 0]
  type Blocks = bs: seq<BlockData> | |bs| == 16 witness seq<BlockData>(16, _ => ZERO_BLOCK)

  function BlockAt(mem: seq<Word>, at: nat): BlockData
    requires at + 4 <= |mem|
  {
    SwapPairs(mem[at..at + 4])
  }

  /** The blocks of the primary copy, the one that software reads. */
  function PriBlocks(mem: seq<Word>): Blocks
    requires |mem| == NBI_WORDS
  {
    seq<BlockData>(16, b requires 0 <= b < 16 => BlockAt(mem, PriAddr(b)))
  }

  ghost predicate Mirrored(mem: seq<Word>)
    requires |mem| == NBI_WORDS
  {
    forall b: Block :: BlockAt(mem, SecAddr(b)) == BlockAt(mem, PriAddr(b))
  }

  lemma WriteOtherBlock(mem: seq<Word>, secondaryActive: bool, b: Block, data: BlockData, j: Block)
    requires |mem| == NBI_WORDS && j != b
    ensures var r := TableWrite(mem, secondaryActive, PriAddr(b), SecAddr(b), data);
      && BlockAt(r, PriAddr(j)) == BlockAt(mem, PriAddr(j))
      && BlockAt(r, SecAddr(j)) == BlockAt(mem, SecAddr(j))
  {
    TableWriteFrame(mem, secondaryActive, PriAddr(b), SecAddr(b), data, PriAddr(j), 4);
    TableWriteFrame(mem, secondaryActive, PriAddr(b), SecAddr(b), data, SecAddr(j), 4);
  }

  lemma WriteBlock(mem: seq<Word>, secondaryActive: bool, b: Block, data: BlockData)
    requires |mem| == NBI_WORDS
    ensures var r := TableWrite(mem, secondaryActive, PriAddr(b), SecAddr(b), data);
      && PriBlocks(r) == PriBlocks(mem)[b := data]
      && (Mirrored(mem) ==> Mirrored(r))
  {
    var r := TableWrite(mem, secondaryActive, PriAddr(b), SecAddr(b), data);
    TableWriteBothCopies(mem, secondaryActive, PriAddr(b), SecAddr(b), data);
    assert BlockAt(r, PriAddr(b)) == data && BlockAt(r, SecAddr(b)) == data;
    forall j: Block | j != b {
      WriteOtherBlock(mem, secondaryActive, b, data, j);
    }
  }

  /** The whole table as a sequence of 128 entries. */
  function Chans(bs: Blocks): (t: seq<Chan>)
    ensures |t| == NUM_CHANS
  {
    seq(NUM_CHANS, ch requires 0 <= ch < NUM_CHANS => ChanIn(bs[ch / 8], ch % 8))
  }

  function Put(t: seq<Chan>, start: nat, es: seq<Chan>): (r: seq<Chan>)
    requires start + |es| <= |t|
    ensures |r| == |t|
    ensures forall i | 0 <= i < |t| :: r[i] == if start <= i < start + |es| then es[i - start] else t[i]
  {
    t[..start] + es + t[start + |es|..]
  }

  lemma PutAppend(t: seq<Chan>, start: nat, a: seq<Chan>, b: seq<Chan>)
    requires start + |a| + |b| <= |t|
    ensures Put(Put(t, start, a), start + |a|, b) == Put(t, start, a + b)
  {
  }

  lemma PutInBlock(bs: Blocks, b: Block, data: BlockData, first: nat, es: seq<Chan>)
    requires first + |es| <= 8
    requires forall c: nat | c < 8 ::
      ChanIn(data, c) == if first <= c < first + |es| then es[c - first] else ChanIn(bs[b], c)
    ensures Chans(bs[b := data]) == Put(Chans(bs), 8 * b + first, es)
  {
    var t, u := Chans(bs[b := data]), Put(Chans(bs), 8 * b + first, es);
    forall ch | 0 <= ch < NUM_CHANS ensures t[ch] == u[ch] {
      assert ch == 8 * (ch / 8) + ch % 8;
    }
  }

  // ---- How many channels of a range the block loop reaches ----

  /**
   The loop takes eight off the remaining count for every block, also for a
   first block that it entered part way, so an unaligned range of several
   blocks is cut short.
   */
  function Reached(start: nat, end: nat): int {
    var cnt, first := end - start + 1, start % 8;
    if cnt <= 0 then 0
    else if start / 8 == end / 8 then cnt
    else if cnt < 8 then 8 - first
    else cnt - first
  }

  /** Exactly the ranges that start on a multiple of 8 or lie in one block are covered. */
  lemma ReachedAll(start: nat, end: nat)
    requires start <= end
    ensures Reached(start, end) == end - start + 1 <==> start % 8 == 0 || start / 8 == end / 8
    ensures 0 < Reached(start, end) <= end - start + 1
  {
  }

  /** The channel after the last one taken from a block, given the remaining count. */
  function LastChan(cnt: int, first: nat): int {
    if cnt < 8 - first then first + cnt else 8
  }

  function FirstChan(start: nat, b: nat): nat { if b == start / 8 then start % 8 else 0 }
  function Remaining(start: nat, end: nat, b: nat): int { end - start + 1 - 8 * (b - start / 8) }

  /** Channels taken from block `b`. */
  function Share(start: nat, end: nat, b: nat): nat {
    var first := FirstChan(start, b);
    var last := LastChan(Remaining(start, end, b), first);
    if last > first then last - first else 0
  }

  /** Channels taken from the blocks before `b`. */
  function ReachedBefore(start: nat, end: nat, b: nat): nat {
    if b <= start / 8 then 0 else ReachedBefore(start, end, b - 1) + Share(start, end, b - 1)
  }

  lemma {:induction false} ReachedClosed(start: nat, end: nat, b: nat)
    requires start <= end && start / 8 < b <= end / 8 + 1
    ensures ReachedBefore(start, end, b) ==
      if start / 8 == end / 8 then end - start + 1
      else if end - start + 1 < 8 then 8 - start % 8
      else if end - start + 1 - 8 < 8 * (b - start / 8 - 1) then end - start + 1 - start % 8
      else 8 * (b - start / 8) - start % 8
  {
    if b > start / 8 + 1 { ReachedClosed(start, end, b - 1); }
  }

  /** The next channel taken is the next one of the range. */
  lemma ReachedInOrder(start: nat, end: nat, b: nat)
    requires start <= end && start / 8 <= b <= end / 8
    ensures Share(start, end, b) > 0 ==> 8 * b + FirstChan(start, b) == start + ReachedBefore(start, end, b)
    ensures ReachedBefore(start, end, b) + Share(start, end, b) <= end - start + 1
    ensures ReachedBefore(start, end, end / 8 + 1) == Reached(start, end)
  {
    ReachedClosed(start, end, b + 1);
    ReachedClosed(start, end, end / 8 + 1);
    if b > start / 8 { ReachedClosed(start, end, b); }
  }

  /** Where the block loop is: the first channel of its block, the count left and the channels taken so far. */
  ghost predicate Cursor(start: nat, end: nat, block: int, first: int, cnt: int, taken: int) {
    && start / 8 <= block <= end / 8 + 1 && first == FirstChan(start, block) && cnt == Remaining(start, end, block)
    && taken == ReachedBefore(start, end, block) <= end - start + 1
  }

  lemma CursorNext(start: nat, end: nat, block: nat, first: nat, cnt: int, taken: nat)
    requires start <= end && Cursor(start, end, block, first, cnt, taken) && block <= end / 8
    ensures var last := LastChan(cnt, first);
      var share := if last > first then last - first else 0;
      && first < 8 && last <= 8 && taken + share <= end - start + 1
      && (last > first ==> start + taken == 8 * block + first)
      && Cursor(start, end, block + 1, 0, cnt - 8, taken + share)
  {
    ReachedInOrder(start, end, block);
  }

  /** Channels `first` to `last` of a block set from `entries[from..]`. */
  method FillBlock(block: seq<Word>, first: nat, last: int, entries: seq<Chan>, from: nat) returns (data: seq<Word>)
    requires |block| == 4 && first < 8 && last <= 8 && (last > first ==> from + last - first <= |entries|)
    ensures |data| == 4
    ensures forall c: nat | c < 8 ::
      ChanIn(data, c) == if first <= c < last then entries[from + c - first] else ChanIn(block, c)
  {
    data := block;
    var chan := first;
    while chan < last
      invariant first <= chan && (chan <= last || chan == first) && |data| == 4
      invariant forall c: nat | c < 8 ::
        ChanIn(data, c) == if first <= c < chan then entries[from + c - first] else ChanIn(block, c)
    {
      PutChanEffect(data, chan, entries[from + chan - first]);
      data := PutChan(data, chan, entries[from + chan - first]);
      chan := chan + 1;
    }
  }

  /** One block: read it, set the channels, write both copies. */
  method SetBlock(nbi: Nbi, b: Block, first: nat, last: int, entries: seq<Chan>, from: nat)
    requires |nbi.mem| == NBI_WORDS && Mirrored(nbi.mem)
    requires first < 8 && last <= 8 && from <= |entries| && (last > first ==> from + last - first <= |entries|)
    modifies nbi
    ensures |nbi.mem| == NBI_WORDS && Mirrored(nbi.mem)
    ensures Chans(PriBlocks(nbi.mem)) == Put(old(Chans(PriBlocks(nbi.mem))), 8 * b + first,
                                  entries[from..from + if last > first then last - first else 0])
  {
    var data := nbi.CopyToLmem(4, PriAddr(b), 4);
    data := FillBlock(data, first, last, entries, from);
    PutInBlock(PriBlocks(nbi.mem), b, data, first, entries[from..from + if last > first then last - first else 0]);
    WriteBlock(nbi.mem, nbi.secondaryActive, b, data);
    nbi.TableCopyFromLmem(PriAddr(b), SecAddr(b), data);
  }

  /** One iteration of the block loop of the set. */
  method SetNext(nbi: Nbi, start: nat, b: Block, first: nat, last: int, entries: seq<Chan>, from: nat,
    ghost t: seq<Chan>)
    returns (next: nat)
    requires |nbi.mem| == NBI_WORDS && Mirrored(nbi.mem) && |t| == NUM_CHANS
    requires first < 8 && last <= 8 && from <= |entries| && (last > first ==> from + last - first <= |entries|)
    requires start + from <= NUM_CHANS && (last > first ==> start + from == 8 * b + first)
    requires Chans(PriBlocks(nbi.mem)) == Put(t, start, entries[..from])
    modifies nbi
    ensures |nbi.mem| == NBI_WORDS && Mirrored(nbi.mem)
    ensures next == from + if last > first then last - first else 0
    ensures start + next <= NUM_CHANS && Chans(PriBlocks(nbi.mem)) == Put(t, start, entries[..next])
  {
    SetBlock(nbi, b, first, last, entries, from);
    next := from + if last > first then last - first else 0;
    if next > from {
      PutAppend(t, start, entries[..from], entries[from..next]);
      assert entries[..next] == entries[..from] + entries[from..next];
    } else {
      assert entries[from..from] == [];
    }
  }

  /** The block loop of the set. */
  method SetBlocks(nbi: Nbi, start: nat, end: nat, entries: seq<Chan>)
    requires |nbi.mem| == NBI_WORDS && Mirrored(nbi.mem)
    requires start <= end < NUM_CHANS && end - start + 1 <= |entries|
    modifies nbi
    ensures |nbi.mem| == NBI_WORDS && Mirrored(nbi.mem)
    ensures ReachedBefore(start, end, end / 8 + 1) <= end - start + 1
    ensures Chans(PriBlocks(nbi.mem))
      == Put(old(Chans(PriBlocks(nbi.mem))), start, entries[..ReachedBefore(start, end, end / 8 + 1)])
  {
    ghost var t := Chans(PriBlocks(nbi.mem));
    var cnt, first, entryCnt, block := end - start + 1, start % 8, 0, start / 8;
    while block <= end / 8
      invariant |nbi.mem| == NBI_WORDS && Mirrored(nbi.mem)
      invariant Cursor(start, end, block, first, cnt, entryCnt)
      invariant Chans(PriBlocks(nbi.mem)) == Put(t, start, entries[..entryCnt])
    {
      CursorNext(start, end, block, first, cnt, entryCnt);
      entryCnt := SetNext(nbi, start, block, first, LastChan(cnt, first), entries, entryCnt, t);
      first, cnt, block := 0, cnt - 8, block + 1;
    }
  }

  /** catamaran_chan2port_table_set: writes exactly the first `Reached` channels of the range. */
  method SetRange(nbi: Nbi, start: nat, end: nat, entries: seq<Chan>)
    requires |nbi.mem| == NBI_WORDS && Mirrored(nbi.mem)
    requires start < NUM_CHANS && end < NUM_CHANS && end - start + 1 <= |entries|
    modifies nbi
    ensures |nbi.mem| == NBI_WORDS && Mirrored(nbi.mem)
    ensures Chans(PriBlocks(nbi.mem)) == Put(old(Chans(PriBlocks(nbi.mem))), start, entries[..Reached(start, end)])
  {
    if start <= end {
      ReachedInOrder(start, end, end / 8);
      SetBlocks(nbi, start, end, entries);
    }
  }

  /** Channels `first` to `last` of a block. */
  method TakeChans(data: BlockData, first: nat, last: int) returns (es: seq<Chan>)
    requires first < 8 && last <= 8
    ensures |es| == if last > first then last - first else 0
    ensures forall i | 0 <= i < |es| :: es[i] == ChanIn(data, first + i)
  {
    es := [];
    var chan := first;
    while chan < last
      invariant first <= chan && (chan <= last || chan == first) && |es| == chan - first
      invariant forall i | 0 <= i < |es| :: es[i] == ChanIn(data, first + i)
    {
      es := es + [ChanIn(data, chan)];
      chan := chan + 1;
    }
  }

  lemma BlockSlice(bs: Blocks, b: Block, first: nat, es: seq<Chan>)
    requires first + |es| <= 8 && forall i | 0 <= i < |es| :: es[i] == ChanIn(bs[b], first + i)
    ensures Chans(bs)[8 * b + first..8 * b + first + |es|] == es
  {
    var u := Chans(bs)[8 * b + first..8 * b + first + |es|];
    forall i | 0 <= i < |es| ensures u[i] == es[i] {
      assert (8 * b + first + i) / 8 == b && (8 * b + first + i) % 8 == first + i;
    }
  }

  lemma SliceGrows(t: seq<Chan>, a: nat, b: nat, c: nat)
    requires a <= b <= c <= |t|
    ensures t[a..c] == t[a..b] + t[b..c]
  {
  }

  /** One iteration of the block loop of the get. */
  method GetNext(nbi: Nbi, start: nat, b: Block, first: nat, last: int, entries: seq<Chan>) returns (next: seq<Chan>)
    requires |nbi.mem| == NBI_WORDS && first < 8 && last <= 8 && start + |entries| <= NUM_CHANS
    requires last > first ==> start + |entries| == 8 * b + first
    requires entries == Chans(PriBlocks(nbi.mem))[start..start + |entries|]
    ensures |next| == |entries| + if last > first then last - first else 0
    ensures start + |next| <= NUM_CHANS && next == Chans(PriBlocks(nbi.mem))[start..start + |next|]
  {
    var data := nbi.CopyToLmem(4, PriAddr(b), 4);
    var es := TakeChans(data, first, last);
    next := entries + es;
    BlockSlice(PriBlocks(nbi.mem), b, first, es);
    if last > first {
      SliceGrows(Chans(PriBlocks(nbi.mem)), start, start + |entries|, start + |next|);
    }
  }

  /** The block loop of the get. */
  method GetBlocks(nbi: Nbi, start: nat, end: nat) returns (entries: seq<Chan>)
    requires |nbi.mem| == NBI_WORDS && start <= end < NUM_CHANS
    ensures |entries| == ReachedBefore(start, end, end / 8 + 1) <= end - start + 1
    ensures entries == Chans(PriBlocks(nbi.mem))[start..start + |entries|]
  {
    var cnt, first, block := end - start + 1, start % 8, start / 8;
    entries := [];
    while block <= end / 8
      invariant Cursor(start, end, block, first, cnt, |entries|)
      invariant entries == Chans(PriBlocks(nbi.mem))[start..start + |entries|]
    {
      CursorNext(start, end, block, first, cnt, |entries|);
      entries := GetNext(nbi, start, block, first, LastChan(cnt, first), entries);
      first, cnt, block := 0, cnt - 8, block + 1;
    }
  }

  /** catamaran_chan2port_table_get: fills the first `Reached` entries of the range. */
  method GetRange(nbi: Nbi, start: nat, end: nat) returns (entries: seq<Chan>)
    requires |nbi.mem| == NBI_WORDS && start < NUM_CHANS && end < NUM_CHANS
    ensures entries == Chans(PriBlocks(nbi.mem))[start..start + Reached(start, end)]
  {
    entries := [];
    if start <= end {
      ReachedInOrder(start, end, end / 8);
      entries := GetBlocks(nbi, start, end);
    }
  }

  /** Set then get returns what was written exactly when the range is aligned or lies in one block. */
  method SetThenGet(nbi: Nbi, start: nat, end: nat, entries: seq<Chan>) returns (got: seq<Chan>)
    requires |nbi.mem| == NBI_WORDS && Mirrored(nbi.mem)
    requires start <= end < NUM_CHANS && |entries| == end - start + 1
    modifies nbi
    ensures |nbi.mem| == NBI_WORDS && Mirrored(nbi.mem)
    ensures got <= entries
    ensures got == entries <==> start % 8 == 0 || start / 8 == end / 8
    ensures forall ch: nat | ch < NUM_CHANS && !(start <= ch <= end) ::
      Chans(PriBlocks(nbi.mem))[ch] == old(Chans(PriBlocks(nbi.mem)))[ch]
  {
    ReachedAll(start, end);
    SetRange(nbi, start, end, entries);
    got := GetRange(nbi, start, end);
    assert got == entries[..Reached(start, end)];
  }

  // ---- Start-up ----

  /** The channels of a port: NS_PLATFORM_MAC_CORE, _CHANNEL_LO and _CHANNEL_HI. */
  datatype PortChans = PortChans(second: bool, lo: nat, hi: nat)

  /** Entries that the code's local array holds. */
  const MAX_CHANNELS: nat := 8

  ghost predicate Usable(ports: seq<PortChans>) {
    && |ports| <= 256
    && (forall p | 0 <= p < |ports| ::
         && ports[p].lo <= ports[p].hi < NUM_CHANS && ports[p].hi - ports[p].lo < MAX_CHANNELS
         && (ports[p].lo % 8 == 0 || ports[p].lo / 8 == ports[p].hi / 8))
    && (forall p, q | 0 <= p < q < |ports| && ports[p].second == ports[q].second ::
         ports[p].hi < ports[q].lo || ports[q].hi < ports[p].lo)
  }

  ghost predicate Assigned(t: seq<Chan>, ports: seq<PortChans>, upto: nat, second: bool)
    requires |t| == NUM_CHANS && Usable(ports) && upto <= |ports|
  {
    forall p, ch | 0 <= p < upto && ports[p].second == second && ports[p].lo <= ch <= ports[p].hi ::
      t[ch] == Chan(p, MODE_MAC_DA_MATCH)
  }

  lemma AssignOne(t: seq<Chan>, ports: seq<PortChans>, port: nat, second: bool, es: seq<Chan>)
    requires |t| == NUM_CHANS && Usable(ports) && port < |ports| && Assigned(t, ports, port, second)
    requires |es| == ports[port].hi - ports[port].lo + 1
    requires forall i | 0 <= i < |es| :: es[i] == Chan(port, MODE_MAC_DA_MATCH)
    ensures Assigned(if second == ports[port].second then Put(t, ports[port].lo, es) else t, ports, port + 1, second)
  {
  }

  /** Both NBIs after the ports below `upto`, each port in the table of its own NBI. */
  ghost predicate Ready(nbi0: Nbi, nbi1: Nbi, ports: seq<PortChans>, upto: nat)
    reads nbi0, nbi1
    requires Usable(ports) && upto <= |ports|
  {
    && |nbi0.mem| == NBI_WORDS == |nbi1.mem| && Mirrored(nbi0.mem) && Mirrored(nbi1.mem)
    && Assigned(Chans(PriBlocks(nbi0.mem)), ports, upto, false)
      && Assigned(Chans(PriBlocks(nbi1.mem)), ports, upto, true)
  }

  /** The channels of one port, set in its NBI's table. */
  method SetPort(nbi: Nbi, port: Byte, lo: nat, hi: nat) returns (ghost entries: seq<Chan>)
    requires |nbi.mem| == NBI_WORDS && Mirrored(nbi.mem)
    requires lo <= hi < NUM_CHANS && (lo % 8 == 0 || lo / 8 == hi / 8)
    modifies nbi
    ensures |nbi.mem| == NBI_WORDS && Mirrored(nbi.mem)
    ensures |entries| == hi - lo + 1 && forall i | 0 <= i < |entries| :: entries[i] == Chan(port, MODE_MAC_DA_MATCH)
    ensures Chans(PriBlocks(nbi.mem)) == Put(old(Chans(PriBlocks(nbi.mem))), lo, entries)
  {
    var es := PortEntries(port, lo, hi);
    ReachedAll(lo, hi);
    SetRange(nbi, lo, hi, es);
    assert es[..|es|] == es;
    entries := es;
  }

  /** One port's turn in the loop below. */
  method InitPort(nbi0: Nbi, nbi1: Nbi, ports: seq<PortChans>, port: nat)
    requires nbi0 != nbi1 && Usable(ports) && port < |ports| && Ready(nbi0, nbi1, ports, port)
    modifies nbi0, nbi1
    ensures Ready(nbi0, nbi1, ports, port + 1)
  {
    var p := ports[port];
    ghost var t0, t1 := Chans(PriBlocks(nbi0.mem)), Chans(PriBlocks(nbi1.mem));
    ghost var entries;
    if p.second {
      entries := SetPort(nbi1, port, p.lo, p.hi);
    } else {
      entries := SetPort(nbi0, port, p.lo, p.hi);
    }
    AssignOne(t0, ports, port, false, entries);
    AssignOne(t1, ports, port, true, entries);
  }

  /** init_catamaran_chan2port_table: every channel of every port leads to that port. */
  method InitTable(nbi0: Nbi, nbi1: Nbi, ports: seq<PortChans>)
    requires nbi0 != nbi1 && |nbi0.mem| == NBI_WORDS == |nbi1.mem| && Mirrored(nbi0.mem) && Mirrored(nbi1.mem)
    requires Usable(ports)
    modifies nbi0, nbi1
    ensures |nbi0.mem| == NBI_WORDS == |nbi1.mem| && Mirrored(nbi0.mem) && Mirrored(nbi1.mem)
    ensures Assigned(Chans(PriBlocks(nbi0.mem)), ports, |ports|, false)
      && Assigned(Chans(PriBlocks(nbi1.mem)), ports, |ports|, true)
  {
    var port := 0;
    while port < |ports|
      invariant 0 <= port <= |ports| && Ready(nbi0, nbi1, ports, port)
    {
      InitPort(nbi0, nbi1, ports, port);
      port := port + 1;
    }
  }

  method PortEntries(port: Byte, lo: nat, hi: nat) returns (entries: seq<Chan>)
    requires lo <= hi
    ensures |entries| == hi - lo + 1 && forall i | 0 <= i < |entries| :: entries[i] == Chan(port, MODE_MAC_DA_MATCH)
  {
    entries := [];
    var chan := lo;
    while chan <= hi
      invariant lo <= chan <= hi + 1 && |entries| == chan - lo
      invariant forall i | 0 <= i < |entries| :: entries[i] == Chan(port, MODE_MAC_DA_MATCH)
    {
      entries := entries + [Chan(port, MODE_MAC_DA_MATCH)];
      chan := chan + 1;
    }
  }
}
