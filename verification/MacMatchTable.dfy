/**
 The Catamaran MAC match table: 1024 buckets of two (MAC, result) slots, kept
 in both table-set copies of the preclassifier shared memory. The CLS hash that
 selects a bucket is any function from MACs to bucket numbers.
 */
module MacMatchTable {
  import opened Common
  import opened NbiMemory

  const TABLE_SIZE: nat := 1024

  type Index = i: int | 0 <= i < 1024
  type Hash = Mac -> Index

  /** The 16-byte table entry, field by field. */
  datatype Entry = Entry(hi1: Word, lo1: Half, res1: Half, hi0: Word, lo0: Half, res0: Half) {
    function Mac0(): Mac { hi0 * 0x1_0000 + lo0 }
    function Mac1(): Mac { hi1 * 0x1_0000 + lo1 }
  }

  function Hi(mac: Mac): Word { mac / 0x1_0000 }
  function Lo(mac: Mac): Half { mac % 0x1_0000 }

  function FromRaw(raw: seq<Word>): Entry
    requires |raw| == 4
  {
    Entry(raw[0], raw[1] / 0x1_0000, raw[1] % 0x1_0000, raw[2], raw[3] / 0x1_0000, raw[3] % 0x1_0000)
  }

  function ToRaw(e: Entry): (raw: seq<Word>)
    ensures |raw| == 4 && FromRaw(raw) == e
  {
    [e.hi1, e.lo1 * 0x1_0000 + e.res1, e.hi0, e.lo0 * 0x1_0000 + e.res0]
  }

  /** Each half of an entry is 64 bits, the MAC above the result; the second MAC's half comes first. */
  lemma RawLayout(e: Entry)
    ensures var raw := ToRaw(e);
      && 0x1_0000_0000 * (raw[0] as int) + raw[1] == 0x1_0000 * (e.Mac1() as int) + e.res1
      && 0x1_0000_0000 * (raw[2] as int) + raw[3] == 0x1_0000 * (e.Mac0() as int) + e.res0
  {
  }

  // ---- One bucket ----

  predicate Hit0(e: Entry, mac: Mac) {
    Hi(mac) == e.hi0 && Lo(mac) == e.lo0 && e.res0 != 0
  }

  predicate Hit1(e: Entry, mac: Mac) {
    Hi(mac) == e.hi1 && Lo(mac) == e.lo1 && e.res1 != 0
  }

  /** The result stored for `mac`, or 0 when the bucket does not hold it. */
  function EntryGet(e: Entry, mac: Mac): Half {
    if Hit0(e, mac) then e.res0 else if Hit1(e, mac) then e.res1 else 0
  }

  function EntryAdd(e: Entry, mac: Mac, res: Half): (Entry, bool) {
    if Hit0(e, mac) then (e.(res0 := res), true)
    else if Hit1(e, mac) then (e.(res1 := res), true)
    else if e.hi0 == 0 && e.lo0 == 0 && e.res0 == 0 then
      (e.(hi0 := Hi(mac), lo0 := Lo(mac), res0 := res), true)
    else if e.hi1 == 0 && e.lo1 == 0 && e.res1 == 0 then
      (e.(hi1 := Hi(mac), lo1 := Lo(mac), res1 := res), true)
    else (e, false)
  }

  function EntryRemove(e: Entry, mac: Mac): (Entry, bool) {
    if Hit0(e, mac) then (e.(hi0 := 0, lo0 := 0, res0 := 0), true)
    else if Hit1(e, mac) then (e.(hi1 := 0, lo1 := 0, res1 := 0), true)
    else (e, false)
  }

  /** Live slots hash to their bucket and differ; free slots are all zero. */
  ghost predicate WfEntry(e: Entry, k: Index, h: Hash) {
    && (if e.res0 != 0 then h(e.Mac0()) == k else e.hi0 == 0 && e.lo0 == 0)
    && (if e.res1 != 0 then h(e.Mac1()) == k else e.hi1 == 0 && e.lo1 == 0)
    && (e.res0 != 0 && e.res1 != 0 ==> e.Mac0() != e.Mac1())
  }

  ghost predicate Full(e: Entry) {
    e.res0 != 0 && e.res1 != 0
  }

  lemma EntryAddEffect(e: Entry, k: Index, h: Hash, mac: Mac, res: Half)
    requires WfEntry(e, k, h) && h(mac) == k && res != 0
    ensures WfEntry(EntryAdd(e, mac, res).0, k, h)
    ensures EntryAdd(e, mac, res).1 <==> !(EntryGet(e, mac) == 0 && Full(e))
    ensures forall m: Mac ::
      EntryGet(EntryAdd(e, mac, res).0, m) == if m == mac && EntryAdd(e, mac, res).1 then res else EntryGet(e, m)
  {
    forall m: Mac ensures Hi(m) == Hi(mac) && Lo(m) == Lo(mac) ==> m == mac {
    }
  }

  lemma EntryRemoveEffect(e: Entry, k: Index, h: Hash, mac: Mac)
    requires WfEntry(e, k, h)
    ensures WfEntry(EntryRemove(e, mac).0, k, h)
    ensures EntryRemove(e, mac).1 <==> EntryGet(e, mac) != 0
    ensures forall m: Mac :: EntryGet(EntryRemove(e, mac).0, m) == if m == mac then 0 else EntryGet(e, m)
  {
    forall m: Mac ensures Hi(m) == Hi(mac) && Lo(m) == Lo(mac) ==> m == mac {
    }
  }

  // ---- The whole table ----

  type Table = t: seq<Entry> | |t| == TABLE_SIZE
    witness seq(TABLE_SIZE, _ => Entry(0, 0, 0, 0, 0, 0))

  const EMPTY_TABLE: Table := seq(TABLE_SIZE, _ => Entry(0, 0, 0, 0, 0, 0))

  function Get(t: Table, h: Hash, mac: Mac): Half {
    EntryGet(t[h(mac)], mac)
  }

  function TableAdd(t: Table, h: Hash, mac: Mac, res: Half): (Table, bool) {
    var (e, ok) := EntryAdd(t[h(mac)], mac, res);
    (t[h(mac) := e], ok)
  }

  function TableRemove(t: Table, h: Hash, mac: Mac): (Table, bool) {
    var (e, ok) := EntryRemove(t[h(mac)], mac);
    (t[h(mac) := e], ok)
  }

  ghost predicate Wf(t: Table, h: Hash) {
    forall k: Index :: WfEntry(t[k], k, h)
  }

  lemma TableAddEffect(t: Table, h: Hash, mac: Mac, res: Half)
    requires Wf(t, h) && res != 0
    ensures Wf(TableAdd(t, h, mac, res).0, h)
    ensures TableAdd(t, h, mac, res).1 <==> !(Get(t, h, mac) == 0 && Full(t[h(mac)]))
    ensures forall m: Mac ::
      Get(TableAdd(t, h, mac, res).0, h, m) == if m == mac && TableAdd(t, h, mac, res).1 then res else Get(t, h, m)
  {
    EntryAddEffect(t[h(mac)], h(mac), h, mac, res);
  }

  lemma TableRemoveEffect(t: Table, h: Hash, mac: Mac)
    requires Wf(t, h)
    ensures Wf(TableRemove(t, h, mac).0, h)
    ensures TableRemove(t, h, mac).1 <==> Get(t, h, mac) != 0
    ensures forall m: Mac :: Get(TableRemove(t, h, mac).0, h, m) == if m == mac then 0 else Get(t, h, m)
  {
    EntryRemoveEffect(t[h(mac)], h(mac), h, mac);
  }

  // ---- Refinement: a finite map with at most two keys to a hash value ----

  ghost function Sharing(m: map<Mac, Half>, h: Hash, k: Index): set<Mac> {
    set mac | mac in m && h(mac) == k
  }

  datatype Op = Add(mac: Mac, res: Half) | Remove(mac: Mac)

  ghost predicate Legal(op: Op) {
    op.Add? ==> op.res != 0
  }

  ghost function MapStep(m: map<Mac, Half>, h: Hash, op: Op): (map<Mac, Half>, bool) {
    match op
    case Add(mac, res) =>
      if mac in m || |Sharing(m, h, h(mac))| < 2 then (m[mac := res], true) else (m, false)
    case Remove(mac) => (m - {mac}, mac in m)
  }

  ghost function TableStep(t: Table, h: Hash, op: Op): (Table, bool) {
    match op
    case Add(mac, res) => TableAdd(t, h, mac, res)
    case Remove(mac) => TableRemove(t, h, mac)
  }

  ghost predicate Represents(t: Table, h: Hash, m: map<Mac, Half>) {
    && Wf(t, h)
    && forall mac: Mac :: Get(t, h, mac) == if mac in m then m[mac] else 0
  }

  ghost predicate NonZero(m: map<Mac, Half>) {
    forall mac | mac in m :: m[mac] != 0
  }

  ghost function LiveMacs(e: Entry): set<Mac> {
    (if e.res0 != 0 then {e.Mac0()} else {}) + (if e.res1 != 0 then {e.Mac1()} else {})
  }

  lemma LiveIsGet(e: Entry, mac: Mac)
    ensures mac in LiveMacs(e) <==> EntryGet(e, mac) != 0
  {
    assert Hi(e.Mac0()) == e.hi0 && Lo(e.Mac0()) == e.lo0 && Hi(e.Mac1()) == e.hi1 && Lo(e.Mac1()) == e.lo1;
    assert Hi(mac) * 0x1_0000 + Lo(mac) == mac;
  }

  /** The live slots of a bucket are exactly the keys that share its hash value. */
  lemma LiveIsSharing(t: Table, h: Hash, m: map<Mac, Half>, k: Index)
    requires Represents(t, h, m) && NonZero(m)
    ensures LiveMacs(t[k]) == Sharing(m, h, k)
  {
    assert WfEntry(t[k], k, h);
    forall mac: Mac ensures mac in LiveMacs(t[k]) <==> mac in Sharing(m, h, k) {
      LiveIsGet(t[k], mac);
      assert Get(t, h, mac) == if mac in m then m[mac] else 0;
    }
  }

  lemma FullIsTwoKeys(t: Table, h: Hash, m: map<Mac, Half>, k: Index)
    requires Represents(t, h, m) && NonZero(m)
    ensures Full(t[k]) <==> |Sharing(m, h, k)| >= 2
  {
    LiveIsSharing(t, h, m, k);
    var e := t[k];
    assert WfEntry(e, k, h);
    if Full(e) {
      assert LiveMacs(e) == {e.Mac0(), e.Mac1()};
    }
  }

  lemma StepRefines(t: Table, h: Hash, m: map<Mac, Half>, op: Op)
    requires Represents(t, h, m) && NonZero(m) && Legal(op)
    ensures TableStep(t, h, op).1 == MapStep(m, h, op).1
    ensures Represents(TableStep(t, h, op).0, h, MapStep(m, h, op).0) && NonZero(MapStep(m, h, op).0)
  {
    match op
    case Add(mac, res) =>
      FullIsTwoKeys(t, h, m, h(mac));
      TableAddEffect(t, h, mac, res);
    case Remove(mac) =>
      TableRemoveEffect(t, h, mac);
  }

  ghost function RunTable(t: Table, h: Hash, ops: seq<Op>): (Table, seq<bool>)
    decreases |ops|
  {
    if ops == [] then (t, []) else
    var (t', ok) := TableStep(t, h, ops[0]);
    var (t'', oks) := RunTable(t', h, ops[1..]);
    (t'', [ok] + oks)
  }

  ghost function RunMap(m: map<Mac, Half>, h: Hash, ops: seq<Op>): (map<Mac, Half>, seq<bool>)
    decreases |ops|
  {
    if ops == [] then (m, []) else
    var (m', ok) := MapStep(m, h, ops[0]);
    var (m'', oks) := RunMap(m', h, ops[1..]);
    (m'', [ok] + oks)
  }

  /**
   For any hash function and any run of adds with non-zero results and removes,
   the table is the map, and every call reports what the map reports.
   */
  lemma {:induction false} RunRefines(t: Table, h: Hash, m: map<Mac, Half>, ops: seq<Op>)
    requires Represents(t, h, m) && NonZero(m)
    requires forall op | op in ops :: Legal(op)
    ensures RunTable(t, h, ops).1 == RunMap(m, h, ops).1
    ensures Represents(RunTable(t, h, ops).0, h, RunMap(m, h, ops).0)
    decreases |ops|
  {
    if ops != [] {
      StepRefines(t, h, m, ops[0]);
      RunRefines(TableStep(t, h, ops[0]).0, h, MapStep(m, h, ops[0]).0, ops[1..]);
    }
  }

  lemma EmptyRepresents(h: Hash)
    ensures Represents(EMPTY_TABLE, h, map[])
  {
  }

  /** From the empty table: after any such run, get is lookup in the map and every call reported what the map does. */
  lemma RunIsMap(h: Hash, ops: seq<Op>, mac: Mac)
    requires forall op | op in ops :: Legal(op)
    ensures RunTable(EMPTY_TABLE, h, ops).1 == RunMap(map[], h, ops).1
    ensures var t, m := RunTable(EMPTY_TABLE, h, ops).0, RunMap(map[], h, ops).0;
      Wf(t, h) && Get(t, h, mac) == if mac in m then m[mac] else 0
  {
    EmptyRepresents(h);
    RunRefines(EMPTY_TABLE, h, map[], ops);
  }

  /** In a well-formed table no MAC occupies two slots. */
  lemma StoredOnce(t: Table, h: Hash, mac: Mac, k: Index, j: Index)
    requires Wf(t, h)
    requires Hit0(t[k], mac) || Hit1(t[k], mac)
    requires Hit0(t[j], mac) || Hit1(t[j], mac)
    ensures k == j == h(mac) && !(Hit0(t[k], mac) && Hit1(t[k], mac))
  {
    assert WfEntry(t[k], k, h) && WfEntry(t[j], j, h);
    assert forall m: Mac, n: Mac {:trigger Hi(m), Hi(n)} :: Hi(m) == Hi(n) && Lo(m) == Lo(n) ==> m == n;
    assert Hi(t[k].Mac0()) == t[k].hi0 && Hi(t[k].Mac1()) == t[k].hi1;
    assert Hi(t[j].Mac0()) == t[j].hi0 && Hi(t[j].Mac1()) == t[j].hi1;
  }

  // ---- The table in preclassifier memory ----

  function PriAddr(k: Index): nat { 0xE0000 + 4 * (0x800 + k) }
  function SecAddr(k: Index): nat { 0xE0000 + 4 * (0xC00 + k) }

  function EntryAt(mem: seq<Word>, at: nat): Entry
    requires at + 4 <= |mem|
  {
    FromRaw(SwapPairs(mem[at..at + 4]))
  }

  /** The primary copy of the table. */
  function Buckets(mem: seq<Word>): Table
    requires |mem| == NBI_WORDS
  {
    seq(TABLE_SIZE, k requires 0 <= k < TABLE_SIZE => EntryAt(mem, PriAddr(k)))
  }

  /** Between writes the two copies of every bucket agree. */
  ghost predicate Mirrored(mem: seq<Word>)
    requires |mem| == NBI_WORDS
  {
    forall k: Index :: EntryAt(mem, SecAddr(k)) == EntryAt(mem, PriAddr(k))
  }

  lemma WriteOtherBucket(mem: seq<Word>, secondaryActive: bool, k: Index, e: Entry, j: Index)
    requires |mem| == NBI_WORDS && j != k
    ensures var r := TableWrite(mem, secondaryActive, PriAddr(k), SecAddr(k), ToRaw(e));
      && EntryAt(r, PriAddr(j)) == EntryAt(mem, PriAddr(j))
      && EntryAt(r, SecAddr(j)) == EntryAt(mem, SecAddr(j))
  {
    TableWriteFrame(mem, secondaryActive, PriAddr(k), SecAddr(k), ToRaw(e), PriAddr(j), 4);
    TableWriteFrame(mem, secondaryActive, PriAddr(k), SecAddr(k), ToRaw(e), SecAddr(j), 4);
  }

  lemma WriteOwnBucket(mem: seq<Word>, secondaryActive: bool, k: Index, e: Entry)
    requires |mem| == NBI_WORDS
    ensures var r := TableWrite(mem, secondaryActive, PriAddr(k), SecAddr(k), ToRaw(e));
      EntryAt(r, PriAddr(k)) == EntryAt(r, SecAddr(k)) == e
  {
    TableWriteBothCopies(mem, secondaryActive, PriAddr(k), SecAddr(k), ToRaw(e));
  }

  /** Storing a bucket through the table set replaces it in both copies and nothing else. */
  lemma WriteBucket(mem: seq<Word>, secondaryActive: bool, k: Index, e: Entry)
    requires |mem| == NBI_WORDS
    ensures var r := TableWrite(mem, secondaryActive, PriAddr(k), SecAddr(k), ToRaw(e));
      && Buckets(r) == Buckets(mem)[k := e]
      && (Mirrored(mem) ==> Mirrored(r))
  {
    WriteOwnBucket(mem, secondaryActive, k, e);
    forall j: Index | j != k {
      WriteOtherBucket(mem, secondaryActive, k, e, j);
    }
  }

  /** catamaran_mac_match_table_get: the result, or -1. */
  method LookUp(nbi: Nbi, h: Hash, mac: Mac) returns (match_: int)
    requires |nbi.mem| == NBI_WORDS
    ensures var r := Get(Buckets(nbi.mem), h, mac); match_ == if r == 0 then -1 else r
  {
    match_ := -1;
    var raw := nbi.CopyToLmem(4, PriAddr(h(mac)), 4);
    var e := FromRaw(raw);
    if Hi(mac) == e.hi0 && Lo(mac) == e.lo0 && e.res0 != 0 {
      match_ := e.res0;
    } else if Hi(mac) == e.hi1 && Lo(mac) == e.lo1 && e.res1 != 0 {
      match_ := e.res1;
    }
  }

  method StoreBucket(nbi: Nbi, k: Index, e: Entry)
    requires |nbi.mem| == NBI_WORDS && Mirrored(nbi.mem)
    modifies nbi
    ensures |nbi.mem| == NBI_WORDS && Mirrored(nbi.mem)
    ensures Buckets(nbi.mem) == old(Buckets(nbi.mem))[k := e]
  {
    WriteBucket(nbi.mem, nbi.secondaryActive, k, e);
    nbi.TableCopyFromLmem(PriAddr(k), SecAddr(k), ToRaw(e));
  }

  /** catamaran_mac_match_table_add: 0, or -1 when the bucket has no room. */
  method AddEntry(nbi: Nbi, h: Hash, mac: Mac, res: Half) returns (available: int)
    requires |nbi.mem| == NBI_WORDS && Mirrored(nbi.mem)
    modifies nbi
    ensures |nbi.mem| == NBI_WORDS && Mirrored(nbi.mem)
    ensures var (t, ok) := TableAdd(old(Buckets(nbi.mem)), h, mac, res);
      Buckets(nbi.mem) == t && available == if ok then 0 else -1
  {
    available := -1;
    var k := h(mac);
    var raw := nbi.CopyToLmem(4, PriAddr(k), 4);
    var e := FromRaw(raw);
    assert Buckets(nbi.mem)[k] == e;
    if Hi(mac) == e.hi0 && Lo(mac) == e.lo0 && e.res0 != 0 {
      StoreBucket(nbi, k, e.(res0 := res));
      available := 0;
    } else if Hi(mac) == e.hi1 && Lo(mac) == e.lo1 && e.res1 != 0 {
      StoreBucket(nbi, k, e.(res1 := res));
      available := 0;
    } else if e.hi0 == 0 && e.lo0 == 0 && e.res0 == 0 {
      StoreBucket(nbi, k, e.(hi0 := Hi(mac), lo0 := Lo(mac), res0 := res));
      available := 0;
    } else if e.hi1 == 0 && e.lo1 == 0 && e.res1 == 0 {
      StoreBucket(nbi, k, e.(hi1 := Hi(mac), lo1 := Lo(mac), res1 := res));
      available := 0;
    }
  }

  /** catamaran_mac_match_table_remove: 0, or -1 when the MAC is not there. */
  method RemoveEntry(nbi: Nbi, h: Hash, mac: Mac) returns (match_: int)
    requires |nbi.mem| == NBI_WORDS && Mirrored(nbi.mem)
    modifies nbi
    ensures |nbi.mem| == NBI_WORDS && Mirrored(nbi.mem)
    ensures var (t, ok) := TableRemove(old(Buckets(nbi.mem)), h, mac);
      Buckets(nbi.mem) == t && match_ == if ok then 0 else -1
  {
    match_ := -1;
    var k := h(mac);
    var raw := nbi.CopyToLmem(4, PriAddr(k), 4);
    var e := FromRaw(raw);
    assert Buckets(nbi.mem)[k] == e;
    if Hi(mac) == e.hi0 && Lo(mac) == e.lo0 && e.res0 != 0 {
      StoreBucket(nbi, k, e.(hi0 := 0, lo0 := 0, res0 := 0));
      match_ := 0;
    } else if Hi(mac) == e.hi1 && Lo(mac) == e.lo1 && e.res1 != 0 {
      StoreBucket(nbi, k, e.(hi1 := 0, lo1 := 0, res1 := 0));
      match_ := 0;
    }
  }
}
