/**
 The NBI preclassifier memory as the microengine sees it: burst copies that
 swap the two words of every 64-bit pair, and the two-copy "table set" write.
 Memory is a sequence of 32-bit words and all addresses and sizes are counted
 in words: byte address `a` is word `a / 4`.
 */
module NbiMemory {
  import opened Common

  /** Words of the preclassifier address space that the tables use. */
  const NBI_WORDS: nat := 0xE4000

  /** Number of polls of the table-set register before giving up. */
  const POLL_TIMEOUT: nat := 100

  /** `mem` with `data` written at word `at`. */
  function Splice(mem: seq<Word>, at: nat, data: seq<Word>): (r: seq<Word>)
    requires at + |data| <= |mem|
    ensures |r| == |mem|
    ensures forall i :: 0 <= i < |mem| ==>
      r[i] == if at <= i < at + |data| then data[i - at] else mem[i]
  {
    mem[..at] + data + mem[at + |data|..]
  }

  /** The image that a run of 64-bit pairs leaves in NBI memory. */
  function SwapPairs(ws: seq<Word>): (r: seq<Word>)
    requires |ws| % 2 == 0
    ensures |r| == |ws|
    ensures forall i :: 0 <= i < |ws| ==> r[i] == ws[if i % 2 == 0 then i + 1 else i - 1]
  {
    seq(|ws|, i requires 0 <= i < |ws| => ws[if i % 2 == 0 then i + 1 else i - 1])
  }

  lemma SwapPairsInvolutive(ws: seq<Word>)
    requires |ws| % 2 == 0
    ensures SwapPairs(SwapPairs(ws)) == ws
  {
    forall i | 0 <= i < |ws| ensures SwapPairs(SwapPairs(ws))[i] == ws[i] {
      var j := if i % 2 == 0 then i + 1 else i - 1;
      assert SwapPairs(ws)[j] == ws[i];
    }
  }

  lemma SwapPairsAppend(a: seq<Word>, b: seq<Word>)
    requires |a| % 2 == 0 && |b| % 2 == 0
    ensures SwapPairs(a + b) == SwapPairs(a) + SwapPairs(b)
  {
  }

  lemma SliceSplit(s: seq<Word>, a: nat, b: nat, c: nat)
    requires a <= b <= c <= |s|
    ensures s[a..c] == s[a..b] + s[b..c]
  {
  }

  lemma SpliceAppend(mem: seq<Word>, at: nat, a: seq<Word>, b: seq<Word>)
    requires at + |a| + |b| <= |mem|
    ensures Splice(Splice(mem, at, a), at + |a|, b) == Splice(mem, at, a + b)
  {
  }

  /** Whatever was copied in, by any width, is what any width reads back. */
  lemma CopyRoundTrip(mem: seq<Word>, at: nat, ws: seq<Word>)
    requires |ws| % 2 == 0 && at + |ws| <= |mem|
    ensures SwapPairs(Splice(mem, at, SwapPairs(ws))[at..at + |ws|]) == ws
  {
    assert Splice(mem, at, SwapPairs(ws))[at..at + |ws|] == SwapPairs(ws);
    SwapPairsInvolutive(ws);
  }

  /** The memory after a table-set write: the shadow copy first, then the other. */
  function TableWrite(mem: seq<Word>, secondaryActive: bool, pri: nat, sec: nat, ws: seq<Word>): (r: seq<Word>)
    requires |ws| % 2 == 0 && pri + |ws| <= |mem| && sec + |ws| <= |mem|
    ensures |r| == |mem|
  {
    var image := SwapPairs(ws);
    if secondaryActive then Splice(Splice(mem, pri, image), sec, image)
    else Splice(Splice(mem, sec, image), pri, image)
  }

  predicate Apart(a: nat, alen: nat, b: nat, blen: nat) {
    a + alen <= b || b + blen <= a
  }

  /** Both copies of the entry read back as written. */
  lemma TableWriteBothCopies(mem: seq<Word>, secondaryActive: bool, pri: nat, sec: nat, ws: seq<Word>)
    requires |ws| % 2 == 0 && pri + |ws| <= |mem| && sec + |ws| <= |mem|
    requires pri == sec || Apart(pri, |ws|, sec, |ws|)
    ensures SwapPairs(TableWrite(mem, secondaryActive, pri, sec, ws)[pri..pri + |ws|]) == ws
    ensures SwapPairs(TableWrite(mem, secondaryActive, pri, sec, ws)[sec..sec + |ws|]) == ws
  {
    var r := TableWrite(mem, secondaryActive, pri, sec, ws);
    assert r[pri..pri + |ws|] == SwapPairs(ws);
    assert r[sec..sec + |ws|] == SwapPairs(ws);
    SwapPairsInvolutive(ws);
  }

  /** A range apart from both copies is untouched. */
  lemma TableWriteFrame(mem: seq<Word>, secondaryActive: bool, pri: nat, sec: nat, ws: seq<Word>, from: nat, len: nat)
    requires |ws| % 2 == 0 && pri + |ws| <= |mem| && sec + |ws| <= |mem| && from + len <= |mem|
    requires Apart(from, len, pri, |ws|) && Apart(from, len, sec, |ws|)
    ensures TableWrite(mem, secondaryActive, pri, sec, ws)[from..from + len] == mem[from..from + len]
  {
  }

  lemma NextBurst(idx: nat, n: nat, w: nat)
    requires w in {2, 4, 8} && idx % w == 0 && n % w == 0
    ensures idx % 2 == 0
    ensures idx < n ==> idx + w <= n && (idx + w) % w == 0
  {
  }

  class Nbi {
    var mem: seq<Word>
    var secondaryActive: bool  // the ACTIVE bit of the table-set register

    constructor ()
      ensures mem == seq(NBI_WORDS, _ => 0) && !secondaryActive
    {
      mem, secondaryActive := seq(NBI_WORDS, _ => 0), false;
    }

    /** Fills the transfer registers of one command, swapping each pair. */
    static method FillBurst(data: array<Word>, lmem: seq<Word>, from: nat)
      requires data.Length % 2 == 0 && from + data.Length <= |lmem|
      modifies data
      ensures data[..] == SwapPairs(lmem[from..from + data.Length])
    {
      var k := 0;
      while k < data.Length
        invariant 0 <= k <= data.Length && k % 2 == 0
        invariant forall i :: 0 <= i < k ==> data[i] == lmem[from + if i % 2 == 0 then i + 1 else i - 1]
      {
        data[k + 1] := lmem[from + k];
        data[k] := lmem[from + k + 1];
        k := k + 2;
      }
    }

    /**
     Copies `n` words of local memory into the NBI, `w` words to a command;
     the 64-, 128- and 256-bit copies are `w` = 2, 4 and 8. Transfer register
     k of a command lands k words after the command's address.
     */
    method CopyFromLmem(w: nat, at: nat, lmem: seq<Word>, n: nat)
      requires w in {2, 4, 8} && n % w == 0 && n % 2 == 0
      requires n <= |lmem| && at + n <= |mem|
      modifies this`mem
      ensures mem == Splice(old(mem), at, SwapPairs(lmem[..n]))
    {
      var data := new Word[w];
      var idx := 0;
      while idx < n
        invariant idx <= n && idx % w == 0 && idx % 2 == 0
        invariant mem == Splice(old(mem), at, SwapPairs(lmem[..idx]))
      {
        NextBurst(idx, n, w);
        FillBurst(data, lmem, idx);
        mem := Splice(mem, at + idx, data[..]);
        SwapPairsAppend(lmem[..idx], lmem[idx..idx + w]);
        SpliceAppend(old(mem), at, SwapPairs(lmem[..idx]), data[..]);
        assert lmem[..idx + w] == lmem[..idx] + lmem[idx..idx + w];
        idx := idx + w;
        NextBurst(idx, n, w);
      }
    }

    /** Reads `n` words back into local memory, undoing the pair swap. */
    method CopyToLmem(w: nat, at: nat, n: nat) returns (lmem: seq<Word>)
      requires w in {2, 4, 8} && n % w == 0 && n % 2 == 0 && at + n <= |mem|
      ensures lmem == SwapPairs(mem[at..at + n])
    {
      lmem := [];
      var data := new Word[w];
      while |lmem| < n
        invariant |lmem| <= n && |lmem| % w == 0 && |lmem| % 2 == 0
        invariant lmem == SwapPairs(mem[at..at + |lmem|])
      {
        var idx := |lmem|;
        NextBurst(idx, n, w);
        FillBurst(data, mem, at + idx);
        SwapPairsAppend(mem[at..at + idx], mem[at + idx..at + idx + w]);
        SliceSplit(mem, at, at + idx, at + idx + w);
        lmem := lmem + data[..];
        NextBurst(|lmem|, n, w);
      }
    }

    /**
     Writes an entry with the table-set mechanism: the shadow copy, the switch,
     a bounded poll for readers of the old copy, then the old copy.
     */
    method TableCopyFromLmem(pri: nat, sec: nat, lmem: seq<Word>)
      requires |lmem| % 4 == 0 && pri + |lmem| <= |mem| && sec + |lmem| <= |mem|
      modifies this
      ensures mem == TableWrite(old(mem), old(secondaryActive), pri, sec, lmem)
      ensures secondaryActive == !old(secondaryActive)
    {
      var tableSet := secondaryActive;
      var shadow, other := if tableSet then pri else sec, if tableSet then sec else pri;
      assert lmem[..|lmem|] == lmem;
      CopyFromLmem(4, shadow, lmem, |lmem|);
      secondaryActive := !tableSet;
      var i := 0;
      while i < POLL_TIMEOUT
      {
        var inUse: bool := *;  // CHINUSE or PEINUSE of the old copy
        if !inUse { break; }
        i := i + 1;
      }
      if pri != sec {
        CopyFromLmem(4, other, lmem, |lmem|);
      }
    }
  }
}
