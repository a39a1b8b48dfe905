/**
 Index arithmetic of the load-balance table: which buffer pool, sequencer and
 target a table entry stands for, given how many there are of each.
 */
module LoadBalance {

  datatype Counts = Counts(bps: nat, seqs: nat, tnfps: nat) {
    ghost predicate Valid() { bps > 0 && seqs > 0 && tnfps > 0 }

    /** Entries in one full round of the three counters. */
    function Round(): nat { tnfps * seqs * bps }

    function SeqPreIdx(entry: nat): nat
      requires Valid()
    {
      entry / bps
    }

    function TnfpPreIdx(entry: nat): nat
      requires Valid()
    {
      SeqPreIdx(entry) / seqs
    }

    function XtraPreIdx(entry: nat): nat
      requires Valid()
    {
      TnfpPreIdx(entry) / tnfps
    }

    function Target(entry: nat): Target
      requires Valid()
    {
      Dest((entry + SeqPreIdx(entry)) % bps,
           (SeqPreIdx(entry) + TnfpPreIdx(entry)) % seqs,
           (TnfpPreIdx(entry) + XtraPreIdx(entry)) % tnfps)
    }

    ghost predicate InRange(t: Target) {
      t.bp < bps && t.seq_ < seqs && t.tnfp < tnfps
    }

    /** The entry of round `k` that stands for a target: undo the three rotations, outermost first. */
    function Entry(k: nat, t: Target): nat
      requires Valid()
    {
      var tp := k * tnfps + Unrotate(t.tnfp, k, tnfps);
      var sp := tp * seqs + Unrotate(t.seq_, tp, seqs);
      sp * bps + Unrotate(t.bp, sp, bps)
    }
  }

  datatype Target = Dest(bp: nat, seq_: nat, tnfp: nat)

  /** The digit `d` with `(d + turn) % n == v`, written so that it is never negative. */
  function Unrotate(v: nat, turn: nat, n: nat): (d: nat)
    requires n > 0
    ensures d < n
  {
    (v + (n - turn % n)) % n
  }

  lemma DivMod(q: nat, d: nat, n: nat)
    requires d < n
    ensures (q * n + d) / n == q && (q * n + d) % n == d
  {
    DivUnique(q * n + d, n, q, d);
  }

  lemma MulMono(a: nat, b: nat, n: nat)
    ensures a <= b ==> a * n <= b * n
  {
  }

  lemma DivUnique(x: nat, n: nat, q: nat, d: nat)
    requires n > 0 && d < n && x == q * n + d
    ensures x / n == q && x % n == d
  {
    MulMono(x / n + 1, q, n);
    MulMono(q + 1, x / n, n);
  }

  lemma ModAddParts(x: nat, q: nat, r: nat, n: nat)
    requires n > 0 && r < 2 * n && x == q * n + r
    ensures x % n == r % n
  {
    if r < n {
      DivUnique(x, n, q, r);
      DivUnique(r, n, 0, r);
    } else {
      assert x == (q + 1) * n + (r - n);
      DivUnique(x, n, q + 1, r - n);
      DivUnique(r, n, 1, r - n);
    }
  }

  lemma ModAdd(a: nat, b: nat, n: nat)
    requires n > 0
    ensures (a + b) % n == (a % n + b % n) % n
  {
    var qa, qb := a / n, b / n;
    assert qa * n + qb * n == (qa + qb) * n;
    ModAddParts(a + b, qa + qb, a % n + b % n, n);
  }

  lemma Regroup(q: nat, b: nat, s: nat, a: nat)
    ensures (q * b + s) * a == q * (b * a) + s * a && (s + 1) * a == s * a + a
  {
  }

  lemma DivDivParts(x: nat, q: nat, s: nat, r: nat, a: nat, b: nat)
    requires r < a && s < b && x == (q * b + s) * a + r
    ensures b * a > 0 && x / (b * a) == q
  {
    MulMono(s + 1, b, a);
    Regroup(q, b, s, a);
    DivUnique(x, b * a, q, s * a + r);
  }

  lemma DivDiv(x: nat, a: nat, b: nat)
    requires a > 0 && b > 0
    ensures b * a > 0 && x / a / b == x / (b * a)
  {
    var y := x / a;
    var q, s, r := y / b, y % b, x % a;
    DivRest(x, a);
    DivRest(y, b);
    assert x == (q * b + s) * a + r;
    DivDivParts(x, q, s, r, a, b);
  }

  lemma DivRest(x: nat, n: nat)
    requires n > 0
    ensures x == x / n * n + x % n && 0 <= x % n < n
  {
  }

  lemma BlockOf(x: nat, n: nat, k: nat)
    requires n > 0
    ensures x / n == k <==> k * n <= x < (k + 1) * n
  {
    DivRest(x, n);
    Regroup(0, 0, k, n);
    if k * n <= x < (k + 1) * n {
      DivUnique(x, n, k, x - k * n);
    }
  }

  /** Rotating a digit by the quotient it belongs to, and back. */
  lemma RotateUnrotate(v: nat, turn: nat, n: nat)
    requires n > 0 && v < n
    ensures (turn * n + Unrotate(v, turn, n) + turn) % n == v
  {
    var d, r := Unrotate(v, turn, n), turn % n;
    assert d == if v >= r then v - r else v - r + n by {
      if v >= r { DivUnique(v + (n - r), n, 1, v - r); } else { DivUnique(v + (n - r), n, 0, v - r + n); }
    }
    ModAdd(turn * n + d, turn, n);
    DivMod(turn, d, n);
    if v >= r { DivUnique(d + r, n, 0, v); } else { DivUnique(d + r, n, 1, v); }
  }

  lemma UnrotateRotate(d: nat, turn: nat, n: nat)
    requires n > 0 && d < n
    ensures Unrotate((turn * n + d + turn) % n, turn, n) == d
  {
    var v, r := (turn * n + d + turn) % n, turn % n;
    ModAdd(turn * n + d, turn, n);
    DivMod(turn, d, n);
    if d + r < n {
      DivUnique(d + r, n, 0, d + r);
      DivUnique(v + (n - r), n, 1, d);
    } else {
      DivUnique(d + r, n, 1, d + r - n);
      DivUnique(v + (n - r), n, 0, d);
    }
  }

  /** Every target of every round has an entry, and that entry stands for it. */
  lemma EntryOfTarget(c: Counts, k: nat, t: Target)
    requires c.Valid() && c.InRange(t)
    ensures c.Target(c.Entry(k, t)) == t
    ensures c.XtraPreIdx(c.Entry(k, t)) == k
  {
    var td := Unrotate(t.tnfp, k, c.tnfps);
    var tp := k * c.tnfps + td;
    var sd := Unrotate(t.seq_, tp, c.seqs);
    var sp := tp * c.seqs + sd;
    var bd := Unrotate(t.bp, sp, c.bps);
    DivMod(sp, bd, c.bps);
    DivMod(tp, sd, c.seqs);
    DivMod(k, td, c.tnfps);
    RotateUnrotate(t.bp, sp, c.bps);
    RotateUnrotate(t.seq_, tp, c.seqs);
    RotateUnrotate(t.tnfp, k, c.tnfps);
  }

  /** Every entry is the entry of the target it stands for, in its own round. */
  lemma TargetOfEntry(c: Counts, entry: nat)
    requires c.Valid()
    ensures c.InRange(c.Target(entry))
    ensures c.Entry(c.XtraPreIdx(entry), c.Target(entry)) == entry
  {
    var sp, tp, k := c.SeqPreIdx(entry), c.TnfpPreIdx(entry), c.XtraPreIdx(entry);
    assert entry == sp * c.bps + entry % c.bps;
    assert sp == tp * c.seqs + sp % c.seqs;
    assert tp == k * c.tnfps + tp % c.tnfps;
    UnrotateRotate(entry % c.bps, sp, c.bps);
    UnrotateRotate(sp % c.seqs, tp, c.seqs);
    UnrotateRotate(tp % c.tnfps, k, c.tnfps);
  }

  /** The entries of round `k` are the aligned block of `Round()` consecutive entries at `k * Round()`. */
  lemma RoundIsBlock(c: Counts, entry: nat, k: nat)
    requires c.Valid()
    ensures c.XtraPreIdx(entry) == k <==> k * c.Round() <= entry < (k + 1) * c.Round()
  {
    DivDiv(entry, c.bps, c.seqs);
    DivDiv(entry, c.seqs * c.bps, c.tnfps);
    Regroup(c.tnfps, c.seqs, 0, c.bps);
    BlockOf(entry, c.Round(), k);
  }

  /**
   Each aligned block of (pools x sequencers x targets) consecutive entries maps
   one-to-one onto all the triples.
   */
  lemma BlockIsBijective(c: Counts, k: nat)
    requires c.Valid()
    ensures forall t | c.InRange(t) ::
      k * c.Round() <= c.Entry(k, t) < (k + 1) * c.Round() && c.Target(c.Entry(k, t)) == t
    ensures forall e: nat | k * c.Round() <= e < (k + 1) * c.Round() ::
      c.InRange(c.Target(e)) && c.Entry(k, c.Target(e)) == e
  {
    forall t | c.InRange(t)
      ensures k * c.Round() <= c.Entry(k, t) < (k + 1) * c.Round() && c.Target(c.Entry(k, t)) == t {
      EntryOfTarget(c, k, t);
      RoundIsBlock(c, c.Entry(k, t), k);
    }
    forall e: nat | k * c.Round() <= e < (k + 1) * c.Round()
      ensures c.InRange(c.Target(e)) && c.Entry(k, c.Target(e)) == e {
      RoundIsBlock(c, e, k);
      TargetOfEntry(c, e);
    }
  }

  // ---- From one entry to the next ----

  /** Whether a count moves to its next multiple of `n`. */
  predicate Wraps(x: nat, n: nat)
    requires n > 0
  {
    (x + 1) % n == 0
  }

  lemma NextQuotient(x: nat, n: nat)
    requires n > 0
    ensures (x + 1) / n == if Wraps(x, n) then x / n + 1 else x / n
  {
    DivRest(x, n);
    var q, d := x / n, x % n;
    if d + 1 < n {
      DivUnique(x + 1, n, q, d + 1);
    } else {
      assert (q + 1) * n == q * n + n;
      DivUnique(x + 1, n, q + 1, 0);
    }
  }

  /** A rotated digit moves on by one, and by two where its count wraps. */
  lemma NextDigit(x: nat, n: nat)
    requires n > 0
    ensures (x + 1 + (x + 1) / n) % n == ((x + x / n) % n + if Wraps(x, n) then 2 else 1) % n
  {
    NextQuotient(x, n);
    var k := if Wraps(x, n) then 2 else 1;
    ModAdd(x + x / n, k, n);
    ModAdd((x + x / n) % n, k, n);
    ModTwice(x + x / n, n);
    assert x + 1 + (x + 1) / n == x + x / n + k;
  }

  lemma ModTwice(a: nat, n: nat)
    requires n > 0
    ensures a % n % n == a % n
  {
    DivRest(a, n);
    DivUnique(a % n, n, 0, a % n);
  }

  /**
   The next entry takes the next pool; the sequencer moves on when the pools
   wrap, and the target when the sequencers do; each moves two on where its own
   count wraps, so that rounds start apart.
   */
  lemma NextEntry(c: Counts, e: nat)
    requires c.Valid()
    ensures var t, u := c.Target(e), c.Target(e + 1);
      var s, p := e / c.bps, e / c.bps / c.seqs;
      var w1 := Wraps(e, c.bps);
      var w2 := w1 && Wraps(s, c.seqs);
      var w3 := w2 && Wraps(p, c.tnfps);
      && u.bp == (t.bp + if w1 then 2 else 1) % c.bps
      && u.seq_ == (if w2 then (t.seq_ + 2) % c.seqs else if w1 then (t.seq_ + 1) % c.seqs else t.seq_)
      && u.tnfp == (if w3 then (t.tnfp + 2) % c.tnfps else if w2 then (t.tnfp + 1) % c.tnfps else t.tnfp)
  {
    var s, p := e / c.bps, e / c.bps / c.seqs;
    NextQuotient(e, c.bps);
    NextDigit(e, c.bps);
    NextQuotient(s, c.seqs);
    NextDigit(s, c.seqs);
    NextDigit(p, c.tnfps);
  }

  /** And entry 0 is the first of all three. */
  lemma FirstEntry(c: Counts)
    requires c.Valid()
    ensures c.Target(0) == Dest(0, 0, 0)
  {
    DivUnique(0, c.bps, 0, 0);
    DivUnique(0, c.seqs, 0, 0);
    DivUnique(0, c.tnfps, 0, 0);
  }
}
