/**
 Bitmaps packed 32 bits to a word, the layout shared by the link-state arrays
 and the bucket locks. A word is modelled as the set of its one bits, so that
 `|`, `& ~` and a single-bit test are union, difference and membership.
 */
module Bits {

  type Word32 = set<nat>

  predicate Covers(ws: seq<Word32>, v: nat) {
    v / 32 < |ws|
  }

  /** Bit `v` of the packed bitmap. */
  predicate Test(ws: seq<Word32>, v: nat)
    requires Covers(ws, v)
  {
    v % 32 in ws[v / 32]
  }

  /** Sets bit `v` and changes no other bit, in its own word or any other. */
  function Set(ws: seq<Word32>, v: nat): (r: seq<Word32>)
    requires Covers(ws, v)
    ensures |r| == |ws|
    ensures forall u: nat :: Covers(ws, u) ==> (Test(r, u) <==> u == v || Test(ws, u))
  {
    ws[v / 32 := ws[v / 32] + {v % 32}]
  }

  /** Clears bit `v` and changes no other bit, in its own word or any other. */
  function Clear(ws: seq<Word32>, v: nat): (r: seq<Word32>)
    requires Covers(ws, v)
    ensures |r| == |ws|
    ensures forall u: nat :: Covers(ws, u) ==> (Test(r, u) <==> u != v && Test(ws, u))
  {
    ws[v / 32 := ws[v / 32] - {v % 32}]
  }
}
