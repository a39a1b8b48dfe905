/** mac_lkup_add and mac_lkup_del as one caller runs them, line by line. */
module MacLookupTable {
  import opened Common
  import opened Bits
  import opened MacLookup

  class MacTable {
    var table: seq<Bucket>
    var locks: seq<Word32>

    ghost predicate Valid()
      reads this
    {
      |table| == BUCKETS && |locks| == BUCKETS / 32
    }

    constructor ()
      ensures Valid() && forall i: nat | i < BUCKETS :: table[i] == EMPTY && !Test(locks, i)
    {
      table, locks := seq(BUCKETS, _ => EMPTY), seq(BUCKETS / 32, _ => {});
    }

    /**
     Waits for the lock and takes it. While another caller holds it, that caller
     may write the bucket: `polls` lists what is in the bucket after each sleep,
     and after the last of them the lock is free.
     */
    method BucketWait(idx: nat, polls: seq<Bucket>)
      requires Valid() && idx < BUCKETS && (Test(locks, idx) <==> polls != [])
      modifies this
      ensures Valid() && locks == Set(old(locks), idx)
      ensures table == old(table)[idx := Entered(old(table)[idx], polls)]
    {
      var i := 0;
      var held := Test(locks, idx);
      locks := Set(locks, idx);
      assert table[idx := table[idx]] == table;
      while held
        invariant 0 <= i <= |polls| && (held <==> i < |polls|)
        invariant Valid() && locks == Set(old(locks), idx)
        invariant table == old(table)[idx := Entered(old(table)[idx], polls[..i])]
        decreases |polls| - i
      {
        table := table[idx := polls[i]];
        i := i + 1;
        if i == |polls| {
          SetAgain(locks, idx);
          locks := Clear(locks, idx);
        }
        held := Test(locks, idx);
        SetAgain(locks, idx);
        locks := Set(locks, idx);
      }
      assert polls[..i] == polls;
    }

    method BucketRelease(idx: nat)
      requires Valid() && idx < BUCKETS
      modifies this`locks
      ensures locks == Clear(old(locks), idx)
    {
      locks := Clear(locks, idx);
    }

    /** Writes back the lines that a call changed and drops the lock. */
    method Commit(idx: nat, b: Bucket)
      requires Valid() && idx < BUCKETS
      modifies this
      ensures table == old(table)[idx := b] && locks == Clear(old(locks), idx)
    {
      table := table[idx := b];
      BucketRelease(idx);
    }

    method Add(idx: nat, key: Key, result: Word, polls: seq<Bucket>) returns (ret: nat)
      requires Valid() && idx < BUCKETS && (Test(locks, idx) <==> polls != [])
      modifies this
      ensures Valid() && locks == Clear(old(locks), idx)
      ensures var was := Entered(old(table)[idx], polls);
        table == old(table)[idx := Perform(MacLookup.Add(key, result), was).0]
          && ret == Perform(MacLookup.Add(key, result), was).1
    {
      BucketWait(idx, polls);
      SetAgain(old(locks), idx);
      var b := table[idx];
      PerformCases(MacLookup.Add(key, result), b);
      if !InUse(b.l1.res0) || b.l1.key0 == key {
        Commit(idx, b.(l1 := Line(key, Stored(result), b.l1.key1)));
        return 0;
      }
      if !InUse(b.l4.res1) || b.l1.key1 == key {
        Commit(idx, b.(l1 := b.l1.(key1 := key), l4 := b.l4.(res1 := Stored(result))));
        return 0;
      }
      if !InUse(b.l2.res0) || b.l2.key0 == key {
        Commit(idx, b.(l2 := Line(key, Stored(result), b.l2.key1)));
        return 0;
      }
      if !InUse3(b.l4) || b.l2.key1 == key {
        Commit(idx, b.(l2 := b.l2.(key1 := key), l4 := b.l4.(res3lo := StoredLo(result), res3hi := StoredHi(result))));
        return 0;
      }
      if !InUse(b.l3.res0) || b.l3.key0 == key {
        Commit(idx, b.(l3 := Line(key, Stored(result), b.l3.key1)));
        return 0;
      }
      if !InUse(b.l4.res5) || b.l3.key1 == key {
        Commit(idx, b.(l3 := b.l3.(key1 := key), l4 := b.l4.(res5 := Stored(result))));
        return 0;
      }
      BucketRelease(idx);
      assert table[idx := b] == table;
      return 1;
    }

    method Del(idx: nat, key: Key, polls: seq<Bucket>) returns (ret: nat)
      requires Valid() && idx < BUCKETS && (Test(locks, idx) <==> polls != [])
      modifies this
      ensures Valid() && locks == Clear(old(locks), idx)
      ensures var was := Entered(old(table)[idx], polls);
        table == old(table)[idx := Perform(MacLookup.Del(key), was).0] && ret == Perform(MacLookup.Del(key), was).1
    {
      BucketWait(idx, polls);
      SetAgain(old(locks), idx);
      var b := table[idx];
      PerformCases(MacLookup.Del(key), b);
      if InUse(b.l1.res0) && b.l1.key0 == key {
        Commit(idx, b.(l1 := b.l1.(res0 := 0)));
        return 0;
      }
      if InUse(b.l4.res1) && b.l1.key1 == key {
        Commit(idx, b.(l4 := b.l4.(res1 := 0)));
        return 0;
      }
      if InUse(b.l2.res0) && b.l2.key0 == key {
        Commit(idx, b.(l2 := b.l2.(res0 := 0)));
        return 0;
      }
      if InUse3(b.l4) && b.l2.key1 == key {
        Commit(idx, b.(l4 := b.l4.(res3lo := 0, res3hi := 0)));
        return 0;
      }
      if InUse(b.l3.res0) && b.l3.key0 == key {
        Commit(idx, b.(l3 := b.l3.(res0 := 0)));
        return 0;
      }
      if InUse(b.l4.res5) && b.l3.key1 == key {
        Commit(idx, b.(l4 := b.l4.(res5 := 0)));
        return 0;
      }
      BucketRelease(idx);
      assert table[idx := b] == table;
      return 1;
    }
  }

  /** The bucket that a caller finds when it gets the lock. */
  function Entered(b: Bucket, polls: seq<Bucket>): Bucket { if polls == [] then b else polls[|polls| - 1] }

  lemma SetAgain(ws: seq<Word32>, idx: nat)
    requires Covers(ws, idx)
    ensures Set(Set(ws, idx), idx) == Set(ws, idx) && Set(Clear(ws, idx), idx) == Set(ws, idx)
    ensures Clear(Set(ws, idx), idx) == Clear(ws, idx)
    ensures Test(ws, idx) ==> Set(ws, idx) == ws
  {
    var w, b := ws[idx / 32], idx % 32;
    assert w + {b} + {b} == w + {b} && w - {b} + {b} == w + {b} && w + {b} - {b} == w - {b};
    assert b in w ==> w + {b} == w;
  }
}
