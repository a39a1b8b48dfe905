/**
 What the lists stored in the VEB table mean, with and without the VLAN strip,
 and to which queue they deliver.
 */
module VebLists {
  import opened Common
  import opened ActionList
  import opened ActionBuilders

  /** A finished list reads back as its actions, by opcode and by fall-through, and fits the table. */
  lemma BufferMeans(l: ActionBuffer)
    requires l.Valid()
    ensures l.count <= MAX_INSTR && Means(l.instr[..l.count], l.acts)
  {
    EncMeans(l.acts);
  }

  // ---- Words that look like a strip ----

  ghost predicate ActionLooks(a: Action) {
    a.op == POP_VLAN || (TwoWords(a.op) && LooksLikeStrip(a.param))
  }

  lemma {:induction false} EncLooks(prev: int, acts: seq<Action>)
    ensures (exists w | w in Enc(prev, acts) :: LooksLikeStrip(w)) <==> exists a | a in acts :: ActionLooks(a)
    decreases |acts|
  {
    if acts != [] {
      var a, one, rest := acts[0], EncOne(prev, acts[0]), Enc(acts[0].op, acts[1..]);
      EncLooks(a.op, acts[1..]);
      assert forall w :: w in Enc(prev, acts) <==> w in one || w in rest;
      assert forall b :: b in acts <==> b == a || b in acts[1..];
      assert LooksLikeStrip(one[0]) <==> a.op == POP_VLAN;
      assert ActionLooks(a) <==> exists w | w in one :: LooksLikeStrip(w) by {
        assert one[0] in one;
        assert TwoWords(a.op) ==> one == [one[0], a.param] && a.param in one;
      }
    }
  }

  lemma EncEnds(prev: int, acts: seq<Action>, last: Action)
    requires !TwoWords(last.op)
    ensures var ws := Enc(prev, acts + [last]);
      ws == Enc(prev, acts) + [Make(last.op, LastOp(prev, acts) + 1 == last.op, last.args)]
  {
    EncAppend(prev, acts, [last]);
    assert Enc(LastOp(prev, acts), [last]) == EncOne(LastOp(prev, acts), last) + Enc(last.op, [last][1..]);
  }

  /**
   On a list that ends in a one-word action other than a strip, the removal
   changes nothing exactly when no opcode and no parameter word looks like a strip.
   */
  lemma RemoveStripChanges(acts: seq<Action>, last: Action)
    requires !TwoWords(last.op) && last.op != POP_VLAN
    ensures Enc(NONE, acts + [last]) != []
    ensures RemoveStrip(Enc(NONE, acts + [last])) == Enc(NONE, acts + [last])
      <==> forall a | a in acts :: !ActionLooks(a)
  {
    var head, ws := Enc(NONE, acts), Enc(NONE, acts + [last]);
    EncEnds(NONE, acts, last);
    EncLooks(NONE, acts);
    var i := StripAt(ws, 0);
    if forall a | a in acts :: !ActionLooks(a) {
      forall j | 0 <= j < |ws| - 1 ensures !LooksLikeStrip(ws[j]) { assert ws[j] == head[j] && head[j] in head; }
      RemoveStripKeeps(ws);
    } else {
      var w :| w in head && LooksLikeStrip(w);
      var j :| 0 <= j < |head| && head[j] == w;
      assert LooksLikeStrip(ws[j]) && i <= j;
      assert |RemoveStrip(ws)| == |ws| - 1;
    }
  }

  // ---- The VF's list ----

  /** The VF list after the optional push and strip. */
  function VebVfRest(env: Env, n: nat, pc: Control, c: Control): seq<Action> {
    var p := Promisc in pc;
    [Checksum(true, true, CsumComplete in c)] + [TxHost(env, Vf(n), p, false)]
    + Opt(p, PopPkt()) + Opt(p && CsumComplete in pc, Checksum(false, false, true)) + Opt(p && Bpf in pc, BpfAction(n))
    + Opt(p && WantsRss(pc), RssAction(env)) + Opt(p, TxHost(env, Pf(0), false, false))
  }

  lemma VebVfSplit(env: Env, n: nat, pc: Control, c: Control)
    ensures VebVfActions(env, n, pc, c)
      == Opt(Promisc in pc, PushPkt()) + Opt(env.vlanTag != 0, StripVlan()) + VebVfRest(env, n, pc, c)
  {
    var p := Promisc in pc;
    Regroup(Opt(p, PushPkt()) + Opt(env.vlanTag != 0, StripVlan()), [Checksum(true, true, CsumComplete in c)],
            [TxHost(env, Vf(n), p, false)], Opt(p, PopPkt()),
            Opt(p && CsumComplete in pc, Checksum(false, false, true)), Opt(p && Bpf in pc, BpfAction(n)),
            Opt(p && WantsRss(pc), RssAction(env)), Opt(p, TxHost(env, Pf(0), false, false)));
  }

  lemma Regroup<T>(h: seq<T>, a: seq<T>, b: seq<T>, c: seq<T>, d: seq<T>, e: seq<T>, f: seq<T>, g: seq<T>)
    ensures h + a + b + c + d + e + f + g == h + (a + b + c + d + e + f + g)
  {
  }

  lemma VebVfValid(env: Env, n: nat, pc: Control, c: Control)
    ensures AllValid(Opt(Promisc in pc, PushPkt())) && AllValid(VebVfRest(env, n, pc, c))
  {
  }

  /**
   On a VF list built with a VLAN tag, removing the strip gives words that mean
   the list the builder would have made without a tag.
   */
  lemma StripTagged(env: Env, n: nat, pc: Control, c: Control)
    requires env.vlanTag != 0
    ensures Enc(NONE, VebVfActions(env, n, pc, c)) != []
    ensures Means(RemoveStrip(Enc(NONE, VebVfActions(env, n, pc, c))), VebVfActions(env.(vlanTag := 0), n, pc, c))
  {
    var pre, post := Opt(Promisc in pc, PushPkt()), VebVfRest(env, n, pc, c);
    VebVfValid(env, n, pc, c);
    VebVfSplit(env, n, pc, c);
    VebVfSplit(env.(vlanTag := 0), n, pc, c);
    assert pre + [] == pre;
    EncLooks(NONE, pre);
    forall w | w in Enc(NONE, pre) ensures !LooksLikeStrip(w) {
    }
    RemoveStripMeans(pre, StripVlan(), post);
  }

  lemma VfLooks(env: Env, n: nat, pc: Control, c: Control, a: Action)
    requires env.vlanTag == 0 && a in VebVfActions(env, n, pc, c)
    ensures ActionLooks(a) <==> a == RssAction(env) && LooksLikeStrip(env.rssKey)
  {
  }

  /**
   On a VF list built without a tag, the removal changes nothing exactly when
   the list has no RSS key that looks like a strip.
   */
  lemma StripUntagged(env: Env, n: nat, pc: Control, c: Control)
    requires env.vlanTag == 0
    ensures Enc(NONE, VebVfActions(env, n, pc, c)) != []
    ensures RemoveStrip(Enc(NONE, VebVfActions(env, n, pc, c))) == Enc(NONE, VebVfActions(env, n, pc, c))
      <==> !(Promisc in pc && WantsRss(pc) && LooksLikeStrip(env.rssKey))
  {
    var acts := VebVfActions(env, n, pc, c);
    var init, last := acts[..|acts| - 1], acts[|acts| - 1];
    assert acts == init + [last];
    assert last.op == TX_HOST by { VebVfSplit(env, n, pc, c); }
    RemoveStripChanges(init, last);
    assert RssAction(env) in acts <==> Promisc in pc && WantsRss(pc) by {
      if Promisc in pc && WantsRss(pc) { assert acts[|acts| - 2] == RssAction(env); }
    }
    forall a | a in acts { VfLooks(env, n, pc, c, a); }
    assert forall a :: a in acts <==> a in init || a == last;
  }

  // ---- Delivery ----

  /** The queue of the first host transmit that the words reach. */
  function FirstHost(ws: seq<Word>): Option<nat>
    decreases |ws|
  {
    if ws == [] then None
    else if Op(ws[0]) == TX_HOST then Some(Args(ws[0]) % 64)
    else if TwoWords(Op(ws[0])) && |ws| >= 2 then FirstHost(ws[2..])
    else FirstHost(ws[1..])
  }

  function HostOf(acts: seq<Action>): Option<nat>
    decreases |acts|
  {
    if acts == [] then None
    else if acts[0].op == TX_HOST then Some(acts[0].args % 64)
    else HostOf(acts[1..])
  }

  lemma {:induction false} DecodedHost(ws: seq<Word>)
    requires Decode(ws).Some?
    ensures FirstHost(ws) == HostOf(Decode(ws).value)
    decreases |ws|
  {
    if ws != [] {
      var n := if TwoWords(Op(ws[0])) then 2 else 1;
      DecodedHost(ws[n..]);
      assert Decode(ws).value[1..] == Decode(ws[n..]).value;
    }
  }

  lemma {:induction false} SkipToHost(prev: int, acts: seq<Action>, rest: seq<Word>)
    requires forall a | a in acts :: a.op != TX_HOST
    ensures FirstHost(Enc(prev, acts) + rest) == FirstHost(rest)
    decreases |acts|
  {
    var ws := Enc(prev, acts) + rest;
    if acts == [] {
      assert ws == rest;
    } else {
      var n := |EncOne(prev, acts[0])|;
      SkipToHost(acts[0].op, acts[1..], rest);
      assert ws[n..] == Enc(acts[0].op, acts[1..]) + rest;
    }
  }

  lemma TxHostQueue(env: Env, v: Vnic, cont: bool, multicast: bool)
    ensures TxHost(env, v, cont, multicast).args % 64 == env.queueOf(v)
  {
  }

  /** Words before the first lookalike survive the removal. */
  lemma RemoveStripPrefix(u: seq<Word>, v: seq<Word>) returns (v': seq<Word>)
    requires u + v != [] && forall w | w in u :: !LooksLikeStrip(w)
    ensures RemoveStrip(u + v) == u + v'
  {
    var ws := u + v;
    var i := StripAt(ws, 0);
    if i == |ws| - 1 {
      v' := v;
    } else {
      assert forall j | 0 <= j < |u| :: ws[j] in u;
      v' := RemoveStrip(ws)[|u|..];
    }
  }

  /** A host transmit that no lookalike precedes is still the first one after the removal. */
  lemma DeliverySurvives(head: seq<Action>, tx: Action, tail: seq<Action>)
    requires tx.op == TX_HOST && forall a | a in head :: a.op != TX_HOST && !ActionLooks(a)
    ensures var ws := Enc(NONE, head + [tx] + tail); ws != [] && FirstHost(RemoveStrip(ws)) == Some(tx.args % 64)
  {
    var u := Enc(NONE, head + [tx]);
    EncAppend(NONE, head + [tx], tail);
    HeadClean(head, tx);
    var v' := RemoveStripPrefix(u, Enc(LastOp(NONE, head + [tx]), tail));
    HeadDelivers(head, tx, v');
  }

  lemma HeadClean(head: seq<Action>, tx: Action)
    requires tx.op == TX_HOST && forall a | a in head :: a.op != TX_HOST && !ActionLooks(a)
    ensures Enc(NONE, head + [tx]) != [] && forall w | w in Enc(NONE, head + [tx]) :: !LooksLikeStrip(w)
  {
    EncLooks(NONE, head + [tx]);
    EncEnds(NONE, head, tx);
  }

  lemma HeadDelivers(head: seq<Action>, tx: Action, rest: seq<Word>)
    requires tx.op == TX_HOST && forall a | a in head :: a.op != TX_HOST
    ensures FirstHost(Enc(NONE, head + [tx]) + rest) == Some(tx.args % 64)
  {
    var w := Make(tx.op, LastOp(NONE, head) + 1 == tx.op, tx.args);
    EncEnds(NONE, head, tx);
    assert Enc(NONE, head + [tx]) + rest == Enc(NONE, head) + ([w] + rest);
    SkipToHost(NONE, head, [w] + rest);
  }

  lemma VfUntaggedShape(env: Env, n: nat, pc: Control, c: Control) returns (head: seq<Action>, tail: seq<Action>)
    requires env.vlanTag == 0
    ensures VebVfActions(env, n, pc, c) == head + [TxHost(env, Vf(n), Promisc in pc, false)] + tail
    ensures forall a | a in head :: a.op != TX_HOST && !ActionLooks(a)
  {
    var acts := VebVfActions(env, n, pc, c);
    head := Opt(Promisc in pc, PushPkt()) + [Checksum(true, true, CsumComplete in c)];
    tail := acts[|head| + 1..];
  }

  /** Every VF list delivers to the VF first, whatever the strip removal makes of the rest. */
  lemma VfListDelivers(env: Env, n: nat, pc: Control, c: Control)
    ensures var ws := Enc(NONE, VebVfActions(env, n, pc, c));
      ws != [] && FirstHost(ws) == Some(env.queueOf(Vf(n))) && FirstHost(RemoveStrip(ws)) == Some(env.queueOf(Vf(n)))
  {
    VfValid(env, n, pc, c);
    VfHost(env, n, pc, c);
    EncMeans(VebVfActions(env, n, pc, c));
    DecodedHost(Enc(NONE, VebVfActions(env, n, pc, c)));
    if env.vlanTag != 0 {
      StripTagged(env, n, pc, c);
      DecodedHost(RemoveStrip(Enc(NONE, VebVfActions(env, n, pc, c))));
      VfHost(env.(vlanTag := 0), n, pc, c);
    } else {
      var head, tail := VfUntaggedShape(env, n, pc, c);
      DeliverySurvives(head, TxHost(env, Vf(n), Promisc in pc, false), tail);
      TxHostQueue(env, Vf(n), Promisc in pc, false);
    }
  }

  // ---- The PF's list ----

  lemma PfListWords(env: Env, n: nat, c: Control) returns (head: seq<Action>)
    ensures VebPfActions(env, n, c) == head + Opt(WantsRss(c), RssAction(env)) + [TxHost(env, Pf(n), false, false)]
    ensures AllValid(VebPfActions(env, n, c)) && forall a | a in head :: a.op != TX_HOST && !ActionLooks(a)
  {
    head := [Checksum(true, true, CsumComplete in c)] + Opt(Bpf in c, BpfAction(n));
  }

  /** With an RSS key that looks like a strip, the removal deletes the key and the transmit becomes the key. */
  lemma KeyRemoved(env: Env, n: nat, head: seq<Action>)
    requires LooksLikeStrip(env.rssKey) && forall a | a in head :: a.op != TX_HOST && !ActionLooks(a)
    ensures var ws := Enc(NONE, head + [RssAction(env)] + [TxHost(env, Pf(n), false, false)]);
      ws != [] && FirstHost(RemoveStrip(ws)) == None
  {
    var rw, tw := KeyWords(env, n, head);
    EncLooks(NONE, head);
    RemoveStripWords(Enc(NONE, head) + [rw], env.rssKey, [tw]);
    assert [ClearPipe(tw)] + [tw][1..] == [ClearPipe(tw)];
    assert (Enc(NONE, head) + [rw]) + [ClearPipe(tw)] == Enc(NONE, head) + [rw, ClearPipe(tw)];
    SkipToHost(NONE, head, [rw, ClearPipe(tw)]);
  }

  lemma KeyWords(env: Env, n: nat, head: seq<Action>) returns (rw: Word, tw: Word)
    ensures Op(rw) == RSS && Op(tw) == TX_HOST
    ensures Enc(NONE, head + [RssAction(env)] + [TxHost(env, Pf(n), false, false)])
      == (Enc(NONE, head) + [rw]) + [env.rssKey] + [tw]
  {
    var tx, rss := TxHost(env, Pf(n), false, false), RssAction(env);
    rw := Make(RSS, LastOp(NONE, head) + 1 == RSS, rss.args);
    tw := Make(TX_HOST, RSS + 1 == TX_HOST, tx.args);
    EncEnds(NONE, head + [rss], tx);
    EncAppend(NONE, head, [rss]);
    assert Enc(LastOp(NONE, head), [rss]) == EncOne(LastOp(NONE, head), rss) + Enc(RSS, [rss][1..]);
  }

  /**
   The PF list delivers to the PF as built; after the strip removal it does so
   exactly when it has no RSS key that looks like a strip.
   */
  lemma PfListDelivers(env: Env, n: nat, c: Control)
    ensures var ws := Enc(NONE, VebPfActions(env, n, c));
      && ws != [] && FirstHost(ws) == Some(env.queueOf(Pf(n)))
      && (FirstHost(RemoveStrip(ws)) == Some(env.queueOf(Pf(n))) <==> !(WantsRss(c) && LooksLikeStrip(env.rssKey)))
  {
    var head := PfListWords(env, n, c);
    var tx := TxHost(env, Pf(n), false, false);
    var acts := VebPfActions(env, n, c);
    TxHostQueue(env, Pf(n), false, false);
    EncMeans(acts);
    DecodedHost(Enc(NONE, acts));
    HostAt(acts, |acts| - 1);
    if WantsRss(c) && LooksLikeStrip(env.rssKey) {
      KeyRemoved(env, n, head);
    } else {
      var rest := head + Opt(WantsRss(c), RssAction(env));
      DeliverySurvives(rest, tx, []);
      assert rest + [tx] + [] == acts;
    }
  }

  lemma VfValid(env: Env, n: nat, pc: Control, c: Control)
    ensures AllValid(VebVfActions(env, n, pc, c))
  {
  }

  lemma VfHost(env: Env, n: nat, pc: Control, c: Control)
    ensures HostOf(VebVfActions(env, n, pc, c)) == Some(env.queueOf(Vf(n)))
  {
    var acts := VebVfActions(env, n, pc, c);
    TxHostQueue(env, Vf(n), Promisc in pc, false);
    var k := |Opt(Promisc in pc, PushPkt())| + |Opt(env.vlanTag != 0, StripVlan())| + 1;
    assert acts[k] == TxHost(env, Vf(n), Promisc in pc, false) && forall i | 0 <= i < k :: acts[i].op != TX_HOST;
    HostAt(acts, k);
  }

  lemma {:induction false} HostAt(acts: seq<Action>, k: nat)
    requires k < |acts| && acts[k].op == TX_HOST && forall i | 0 <= i < k :: acts[i].op != TX_HOST
    ensures HostOf(acts) == Some(acts[k].args % 64)
    decreases |acts|
  {
    if k > 0 { HostAt(acts[1..], k - 1); }
  }
}
