/** Rewinding the whole block chain: the header chain goes back to a number or a time,
    the head block is taken along to a block with state, and the bodies above are
    deleted.  Lookup entries are not. */
module ChainRewind {
  import opened Options
  import opened BlockTree
  import opened HeaderState
  import opened HeaderChain
  import opened BlockState
  import opened BlockChain
  import Blocks = Rewind

  /** The head block after the head header went from `h` back to number `n`.  At every
      header on the way that is not above the head block, the head block is rewound from
      there; None where the program would dereference nil. */
  function BlockAfter(cx: Blocks.Context, b: Header, h: Header, n: nat): Option<Header>
    decreases h
  {
    if Number(h) <= n then Some(b) else
    var next := if Number(h.parent) <= Number(b) then Blocks.RewindTo(cx, h.parent) else Some(b);
    if next.None? then None else BlockAfter(cx, next.value, h.parent, n)
  }

  /** The ledger after a rewind to the header `t` that left `b` as head block. */
  ghost function ChainRewound(l: Ledger, t: Header, b: Header): Ledger {
    if t == l.hs.head then l else
    Ledger(Rewound(l.hs, t), UpTo(l.bodies, Number(t)), l.lookups, b)
  }

  /** The surroundings in which a ledger is rewound. */
  ghost predicate ContextOf(cx: Blocks.Context, l: Ledger, genesis: Header) {
    cx.bodies == l.bodies && cx.genesis == genesis
  }

  // ---------------------------------------------------------------- where the head block ends

  /** The root number after the same walk: that of the last rewind of the head block on it
      that crossed the threshold. */
  function RootAfter(cx: Blocks.Context, b: Header, h: Header, n: nat, was: nat): nat
    decreases h
  {
    if Number(h) <= n then was
    else if Number(h.parent) > Number(b) then RootAfter(cx, b, h.parent, n, was)
    else
      var next, now := Blocks.RewindTo(cx, h.parent), Blocks.RewindRoot(cx, h.parent, was);
      if next.None? then now else RootAfter(cx, next.value, h.parent, n, now)
  }

  lemma BodiesRooted(l: Ledger, genesis: Header)
    requires BlocksInv(l, genesis)
    ensures Rooted(l.bodies, genesis)
  {
  }

  /** A rewind from `p` that does not crash ends on genesis, or on an ancestor of `p` that
      has state; with ancestor-closed bodies it does not crash. */
  lemma RewindToIs(cx: Blocks.Context, p: Header)
    requires Rooted(cx.bodies, cx.genesis)
    ensures var r := Blocks.RewindTo(cx, p);
            && (Closed(cx.bodies) ==> r.Some?)
            && (r.Some? ==>
                  && r.value in cx.bodies && Number(r.value) <= Number(p)
                  && (r.value == cx.genesis || (IsAncestor(r.value, p) && r.value.root in cx.states)))
  {
    if p in cx.bodies {
      Blocks.WalkBackIn(cx, p, cx.root.None?);
    }
  }

  /** The head block after a rewind to number `n`, if it does not crash: never above the
      old one, nor above `n` if a header was dropped; and the old one, genesis, or a block
      with state. */
  lemma {:induction false} BlockAfterIs(cx: Blocks.Context, b: Header, h: Header, n: nat)
    requires Rooted(cx.bodies, cx.genesis) && b in cx.bodies
    ensures var r := BlockAfter(cx, b, h, n);
            && (Closed(cx.bodies) ==> r.Some?)
            && (r.Some? ==>
                  && r.value in cx.bodies && Number(r.value) <= Number(b)
                  && (n < Number(h) ==> Number(r.value) <= n)
                  && (r.value == b || r.value == cx.genesis || r.value.root in cx.states))
    decreases h
  {
    if n < Number(h) {
      RewindToIs(cx, h.parent);
      var next := if Number(h.parent) <= Number(b) then Blocks.RewindTo(cx, h.parent) else Some(b);
      if next.Some? {
        BlockAfterIs(cx, next.value, h.parent, n);
      }
    }
  }

  /** Where the head block ends, exactly: it is the old one if that lies below the target
      number; otherwise it is where a rewind from some header on the way ends, and all
      headers further down were above that. */
  lemma {:induction false} BlockAfterEnds(cx: Blocks.Context, b: Header, h: Header, n: nat)
    requires Rooted(cx.bodies, cx.genesis) && n < Number(h) && BlockAfter(cx, b, h, n).Some?
    ensures var r := BlockAfter(cx, b, h, n).value;
            && (Number(b) < n ==> r == b)
            && (n <= Number(b) ==>
                  exists m: nat :: n <= m < Number(h) && m <= Number(b) && EndsFrom(cx, h, n, m, r))
    decreases h
  {
    var p := h.parent;
    RewindToIs(cx, p);
    var next := if Number(p) <= Number(b) then Blocks.RewindTo(cx, p).value else b;
    var r := BlockAfter(cx, b, h, n).value;
    if n < Number(p) {
      BlockAfterEnds(cx, next, p, n);
      if n <= Number(next) {
        var m: nat :| n <= m < Number(p) && m <= Number(next) && EndsFrom(cx, p, n, m, r);
        assert AncestorAt(h, m) == AncestorAt(p, m);
        assert EndsFrom(cx, h, n, m, r);
      } else if n <= Number(b) {
        assert AncestorAt(h, Number(p)) == p;
        assert EndsFrom(cx, h, n, Number(p), r);
      }
    } else if n <= Number(b) {
      assert AncestorAt(h, n) == p;
      assert EndsFrom(cx, h, n, n, r);
    }
  }

  ghost predicate EndsFrom(cx: Blocks.Context, h: Header, n: nat, m: nat, r: Header)
    requires m <= Number(h)
  {
    Blocks.RewindTo(cx, AncestorAt(h, m)) == Some(r) && (m == n || Number(r) < n)
  }

  /** So without a threshold root and a pivot, and with ancestor-closed bodies, a head
      block on the path of the head header that is not below the target ends on the highest
      block with state at or below the target, or on genesis. */
  lemma HeadBlockIsHighestWithState(cx: Blocks.Context, b: Header, h: Header, n: nat)
    requires Closed(cx.bodies) && Rooted(cx.bodies, cx.genesis) && b in cx.bodies && IsAncestor(b, h)
    requires cx.root.None? && cx.pivot.None? && n < Number(h) && n <= Number(b)
    ensures BlockAfter(cx, b, h, n).Some?
    ensures var r := BlockAfter(cx, b, h, n).value;
            && IsAncestor(r, h) && Number(r) <= n && (r == cx.genesis || r.root in cx.states)
            && (forall k: nat :: Number(r) < k <= n ==> AncestorAt(h, k).root !in cx.states)
  {
    BlockAfterIs(cx, b, h, n);
    BlockAfterEnds(cx, b, h, n);
    var r := BlockAfter(cx, b, h, n).value;
    var m: nat :| n <= m < Number(h) && m <= Number(b) && EndsFrom(cx, h, n, m, r);
    var p := AncestorAt(h, m);
    AncestorTransitive(h, Number(b), m);
    AncestorTransitive(h, m, m);
    ClosedHasAncestors(cx.bodies, b, m);
    Blocks.RewindToIsRewound(cx, p, Some(r));
    Blocks.ClosedRewind(cx, p, Some(r));
    AncestorTransitive(h, m, Number(r));
    forall k: nat | Number(r) < k <= n ensures AncestorAt(h, k).root !in cx.states {
      AncestorTransitive(h, m, k);
      assert !Blocks.Acceptable(cx, p, k);
    }
  }

  /** The root number is unchanged, or that of a block with the root, on the path of the
      old head header below it and not below the new head block. */
  lemma {:induction false} RootAfterIs(cx: Blocks.Context, b: Header, h: Header, n: nat, was: nat)
    requires Rooted(cx.bodies, cx.genesis) && b in cx.bodies
    ensures var r, w := BlockAfter(cx, b, h, n), RootAfter(cx, b, h, n, was);
            r.Some? && w != was ==>
              cx.root.Some? && Number(r.value) <= w < Number(h) && AncestorAt(h, w).root == cx.root.value
    decreases h
  {
    if n < Number(h) {
      var p := h.parent;
      if Number(p) > Number(b) {
        RootAfterIs(cx, b, p, n, was);
      } else if Blocks.RewindTo(cx, p).Some? {
        var next, now := Blocks.RewindTo(cx, p).value, Blocks.RewindRoot(cx, p, was);
        RewindToIs(cx, p);
        Blocks.RewindRootIs(cx, p, was);
        RootAfterIs(cx, next, p, n, now);
        BlockAfterIs(cx, next, p, n);
      }
    }
  }

  /** If the head block was on the path of the head header, it goes back along it. */
  lemma {:induction false} BlockAfterIsBelow(cx: Blocks.Context, b: Header, h: Header, n: nat, top: Header)
    requires Rooted(cx.bodies, cx.genesis) && b in cx.bodies && AncestorAt(top, 0) == cx.genesis
    requires IsAncestor(b, top) && OnOneLine(top, h) && BlockAfter(cx, b, h, n).Some?
    ensures IsAncestor(BlockAfter(cx, b, h, n).value, top)
    decreases h
  {
    if n < Number(h) {
      var p := h.parent;
      ParentOnLine(top, h);
      RewindToIs(cx, p);
      var next := if Number(p) <= Number(b) then Blocks.RewindTo(cx, p) else Some(b);
      if Number(p) <= Number(b) && next.value != cx.genesis {
        AncestorTransitive(top, Number(p), Number(next.value));
      }
      BlockAfterIsBelow(cx, next.value, p, n, top);
    }
  }

  /** One of the two is an ancestor of the other. */
  predicate OnOneLine(a: Header, b: Header) {
    IsAncestor(a, b) || IsAncestor(b, a)
  }

  lemma ParentOnLine(top: Header, h: Header)
    requires OnOneLine(top, h) && h.Child?
    ensures OnOneLine(top, h.parent)
  {
    if IsAncestor(h, top) {
      AncestorTransitive(top, Number(h), Number(h) - 1);
    }
  }

  // ---------------------------------------------------------------- what survives

  /** A rewind that does not crash keeps the store, a right index, and ancestor-closed
      bodies; with ancestor-closed bodies it does not crash. */
  lemma RewindKeepsChain(l: Ledger, genesis: Header, t: Header, cx: Blocks.Context)
    requires BlocksInv(l, genesis) && IsAncestor(t, l.hs.head) && ContextOf(cx, l, genesis)
    ensures Closed(l.bodies) ==> BlockAfter(cx, l.block, l.hs.head, Number(t)).Some?
    ensures var b := BlockAfter(cx, l.block, l.hs.head, Number(t));
            b.Some? ==>
              var r := ChainRewound(l, t, b.value);
              && BlocksInv(r, genesis)
              && (IndexRight(l.hs) ==> IndexRight(r.hs))
              && (Closed(l.bodies) ==> Closed(r.bodies))
  {
    BodiesRooted(l, genesis);
    BlockAfterIs(cx, l.block, l.hs.head, Number(t));
    RewindKeepsStore(l.hs, genesis, t);
    if IndexRight(l.hs) {
      RewindKeepsInv(l.hs, genesis, t);
    }
    if t != l.hs.head {
      BelowHeadNumber(t, l.hs.head);
    }
  }

  lemma BelowHeadNumber(t: Header, h: Header)
    requires IsAncestor(t, h) && t != h
    ensures Number(t) < Number(h)
  {
  }

  /** No block of the path of `h` above number `n` has a transaction. */
  predicate NoTxAbove(h: Header, n: nat) {
    Number(h) > n ==> h.txs == [] && NoTxAbove(h.parent, n)
  }

  lemma {:induction false} EntriesAbove(h: Header, n: nat)
    ensures forall t :: t in IndexAbove(h, n) ==> IndexAbove(h, n)[t] > n
    ensures IndexAbove(h, n) == map[] <==> NoTxAbove(h, n)
  {
    if Number(h) > n {
      EntriesAbove(h.parent, n);
      if h.txs != [] {
        assert h.txs[0] in BlockIndex(h);
        assert h.txs[0] in IndexAbove(h, n);
      } else {
        assert BlockIndex(h) == map[];
      }
    }
  }

  lemma {:induction false} EntriesOf(h: Header)
    ensures forall t :: t in TxIndex(h) ==> TxIndex(h)[t] <= Number(h)
  {
    if h.Child? {
      EntriesOf(h.parent);
    }
  }

  /** Two blocks have the same lookup index exactly when they have the same entries above
      their common block. */
  lemma SameIndexExactlyWhen(a: Header, b: Header, common: Header)
    requires IsAncestor(common, a) && IsAncestor(common, b)
    ensures TxIndex(a) == TxIndex(b) <==> IndexAbove(a, Number(common)) == IndexAbove(b, Number(common))
  {
    var c := Number(common);
    IndexSplits(a, c);
    IndexSplits(b, c);
    EntriesAbove(a, c);
    EntriesAbove(b, c);
    EntriesOf(common);
    TopsAgree(TxIndex(common), IndexAbove(a, c), IndexAbove(b, c), c);
  }

  /** Over the same low entries, high entries decide. */
  lemma TopsAgree(low: map<Tx, nat>, a: map<Tx, nat>, b: map<Tx, nat>, c: nat)
    requires forall t :: t in low ==> low[t] <= c
    requires (forall t :: t in a ==> a[t] > c) && (forall t :: t in b ==> b[t] > c)
    ensures low + a == low + b <==> a == b
  {
    if low + a == low + b {
      forall t ensures (t in a <==> t in b) && (t in a ==> a[t] == b[t]) {
        var x, y := low + a, low + b;
        assert t in x <==> t in y;
        assert t in x ==> x[t] == y[t];
      }
    }
  }

  /** Since a rewind neither deletes nor writes lookup entries, the lookup index stays
      right exactly when the old and the new head block have the same entries above the
      block they have in common. */
  lemma LookupsSurviveExactlyWhen(l: Ledger, genesis: Header, t: Header, cx: Blocks.Context)
    requires BlocksInv(l, genesis) && IsAncestor(t, l.hs.head) && ContextOf(cx, l, genesis)
    requires LookupsRight(l) && t != l.hs.head && BlockAfter(cx, l.block, l.hs.head, Number(t)).Some?
    ensures var b := BlockAfter(cx, l.block, l.hs.head, Number(t)).value;
            && Common(l.block, b).Some?
            && var c := Number(Common(l.block, b).value);
               LookupsRight(ChainRewound(l, t, b)) <==> IndexAbove(l.block, c) == IndexAbove(b, c)
  {
    var b := BlockAfter(cx, l.block, l.hs.head, Number(t)).value;
    BodiesRooted(l, genesis);
    BlockAfterIs(cx, l.block, l.hs.head, Number(t));
    SameRoot(l.hs, genesis, l.block, b);
    CommonIsCommon(l.block, b);
    SameIndexExactlyWhen(l.block, b, Common(l.block, b).value);
  }

  /** So if the head block was on the path of the head header, exactly when no block it
      went back over has a transaction. */
  lemma LookupsSurviveOnLine(l: Ledger, genesis: Header, t: Header, cx: Blocks.Context)
    requires BlocksInv(l, genesis) && IsAncestor(t, l.hs.head) && ContextOf(cx, l, genesis)
    requires LookupsRight(l) && t != l.hs.head && BlockAfter(cx, l.block, l.hs.head, Number(t)).Some?
    requires OnOneLine(l.block, l.hs.head)
    ensures var b := BlockAfter(cx, l.block, l.hs.head, Number(t)).value;
            && IsAncestor(b, l.block)
            && (LookupsRight(ChainRewound(l, t, b)) <==> NoTxAbove(l.block, Number(b)))
  {
    var b := BlockAfter(cx, l.block, l.hs.head, Number(t)).value;
    BodiesRooted(l, genesis);
    RootedGenesis(l.hs.headers, genesis, l.block);
    assert AncestorAt(l.block, Number(l.block)) == l.block;
    BlockAfterIsBelow(cx, l.block, l.hs.head, Number(t), l.block);
    SameIndexExactlyWhen(l.block, b, b);
    EntriesAbove(l.block, Number(b));
    assert IndexAbove(b, Number(b)) == map[];
  }

  /** One block with a transaction on genesis, rewound: its lookup entry is left behind. */
  lemma LookupLeftBehind(genesis: Header, a: Header, cx: Blocks.Context)
    requires genesis.Genesis? && Extends(a, genesis) && a.txs != []
    requires cx.bodies == {genesis, a} && cx.genesis == genesis
    ensures var hs := State({genesis, a}, Weights({genesis, a}), Path(a), a, a);
            var l := Ledger(hs, {genesis, a}, TxIndex(a), a);
            && BlockAfter(cx, l.block, l.hs.head, 0) == Some(genesis)
            && LookupsRight(l) && !LookupsRight(ChainRewound(l, genesis, genesis))
  {
    assert Number(genesis) == 0 && Number(a) == 1 && AncestorAt(a, 0) == genesis;
    assert Blocks.RewindTo(cx, genesis) == Some(genesis);
    assert BlockAfter(cx, genesis, genesis, 0) == Some(genesis);
    SameIndexExactlyWhen(a, genesis, genesis);
    EntriesAbove(a, 0);
    assert IndexAbove(genesis, 0) == map[];
  }

  /** The head block `c` on another fork than the head header `b`: a rewind to number 1
      makes the parent `a` of `b` the head block.  No block it went back over has a
      transaction, but `a` has one and gets no entry. */
  lemma LookupMissing(genesis: Header, a: Header, b: Header, c: Header, cx: Blocks.Context)
    requires genesis.Genesis? && Extends(a, genesis) && Extends(c, genesis) && Extends(b, a)
    requires a.txs != [] && c.txs == []
    requires cx.bodies == {genesis, a, c} && cx.genesis == genesis && a.root in cx.states && cx.root.None?
    ensures var stored := {genesis, a, b, c};
            var l := Ledger(State(stored, Weights(stored), Path(b), b, b), {genesis, a, c}, TxIndex(c), c);
            && BlockAfter(cx, l.block, l.hs.head, 1) == Some(a)
            && LookupsRight(l) && NoTxAbove(c, 0) && !LookupsRight(ChainRewound(l, a, a))
  {
    assert Number(genesis) == 0 && Number(a) == 1 && Number(c) == 1 && Number(b) == 2;
    assert Blocks.RewindTo(cx, a) == Some(a);
    assert BlockAfter(cx, a, a, 1) == Some(a);
    assert AncestorAt(a, 0) == genesis == AncestorAt(c, 0);
    SameIndexExactlyWhen(c, a, genesis);
    EntriesAbove(a, 0);
    EntriesAbove(c, 0);
  }

  // ---------------------------------------------------------------- as the program does it

  /** Goes from `head` back to the target and takes the head block `start` along. */
  method RewindBlocks(cx: Blocks.Context, head: Header, start: Header, block: nat, time: nat)
    returns (t: Header, b: Option<Header>, rootNumber: nat)
    requires Rooted(cx.bodies, cx.genesis)
    ensures t == RewindTarget(head, block, time, None) || b.None?
    ensures b == BlockAfter(cx, start, head, Number(RewindTarget(head, block, time, None)))
    ensures rootNumber == RootAfter(cx, start, head, Number(RewindTarget(head, block, time, None)), 0)
    ensures t == head && b.Some? ==> b == Some(start)
  {
    hide RewindTarget;
    t, b, rootNumber := head, Some(start), 0;
    ghost var target := RewindTarget(head, block, time, None);
    RewindTargetIsAncestor(head, block, time, None);
    while !Done(t, block, time) && t.Child?
      invariant b.Some? && RewindTarget(t, block, time, None) == target && Number(target) <= Number(t) <= Number(head)
      invariant BlockAfter(cx, b.value, t, Number(target)) == BlockAfter(cx, start, head, Number(target))
      invariant RootAfter(cx, b.value, t, Number(target), rootNumber) == RootAfter(cx, start, head, Number(target), 0)
      invariant t == head ==> b == Some(start)
      decreases Number(t)
    {
      TargetStep(t, block, time, None);
      RewindTargetIsAncestor(t.parent, block, time, None);
      if Number(t.parent) <= Number(b.value) {
        b, rootNumber := Blocks.RewindHead(cx, t.parent, rootNumber);
        if b.None? {
          return;
        }
      }
      t := t.parent;
    }
    TargetIs(t, block, time);
  }

  /** Rewinds to a number or, with a positive `time`, to a time.  Returns the number of the
      block at which the threshold root was found, if it was. */
  method SetHead(bc: BlockChain, block: nat, time: nat, cx: Blocks.Context)
    returns (refused: bool, crashed: bool, rootNumber: nat)
    requires bc.Valid() && ContextOf(cx, bc.View(), bc.hc.genesis)
    modifies bc, bc.hc
    ensures refused <==> time > 0 && bc.hc.genesis.time > time
    ensures refused ==> !crashed && bc.View() == old(bc.View())
    ensures !refused ==>
              var l := old(bc.View());
              var t := RewindTarget(l.hs.head, block, time, None);
              var b := BlockAfter(cx, l.block, l.hs.head, Number(t));
              && (crashed <==> b.None?)
              && (!crashed ==> bc.View() == ChainRewound(l, t, b.value))
              && rootNumber == RootAfter(cx, l.block, l.hs.head, Number(t), 0)
    // A body goes exactly together with its header; lookup entries stay.
    ensures !refused && !crashed ==> bc.bodies == old(bc.bodies) * bc.hc.headers && bc.lookups == old(bc.lookups)
    ensures !refused && !crashed && rootNumber != 0 ==>
              && cx.root.Some? && Number(bc.currentBlock) <= rootNumber < Number(old(bc.hc.current))
              && AncestorAt(old(bc.hc.current), rootNumber).root == cx.root.value
    ensures !crashed ==> bc.Valid()
    ensures !crashed && old(IndexRight(bc.hc.View())) ==> IndexRight(bc.hc.View())
    ensures old(Closed(bc.bodies)) ==> !crashed && Closed(bc.bodies)
  {
    hide StoreInv, UpTo, Below, Weights, RewindTarget, IndexRight, Closed, BlockAfter, RootAfter, AncestorAt;
    ghost var l := bc.View();
    if time > 0 && bc.hc.genesis.time > time {
      return true, false, 0;
    }
    BodiesRooted(l, bc.hc.genesis);
    RewindTargetIsAncestor(l.hs.head, block, time, None);
    RewindKeepsChain(l, bc.hc.genesis, RewindTarget(l.hs.head, block, time, None), cx);
    RootAfterIs(cx, l.block, l.hs.head, Number(RewindTarget(l.hs.head, block, time, None)), 0);
    BodiesFollowHeaders(l, bc.hc.genesis, RewindTarget(l.hs.head, block, time, None));
    var t, b;
    t, b, rootNumber := RewindBlocks(cx, bc.hc.current, bc.currentBlock, block, time);
    if b.None? {
      return false, true, rootNumber;
    }
    var rewound := t != bc.hc.current;
    refused := bc.hc.SetHead(block, time, None);
    if rewound {
      UpToIs(bc.bodies, Number(t));
      bc.bodies := set x | x in bc.bodies && Number(x) <= Number(t);
      bc.currentBlock := b.value;
    }
    crashed := false;
  }

  lemma BodiesFollowHeaders(l: Ledger, genesis: Header, t: Header)
    requires BlocksInv(l, genesis)
    ensures UpTo(l.bodies, Number(t)) == l.bodies * UpTo(l.hs.headers, Number(t))
    ensures l.bodies == l.bodies * l.hs.headers
  {
  }

  lemma UpToIs(bodies: set<Header>, n: nat)
    ensures UpTo(bodies, n) == set x | x in bodies && Number(x) <= n
  {
  }

  lemma TargetIs(h: Header, block: nat, time: nat)
    requires Done(h, block, time) || h.Genesis?
    ensures RewindTarget(h, block, time, None) == h
  {
  }
}
