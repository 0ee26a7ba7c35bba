/** The block chain as the program runs it: reorganising to a new head block, writing
    blocks with the fork choice, and storing side chains. */
module BlockChain {
  import opened Options
  import opened BlockTree
  import opened HeaderState
  import opened HeaderChain
  import opened BlockState

  function TxSet(txs: seq<Tx>): set<Tx> {
    set t | t in txs
  }

  /** Where the two walks of a reorganisation stand at `o` and `n`. */
  ghost predicate WalkInv(bodies: set<Header>, from: Header, to: Header,
                          o: Header, n: Header, newChain: seq<Header>, deleted: seq<Tx>) {
    && IsAncestor(o, from) && IsAncestor(n, to)
    && Common(from, to) == Common(o, n)
    && newChain == Down(to, Number(n))
    && TxSet(deleted) == IndexAbove(from, Number(o)).Keys
    && Fetched(bodies, from, Number(o)) && Fetched(bodies, to, Number(n))
  }

  lemma {:induction false} DownStep(h: Header, n: nat)
    requires n < Number(h)
    ensures Down(h, n) == Down(h, n + 1) + [AncestorAt(h, n + 1)]
  {
    if n + 1 < Number(h) {
      DownStep(h.parent, n);
    }
  }

  lemma {:induction false} IndexAboveStep(h: Header, n: nat)
    requires n < Number(h)
    ensures IndexAbove(h, n).Keys == IndexAbove(h, n + 1).Keys + BlockIndex(AncestorAt(h, n + 1)).Keys
  {
    if n + 1 < Number(h) {
      IndexAboveStep(h.parent, n);
    }
  }

  lemma TxSetAppend(txs: seq<Tx>, b: Header)
    ensures TxSet(txs + b.txs) == TxSet(txs) + BlockIndex(b).Keys
  {
  }

  lemma OldStep(bodies: set<Header>, from: Header, o: Header, deleted: seq<Tx>)
    requires IsAncestor(o, from) && o.Child? && o.parent in bodies && Fetched(bodies, from, Number(o))
    requires TxSet(deleted) == IndexAbove(from, Number(o)).Keys
    ensures IsAncestor(o.parent, from) && Fetched(bodies, from, Number(o.parent))
    ensures TxSet(deleted + o.txs) == IndexAbove(from, Number(o.parent)).Keys
  {
    hide IndexAbove;
    AncestorTransitive(from, Number(o), Number(o) - 1);
    IndexAboveStep(from, Number(o) - 1);
    TxSetAppend(deleted, o);
  }

  lemma NewStep(bodies: set<Header>, to: Header, n: Header)
    requires IsAncestor(n, to) && n.Child? && n.parent in bodies && Fetched(bodies, to, Number(n))
    ensures IsAncestor(n.parent, to) && Fetched(bodies, to, Number(n.parent))
    ensures Down(to, Number(n.parent)) == Down(to, Number(n)) + [n]
  {
    AncestorTransitive(to, Number(n), Number(n) - 1);
    DownStep(to, Number(n) - 1);
  }

  /** A body missing on the way down either chain makes the reorganisation impossible. */
  lemma MissingBody(bodies: set<Header>, from: Header, to: Header, o: Header, n: Header)
    requires IsAncestor(o, from) && IsAncestor(n, to) && Common(from, to) == Common(o, n) && o != n
    requires || (Number(o) <= Number(n) && n.Child? && n.parent !in bodies)
             || (Number(o) >= Number(n) && o.Child? && o.parent !in bodies)
    ensures !Reorganisable(bodies, from, to)
  {
    if Common(from, to).Some? {
      CommonIsCommon(o, n);
      if Number(o) <= Number(n) && n.Child? && n.parent !in bodies {
        AncestorTransitive(to, Number(n), Number(n) - 1);
      } else {
        AncestorTransitive(from, Number(o), Number(o) - 1);
      }
    }
  }

  lemma WalkStart(bodies: set<Header>, from: Header, to: Header)
    ensures WalkInv(bodies, from, to, from, to, [], [])
  {
    assert AncestorAt(from, Number(from)) == from;
    assert IndexAbove(from, Number(from)) == map[];
    assert TxSet([]) == {};
  }

  /** Walks both chains back to the same number. */
  method Equalise(bodies: set<Header>, from: Header, to: Header)
    returns (ok: bool, o: Header, n: Header, newChain: seq<Header>, deleted: seq<Tx>)
    ensures ok ==> WalkInv(bodies, from, to, o, n, newChain, deleted) && Number(o) == Number(n)
    ensures !ok ==> !Reorganisable(bodies, from, to)
  {
    o, n, newChain, deleted := from, to, [], [];
    WalkStart(bodies, from, to);
    hide IndexAbove, Down, Fetched, Reorganisable;
    ok := false;
    if Number(from) > Number(to) {
      while Number(o) != Number(n)
        invariant WalkInv(bodies, from, to, o, n, newChain, deleted) && n == to && Number(o) >= Number(n)
        decreases Number(o)
      {
        if o.parent !in bodies {
          MissingBody(bodies, from, to, o, n);
          return;
        }
        OldStep(bodies, from, o, deleted);
        deleted := deleted + o.txs;
        o := o.parent;
      }
    } else {
      while Number(n) != Number(o)
        invariant WalkInv(bodies, from, to, o, n, newChain, deleted) && o == from && Number(o) <= Number(n)
        decreases Number(n)
      {
        if n.parent !in bodies {
          MissingBody(bodies, from, to, o, n);
          return;
        }
        NewStep(bodies, to, n);
        newChain := newChain + [n];
        n := n.parent;
      }
    }
    ok := true;
  }

  /** Finds the common block; `newChain` is the new chain above it, newest first, and
      `deleted` the transactions of the old chain above it. */
  method FindCommon(bodies: set<Header>, from: Header, to: Header)
    returns (ok: bool, common: Header, newChain: seq<Header>, deleted: seq<Tx>)
    ensures ok <==> Reorganisable(bodies, from, to)
    ensures ok ==> Common(from, to) == Some(common)
    ensures ok ==> newChain == Down(to, Number(common)) && TxSet(deleted) == IndexAbove(from, Number(common)).Keys
  {
    hide IndexAbove, Down, Fetched;
    var o, n;
    ok, o, n, newChain, deleted := Equalise(bodies, from, to);
    if !ok {
      common := from;
      return;
    }
    while o != n
      invariant WalkInv(bodies, from, to, o, n, newChain, deleted) && Number(o) == Number(n)
      decreases Number(o)
    {
      if o.Genesis? {
        assert Common(o, n).None?;
        return false, o, newChain, deleted;
      }
      if o.parent !in bodies || n.parent !in bodies {
        MissingBody(bodies, from, to, o, n);
        return false, o, newChain, deleted;
      }
      OldStep(bodies, from, o, deleted);
      NewStep(bodies, to, n);
      deleted, newChain := deleted + o.txs, newChain + [n];
      o, n := o.parent, n.parent;
    }
    ok, common := true, o;
  }

  /** The ledger between a reorganisation and the write of the new head block. */
  ghost function Reorged(l: Ledger, to: Header, common: Header): Ledger {
    var w, c := BelowHead(to, common), Number(common);
    var r := Rewriting(l, common, w);
    r.(hs := r.hs.(canon := Cut(r.hs.canon, Number(w) + 1)),
       lookups := (l.lookups + IndexBetween(to, c)) - (IndexAbove(l.block, c).Keys - IndexBetween(to, c).Keys))
  }

  ghost function HeadWritten(l: Ledger, b: Header): Ledger {
    Ledger(l.hs.(canon := l.hs.canon[Number(b) := b], marker := b, head := b), l.bodies, l.lookups + BlockIndex(b), b)
  }

  lemma ReorgedStore(l: Ledger, to: Header, common: Header)
    ensures var r := Reorged(l, to, common);
            r.bodies == l.bodies && r.hs.headers == l.hs.headers && r.hs.tds == l.hs.tds
  {
    hide IndexAbove, IndexBetween, Cut, Segment;
  }

  lemma ReorgThenHead(l: Ledger, to: Header, common: Header)
    requires ParentHash(to) != Some(l.block)
    ensures HeadWritten(Reorged(l, to, common), to) == Adopted(l, to, common)
  {
    hide IndexAbove, IndexBetween, Cut, Segment;
  }

  lemma ExtendLookups(lookups: map<Tx, nat>, b: Header)
    requires b.Child?
    ensures Relooked(lookups, b.parent, b, b.parent) == lookups + BlockIndex(b)
  {
    var c := Number(b.parent);
    assert IndexAbove(b.parent, c) == map[] && IndexBetween(b, c) == map[];
    assert lookups + map[] - {} == lookups;
  }

  lemma ExtendHead(l: Ledger, b: Header)
    requires b.Child? && b.parent == l.block
    ensures Common(l.block, b) == Some(l.block) && Down(b, Number(l.block)) == [b]
    ensures HeadWritten(l, b) == Adopted(l, b, l.block)
  {
    hide Relooked;
    ExtendLookups(l.lookups, b);
  }

  /** The ledger while the new chain is being written, up to and including `w`. */
  ghost function Rewriting(l: Ledger, common: Header, w: Header): Ledger {
    var canon := l.hs.canon + Segment(w, Number(common) + 1);
    var lookups := l.lookups + IndexAbove(w, Number(common));
    if w == common then l.(hs := l.hs.(canon := canon), lookups := lookups)
    else Ledger(l.hs.(canon := canon, marker := w, head := w), l.bodies, lookups, w)
  }

  lemma SegmentOfChild(m: map<nat, Header>, b: Header, lo: nat)
    requires b.Child? && lo <= Number(b)
    ensures (m + Segment(b.parent, lo))[Number(b) := b] == m + Segment(b, lo)
  {
    assert Segment(b, lo) == Segment(b.parent, lo)[Number(b) := b];
  }

  lemma IndexOfChild(m: map<Tx, nat>, b: Header, c: nat)
    requires b.Child? && c < Number(b)
    ensures m + IndexAbove(b.parent, c) + BlockIndex(b) == m + IndexAbove(b, c)
    ensures IndexAbove(b, c).Keys == IndexAbove(b.parent, c).Keys + BlockIndex(b).Keys
  {
    assert IndexAbove(b, c) == IndexAbove(b.parent, c) + BlockIndex(b);
  }

  lemma RewritingStep(l: Ledger, common: Header, b: Header)
    requires b.Child? && Number(common) < Number(b)
    ensures HeadWritten(Rewriting(l, common, b.parent), b) == Rewriting(l, common, b)
    ensures IndexAbove(b, Number(common)).Keys == IndexAbove(b.parent, Number(common)).Keys + BlockIndex(b).Keys
  {
    hide Segment, IndexAbove, Number;
    SegmentOfChild(l.hs.canon, b, Number(common) + 1);
    IndexOfChild(l.lookups, b, Number(common));
  }

  lemma {:induction false} DownAt(h: Header, lo: nat, i: nat)
    requires i < |Down(h, lo)|
    ensures lo <= Number(h) && |Down(h, lo)| == Number(h) - lo
    ensures Down(h, lo)[i] == AncestorAt(h, Number(h) - i)
  {
    if i > 0 {
      DownAt(h.parent, lo, i - 1);
    } else if Number(h) > lo + 1 {
      DownAt(h.parent, lo, 0);
    }
  }

  /** The new chain read from its far end. */
  lemma DownLinks(h: Header, common: Header, i: nat)
    requires IsAncestor(common, h) && i < |Down(h, Number(common))|
    ensures var d := Down(h, Number(common));
            && d[i].Child? && Number(common) < Number(d[i])
            && d[i].parent == (if i == |d| - 1 then common else d[i + 1])
            && d[0] == h && IsAncestor(common, d[i])
  {
    var c := Number(common);
    DownAt(h, c, i);
    DownAt(h, c, 0);
    AncestorTransitive(h, Number(h) - i, Number(h) - i - 1);
    AncestorTransitive(h, Number(h) - i, c);
    if i < |Down(h, c)| - 1 {
      DownAt(h, c, i + 1);
    }
  }

  lemma RewritingStart(l: Ledger, common: Header)
    ensures Rewriting(l, common, common) == l
    ensures IndexAbove(common, Number(common)) == map[] && TxSet([]) == {}
  {
    assert Segment(common, Number(common) + 1) == map[];
  }

  lemma BelowHeadIs(to: Header, common: Header)
    requires IsAncestor(common, to)
    ensures var d := Down(to, Number(common));
            && BelowHead(to, common) == (if |d| > 1 then d[1] else common)
            && IsAncestor(common, BelowHead(to, common))
            && IndexBetween(to, Number(common)) == IndexAbove(BelowHead(to, common), Number(common))
  {
    var d := Down(to, Number(common));
    if d != [] {
      DownLinks(to, common, 0);
      if |d| > 1 {
        DownLinks(to, common, 1);
      }
    }
  }

  datatype BlockResult = Stopped | NoAncestor | CommitFailed | ReorgFailed | Side | Canonical

  datatype SideResult = GhostState | SideStopped | Written(externTd: nat)

  /** `b` has the state root of a different block that is marked at its number and
      whose body is stored. */
  predicate Shadows(l: Ledger, b: Header) {
    && Number(b) <= Number(l.block) && Number(b) in l.hs.canon
    && var c := l.hs.canon[Number(b)]; c in l.bodies && c != b && c.root == b.root
  }

  lemma StoredNone(l: Ledger)
    ensures StoredAll(l, []) == l
  {
  }

  lemma StoredOneMore(l: Ledger, side: seq<Header>, k: nat)
    requires k < |side|
    ensures StoredAll(l, side[..k + 1]) == Stored(StoredAll(l, side[..k]), side[k])
  {
    assert side[..k + 1][..k] == side[..k];
  }

  lemma {:induction false} StoredBodies(l: Ledger, bs: seq<Header>)
    ensures var m := StoredAll(l, bs);
            m.bodies == l.bodies + Elems(bs) && m.hs.canon == l.hs.canon && m.block == l.block
  {
    if bs != [] {
      var n := |bs| - 1;
      StoredBodies(l, bs[..n]);
      assert bs == bs[..n] + [bs[n]];
      assert Elems(bs) == Elems(bs[..n]) + {bs[n]};
    } else {
      assert Elems(bs) == {};
    }
  }

  /** A block of a linked chain that is stored after those before it was there already. */
  lemma OnlyStoredBefore(l: Ledger, side: seq<Header>, k: nat)
    requires Linked(side) && k < |side| && side[k] in StoredAll(l, side[..k]).bodies
    ensures side[k] in l.bodies
  {
    StoredBodies(l, side[..k]);
    LinkedNumbers(side, k);
    forall i | 0 <= i < k ensures side[i] != side[k] {
      LinkedNumbers(side, i);
    }
  }

  /** Storing the blocks before it does not make a block shadow another. */
  lemma ShadowsStay(l: Ledger, genesis: Header, side: seq<Header>, k: nat)
    requires StoreInv(l.hs, genesis) && Linked(side) && k < |side|
    ensures var m := StoredAll(l, side[..k]);
            && m.hs.canon == l.hs.canon && m.block == l.block
            && (Shadows(m, side[k]) <==> Shadows(l, side[k]))
  {
    StoredBodies(l, side[..k]);
    LinkedNumbers(side, k);
    forall i | 0 <= i < k ensures Number(side[i]) != Number(side[k]) {
      LinkedNumbers(side, i);
    }
  }

  lemma KnownKeepsLookups(l: Ledger, genesis: Header, b: Header)
    requires BlocksInv(l, genesis) && b in l.bodies
    ensures LookupsRight(l) && NoTxTwice(l.block) ==> LookupsRight(KnownWritten(l, b))
  {
    hide BlocksInv, Adopted, NoTxTwice, Down, Common, TxIndex;
    if Reorganisable(l.bodies, l.block, b) {
      AdoptedKeepsInv(l, genesis, b, Common(l.block, b).value);
    }
  }

  class BlockChain {
    const hc: HeaderChain
    var bodies: set<Header>
    var lookups: map<Tx, nat>
    var currentBlock: Header

    ghost function View(): Ledger
      reads this, hc
    {
      Ledger(hc.View(), bodies, lookups, currentBlock)
    }

    ghost predicate Valid()
      reads this, hc
    {
      BlocksInv(View(), hc.genesis)
    }

    constructor (g: Header)
      requires g.Genesis?
      ensures Valid() && fresh(hc) && hc.genesis == g && currentBlock == g
      ensures IndexRight(hc.View()) && LookupsRight(View())
    {
      hc := new HeaderChain(g);
      bodies, lookups, currentBlock := {g}, BlockIndex(g), g;
    }

    method WriteHeadBlock(b: Header)
      modifies this, hc
      ensures View() == HeadWritten(old(View()), b)
    {
      hc.marker := b;
      hc.canon := hc.canon[Number(b) := b];
      lookups := lookups + BlockIndex(b);
      hc.current := b;
      currentBlock := b;
    }

    /** Makes the path of `newBlock`, up to but without `newBlock`, canonical. */
    method Reorg(newBlock: Header) returns (ok: bool)
      requires Valid()
      modifies this, hc
      ensures ok <==> Reorganisable(old(bodies), old(currentBlock), newBlock)
      ensures !ok ==> View() == old(View())
      ensures ok ==> View() == Reorged(old(View()), newBlock, Common(old(currentBlock), newBlock).value)
      ensures bodies == old(bodies) && hc.headers == old(hc.headers) && hc.tds == old(hc.tds)
    {
      ghost var l := View();
      hide StoreInv, Reorganisable, Rewriting, Reorged, IndexAbove, IndexBetween;
      var common, newChain, deleted;
      ok, common, newChain, deleted := FindCommon(bodies, currentBlock, newBlock);
      if ok {
        CommonIsCommon(l.block, newBlock);
        var added := RewriteChain(newBlock, newChain, common, l);
        DropStale(newBlock, newChain, common, deleted, added, l);
        ReorgedStore(l, newBlock, common);
      }
    }

    /** Deletes the lookup entries of dropped transactions and the markers above the
        last block written. */
    method DropStale(newBlock: Header, newChain: seq<Header>, common: Header, deleted: seq<Tx>, added: seq<Tx>,
        ghost l: Ledger)
      requires View() == Rewriting(l, common, BelowHead(newBlock, common))
      requires BelowHead(newBlock, common) == if |newChain| > 1 then newChain[1] else common
      requires IndexBetween(newBlock, Number(common)) == IndexAbove(BelowHead(newBlock, common), Number(common))
      requires TxSet(deleted) == IndexAbove(l.block, Number(common)).Keys
      requires TxSet(added) == IndexBetween(newBlock, Number(common)).Keys
      modifies this, hc
      ensures View() == Reorged(l, newBlock, common)
    {
      hide Segment, Cut, IndexAbove, IndexBetween;
      lookups := lookups - (TxSet(deleted) - TxSet(added));
      var w := if |newChain| > 1 then newChain[1] else common;
      hc.canon := DropMarkersFrom(hc.canon, Number(w) + 1);
    }

    method AdoptNext(b: Header, common: Header, added: seq<Tx>, ghost l: Ledger) returns (added': seq<Tx>)
      requires b.Child? && Number(common) < Number(b) && View() == Rewriting(l, common, b.parent)
      requires TxSet(added) == IndexAbove(b.parent, Number(common)).Keys
      modifies this, hc
      ensures View() == Rewriting(l, common, b) && TxSet(added') == IndexAbove(b, Number(common)).Keys
    {
      hide Rewriting, IndexAbove, HeadWritten, TxSet, BlockIndex;
      RewritingStep(l, common, b);
      TxSetAppend(added, b);
      WriteHeadBlock(b);
      added' := added + b.txs;
    }

    /** Writes the new chain from the fork up, all but its head. */
    method RewriteChain(newBlock: Header, newChain: seq<Header>, common: Header, ghost l: Ledger)
      returns (added: seq<Tx>)
      requires l == View()
      requires IsAncestor(common, newBlock) && newChain == Down(newBlock, Number(common))
      modifies this, hc
      ensures View() == Rewriting(l, common, BelowHead(newBlock, common))
      ensures TxSet(added) == IndexBetween(newBlock, Number(common)).Keys
      ensures IndexBetween(newBlock, Number(common)) == IndexAbove(BelowHead(newBlock, common), Number(common))
      ensures BelowHead(newBlock, common) == if |newChain| > 1 then newChain[1] else common
      ensures IsAncestor(common, BelowHead(newBlock, common))
    {
      hide Rewriting, IndexBetween, IndexAbove, Down, IsAncestor, HeadWritten, TxSet, BlockIndex, BelowHead, Number;
      added := [];
      var i := |newChain| - 1;
      ghost var w := common;
      RewritingStart(l, common);
      BelowHeadIs(newBlock, common);
      while i >= 1
        invariant -1 <= i < |newChain| && (newChain != [] ==> i >= 0)
        invariant w == if i == |newChain| - 1 then common else newChain[i + 1]
        invariant View() == Rewriting(l, common, w)
        invariant TxSet(added) == IndexAbove(w, Number(common)).Keys
      {
        DownLinks(newBlock, common, i);
        added := AdoptNext(newChain[i], common, added, l);
        w := newChain[i];
        i := i - 1;
      }
      assert w == BelowHead(newBlock, common);
    }

    /** Makes `block` the head block, reorganising if it does not extend the head. */
    method WriteKnownBlock(block: Header) returns (ok: bool)
      requires Valid()
      modifies this, hc
      ensures ok <==> Reorganisable(old(bodies), old(currentBlock), block)
      ensures View() == KnownWritten(old(View()), block)
      ensures currentBlock == (if ok then block else old(currentBlock)) && (ok ==> hc.current == block)
      ensures bodies == old(bodies) && hc.headers == old(hc.headers) && hc.tds == old(hc.tds)
      ensures block in old(bodies) ==> Valid()
      ensures block in old(bodies) && old(PathStored(bodies, currentBlock)) ==> PathStored(bodies, currentBlock)
      ensures ok && old(IndexRight(hc.View())) ==>
                (IndexRight(hc.View()) <==>
                  AdoptionSound(old(hc.current), old(currentBlock), block, Common(old(currentBlock), block).value))
    {
      ghost var l := View();
      assert currentBlock in bodies;
      hide Reorged, HeadWritten, Adopted, BlocksInv, Reorganisable, AdoptionSound, IndexRight, PathStored;
      KnownKeepsInv(l, hc.genesis, block);
      if ParentHash(block) != Some(currentBlock) {
        ok := Reorg(block);
        if !ok {
          return;
        }
        ReorgThenHead(l, block, Common(l.block, block).value);
      } else {
        ExtendHead(l, block);
        Extendable(l, block);
        ok := true;
      }
      WriteHeadBlock(block);
    }

    /** Writes an executed block and lets the fork choice decide about the head.  The
        block stays stored when a later step fails. */
    method WriteBlockWithState(block: Header, stopped: bool, committed: bool,
                               currentPreserve: bool, blockPreserve: bool, coin: bool)
      returns (r: BlockResult)
      requires Valid()
      modifies this, hc
      ensures Valid()
      ensures stopped <==> r.Stopped?
      ensures View() == if stopped then old(View())
                        else BlockWritten(old(View()), block, committed, !currentPreserve && (blockPreserve || coin))
      ensures !stopped ==> (r.NoAncestor? <==> block.Genesis? || block.parent !in old(hc.headers))
      ensures !stopped && !r.NoAncestor? ==> (r.CommitFailed? <==> !committed)
      ensures !stopped && !r.NoAncestor? && committed ==>
                var wins := Wins(block, old(currentBlock), !currentPreserve && (blockPreserve || coin));
                && (r.Side? <==> !wins)
                && (r.Canonical? <==> wins && Reorganisable(old(bodies) + {block}, old(currentBlock), block))
      // The block is stored; it becomes the head if it is heavier, on a tie if it is the
      // shorter one, on a full tie if the preference and the coin say so.
      ensures !stopped && !r.NoAncestor? ==>
                bodies == old(bodies) + {block} && hc.headers == old(hc.headers) + {block}
      ensures currentBlock == if r.Canonical? then block else old(currentBlock)
      ensures AtLeast(currentBlock, old(currentBlock)) && (r.Canonical? || r.Side? ==> AtLeast(currentBlock, block))
      ensures !stopped && !r.NoAncestor? && committed && !AtLeast(old(currentBlock), block) ==>
                r.Canonical? || r.ReorgFailed?
      ensures !AtLeast(block, old(currentBlock)) ==> !r.Canonical? && !r.ReorgFailed?
      ensures !stopped && !r.NoAncestor? && committed
              && AtLeast(old(currentBlock), block) && AtLeast(block, old(currentBlock)) ==>
                (r.Side? <==> currentPreserve || (!blockPreserve && !coin))
      ensures old(Closed(bodies)) && block.Child? && block.parent in old(bodies) ==> !r.ReorgFailed?
      ensures old(PathStored(bodies, currentBlock)) ==> PathStored(bodies, currentBlock)
      ensures old(LookupsRight(View()) && NoTxTwice(currentBlock)) ==> LookupsRight(View())
      ensures old(IndexRight(hc.View())) ==>
                (IndexRight(hc.View()) <==>
                  (r.Canonical? ==>
                    AdoptionSound(old(hc.current), old(currentBlock), block, Common(old(currentBlock), block).value)))
    {
      if stopped {
        return Stopped;
      }
      if block.Genesis? || block.parent !in hc.tds {
        return NoAncestor;
      }
      ghost var l := View();
      var localTd, externTd := hc.tds[currentBlock], block.difficulty + hc.tds[block.parent];
      StoredKeepsInv(l, hc.genesis, block);
      hc.tds := hc.tds[block := externTd];
      hc.headers := hc.headers + {block};
      bodies := bodies + {block};
      assert View() == Stored(l, block);
      if !committed {
        return CommitFailed;
      }
      var reorg := ForkChoice(externTd, localTd, Number(block), Number(currentBlock),
                              !currentPreserve && (blockPreserve || coin));
      assert reorg == Wins(block, l.block, !currentPreserve && (blockPreserve || coin));
      if !reorg {
        return Side;
      }
      hide BlocksInv, Adopted, NoTxTwice, Path, TxIndex, Common, Down, Reorganisable, AdoptionSound;
      KnownKeepsLookups(Stored(l, block), hc.genesis, block);
      if Closed(l.bodies) && block.parent in l.bodies {
        ClosedReorganises(l, hc.genesis, block);
      }
      var ok := WriteKnownBlock(block);
      r := if ok then Canonical else ReorgFailed;
    }

    method WriteBlockWithoutState(block: Header, td: nat)
      requires Valid() && block.Child? && block.parent in hc.headers && td == TotalDifficulty(block)
      modifies this, hc
      ensures Valid() && View() == Stored(old(View()), block)
      ensures old(PathStored(bodies, currentBlock)) ==> PathStored(bodies, currentBlock)
    {
      StoredKeepsInv(View(), hc.genesis, block);
      hc.tds := hc.tds[block := td];
      hc.headers := hc.headers + {block};
      bodies := bodies + {block};
    }

    /** Stores a side chain whose state is not at hand, accumulating its total
        difficulty.  `stopAt` is the position at which a write finds the chain
        stopping.  `k` blocks of `side` are stored when it returns. */
    method InsertSideChain(side: seq<Header>, stopAt: nat) returns (r: SideResult, k: nat)
      requires Valid() && Linked(side) && side != []
      requires side[0].Child? && side[0].parent in hc.headers   // the pruned ancestor
      modifies this, hc
      ensures Valid() && k <= |side| && View() == StoredAll(old(View()), side[..k])
      ensures r.Written? ==> k == |side| && r.externTd == TotalDifficulty(Last(side))
      ensures forall i :: 0 <= i < k ==> !Shadows(old(View()), side[i])
      ensures r.GhostState? <==> k < |side| && Shadows(old(View()), side[k])
      ensures r.GhostState? ==>
                && Number(side[k]) <= Number(currentBlock) && Number(side[k]) in hc.canon
                && var c := hc.canon[Number(side[k])]; c in old(bodies) && c != side[k] && c.root == side[k].root
      ensures bodies == old(bodies) + Elems(side[..k]) && hc.canon == old(hc.canon) && currentBlock == old(currentBlock)
      // No block written has the state root of another stored block marked at its number.
      ensures forall i :: 0 <= i < k && Number(side[i]) <= Number(currentBlock) && Number(side[i]) in hc.canon ==>
                var c := hc.canon[Number(side[i])];
                c == side[i] || c !in old(bodies) || c.root != side[i].root
      ensures r.SideStopped? ==> k == stopAt < |side|
      ensures !r.SideStopped? && stopAt < k ==> side[stopAt] in old(bodies)
    {
      hide Path, Closed, Rooted, AncestorAt, StoredAll;
      StoredNone(View());
      k := 0;
      var externTd: Option<nat> := None;
      while k < |side|
        invariant k <= |side| && Valid() && View() == StoredAll(old(View()), side[..k])
        invariant k == 0 ==> externTd == None
        invariant k > 0 ==> externTd == Some(TotalDifficulty(side[k - 1]))
        invariant side[0].parent in hc.headers
        invariant forall i :: 0 <= i < k ==> side[i] in hc.headers
        invariant forall i :: 0 <= i < k ==> !Shadows(old(View()), side[i])
        invariant stopAt < k ==> side[stopAt] in old(bodies)
        invariant hc.canon == old(hc.canon) && currentBlock == old(currentBlock)
      {
        assert k > 0 ==> Extends(side[k], side[k - 1]);
        StoredBodies(old(View()), side[..k]);
        StoredOneMore(old(View()), side, k);
        var block := side[k];
        var number := Number(block);
        ghost var l := View();
        ShadowsStay(old(View()), hc.genesis, side, k);
        if Number(currentBlock) >= number && number in hc.canon && hc.canon[number] in bodies {
          var canonical := hc.canon[number];
          if canonical == block {
            externTd := Some(hc.tds[block]);
            StoredAgain(l, block);
            OnlyStoredBefore(old(View()), side, k);
            k := k + 1;
            continue;
          }
          if canonical.root == block.root {
            return GhostState, k;
          }
        }
        if externTd == None {
          externTd := Some(hc.tds[block.parent]);
        }
        externTd := Some(externTd.value + block.difficulty);
        if block !in bodies {
          if k == stopAt {
            return SideStopped, k;
          }
          WriteBlockWithoutState(block, externTd.value);
        } else {
          StoredAgain(l, block);
          OnlyStoredBefore(old(View()), side, k);
        }
        k := k + 1;
      }
      assert side[..|side|] == side;
      StoredBodies(old(View()), side);
      r := Written(externTd.value);
    }
  }
}
