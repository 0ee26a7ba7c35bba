/** What the block chain adds to the header chain: block bodies, a transaction lookup
    index and a head block; and what adopting a new head block means for them. */
module BlockState {
  import opened Options
  import opened BlockTree
  import opened HeaderState

  datatype Ledger = Ledger(
    hs: State,                  // the header chain underneath, same database
    bodies: set<Header>,        // stored block bodies
    lookups: map<Tx, nat>,      // transaction -> number of the block that holds it
    block: Header)              // in-memory current block

  /** The lookup entries of one block. */
  function BlockIndex(h: Header): map<Tx, nat> {
    map t | t in h.txs :: Number(h)
  }

  /** The lookup entries of the whole path of `h`. */
  function TxIndex(h: Header): map<Tx, nat> {
    if h.Genesis? then BlockIndex(h) else TxIndex(h.parent) + BlockIndex(h)
  }

  /** The lookup entries of the blocks of the path of `h` above number `n`. */
  function IndexAbove(h: Header, n: nat): map<Tx, nat> {
    if Number(h) <= n then map[] else IndexAbove(h.parent, n) + BlockIndex(h)
  }

  /** The highest block two blocks have in common, if they have any. */
  function Common(a: Header, b: Header): Option<Header>
    decreases Number(a) + Number(b)
  {
    if a == b then Some(a)
    else if Number(a) == 0 && Number(b) == 0 then None
    else if Number(a) > Number(b) then Common(a.parent, b)
    else if Number(a) < Number(b) then Common(a, b.parent)
    else Common(a.parent, b.parent)
  }

  /** The blocks from `h` down to number `n + 1`. */
  function Down(h: Header, n: nat): seq<Header> {
    if Number(h) <= n then [] else [h] + Down(h.parent, n)
  }

  /** The path of `h` above number `n`, without `h` itself. */
  function IndexBetween(h: Header, n: nat): map<Tx, nat> {
    if Number(h) <= n then map[] else IndexAbove(h.parent, n)
  }

  ghost predicate PathStored(bodies: set<Header>, h: Header) {
    forall n: nat :: n <= Number(h) ==> AncestorAt(h, n) in bodies
  }

  /** What every writer and every rewind keeps, whatever the index looks like: the store
      of the header chain, and stored bodies of genesis and the head block.  The head
      block may lag behind the head header or be on another fork, and bodies below it may
      be missing. */
  ghost predicate BlocksInv(l: Ledger, genesis: Header) {
    StoreInv(l.hs, genesis) && l.bodies <= l.hs.headers && genesis in l.bodies && l.block in l.bodies
  }

  /** The lookup index is that of the path of the head block. */
  ghost predicate LookupsRight(l: Ledger) {
    l.lookups == TxIndex(l.block)
  }

  /** The lookup index after the head moved from `from` to `to` over `common`: entries
      of the adopted blocks are written, entries of dropped blocks that are not among
      those adopted before the new head are deleted, entries of the new head written. */
  function Relooked(lookups: map<Tx, nat>, from: Header, to: Header, common: Header): map<Tx, nat> {
    var c := Number(common);
    (lookups + IndexBetween(to, c)) - (IndexAbove(from, c).Keys - IndexBetween(to, c).Keys) + BlockIndex(to)
  }

  /** The blocks fetched on a walk from `h` back to number `n` are stored. */
  ghost predicate Fetched(bodies: set<Header>, h: Header, n: nat) {
    forall k: nat :: n <= k < Number(h) ==> AncestorAt(h, k) in bodies
  }

  /** A reorganisation from `from` to `to` finds every block it needs, on both sides. */
  ghost predicate Reorganisable(bodies: set<Header>, from: Header, to: Header) {
    && Common(from, to).Some?
    && Fetched(bodies, from, Number(Common(from, to).value))
    && Fetched(bodies, to, Number(Common(from, to).value))
  }

  /** The last block a reorganisation itself writes; the new head is written after it. */
  function BelowHead(to: Header, common: Header): Header {
    if Number(to) > Number(common) then to.parent else common
  }

  /** The markers after the head block moved from `from` to `to`.  A block on top of the
      head block only gets its own marker; otherwise the new path is marked from the
      common block up, and markers above it are dropped. */
  ghost function AdoptedMarks(canon: map<nat, Header>, from: Header, to: Header, common: Header): map<nat, Header> {
    if ParentHash(to) == Some(from) then canon[Number(to) := to] else
    var w := BelowHead(to, common);
    Cut(canon + Segment(w, Number(common) + 1), Number(w) + 1)[Number(to) := to]
  }

  /** The ledger after `to`, a stored block, has become the head block. */
  ghost function Adopted(l: Ledger, to: Header, common: Header): Ledger {
    Ledger(l.hs.(canon := AdoptedMarks(l.hs.canon, l.block, to, common), marker := to, head := to),
           l.bodies, Relooked(l.lookups, l.block, to, common), to)
  }

  /** The ledger after a known block is made the head block, if it can be. */
  ghost function KnownWritten(l: Ledger, b: Header): Ledger {
    if Reorganisable(l.bodies, l.block, b) then Adopted(l, b, Common(l.block, b).value) else l
  }

  /** The ledger after an executed block is written: stored if its parent is known, and
      adopted if it is committed, wins the fork choice and can be reorganised to. */
  ghost function BlockWritten(l: Ledger, b: Header, committed: bool, coin: bool): Ledger {
    if b.Genesis? || b.parent !in l.hs.headers then l
    else if committed && Wins(b, l.block, coin) then KnownWritten(Stored(l, b), b)
    else Stored(l, b)
  }

  /** The ledger after `b` is stored, whoever ends up as head. */
  ghost function Stored(l: Ledger, b: Header): Ledger {
    l.(hs := l.hs.(headers := l.hs.headers + {b}, tds := l.hs.tds[b := TotalDifficulty(b)]), bodies := l.bodies + {b})
  }

  // ---------------------------------------------------------------- common ancestors

  lemma {:induction false} CommonIsCommon(a: Header, b: Header)
    ensures Common(a, b).Some? ==>
              var c := Common(a, b).value;
              && IsAncestor(c, a) && IsAncestor(c, b)
              && forall n: nat :: Number(c) < n <= Number(a) && n <= Number(b) ==> AncestorAt(a, n) != AncestorAt(b, n)
    ensures Common(a, b).None? ==> AncestorAt(a, 0) != AncestorAt(b, 0)
    decreases Number(a) + Number(b)
  {
    if a != b && !(Number(a) == 0 && Number(b) == 0) {
      if Number(a) > Number(b) {
        CommonIsCommon(a.parent, b);
      } else if Number(a) < Number(b) {
        CommonIsCommon(a, b.parent);
      } else {
        CommonIsCommon(a.parent, b.parent);
      }
    }
  }

  // ---------------------------------------------------------------- the lookup index

  lemma {:induction false} IndexSplits(h: Header, n: nat)
    requires n <= Number(h)
    ensures TxIndex(h) == TxIndex(AncestorAt(h, n)) + IndexAbove(h, n)
  {
    if n < Number(h) {
      IndexSplits(h.parent, n);
      var low, mid, top := TxIndex(AncestorAt(h, n)), IndexAbove(h.parent, n), BlockIndex(h);
      MapsAssociate(low, mid, top);
    }
  }

  lemma MapsAssociate(a: map<Tx, nat>, b: map<Tx, nat>, c: map<Tx, nat>)
    ensures a + b + c == a + (b + c)
  {
  }

  /** What a lookup index says: a transaction is found exactly if a block of the path has it,
      and then in the highest such block. */
  lemma {:induction false} TxIndexIs(h: Header, t: Tx, n: nat)
    requires n <= Number(h)
    ensures t in AncestorAt(h, n).txs ==> t in TxIndex(h) && TxIndex(h)[t] >= n
    ensures t in TxIndex(h) ==> TxIndex(h)[t] <= Number(h) && t in AncestorAt(h, TxIndex(h)[t]).txs
  {
    if h.Child? {
      TxIndexIs(h.parent, t, if n < Number(h) then n else 0);
    }
  }

  /** The transactions a reorganisation loses: in a dropped block, also below the
      fork, and in no block written on the way to the new head. */
  ghost predicate Lost(t: Tx, from: Header, to: Header, common: Header) {
    && t in IndexAbove(from, Number(common))
    && t in TxIndex(common)
    && t !in IndexBetween(to, Number(common))
    && t !in to.txs
  }

  /** The order of writes and deletes of a reorganisation, as map algebra. */
  lemma WriteDeleteWrite(base: map<Tx, nat>, dropped: map<Tx, nat>, adopted: map<Tx, nat>, top: map<Tx, nat>)
    ensures (base + dropped + adopted) - (dropped.Keys - adopted.Keys) + top == base + adopted + top
            <==> forall t :: !(t in dropped && t in base && t !in adopted && t !in top)
  {
    var l, r := (base + dropped + adopted) - (dropped.Keys - adopted.Keys) + top, base + adopted + top;
    if l == r {
      forall t ensures !(t in dropped && t in base && t !in adopted && t !in top) {
        assert t in l <==> t in r;
      }
    }
    if forall t :: !(t in dropped && t in base && t !in adopted && t !in top) {
      assert l.Keys == r.Keys;
    }
  }

  lemma IndexSplitsAtTop(to: Header, common: Header)
    requires IsAncestor(common, to)
    ensures TxIndex(to) == TxIndex(common) + IndexBetween(to, Number(common)) + BlockIndex(to)
  {
    IndexSplits(to, Number(common));
  }

  /** Exactly when the lookup index is right after the head moved. */
  lemma RelookedExactlyWhen(from: Header, to: Header, common: Header)
    requires IsAncestor(common, from) && IsAncestor(common, to)
    ensures Relooked(TxIndex(from), from, to, common) == TxIndex(to)
            <==> forall t :: !Lost(t, from, to, common)
  {
    hide TxIndex, IndexAbove, IndexBetween;
    var c := Number(common);
    IndexSplits(from, c);
    IndexSplitsAtTop(to, common);
    WriteDeleteWrite(TxIndex(common), IndexAbove(from, c), IndexBetween(to, c), BlockIndex(to));
    assert forall t :: Lost(t, from, to, common) <==>
      t in IndexAbove(from, c) && t in TxIndex(common) && t !in IndexBetween(to, c) && t !in BlockIndex(to);
  }

  /** With a transaction in two blocks of the old path the index can come out wrong. */
  lemma RepeatedTxIsLost(genesis: Header, t: Tx)
    requires genesis.Genesis? && t !in genesis.txs
    ensures var a := Child(genesis, 1, 0, 0, [t], 0);
            var from, to := Child(a, 1, 0, 0, [t], 0), Child(a, 2, 0, 0, [], 0);
            Common(from, to) == Some(a) && Lost(t, from, to, a) && t !in Relooked(TxIndex(from), from, to, a)
  {
  }

  /** No transaction sits in two blocks of the path of `h`. */
  predicate NoTxTwice(h: Header) {
    h.Child? ==> NoTxTwice(h.parent) && forall t :: t in h.txs ==> t !in TxIndex(h.parent)
  }

  lemma {:induction false} DroppedAreNotBelow(h: Header, n: nat, t: Tx)
    requires NoTxTwice(h) && n <= Number(h) && t in IndexAbove(h, n)
    ensures t !in TxIndex(AncestorAt(h, n))
  {
    if n < Number(h) {
      if t in h.txs {
        IndexSplits(h.parent, n);
      } else {
        DroppedAreNotBelow(h.parent, n, t);
      }
    }
  }

  // ---------------------------------------------------------------- invariants

  lemma StoredKeepsInv(l: Ledger, genesis: Header, b: Header)
    requires BlocksInv(l, genesis) && b.Child? && b.parent in l.hs.headers
    ensures BlocksInv(Stored(l, b), genesis)
  {
  }

  lemma CutStored(headers: set<Header>, m: map<nat, Header>, genesis: Header, from: nat, to: Header)
    requires MarksStored(headers, m, genesis) && from > 0 && to in headers && (Number(to) == 0 ==> to == genesis)
    ensures MarksStored(headers, Cut(m, from)[Number(to) := to], genesis)
    ensures MarksStored(headers, m[Number(to) := to], genesis)
  {
  }

  /** Adopting a stored block keeps the store and the head block, for every index; and
      the lookup index, exactly if no transaction is lost. */
  lemma AdoptedKeepsInv(l: Ledger, genesis: Header, to: Header, common: Header)
    requires BlocksInv(l, genesis) && Common(l.block, to) == Some(common)
    requires to in l.bodies
    ensures BlocksInv(Adopted(l, to, common), genesis)
    ensures LookupsRight(l) ==> (LookupsRight(Adopted(l, to, common)) <==> forall t :: !Lost(t, l.block, to, common))
    ensures LookupsRight(l) && NoTxTwice(l.block) ==> LookupsRight(Adopted(l, to, common))
  {
    hide Relooked, TxIndex, NoTxTwice, AdoptedMarks, MarksStored, Lost;
    CommonIsCommon(l.block, to);
    AdoptedMarksStored(l, genesis, to, common);
    RelookedExactlyWhen(l.block, to, common);
    if NoTxTwice(l.block) {
      NothingLost(l.block, to, common);
    }
  }

  /** A reorganisation from a stored path leads to a stored path. */
  lemma AdoptedPath(bodies: set<Header>, from: Header, to: Header)
    requires PathStored(bodies, from) && to in bodies && Reorganisable(bodies, from, to)
    ensures PathStored(bodies, to)
  {
    var c := Number(Common(from, to).value);
    CommonIsCommon(from, to);
    PathsAgreeBelow(from, to, c);
    forall n: nat | n <= Number(to) ensures AncestorAt(to, n) in bodies {
      if n < c {
        assert AncestorAt(to, n) == AncestorAt(from, n);
      }
    }
  }

  lemma AdoptedMarksStored(l: Ledger, genesis: Header, to: Header, common: Header)
    requires BlocksInv(l, genesis) && to in l.bodies && IsAncestor(common, l.block) && IsAncestor(common, to)
    ensures MarksStored(l.hs.headers, AdoptedMarks(l.hs.canon, l.block, to, common), genesis)
  {
    hide MarksStored, Cut, Segment;
    var w, hs := BelowHead(to, common), l.hs.headers;
    ClosedHasAncestors(hs, to, Number(common));
    MarksJoin(hs, genesis, l.hs.canon, w, Number(common) + 1);
    CutStored(hs, l.hs.canon + Segment(w, Number(common) + 1), genesis, Number(w) + 1, to);
    CutStored(hs, l.hs.canon, genesis, 1, to);
  }

  lemma NothingLost(from: Header, to: Header, common: Header)
    requires NoTxTwice(from) && IsAncestor(common, from)
    ensures forall t :: !Lost(t, from, to, common)
  {
    forall t ensures !Lost(t, from, to, common) {
      if t in IndexAbove(from, Number(common)) {
        DroppedAreNotBelow(from, Number(common), t);
      }
    }
  }

  // ---------------------------------------------------------------- when the index is right

  /** The highest block whose marker an adoption relies on. */
  function Kept(to: Header, common: Header): Option<Header> {
    if Number(to) > Number(common) then Some(common) else ParentHash(to)
  }

  /** The old index goes through the block the adoption builds on; and where markers
      above the new head are not dropped, there are none. */
  predicate AdoptionSound(top: Header, from: Header, to: Header, common: Header) {
    && (Kept(to, common).Some? ==> IsAncestor(Kept(to, common).value, top))
    && (ParentHash(to) == Some(from) ==> Number(top) <= Number(to))
  }

  /** Exactly when an adoption turns a right index, that of a head header `top` which
      may be ahead of the head block `from`, into a right index. */
  lemma AdoptedMarksExactlyWhen(top: Header, from: Header, to: Header, common: Header)
    requires Common(from, to) == Some(common)
    ensures AdoptedMarks(Path(top), from, to, common) == Path(to) <==> AdoptionSound(top, from, to, common)
  {
    hide Path, Segment, Cut, Below;
    CommonIsCommon(from, to);
    if ParentHash(to) == Some(from) {
      ExtendedMarks(top, to);
    } else if Number(to) > Number(common) {
      ReorganisedMarks(top, to, common);
    } else {
      CutPathIsBelow(top, Number(to) + 1);
      NoSegment(Path(top), common);
      RewrittenMarks(top, to);
    }
  }

  lemma NoSegment(m: map<nat, Header>, h: Header)
    ensures m + Segment(h, Number(h) + 1) == m
  {
  }

  lemma ExtendedMarks(top: Header, to: Header)
    requires to.Child?
    ensures Path(top)[Number(to) := to] == Path(to) <==> IsAncestor(to.parent, top) && Number(top) <= Number(to)
  {
    var m, n := Path(top)[Number(to) := to], Number(to) - 1;
    if m == Path(to) {
      assert n in m && m[n] == AncestorAt(to, n);
      assert Number(top) in m;
    }
    if IsAncestor(to.parent, top) && Number(top) <= Number(to) {
      PathsAgreeBelow(to.parent, top, n);
    }
  }

  lemma RewrittenMarks(top: Header, to: Header)
    ensures Below(Path(top), Number(to) + 1)[Number(to) := to] == Path(to)
            <==> (to.Child? ==> IsAncestor(to.parent, top))
  {
    hide Path, Below;
    if to.Genesis? {
      RewrittenRoot(top, to);
    } else if IsAncestor(to.parent, top) {
      PathOfChild(to);
      RewrittenChild(top, to);
    } else {
      RewrittenElsewhere(top, to);
    }
  }

  lemma RewrittenRoot(top: Header, to: Header)
    requires to.Genesis?
    ensures Below(Path(top), 1)[0 := to] == Path(to)
  {
    hide Path;
    PathOnly(to);
    assert Number(to) == 0 && AncestorAt(to, 0) == to;
  }

  lemma RewrittenChild(top: Header, to: Header)
    requires to.Child? && IsAncestor(to.parent, top)
    ensures Below(Path(top), Number(to) + 1)[Number(to) := to] == Path(to.parent)[Number(to) := to]
  {
    var p := to.parent;
    PathsAgreeBelow(p, top, Number(p));
    Overwritten(Path(top), Path(p), Number(to), to);
  }

  lemma Overwritten(a: map<nat, Header>, b: map<nat, Header>, n: nat, h: Header)
    requires forall k: nat :: k in b ==> k < n
    requires forall k: nat :: k < n ==> k in a && k in b && a[k] == b[k]
    ensures Below(a, n + 1)[n := h] == b[n := h]
  {
  }

  lemma RewrittenElsewhere(top: Header, to: Header)
    requires to.Child? && !IsAncestor(to.parent, top)
    ensures Below(Path(top), Number(to) + 1)[Number(to) := to] != Path(to)
  {
    var n := Number(to.parent);
    assert Number(to) == n + 1 && AncestorAt(to, n) == to.parent;
    hide Path, AncestorAt, Number;
    PathOnly(top);
    PathOnly(to);
    assert n in Path(to) && Path(to)[n] == to.parent;
  }

  lemma ReorganisedMarks(top: Header, to: Header, common: Header)
    requires to.Child? && IsAncestor(common, to) && Number(to) > Number(common)
    ensures Cut(Path(top) + Segment(to.parent, Number(common) + 1), Number(to))[Number(to) := to] == Path(to)
            <==> IsAncestor(common, top)
  {
    hide Path, Cut, Segment;
    var c, w := Number(common), to.parent;
    AncestorTransitive(to, Number(w), c);
    if IsAncestor(common, top) {
      RewrittenIsPath(top, w, common);
      PathOfChild(to);
    } else {
      MissingCommon(top, to, common);
    }
  }

  /** Dropping the markers above `w` from the rewritten index leaves the path of `w`. */
  lemma RewrittenIsPath(top: Header, w: Header, common: Header)
    requires IsAncestor(common, top) && IsAncestor(common, w)
    ensures Cut(Path(top) + Segment(w, Number(common) + 1), Number(w) + 1) == Path(w)
  {
    hide Path, Segment, Below, Cut, AncestorAt;
    var m := Path(top) + Segment(w, Number(common) + 1);
    RewrittenDomain(m, top, w, common);
    CutGapless(m, Number(w) + 1, if Number(top) > Number(w) then Number(top) else Number(w));
    BelowUnion(Path(top), w, Number(common) + 1);
    RelinkComplete(top, Number(w) + 1, w, Number(common));
  }

  lemma RewrittenDomain(m: map<nat, Header>, top: Header, w: Header, common: Header)
    requires IsAncestor(common, top) && IsAncestor(common, w) && m == Path(top) + Segment(w, Number(common) + 1)
    ensures forall n: nat :: n in m <==> n <= (if Number(top) > Number(w) then Number(top) else Number(w))
  {
    hide AncestorAt, Number;
  }

  lemma BelowUnion(m: map<nat, Header>, w: Header, lo: nat)
    ensures Below(m + Segment(w, lo), Number(w) + 1) == Below(m, Number(w) + 1) + Segment(w, lo)
    ensures Below(m, Number(w) + 1) + Path(w) == Path(w)
  {
    hide AncestorAt, Number;
  }

  lemma MissingCommon(top: Header, to: Header, common: Header)
    requires to.Child? && IsAncestor(common, to) && Number(to) > Number(common) && !IsAncestor(common, top)
    ensures Cut(Path(top) + Segment(to.parent, Number(common) + 1), Number(to))[Number(to) := to] != Path(to)
  {
    // At the common block the old marker stays, and it is another one or none.
    assert Number(common) in Path(to);
  }

  lemma Extendable(l: Ledger, b: Header)
    requires b.Child? && b.parent == l.block && l.block in l.bodies
    ensures Reorganisable(l.bodies, l.block, b) && Common(l.block, b) == Some(l.block)
  {
  }

  /** Blocks whose paths are stored and meet can be reorganised to. */
  lemma StoredPathsReorganise(bodies: set<Header>, from: Header, to: Header)
    requires PathStored(bodies, from) && AncestorAt(from, 0) == AncestorAt(to, 0)
    requires to.Child? ==> PathStored(bodies, to.parent)
    ensures Reorganisable(bodies, from, to)
  {
    CommonIsCommon(from, to);
    forall k: nat | k < Number(to) ensures AncestorAt(to, k) in bodies {
      assert AncestorAt(to, k) == AncestorAt(to.parent, k);
    }
  }

  /** With ancestor-closed bodies every block on a stored parent can be reorganised to. */
  lemma ClosedReorganises(l: Ledger, genesis: Header, b: Header)
    requires BlocksInv(l, genesis) && Closed(l.bodies) && b.Child? && b.parent in l.bodies
    ensures Reorganisable(l.bodies + {b}, l.block, b)
  {
    var bodies := l.bodies + {b};
    RootedGenesis(l.hs.headers, genesis, l.block);
    RootedGenesis(l.hs.headers, genesis, b.parent);
    forall n: nat | n <= Number(l.block) ensures AncestorAt(l.block, n) in bodies {
      ClosedHasAncestors(l.bodies, l.block, n);
    }
    forall n: nat | n <= Number(b.parent) ensures AncestorAt(b.parent, n) in bodies {
      ClosedHasAncestors(l.bodies, b.parent, n);
    }
    StoredPathsReorganise(bodies, l.block, b);
  }

  /** Making a known block the head keeps the store; it keeps the index right exactly
      when the adoption is sound. */
  lemma KnownKeepsInv(l: Ledger, genesis: Header, b: Header)
    requires BlocksInv(l, genesis)
    ensures b in l.bodies ==> BlocksInv(KnownWritten(l, b), genesis)
    ensures b in l.bodies && PathStored(l.bodies, l.block) ==>
              PathStored(l.bodies, KnownWritten(l, b).block) && KnownWritten(l, b).bodies == l.bodies
    ensures Reorganisable(l.bodies, l.block, b) ==> Common(l.block, b).Some?
    ensures Reorganisable(l.bodies, l.block, b) && IndexRight(l.hs) ==>
              (IndexRight(KnownWritten(l, b).hs) <==>
                AdoptionSound(l.hs.head, l.block, b, Common(l.block, b).value))
  {
    hide BlocksInv, AdoptedMarks, AdoptionSound, Path, Down, Common, Relooked, PathStored, Fetched;
    if Reorganisable(l.bodies, l.block, b) {
      var common := Common(l.block, b).value;
      AdoptedMarksExactlyWhen(l.hs.head, l.block, b, common);
      if b in l.bodies {
        if PathStored(l.bodies, l.block) {
          AdoptedPath(l.bodies, l.block, b);
        }
        AdoptedKeepsInv(l, genesis, b, common);
      }
    }
  }

  lemma {:induction false} DownHolds(h: Header, lo: nat, n: nat)
    requires lo < n <= Number(h)
    ensures AncestorAt(h, n) in Down(h, lo)
  {
    if n < Number(h) {
      DownHolds(h.parent, lo, n);
    }
  }

  /** The ledger after a run of blocks is stored in order. */
  ghost function StoredAll(l: Ledger, bs: seq<Header>): Ledger {
    if bs == [] then l else Stored(StoredAll(l, bs[..|bs| - 1]), bs[|bs| - 1])
  }

  /** Storing a block that is there, weight and body, changes nothing. */
  lemma StoredAgain(l: Ledger, b: Header)
    requires l.hs.tds == Weights(l.hs.headers) && b in l.bodies && l.bodies <= l.hs.headers
    ensures Stored(l, b) == l
  {
    assert l.hs.headers + {b} == l.hs.headers;
    assert l.bodies + {b} == l.bodies;
    assert l.hs.tds[b := TotalDifficulty(b)] == l.hs.tds;
  }
}
