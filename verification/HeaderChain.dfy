/** The header chain as the program runs it: loops over batches that read the old
    database, one commit, then the in-memory head. */
module HeaderChain {
  import opened Options
  import opened BlockTree
  import opened HeaderState
  import opened Words

  // ---------------------------------------------------------------- marker loops

  ghost function MarksFrom(m: map<nat, Header>, n: nat): set<nat> {
    set k: nat | k in m && k >= n
  }

  /** Deletes the markers from `from` up to the first gap; the loop reads the
      committed markers `canon`. */
  method DropMarkersFrom(canon: map<nat, Header>, from: nat) returns (pending: map<nat, Header>)
    ensures pending == Cut(canon, from)
  {
    pending := canon;
    var i := from;
    while i in canon
      invariant from <= i && forall k: nat :: from <= k < i ==> k in canon
      invariant pending == map n: nat | n in canon && !(from <= n < i) :: canon[n]
      decreases MarksFrom(canon, i)
    {
      assert i in MarksFrom(canon, i) && i !in MarksFrom(canon, i + 1);
      pending := pending - {i};
      i := i + 1;
    }
    CutAt(canon, from, i);
  }

  lemma CutAt(m: map<nat, Header>, from: nat, i: nat)
    requires from <= i && i !in m && forall k: nat :: from <= k < i ==> k in m
    ensures Cut(m, from) == map n: nat | n in m && !(from <= n < i) :: m[n]
  {
    forall n: nat | n in m ensures (n < from || exists k: nat :: from <= k < n && k !in m) <==> !(from <= n < i) {
      if n > i {
        assert from <= i < n && i !in m;
      }
    }
  }

  lemma SegmentStep(m: map<nat, Header>, p: Header, n: nat)
    requires n <= Number(p)
    ensures (m + Segment(p, n + 1))[n := AncestorAt(p, n)] == m + Segment(p, n)
  {
  }

  lemma RelinkStart(m: map<nat, Header>, p: Header)
    ensures m + Segment(p, Number(p) + 1) == m
  {
  }

  /** Overwrites stale markers, going back from `p` until a committed marker agrees. */
  method RelinkFrom(canon: map<nat, Header>, pending: map<nat, Header>, p: Header,
                    ghost headers: set<Header>, ghost genesis: Header)
    returns (out: map<nat, Header>)
    requires Closed(headers) && Rooted(headers, genesis) && p in headers && 0 in canon && canon[0] == genesis
    ensures out == pending + Segment(p, Number(Meeting(canon, p)) + 1)
  {
    out := pending;
    var h := p;
    hide Segment;
    RelinkStart(pending, p);
    while !(Number(h) in canon && canon[Number(h)] == h)
      invariant h in headers && Number(h) <= Number(p) && AncestorAt(p, Number(h)) == h
      invariant Meeting(canon, p) == Meeting(canon, h)
      invariant out == pending + Segment(p, Number(h) + 1)
      decreases Number(h)
    {
      assert h.Child?;
      SegmentStep(pending, p, Number(h));
      AncestorTransitive(p, Number(h), Number(h) - 1);
      out := out[Number(h) := h];
      h := h.parent;
    }
  }

  /** Writes the markers of a linked run of headers. */
  method MarkRun(pending: map<nat, Header>, run: seq<Header>) returns (out: map<nat, Header>)
    requires Linked(run)
    ensures run == [] ==> out == pending
    ensures run != [] ==> out == pending + Segment(Last(run), Number(run[0]))
  {
    out := pending;
    for i := 0 to |run|
      invariant i == 0 ==> out == pending
      invariant i > 0 ==> out == pending + Segment(run[i - 1], Number(run[0]))
    {
      LinkedNumbers(run, i);
      assert i > 0 ==> Extends(run[i], run[i - 1]);
      out := out[Number(run[i]) := run[i]];
    }
  }

  lemma StoreStep(headers: set<Header>, inserted: seq<Header>, h: Header)
    ensures headers + Elems(inserted + [h]) == headers + Elems(inserted) + {h}
    ensures Weights(headers + Elems(inserted + [h])) == Weights(headers + Elems(inserted))[h := TotalDifficulty(h)]
  {
  }

  lemma InsertedCovers(headers: set<Header>, batch: seq<Header>, f: nat)
    requires f <= |batch| && forall h :: h in batch[..f] ==> h in headers
    ensures headers + Elems(batch[f..]) == headers + Elems(batch)
  {
    forall h | h in batch ensures h in headers + Elems(batch[f..]) {
      var i :| 0 <= i < |batch| && batch[i] == h;
      if i >= f {
        assert batch[f..][i - f] == h;
      } else {
        assert batch[..f][i] == h;
      }
    }
  }

  /** What the collecting loop of an import hands to the commit. */
  datatype Collected = Collected(headers: set<Header>, tds: map<Header, nat>, inserted: seq<Header>,
                                 firstInserted: int, newTD: nat)

  /** The collecting loop: total difficulties are accumulated along the batch, and
      once a header is unknown the store is not asked again. */
  method Collect(headers: set<Header>, tds: map<Header, nat>, batch: seq<Header>) returns (c: Collected)
    requires tds == Weights(headers) && Closed(headers)
    requires batch != [] && Linked(batch) && batch[0].Child? && batch[0].parent in headers
    ensures c.headers == headers + Elems(batch) && c.tds == Weights(c.headers)
    ensures c.newTD == TotalDifficulty(Last(batch))
    ensures -1 <= c.firstInserted < |batch|
    ensures c.inserted == if c.firstInserted == -1 then [] else batch[c.firstInserted..]
    ensures forall h :: h in c.inserted ==> h !in headers
    ensures forall h :: h in (if c.firstInserted == -1 then batch else batch[..c.firstInserted]) ==> h in headers
  {
    var newTD: nat := tds[batch[0].parent];
    var inserted, firstInserted, parentKnown := [], -1, true;
    var pendingHeaders: set<Header>, pendingTds: map<Header, nat> := headers, tds;
    for i := 0 to |batch|
      invariant newTD == TotalDifficulty(if i == 0 then batch[0].parent else batch[i - 1])
      invariant |inserted| <= i && inserted == batch[i - |inserted|..i]
      invariant parentKnown == (inserted == [])
      invariant firstInserted == if inserted == [] then -1 else i - |inserted|
      invariant forall h :: h in batch[..i - |inserted|] ==> h in headers
      invariant forall h :: h in inserted ==> h !in headers
      invariant pendingHeaders == headers + Elems(inserted) && pendingTds == Weights(pendingHeaders)
    {
      assert i > 0 ==> Extends(batch[i], batch[i - 1]);
      assert i < |batch| - 1 ==> Extends(batch[i + 1], batch[i]);
      // Inside the batch the hash is read off the next header.
      var hash := if i < |batch| - 1 then batch[i + 1].parent else batch[i];
      newTD := newTD + batch[i].difficulty;
      var alreadyKnown := parentKnown && hash in headers;
      if !alreadyKnown {
        if inserted != [] {
          UnknownIsUpward(headers, batch, i - 1, i);
        }
        StoreStep(headers, inserted, hash);
        pendingTds := pendingTds[hash := newTD];
        pendingHeaders := pendingHeaders + {batch[i]};
        inserted := inserted + [hash];
        if firstInserted < 0 {
          firstInserted := i;
        }
      }
      parentKnown := alreadyKnown;
    }
    InsertedCovers(headers, batch, |batch| - |inserted|);
    assert inserted == [] ==> batch[..|batch|] == batch;
    return Collected(pendingHeaders, pendingTds, inserted, firstInserted, newTD);
  }

  /** What the rest of an import needs to know about the collecting loop. */
  ghost predicate CollectedFor(c: Collected, s: State, batch: seq<Header>) {
    && batch != []
    && c.headers == s.headers + Elems(batch) && c.tds == Weights(c.headers)
    && c.newTD == TotalDifficulty(Last(batch))
    && -1 <= c.firstInserted < |batch|
    && c.inserted == (if c.firstInserted == -1 then [] else batch[c.firstInserted..])
    && (c.firstInserted != -1 <==> HasNew(s, batch))
    && (c.firstInserted != 0 ==> batch[0] in s.headers)
    && (forall i :: 0 <= i < |batch| ==> (batch[i] in s.headers <==> i < |batch| - |c.inserted|))
  }

  lemma CollectedIs(c: Collected, s: State, batch: seq<Header>)
    requires batch != [] && c.headers == s.headers + Elems(batch) && c.tds == Weights(c.headers)
    requires c.newTD == TotalDifficulty(Last(batch)) && -1 <= c.firstInserted < |batch|
    requires c.inserted == if c.firstInserted == -1 then [] else batch[c.firstInserted..]
    requires forall h :: h in c.inserted ==> h !in s.headers
    requires forall h :: h in (if c.firstInserted == -1 then batch else batch[..c.firstInserted]) ==> h in s.headers
    ensures CollectedFor(c, s, batch)
  {
    if c.firstInserted >= 0 {
      assert c.inserted[0] in c.inserted && c.inserted[0] in batch;
    }
    if c.firstInserted > 0 {
      assert batch[..c.firstInserted][0] in batch[..c.firstInserted];
    }
    forall i | 0 <= i < |batch| ensures batch[i] in s.headers <==> i < |batch| - |c.inserted| {
      if c.firstInserted != -1 {
        if i < c.firstInserted {
          assert batch[..c.firstInserted][i] in batch[..c.firstInserted];
        } else {
          assert c.inserted[i - c.firstInserted] in c.inserted;
        }
      }
    }
  }

  lemma LastIsNewIfAny(s: State, genesis: Header, batch: seq<Header>)
    requires Importable(s, genesis, batch)
    ensures HasNew(s, batch) ==> Last(batch) != s.head
  {
    if HasNew(s, batch) {
      LastIsNew(s, genesis, batch);
    }
  }

  /** The markers of the first `f` headers of a batch. */
  ghost function KnownSegment(batch: seq<Header>, f: nat): map<nat, Header>
    requires f <= |batch|
  {
    if f == 0 then map[] else Segment(batch[f - 1], Number(batch[0]))
  }

  lemma RunsJoin(m: map<nat, Header>, batch: seq<Header>, f: nat)
    requires Linked(batch) && f < |batch|
    ensures Linked(batch[..f]) && Linked(batch[f..])
    ensures m + KnownSegment(batch, f) + Segment(Last(batch), Number(batch[f]))
            == m + Segment(Last(batch), Number(batch[0]))
  {
    hide Segment, AncestorAt;
    forall i, j | 0 <= i < f && j == i + 1 < f ensures Extends(batch[..f][j], batch[..f][i]) {
      assert Extends(batch[j], batch[i]);
    }
    forall i, j | 0 <= i < |batch| - f && j == i + 1 < |batch| - f ensures Extends(batch[f..][j], batch[f..][i]) {
      assert Extends(batch[f + j], batch[f + i]);
    }
    if f > 0 {
      LinkedAncestors(batch, f - 1, |batch| - 1);
      LinkedNumbers(batch, f - 1);
      LinkedNumbers(batch, f);
      SegmentJoin(m, Last(batch), Number(batch[0]), Number(batch[f - 1]));
    }
  }

  /** The markers of the inserted headers are those of the new ones. */
  lemma InsertedMarks(s: State, batch: seq<Header>, c: Collected)
    requires Linked(batch) && CollectedFor(c, s, batch)
    ensures NewMarks(s, batch)
            == if c.firstInserted == -1 then map[] else Segment(Last(batch), Number(batch[c.firstInserted]))
  {
    var last, n0 := Last(batch), Number(batch[0]);
    LinkedNumbers(batch, |batch| - 1);
    forall n: nat | n0 <= n <= Number(last) ensures AncestorAt(last, n) == batch[n - n0] {
      LinkedNumbers(batch, n - n0);
      LinkedAncestors(batch, n - n0, |batch| - 1);
    }
    if c.firstInserted != -1 {
      LinkedNumbers(batch, c.firstInserted);
    }
  }

  lemma InsertedIsLinked(batch: seq<Header>, c: Collected, s: State)
    requires Linked(batch) && CollectedFor(c, s, batch)
    ensures Linked(c.inserted)
    ensures c.inserted != [] ==> c.firstInserted != -1 && c.inserted[0] == batch[c.firstInserted]
    ensures c.inserted != [] ==> Last(c.inserted) == Last(batch)
    ensures c.inserted == [] <==> c.firstInserted == -1
  {
    if c.firstInserted != -1 {
      RunsJoin(map[], batch, c.firstInserted);
    }
  }

  lemma MarkedOnHead(s: State, batch: seq<Header>, c: Collected)
    requires Linked(batch) && batch != [] && batch[0].Child? && CollectedFor(c, s, batch) && batch[0].parent == s.head
    ensures c.firstInserted == -1 ==> ImportMarks(s, batch) == s.canon
    ensures c.firstInserted != -1 ==>
              ImportMarks(s, batch) == s.canon + Segment(Last(batch), Number(batch[c.firstInserted]))
  {
    hide Segment, NewMarks;
    InsertedMarks(s, batch, c);
    assert s.canon + map[] == s.canon;
  }

  lemma MarkedOffHead(s: State, batch: seq<Header>, c: Collected)
    requires Linked(batch) && batch != [] && batch[0].Child? && CollectedFor(c, s, batch) && batch[0].parent != s.head
    ensures var relinked := Relinked(s.canon, Number(Last(batch)) + 1, batch[0].parent);
            && (c.firstInserted == -1 ==> ImportMarks(s, batch) == relinked + KnownSegment(batch, 0))
            && (c.firstInserted != -1 ==>
                  ImportMarks(s, batch) == relinked + KnownSegment(batch, c.firstInserted)
                                           + Segment(Last(batch), Number(batch[c.firstInserted])))
  {
    hide Segment, Relinked, HasNew;
    if c.firstInserted != -1 {
      RunsJoin(Relinked(s.canon, Number(Last(batch)) + 1, batch[0].parent), batch, c.firstInserted);
    }
  }

  ghost function WithoutHeaders(hs: set<Header>, lo: nat, hi: nat): set<Header> {
    set h | h in hs && !(lo <= Number(h) <= hi)
  }

  ghost function WithoutMarks(m: map<nat, Header>, lo: nat, hi: nat): map<nat, Header> {
    map n: nat | n in m && !(lo <= n <= hi) :: m[n]
  }

  lemma WipedMarks(m: map<nat, Header>, num: nat, top: nat)
    requires num <= top
    ensures (forall n: nat :: n in m ==> n <= top) ==> WithoutMarks(m, num, top) == Below(m, num)
    ensures WithoutMarks(Below(m, num + 1), num, top) == Below(m, num)
  {
  }

  /** No marker lies above all stored headers. */
  lemma MarksUnder(headers: set<Header>, canon: map<nat, Header>, genesis: Header, top: nat)
    requires MarksStored(headers, canon, genesis) && forall h :: h in headers ==> Number(h) <= top
    ensures forall n: nat :: n in canon ==> n <= top
  {
  }

  lemma UpToMembers(hs: set<Header>, n: nat)
    ensures forall h :: h in UpTo(hs, n) <==> h in hs && Number(h) <= n
  {
  }

  lemma StoreParts(s: State, genesis: Header)
    requires StoreInv(s, genesis)
    ensures Closed(s.headers) && MarksStored(s.headers, s.canon, genesis)
    ensures s.head in s.headers && s.tds == Weights(s.headers)
  {
  }

  lemma AncestorOfItself(h: Header)
    ensures IsAncestor(h, h)
  {
  }

  lemma TargetStep(h: Header, headBlock: nat, headTime: nat, updateFn: Option<UpdateFn>)
    ensures Done(h, headBlock, headTime) ==> RewindTarget(h, headBlock, headTime, updateFn) == h
    ensures !Done(h, headBlock, headTime) && h.Child? ==>
              var (block, time) := Retarget(h.parent, headBlock, headTime, updateFn);
              RewindTarget(h, headBlock, headTime, updateFn) == RewindTarget(h.parent, block, time, updateFn)
  {
  }

  /** Asks the callback, which may force the rewind further down, by number. */
  method AskCallback(parent: Header, headBlock: nat, headTime: nat, updateFn: Option<UpdateFn>)
    returns (block: nat, time: nat)
    ensures (block, time) == Retarget(parent, headBlock, headTime, updateFn)
    ensures time == headTime || time == 0
  {
    block, time := headBlock, headTime;
    if updateFn.Some? {
      var (newHead, force) := updateFn.value(parent);
      if force && ((headTime > 0 && newHead.time < headTime) || (headTime == 0 && Number(newHead) < headBlock)) {
        block, time := Number(newHead), 0;
      }
    }
  }

  /** A rewind that is not done has a stored parent to go to. */
  lemma RewindStep(s: State, genesis: Header, start: Header, h: Header, headBlock: nat, headTime: nat)
    requires StoreInv(s, genesis) && h in s.headers && IsAncestor(h, start) && !Done(h, headBlock, headTime)
    requires headTime > 0 ==> genesis.time <= headTime
    ensures h.Child? && h.parent in s.headers && h.parent != start
    ensures IsAncestor(h.parent, start) && Number(h) == Number(h.parent) + 1
  {
    AncestorTransitive(start, Number(h), if h.Child? then Number(h) - 1 else 0);
  }

  lemma WipedStore(hs: set<Header>, num: nat, top: nat)
    requires 0 < num <= top
    ensures (forall h :: h in hs ==> Number(h) <= top) ==> WithoutHeaders(hs, num, top) == UpTo(hs, num - 1)
    ensures WithoutHeaders(UpTo(hs, num), num, top) == UpTo(hs, num - 1)
  {
  }

  /** An ancestor-closed store has no header above a number at which it has none. */
  lemma NothingAboveGap(hs: set<Header>, n: nat)
    requires Closed(hs) && forall h :: h in hs ==> Number(h) != n
    ensures forall h :: h in hs ==> Number(h) < n
  {
    forall h | h in hs ensures Number(h) < n {
      if Number(h) >= n {
        ClosedHasAncestors(hs, h, n);
        AncestorNumber(h, n);
      }
    }
  }

  ghost function From(hs: set<Header>, n: nat): set<Header> {
    set h | h in hs && Number(h) >= n
  }

  // ---------------------------------------------------------------- reading

  /** How many parent steps lie between `h` and the canonical chain. */
  function Detour(canon: map<nat, Header>, h: Header): nat {
    if (Number(h) in canon && canon[Number(h)] == h) || h.Genesis? then 0 else 1 + Detour(canon, h.parent)
  }

  /** It is the least number of steps that leads to a marked header or to genesis. */
  lemma {:induction false} DetourIs(canon: map<nat, Header>, h: Header, k: nat)
    requires k <= Number(h)
    ensures Detour(canon, h) <= Number(h)
    ensures var a := AncestorAt(h, Number(h) - k);
            && (k == Detour(canon, h) ==> (Number(a) in canon && canon[Number(a)] == a) || Number(a) == 0)
            && (k < Detour(canon, h) ==> !(Number(a) in canon && canon[Number(a)] == a) && Number(a) > 0)
  {
    if h.Child? && !(Number(h) in canon && canon[Number(h)] == h) {
      DetourIs(canon, h.parent, if k > 0 then k - 1 else 0);
    }
  }

  /** A stored block off the canonical chain is not genesis. */
  lemma DetourPositive(headers: set<Header>, canon: map<nat, Header>, genesis: Header, head: Header, h: Header)
    requires Closed(headers) && Rooted(headers, genesis) && head in headers && canon == Path(head)
    requires h in headers && !(Number(h) in canon && canon[Number(h)] == h)
    ensures h.Child? && h.parent in headers && Detour(canon, h) == 1 + Detour(canon, h.parent)
  {
    RootedGenesis(headers, genesis, head);
  }

  // ---------------------------------------------------------------- the class

  class HeaderChain {
    const genesis: Header
    var headers: set<Header>
    var tds: map<Header, nat>
    var canon: map<nat, Header>
    var marker: Header
    var current: Header

    ghost function View(): State
      reads this
    {
      State(headers, tds, canon, marker, current)
    }

    ghost predicate Valid()
      reads this
    {
      StoreInv(View(), genesis)
    }

    constructor (g: Header)
      requires g.Genesis?
      ensures Valid() && Inv(View(), g) && genesis == g && current == g && headers == {g}
    {
      genesis, headers, tds, canon := g, {g}, map[g := TotalDifficulty(g)], map[0 := g];
      marker, current := g, g;
    }

    /** Imports a linked batch of headers. */
    method WriteHeaders(batch: seq<Header>, procInterrupt: bool, coin: bool) returns (r: WriteResult)
      requires Valid() && Linked(batch)
      modifies this
      ensures batch == [] ==> r == Imported(NonStatTy, 0, 0, None) && View() == old(View())
      ensures batch != [] ==> (r.UnknownAncestor? <==> batch[0].Genesis? || batch[0].parent !in old(headers))
      ensures r.UnknownAncestor? || r.Aborted? ==> View() == old(View())
      ensures batch != [] && !r.UnknownAncestor? ==> (r.Aborted? <==> procInterrupt)
      ensures batch != [] && r.Imported? ==>
                && View() == Written(old(View()), batch, coin)
                && r.last == Some(Last(batch))
                && r.ignored + r.imported == |batch|
                && (forall i :: 0 <= i < |batch| ==> (batch[i] in old(headers) <==> i < r.ignored))
                && (r.status.NonStatTy? <==> r.imported == 0)
                && (r.imported > 0 ==> (r.status.CanonStatTy? <==> current == Last(batch)))
      // What was imported is stored, and nothing else; the heavier head stays or wins, on
      // a tie the shorter one, on a full tie the coin decides.
      ensures batch != [] && r.Imported? ==>
                && (forall h :: h in headers <==> h in old(headers) || h in batch)
                && (current == old(current) || current == Last(batch))
                && AtLeast(current, old(current)) && AtLeast(current, Last(batch))
                && (AtLeast(old(current), Last(batch)) && AtLeast(Last(batch), old(current)) ==>
                      current == if coin then Last(batch) else old(current))
    {
      if batch == [] {
        return Imported(NonStatTy, 0, 0, None);
      }
      if batch[0].Genesis? || batch[0].parent !in tds {
        return UnknownAncestor;
      }
      var c := Collect(headers, tds, batch);
      if procInterrupt {
        return Aborted;
      }
      CollectedIs(c, View(), batch);
      r := Commit(batch, c, coin);
    }

    /** Commits the collected headers and moves the head if they win. */
    method Commit(batch: seq<Header>, c: Collected, coin: bool) returns (r: WriteResult)
      requires Importable(View(), genesis, batch) && CollectedFor(c, View(), batch)
      modifies this
      ensures r.Imported? && r.last == Some(Last(batch)) && r.ignored + r.imported == |batch|
      ensures View() == Written(old(View()), batch, coin)
      ensures (current == old(current) || current == Last(batch))
              && AtLeast(current, old(current)) && AtLeast(current, Last(batch))
      ensures AtLeast(old(current), Last(batch)) && AtLeast(Last(batch), old(current)) ==>
                current == if coin then Last(batch) else old(current)
      ensures forall i :: 0 <= i < |batch| ==> (batch[i] in old(headers) <==> i < r.ignored)
      ensures r.status.NonStatTy? <==> r.imported == 0
      ensures r.imported > 0 ==> (r.status.CanonStatTy? <==> current == Last(batch))
    {
      hide Path, ImportMarks, Closed, Rooted, HasNew;
      ghost var s := View();
      LastIsNewIfAny(s, genesis, batch);
      headers, tds := c.headers, c.tds;
      var last := batch[|batch| - 1];
      var reorg := ForkChoice(c.newTD, tds[current], Number(last), Number(current), coin);
      assert reorg == Wins(last, s.head, coin);
      hide TotalDifficulty, Weights, Number, ForkChoice;
      var status := SideStatTy;
      if reorg {
        var pending := ImportMarkers(batch, c, s);
        canon, current := pending, last;
        if c.inserted != [] {
          marker := last;
        }
        status := CanonStatTy;
      }
      if c.inserted == [] {
        status := NonStatTy;
      }
      r := Imported(status, |batch| - |c.inserted|, |c.inserted|, Some(last));
    }

    /** The marker batch of a winning import. */
    method ImportMarkers(batch: seq<Header>, c: Collected, ghost s: State) returns (pending: map<nat, Header>)
      requires Importable(s, genesis, batch)
      requires canon == s.canon && current == s.head && headers == s.headers + Elems(batch)
      requires CollectedFor(c, s, batch)
      ensures pending == ImportMarks(s, batch)
    {
      hide Path, Segment, Relinked, ImportMarks, KnownSegment, HasNew, Elems, Number, StoreInv;
      if batch[0].parent != current {
        pending := MarkersOffHead(batch, c.firstInserted, s);
        MarkedOffHead(s, batch, c);
      } else {
        pending := canon;
        MarkedOnHead(s, batch, c);
      }
      InsertedIsLinked(batch, c, s);
      pending := MarkRun(pending, c.inserted);
    }

    /** Drops the markers above a batch that does not sit on the head, relinks those
        below it and marks its known part. */
    method MarkersOffHead(batch: seq<Header>, firstInserted: int, ghost s: State) returns (pending: map<nat, Header>)
      requires Importable(s, genesis, batch)
      requires canon == s.canon && headers == s.headers + Elems(batch)
      requires -1 <= firstInserted < |batch|
      ensures pending == Relinked(s.canon, Number(Last(batch)) + 1, batch[0].parent)
                         + KnownSegment(batch, if firstInserted <= 0 then 0 else firstInserted)
    {
      hide Path, Segment, Cut, AncestorAt, Weights, Meeting, Closed, Elems;
      var last := batch[|batch| - 1];
      ImportKeepsTree(s, genesis, batch);
      pending := DropMarkersFrom(canon, Number(last) + 1);
      pending := RelinkFrom(canon, pending, batch[0].parent, headers, genesis);
      if firstInserted > 0 {
        RunsJoin(pending, batch, firstInserted);
        pending := MarkRun(pending, batch[..firstInserted]);
      }
    }

    /** The lookup by hash and number: both must match. */
    function GetHeader(hash: Header, number: nat): Option<Header>
      reads this
    {
      if hash in headers && Number(hash) == number then Some(hash) else None
    }

    predicate Canonical(hash: Header, number: nat)
      reads this
    {
      number in canon && canon[number] == hash
    }

    /** The `ancestor`-th ancestor of a block, jumping to the target as soon as the
        walk is on the canonical chain.  At most `budget` blocks are visited one by
        one before that; what is left of the budget is returned. */
    method GetAncestor(hash: Header, number: nat, ancestor: nat, budget: nat)
      returns (r: Option<Header>, n: nat, left: nat)
      requires ChainInv(View(), genesis)
      ensures r.Some? ==> ancestor <= number && n == number - ancestor
      ensures r.Some? && Number(hash) == number ==> r.value == AncestorAt(hash, number - ancestor)
      ensures ancestor <= 1 || ancestor > number ==> left == budget
      ensures r.Some? <==>
                && ancestor <= number
                && (ancestor > 0 ==> GetHeader(hash, number).Some?)
                && (ancestor > 1 ==> Min(Detour(canon, hash), ancestor) <= budget)
      ensures 1 < ancestor <= number && GetHeader(hash, number).Some? ==>
                left == budget - Min(budget, Min(Detour(canon, hash), ancestor))
      ensures 1 < ancestor <= number && GetHeader(hash, number).None? ==> left == budget - Min(budget, 1)
    {
      hide MarksStored, Weights;
      if ancestor > number {
        return None, 0, budget;
      }
      if ancestor == 1 {
        if GetHeader(hash, number).Some? {
          return ParentHash(hash), number - 1, budget;
        }
        return None, 0, budget;
      }
      hide Path;
      PathOnly(current);
      var h, k := hash, 0;   // after k single steps
      n, left := number, budget;
      while k < ancestor
        invariant k <= ancestor && k <= budget && left == budget - k && n == number - k
        invariant k > 0 ==> hash in headers && Number(hash) == number
        invariant Number(hash) == number ==> h == AncestorAt(hash, n) && Number(h) == n
        invariant Number(hash) != number ==> h == hash
        invariant hash in headers ==> h in headers
        invariant k > 0 ==> Detour(canon, hash) == k + Detour(canon, h)
      {
        if Canonical(h, n) {
          ClosedHasAncestors(headers, current, n);
          PathsAgreeBelow(current, h, n);
          AncestorTransitive(hash, n, number - ancestor);
          return Some(canon[n - (ancestor - k)]), n - (ancestor - k), left;
        }
        if left == 0 {
          if GetHeader(h, n).Some? {
            DetourPositive(headers, canon, genesis, current, h);
          }
          return None, 0, left;
        }
        left, k := left - 1, k + 1;
        if GetHeader(h, n).None? {
          return None, 0, left;
        }
        DetourPositive(headers, canon, genesis, current, h);
        AncestorTransitive(hash, n, n - 1);
        h, n := h.parent, n - 1;
      }
      r := Some(h);
    }

    /** All stored hashes at a number, forks included. */
    function AllHashes(n: nat): set<Header>
      reads this
    {
      set h | h in headers && Number(h) == n
    }

    /** The highest number at or above `num` reachable without a gap. */
    method TopNumber(num: nat) returns (top: nat)
      requires Closed(headers)
      ensures num <= top && forall h :: h in headers ==> Number(h) <= top
    {
      var n := num + 1;
      while AllHashes(n) != {}
        invariant num < n
        decreases From(headers, n)
      {
        ghost var h :| h in AllHashes(n);
        assert h in From(headers, n) && h !in From(headers, n + 1);
        n := n + 1;
      }
      assert forall h :: h in headers && Number(h) == n ==> h in AllHashes(n);
      NothingAboveGap(headers, n);
      top := n - 1;
    }

    /** Accumulates the deletion of everything stored at numbers `top` down to `num`. */
    method WipeDown(top: nat, num: nat, hdr: Header,
                    hs: set<Header>, ws: map<Header, nat>, marks: map<nat, Header>)
      returns (hs': set<Header>, ws': map<Header, nat>, marks': map<nat, Header>)
      requires num <= top && Number(hdr) == num && hs <= headers && ws == Weights(hs)
      ensures hs' <= hs
      ensures hs' == WithoutHeaders(hs, num, top)
      ensures ws' == Weights(hs')
      ensures marks' == WithoutMarks(marks, num, top)
    {
      hs', ws', marks' := hs, ws, marks;
      var n := top + 1;
      while n > num
        invariant num <= n <= top + 1
        invariant WithoutHeaders(hs, num, top) <= hs' <= WithoutHeaders(hs, n, top)
        invariant forall h :: h in WithoutHeaders(hs, n, top) && h != hdr ==> h in hs'
        invariant ws' == Weights(hs')
        invariant marks' == WithoutMarks(marks, n, top)
      {
        n := n - 1;
        var hashes := AllHashes(n);
        if hashes == {} {
          hashes := {hdr};
        }
        hs', ws', marks' := hs' - hashes, ws' - hashes, marks' - {n};
      }
    }

    /** One step of a rewind from `hdr` to its parent, added to the pending deletions.  On
        the first step leftovers above the old head are wiped too. */
    method Wipe(hdr: Header, origin: bool, hs: set<Header>, ws: map<Header, nat>, marks: map<nat, Header>)
      returns (hs': set<Header>, ws': map<Header, nat>, marks': map<nat, Header>)
      requires Closed(headers) && MarksStored(headers, canon, genesis) && hdr.Child? && ws == Weights(hs)
      requires origin ==> hs == headers && marks == canon
      requires !origin ==> hs == UpTo(headers, Number(hdr)) && marks == Below(canon, Number(hdr) + 1)
      ensures hs' == UpTo(headers, Number(hdr) - 1) && ws' == Weights(hs') && marks' == Below(canon, Number(hdr))
    {
      hide Below, Weights, WithoutHeaders, WithoutMarks;
      var num := Number(hdr);
      var top := num;
      if origin {
        top := TopNumber(num);
        MarksUnder(headers, canon, genesis, top);
      }
      WipedMarks(canon, num, top);
      WipedStore(headers, num, top);
      hs', ws', marks' := WipeDown(top, num, hdr, hs, ws, marks);
    }

    /** Rewinds to a block number or, with a positive `headTime`, to a time. The
        program refuses outright, before touching anything, a time before genesis. */
    method SetHead(block: nat, time: nat, updateFn: Option<UpdateFn>) returns (refused: bool)
      requires Valid()
      modifies this
      ensures refused <==> time > 0 && genesis.time > time
      ensures refused ==> View() == old(View())
      ensures !refused ==> View() == Rewound(old(View()), RewindTarget(old(current), block, time, updateFn))
      ensures !refused && current != old(current) ==>
                forall h :: h in headers <==> h in old(headers) && Number(h) <= Number(current)
    {
      hide Path, Below, Weights, UpTo, MarksStored, Closed, IsAncestor, RewindTarget, Retarget, Number, Done, StoreInv;
      if time > 0 && genesis.time > time {
        return true;
      }
      ghost var start := current;
      StoreParts(View(), genesis);
      var headBlock, headTime, origin := block, time, true;
      var pendingHeaders, pendingTds: map<Header, nat>, pendingCanon := headers, tds, canon;
      assert IsAncestor(start, start) by {
        AncestorOfItself(start);
      }
      while !Done(current, headBlock, headTime)
        invariant headers == old(headers) && tds == old(tds) && canon == old(canon)
        invariant IsAncestor(current, start) && current in headers
        invariant headTime > 0 ==> genesis.time <= headTime
        invariant RewindTarget(start, block, time, updateFn) == RewindTarget(current, headBlock, headTime, updateFn)
        invariant origin <==> current == start
        invariant origin ==> pendingHeaders == headers && pendingCanon == canon && marker == old(marker)
        invariant pendingTds == Weights(pendingHeaders)
        invariant !origin ==> pendingHeaders == UpTo(headers, Number(current))
        invariant !origin ==> pendingCanon == Below(canon, Number(current) + 1) && marker == current
        decreases Number(current)
      {
        var hdr := current;
        RewindStep(old(View()), genesis, start, hdr, headBlock, headTime);
        TargetStep(hdr, headBlock, headTime, updateFn);
        var parent := if hdr.parent in headers then hdr.parent else genesis;
        headBlock, headTime := AskCallback(parent, headBlock, headTime, updateFn);
        marker, current := parent, parent;
        pendingHeaders, pendingTds, pendingCanon := Wipe(hdr, origin, pendingHeaders, pendingTds, pendingCanon);
        origin := false;
      }
      TargetStep(current, headBlock, headTime, updateFn);
      UpToMembers(headers, Number(current));
      headers, tds, canon := pendingHeaders, pendingTds, pendingCanon;
      refused := false;
    }
  }
}
