/** What the header chain is and what importing and rewinding mean.

    `State` is the database plus the in-memory head: a stored tree of headers, a total
    difficulty per header, a number-to-hash index of the canonical chain and a head.
    `Written` and `Rewound` say in closed form what a batch import and a rewind do to
    it.  The class in module HeaderChain performs them with the loops of the program
    and is proved to agree.
 */
module HeaderState {
  import opened Options
  import opened BlockTree

  datatype State = State(
    headers: set<Header>,         // stored headers, every fork included
    tds: map<Header, nat>,        // stored total difficulties
    canon: map<nat, Header>,      // canonical number -> hash markers
    marker: Header,               // head header hash in the database
    head: Header)                 // in-memory current header

  /** The total difficulty of every header of `hs`. */
  ghost function Weights(hs: set<Header>): map<Header, nat> {
    map h | h in hs :: TotalDifficulty(h)
  }

  /** Markers name stored headers at their own numbers, genesis among them. */
  ghost predicate MarksStored(headers: set<Header>, canon: map<nat, Header>, genesis: Header) {
    && 0 in canon && canon[0] == genesis
    && forall n: nat :: n in canon ==> canon[n] in headers && Number(canon[n]) == n
  }

  /** What every writer keeps, whatever the index looks like: an ancestor-closed store
      with one root and right total difficulties. */
  ghost predicate StoreInv(s: State, genesis: Header) {
    && Closed(s.headers)
    && Rooted(s.headers, genesis)
    && s.tds == Weights(s.headers)
    && s.head in s.headers
    && MarksStored(s.headers, s.canon, genesis)
  }

  /** The index is the path of the head and nothing else. */
  ghost predicate IndexRight(s: State) {
    s.marker == s.head && s.canon == Path(s.head)
  }

  /** What the readers need. */
  ghost predicate ChainInv(s: State, genesis: Header) {
    StoreInv(s, genesis) && IndexRight(s)
  }

  /** No stored header extends the head: what makes piling a batch onto the head
      without looking at the old markers sound. */
  ghost predicate NoChildOfHead(s: State) {
    forall h {:trigger h.parent} :: h in s.headers && h.Child? ==> h.parent != s.head
  }

  ghost predicate Inv(s: State, genesis: Header) {
    ChainInv(s, genesis) && NoChildOfHead(s)
  }

  // ---------------------------------------------------------------- importing

  predicate Extends(child: Header, parent: Header) {
    child.Child? && child.parent == parent
  }

  predicate Linked(batch: seq<Header>) {
    forall i, j {:trigger Extends(batch[j], batch[i])} ::
      0 <= i < |batch| && j == i + 1 < |batch| ==> Extends(batch[j], batch[i])
  }

  function Last(batch: seq<Header>): Header
    requires batch != []
  {
    batch[|batch| - 1]
  }

  function Elems(batch: seq<Header>): set<Header> {
    set h | h in batch
  }

  /** The fork choice on total difficulties and numbers: heavier wins; on a tie the
      shorter chain wins; on a full tie a coin decides. */
  predicate ForkChoice(newTD: nat, localTD: nat, number: nat, head: nat, coin: bool) {
    newTD > localTD || (newTD == localTD && (number < head || (number == head && coin)))
  }

  predicate Wins(candidate: Header, head: Header, coin: bool) {
    ForkChoice(TotalDifficulty(candidate), TotalDifficulty(head), Number(candidate), Number(head), coin)
  }

  predicate KnownParent(s: State, batch: seq<Header>)
    requires batch != []
  {
    batch[0].Child? && batch[0].parent in s.headers
  }

  predicate HasNew(s: State, batch: seq<Header>) {
    exists h :: h in batch && h !in s.headers
  }

  /** The stretch of the path of `h` from number `lo` up. */
  ghost function Segment(h: Header, lo: nat): map<nat, Header> {
    map n: nat | lo <= n <= Number(h) :: AncestorAt(h, n)
  }

  ghost function Below(m: map<nat, Header>, limit: nat): map<nat, Header> {
    map n: nat | n in m && n < limit :: m[n]
  }

  /** Without the entries from `from` up to the first number that has none. */
  ghost function Cut(m: map<nat, Header>, from: nat): map<nat, Header> {
    map n: nat | n in m && (n < from || exists k: nat :: from <= k < n && k !in m) :: m[n]
  }

  /** The highest marked header among `p` and its ancestors, genesis if there is none. */
  function Meeting(canon: map<nat, Header>, p: Header): Header {
    if (Number(p) in canon && canon[Number(p)] == p) || p.Genesis? then p else Meeting(canon, p.parent)
  }

  /** Markers dropped from `limit` up, and relinked from `p` down to a marked header. */
  ghost function Relinked(canon: map<nat, Header>, limit: nat, p: Header): map<nat, Header> {
    Cut(canon, limit) + Segment(p, Number(Meeting(canon, p)) + 1)
  }

  /** The markers of the new headers of a batch. */
  ghost function NewMarks(s: State, batch: seq<Header>): map<nat, Header>
    requires batch != []
  {
    map n: nat | Number(batch[0]) <= n <= Number(Last(batch)) && AncestorAt(Last(batch), n) !in s.headers
      :: AncestorAt(Last(batch), n)
  }

  /** The markers a winning batch leaves.  On top of the head only new headers are
      marked; elsewhere the batch is marked as a whole, if it brings a new header. */
  ghost function ImportMarks(s: State, batch: seq<Header>): map<nat, Header>
    requires batch != [] && batch[0].Child?
  {
    if batch[0].parent == s.head then s.canon + NewMarks(s, batch)
    else Relinked(s.canon, Number(Last(batch)) + 1, batch[0].parent)
         + (if HasNew(s, batch) then Segment(Last(batch), Number(batch[0])) else map[])
  }

  /** The state after a committed import of `batch`. */
  ghost function Written(s: State, batch: seq<Header>, coin: bool): State
    requires batch != [] && batch[0].Child?
  {
    var headers := s.headers + Elems(batch);
    var tds := Weights(headers);
    if !Wins(Last(batch), s.head, coin) then
      State(headers, tds, s.canon, s.marker, s.head)
    else
      State(headers, tds, ImportMarks(s, batch), if HasNew(s, batch) then Last(batch) else s.marker, Last(batch))
  }

  datatype WriteStatus = NonStatTy | CanonStatTy | SideStatTy

  datatype WriteResult =
    | UnknownAncestor
    | Aborted
    | Imported(status: WriteStatus, ignored: nat, imported: nat, last: Option<Header>)

  /** A header of a linked batch sits at the number its position says. */
  lemma {:induction false} LinkedNumbers(batch: seq<Header>, i: nat)
    requires Linked(batch) && i < |batch|
    ensures Number(batch[i]) == Number(batch[0]) + i
  {
    if i > 0 {
      assert Extends(batch[i], batch[i - 1]);
      LinkedNumbers(batch, i - 1);
    }
  }

  lemma {:induction false} LinkedAncestors(batch: seq<Header>, i: nat, j: nat)
    requires Linked(batch) && i <= j < |batch|
    ensures Number(batch[i]) <= Number(batch[j]) && AncestorAt(batch[j], Number(batch[i])) == batch[i]
  {
    LinkedNumbers(batch, i);
    LinkedNumbers(batch, j);
    if i < j {
      assert Extends(batch[j], batch[j - 1]);
      LinkedAncestors(batch, i, j - 1);
    }
  }

  /** The known headers of a batch come before the unknown ones. */
  lemma {:induction false} UnknownIsUpward(s: set<Header>, batch: seq<Header>, i: nat, j: nat)
    requires Closed(s) && Linked(batch) && i <= j < |batch| && batch[i] !in s
    ensures batch[j] !in s
  {
    if i < j {
      assert Extends(batch[j], batch[j - 1]);
      UnknownIsUpward(s, batch, i, j - 1);
    }
  }

  /** A batch that may be imported: linked, on top of a stored header. */
  ghost predicate Importable(s: State, genesis: Header, batch: seq<Header>) {
    StoreInv(s, genesis) && batch != [] && Linked(batch) && KnownParent(s, batch)
  }

  lemma ImportKeepsTree(s: State, genesis: Header, batch: seq<Header>)
    requires Importable(s, genesis, batch)
    ensures Closed(s.headers + Elems(batch)) && Rooted(s.headers + Elems(batch), genesis)
    ensures Last(batch) in s.headers + Elems(batch)
  {
    var all := s.headers + Elems(batch);
    assert Last(batch) in batch;
    forall h | h in batch ensures h.Child? && h.parent in all {
      var i :| 0 <= i < |batch| && batch[i] == h;
      if i > 0 {
        assert Extends(batch[i], batch[i - 1]);
        assert batch[i - 1] in batch;
      }
    }
  }

  /** A stretch of a stored path, laid over stored markers above genesis. */
  lemma MarksJoin(headers: set<Header>, genesis: Header, m: map<nat, Header>, h: Header, lo: nat)
    requires Closed(headers) && h in headers && lo > 0 && MarksStored(headers, m, genesis)
    ensures MarksStored(headers, m + Segment(h, lo), genesis)
  {
    var r := m + Segment(h, lo);
    forall n: nat | n in r ensures r[n] in headers && Number(r[n]) == n {
      if n in Segment(h, lo) {
        ClosedHasAncestors(headers, h, n);
        AncestorNumber(h, n);
      }
    }
  }

  /** Every import keeps the store, whatever the markers. */
  lemma ImportKeepsStore(s: State, genesis: Header, batch: seq<Header>, coin: bool)
    requires Importable(s, genesis, batch)
    ensures StoreInv(Written(s, batch, coin), genesis)
  {
    hide Relinked, NewMarks, Segment, Cut, Path, AncestorAt;
    ImportKeepsTree(s, genesis, batch);
    var headers := s.headers + Elems(batch);
    if Wins(Last(batch), s.head, coin) {
      if batch[0].parent == s.head {
        NewMarksStored(headers, genesis, s, batch);
      } else {
        RelinkedStored(headers, s.canon, genesis, Number(Last(batch)) + 1, batch[0].parent);
        var m := Relinked(s.canon, Number(Last(batch)) + 1, batch[0].parent);
        MarksJoin(headers, genesis, m, Last(batch), Number(batch[0]));
        assert m + map[] == m;
      }
    }
  }

  lemma RelinkedStored(headers: set<Header>, canon: map<nat, Header>, genesis: Header, limit: nat, p: Header)
    requires Closed(headers) && MarksStored(headers, canon, genesis) && p in headers && limit > 0
    ensures MarksStored(headers, Relinked(canon, limit, p), genesis)
  {
    MarksJoin(headers, genesis, Cut(canon, limit), p, Number(Meeting(canon, p)) + 1);
  }

  lemma NewMarksStored(headers: set<Header>, genesis: Header, s: State, batch: seq<Header>)
    requires Closed(headers) && MarksStored(headers, s.canon, genesis)
    requires batch != [] && Last(batch) in headers && Number(batch[0]) > 0
    ensures MarksStored(headers, s.canon + NewMarks(s, batch), genesis)
  {
    var r := s.canon + NewMarks(s, batch);
    forall n: nat | n in r ensures r[n] in headers && Number(r[n]) == n {
      if n in NewMarks(s, batch) {
        ClosedHasAncestors(headers, Last(batch), n);
        AncestorNumber(Last(batch), n);
      }
    }
  }

  // ---------------------------------------------------------------- paths and markers

  lemma PathOnly(h: Header)
    ensures forall n: nat :: n in Path(h) <==> n <= Number(h)
    ensures forall n: nat :: n <= Number(h) ==> Path(h)[n] == AncestorAt(h, n) && Number(Path(h)[n]) == n
  {
    forall n: nat | n <= Number(h) ensures Number(Path(h)[n]) == n {
      AncestorNumber(h, n);
    }
  }

  lemma SegmentJoin(m: map<nat, Header>, h: Header, lo: nat, mid: nat)
    requires lo <= mid <= Number(h)
    ensures Number(AncestorAt(h, mid)) == mid
    ensures m + Segment(AncestorAt(h, mid), lo) + Segment(h, mid + 1) == m + Segment(h, lo)
  {
    hide AncestorAt, Number;
    AncestorTransitive(h, mid, mid);
    PathsAgreeBelow(AncestorAt(h, mid), h, mid);
  }

  lemma PathJoin(m: map<nat, Header>, h: Header, mid: nat)
    requires mid <= Number(h) && forall n :: n in m ==> n <= Number(h)
    ensures m + Path(AncestorAt(h, mid)) + Segment(h, mid + 1) == Path(h)
  {
    hide AncestorAt, Number;
    SegmentJoin(m, h, 0, mid);
    assert Path(AncestorAt(h, mid)) == Segment(AncestorAt(h, mid), 0);
    assert Path(h) == Segment(h, 0);
    assert m + Segment(h, 0) == Segment(h, 0);
  }

  /** The markers of a batch on top of the path of its parent: the path of its last
      header, whatever markers lie below that path. */
  lemma BatchOnPath(m: map<nat, Header>, batch: seq<Header>)
    requires Linked(batch) && batch != [] && batch[0].Child?
    requires forall n :: n in m ==> n <= Number(Last(batch))
    ensures m + Path(batch[0].parent) + Segment(Last(batch), Number(batch[0])) == Path(Last(batch))
  {
    LinkedAncestors(batch, 0, |batch| - 1);
    AncestorTransitive(Last(batch), Number(batch[0]), Number(batch[0]) - 1);
    PathJoin(m, Last(batch), Number(batch[0]) - 1);
  }

  /** Where the walk back meets the old path, everything below is already marked. */
  lemma RelinkComplete(head: Header, limit: nat, p: Header, n: nat)
    requires n <= Number(p) < limit && n <= Number(head) && AncestorAt(head, n) == AncestorAt(p, n)
    ensures Below(Path(head), limit) + Segment(p, n + 1) == Below(Path(head), limit) + Path(p)
  {
    PathsAgreeBelow(p, head, n);
  }

  lemma {:induction false} MeetingIsMarked(canon: map<nat, Header>, p: Header)
    requires 0 in canon && canon[0] == AncestorAt(p, 0)
    ensures var m := Meeting(canon, p); IsAncestor(m, p) && Number(m) in canon && canon[Number(m)] == m
  {
    if !(Number(p) in canon && canon[Number(p)] == p) && p.Child? {
      MeetingIsMarked(canon, p.parent);
    }
  }

  /** On an index without gaps the cut leaves what lies below it. */
  lemma CutGapless(m: map<nat, Header>, from: nat, top: nat)
    requires forall n: nat :: n in m <==> n <= top
    ensures Cut(m, from) == Below(m, from)
  {
  }

  lemma CutPathIsBelow(head: Header, from: nat)
    ensures Cut(Path(head), from) == Below(Path(head), from)
  {
    hide Path, Cut, Below;
    PathOnly(head);
    CutGapless(Path(head), from, Number(head));
  }

  lemma PathMeets(head: Header, p: Header)
    requires AncestorAt(head, 0) == AncestorAt(p, 0)
    ensures var n := Number(Meeting(Path(head), p));
            n <= Number(p) && n <= Number(head) && AncestorAt(head, n) == AncestorAt(p, n)
  {
    hide Path;
    PathOnly(head);
    MeetingIsMarked(Path(head), p);
  }

  /** Relinking a right index gives the path of `p` under `limit`. */
  lemma RelinkedRight(head: Header, limit: nat, p: Header)
    requires Number(p) < limit && AncestorAt(head, 0) == AncestorAt(p, 0)
    ensures Relinked(Path(head), limit, p) == Below(Path(head), limit) + Path(p)
  {
    hide Path, Segment, Below, Cut, AncestorAt, Number, Meeting;
    CutPathIsBelow(head, limit);
    PathMeets(head, p);
    RelinkComplete(head, limit, p, Number(Meeting(Path(head), p)));
  }

  // ---------------------------------------------------------------- when an import is right

  /** The import loses, ends in the head, or brings a new header; and if it sits on the
      head its first header is new. */
  ghost predicate ImportSound(s: State, batch: seq<Header>, coin: bool)
    requires batch != [] && batch[0].Child?
  {
    || !Wins(Last(batch), s.head, coin)
    || Last(batch) == s.head
    || (HasNew(s, batch) && (batch[0].parent == s.head ==> batch[0] !in s.headers))
  }

  /** Exactly when an import leaves the index right, head block or not, children of the
      head stored or not. */
  lemma ImportRightExactlyWhen(s: State, genesis: Header, batch: seq<Header>, coin: bool)
    requires Importable(s, genesis, batch) && IndexRight(s)
    ensures IndexRight(Written(s, batch, coin)) <==> ImportSound(s, batch, coin)
    ensures !ImportSound(s, batch, coin) ==> Written(s, batch, coin).canon != Path(Last(batch))
  {
    hide Path, Relinked, NewMarks, Segment;
    if HasNew(s, batch) {
      LastIsNew(s, genesis, batch);
    }
    if Wins(Last(batch), s.head, coin) {
      if batch[0].parent == s.head {
        MarksOnHead(s, genesis, batch);
      } else if HasNew(s, batch) {
        MarksOffHead(s, genesis, batch);
      } else {
        MarksOfKnown(s, genesis, batch, coin);
      }
    }
  }

  lemma MarksOnHead(s: State, genesis: Header, batch: seq<Header>)
    requires Importable(s, genesis, batch) && IndexRight(s) && batch[0].parent == s.head
    ensures ImportMarks(s, batch) == Path(Last(batch)) <==> batch[0] !in s.headers
    ensures batch[0] !in s.headers ==> HasNew(s, batch)
    ensures Number(Last(batch)) > Number(s.head)
  {
    hide Path, Segment, NewMarks, StoreInv;
    var last, n0 := Last(batch), Number(batch[0]);
    LinkedAncestors(batch, 0, |batch| - 1);
    if batch[0] !in s.headers {
      assert batch[0] in batch;
      TreeOf(s, genesis);
      AllNewMarks(s, batch);
      BatchOnPath(map[], batch);
      assert map[] + Path(s.head) == Path(s.head);
    } else {
      GapInMarks(s, batch);
    }
  }

  lemma TreeOf(s: State, genesis: Header)
    requires StoreInv(s, genesis)
    ensures Closed(s.headers) && Rooted(s.headers, genesis)
  {
  }

  lemma AllNewMarks(s: State, batch: seq<Header>)
    requires Closed(s.headers) && Linked(batch) && batch != [] && batch[0] !in s.headers
    ensures NewMarks(s, batch) == Segment(Last(batch), Number(batch[0]))
  {
    var last, n0 := Last(batch), Number(batch[0]);
    LinkedNumbers(batch, |batch| - 1);
    forall n: nat | n0 <= n <= Number(last) ensures AncestorAt(last, n) !in s.headers {
      UnknownIsUpward(s.headers, batch, 0, n - n0);
      LinkedNumbers(batch, n - n0);
      LinkedAncestors(batch, n - n0, |batch| - 1);
    }
  }

  /** A known header on top of the head is left unmarked. */
  lemma GapInMarks(s: State, batch: seq<Header>)
    requires Linked(batch) && batch != [] && batch[0] in s.headers && Extends(batch[0], s.head)
    requires s.canon == Path(s.head)
    ensures Number(batch[0]) !in s.canon + NewMarks(s, batch) && Number(batch[0]) in Path(Last(batch))
  {
    LinkedAncestors(batch, 0, |batch| - 1);
  }

  lemma SameRoot(s: State, genesis: Header, a: Header, b: Header)
    requires StoreInv(s, genesis) && a in s.headers && b in s.headers
    ensures AncestorAt(a, 0) == AncestorAt(b, 0)
  {
    RootedGenesis(s.headers, genesis, a);
    RootedGenesis(s.headers, genesis, b);
  }

  lemma MarksOffHead(s: State, genesis: Header, batch: seq<Header>)
    requires Importable(s, genesis, batch) && IndexRight(s) && batch[0].parent != s.head && HasNew(s, batch)
    ensures ImportMarks(s, batch) == Path(Last(batch))
  {
    hide Path, Relinked, Segment;
    var last := Last(batch);
    LinkedNumbers(batch, |batch| - 1);
    SameRoot(s, genesis, s.head, batch[0].parent);
    RelinkedRight(s.head, Number(last) + 1, batch[0].parent);
    BatchOnPath(Below(s.canon, Number(last) + 1), batch);
  }

  /** Known headers off the head: dropped above, relinked below, untouched inside. */
  lemma KnownMarks(s: State, genesis: Header, batch: seq<Header>)
    requires Importable(s, genesis, batch) && IndexRight(s) && batch[0].parent != s.head && !HasNew(s, batch)
    ensures ImportMarks(s, batch) == Below(Path(s.head), Number(Last(batch)) + 1) + Path(batch[0].parent)
    ensures Number(batch[0].parent) < Number(Last(batch))
  {
    hide Path, Relinked, Below;
    var p := batch[0].parent;
    LinkedNumbers(batch, |batch| - 1);
    SameRoot(s, genesis, s.head, p);
    RelinkedRight(s.head, Number(Last(batch)) + 1, p);
  }

  /** A path cut at `last` and overwritten below it is the path of `last` only if it
      went through `last`. */
  lemma CutPath(head: Header, last: Header, p: Header)
    requires Number(p) < Number(last) && Below(Path(head), Number(last) + 1) + Path(p) == Path(last)
    ensures IsAncestor(last, head)
  {
    var m := Below(Path(head), Number(last) + 1) + Path(p);
    assert Number(last) in Path(last) && Path(last)[Number(last)] == last;
    assert Number(last) in m && Number(last) !in Path(p);
  }

  /** Known headers that win: their markers are right only if they end in the head. */
  lemma MarksOfKnown(s: State, genesis: Header, batch: seq<Header>, coin: bool)
    requires Importable(s, genesis, batch) && IndexRight(s) && batch[0].parent != s.head && !HasNew(s, batch)
    requires Wins(Last(batch), s.head, coin)
    ensures ImportMarks(s, batch) == Path(Last(batch)) <==> Last(batch) == s.head
  {
    hide Path, Below, ImportMarks, StoreInv, HasNew;
    var last, p := Last(batch), batch[0].parent;
    KnownMarks(s, genesis, batch);
    if last == s.head {
      LinkedAncestors(batch, 0, |batch| - 1);
      AncestorTransitive(last, Number(batch[0]), Number(p));
      WholePath(last, p);
    } else if Below(Path(s.head), Number(last) + 1) + Path(p) == Path(last) {
      CutPath(s.head, last, p);
      AncestorLighter(s.head, Number(last));
      assert false;
    }
  }

  lemma WholePath(h: Header, p: Header)
    requires IsAncestor(p, h)
    ensures Below(Path(h), Number(h) + 1) + Path(p) == Path(h)
  {
    PathsAgreeBelow(p, h, Number(p));
  }

  /** Exactly when an import keeps the invariant of the header chain alone.  An import
      that loses the fork choice, brings a header, or ends in the current head keeps it;
      a batch of known headers that wins against a different head breaks it, because no
      markers are written for the batch itself. */
  lemma ImportKeepsInvExactlyWhen(s: State, genesis: Header, batch: seq<Header>, coin: bool)
    requires Importable(s, genesis, batch) && Inv(s, genesis)
    ensures Inv(Written(s, batch, coin), genesis)
            <==> !Wins(Last(batch), s.head, coin) || HasNew(s, batch) || Last(batch) == s.head
  {
    if !Wins(Last(batch), s.head, coin) {
      LosingImportKeepsInv(s, genesis, batch, coin);
    } else if HasNew(s, batch) {
      NewWinnerKeepsInv(s, genesis, batch, coin);
    } else {
      KnownWinner(s, genesis, batch, coin);
    }
  }

  lemma LosingImportKeepsInv(s: State, genesis: Header, batch: seq<Header>, coin: bool)
    requires Importable(s, genesis, batch) && Inv(s, genesis) && !Wins(Last(batch), s.head, coin)
    ensures Inv(Written(s, batch, coin), genesis)
  {
    ImportKeepsStore(s, genesis, batch, coin);
    forall h | h in batch && h.Child? ensures h.parent != s.head {
      var i :| 0 <= i < |batch| && batch[i] == h;
      LinkedAncestors(batch, i, |batch| - 1);
      AncestorLighter(Last(batch), Number(h));
    }
  }

  lemma NewWinnerKeepsInv(s: State, genesis: Header, batch: seq<Header>, coin: bool)
    requires Importable(s, genesis, batch) && Inv(s, genesis)
    requires Wins(Last(batch), s.head, coin) && HasNew(s, batch)
    ensures Inv(Written(s, batch, coin), genesis)
  {
    hide ImportMarks;
    ImportKeepsStore(s, genesis, batch, coin);
    ImportRightExactlyWhen(s, genesis, batch, coin);
    if batch[0].parent == s.head {
      OnHeadIsNew(s, genesis, batch);
    }
    LastIsNew(s, genesis, batch);
    forall c | c in batch && c.Child? ensures c.parent != Last(batch) {
      var j :| 0 <= j < |batch| && batch[j] == c;
      LinkedNumbers(batch, j);
      LinkedNumbers(batch, |batch| - 1);
    }
  }

  lemma LastIsNew(s: State, genesis: Header, batch: seq<Header>)
    requires Importable(s, genesis, batch) && HasNew(s, batch)
    ensures Last(batch) !in s.headers
  {
    var h :| h in batch && h !in s.headers;
    var i :| 0 <= i < |batch| && batch[i] == h;
    UnknownIsUpward(s.headers, batch, i, |batch| - 1);
  }

  /** A winning batch of known headers: unless it ends in the head, the head header in
      the database is stale and the index is not the path of the new head. */
  lemma KnownWinner(s: State, genesis: Header, batch: seq<Header>, coin: bool)
    requires Importable(s, genesis, batch) && Inv(s, genesis)
    requires Wins(Last(batch), s.head, coin) && !HasNew(s, batch)
    ensures Inv(Written(s, batch, coin), genesis) <==> Last(batch) == s.head
    ensures Last(batch) != s.head ==>
              var t := Written(s, batch, coin);
              t.head == Last(batch) && t.marker == s.head && t.canon != Path(t.head)
  {
    hide ImportMarks;
    ImportKeepsStore(s, genesis, batch, coin);
    ImportRightExactlyWhen(s, genesis, batch, coin);
    assert s.headers + Elems(batch) == s.headers;
  }

  /** The import shortcut: a batch on top of the head brings only new headers. */
  lemma OnHeadIsNew(s: State, genesis: Header, batch: seq<Header>)
    requires Inv(s, genesis) && batch != [] && Linked(batch) && batch[0].Child? && batch[0].parent == s.head
    ensures forall i :: 0 <= i < |batch| ==> batch[i] !in s.headers
  {
    forall i | 0 <= i < |batch| ensures batch[i] !in s.headers {
      UnknownIsUpward(s.headers, batch, 0, i);
    }
  }

  // ---------------------------------------------------------------- rewinding

  /** The callback of a rewind: the block the body chain went back to, and whether
      the rewind must go on until there. */
  type UpdateFn = Header -> (Header, bool)

  predicate Done(h: Header, headBlock: nat, headTime: nat) {
    if headTime > 0 then h.time <= headTime else Number(h) <= headBlock
  }

  /** The target of a rewind after the callback has seen `parent`. */
  function Retarget(parent: Header, headBlock: nat, headTime: nat, updateFn: Option<UpdateFn>): (nat, nat) {
    if updateFn.None? then (headBlock, headTime) else
    var (newHead, force) := updateFn.value(parent);
    if force && (if headTime > 0 then newHead.time < headTime else Number(newHead) < headBlock)
    then (Number(newHead), 0) else (headBlock, headTime)
  }

  /** Where a rewind that starts at `h` stops. */
  function RewindTarget(h: Header, headBlock: nat, headTime: nat, updateFn: Option<UpdateFn>): Header
    decreases h
  {
    if Done(h, headBlock, headTime) || h.Genesis? then h else
    var (block, time) := Retarget(h.parent, headBlock, headTime, updateFn);
    RewindTarget(h.parent, block, time, updateFn)
  }

  ghost function UpTo(hs: set<Header>, n: nat): set<Header> {
    set h | h in hs && Number(h) <= n
  }

  /** The state after a rewind to `t`: every fork above it is gone. */
  ghost function Rewound(s: State, t: Header): State {
    if t == s.head then s else
    var kept := UpTo(s.headers, Number(t));
    State(kept, Weights(kept), Below(s.canon, Number(t) + 1), t, t)
  }

  lemma RewindKeepsStore(s: State, genesis: Header, t: Header)
    requires StoreInv(s, genesis) && IsAncestor(t, s.head)
    ensures StoreInv(Rewound(s, t), genesis)
  {
    ClosedHasAncestors(s.headers, s.head, Number(t));
  }

  lemma RewindKeepsInv(s: State, genesis: Header, t: Header)
    requires ChainInv(s, genesis) && IsAncestor(t, s.head)
    ensures ChainInv(Rewound(s, t), genesis)
    ensures NoChildOfHead(s) || t != s.head ==> NoChildOfHead(Rewound(s, t))
  {
    RewindKeepsStore(s, genesis, t);
    PathsAgreeBelow(t, s.head, Number(t));
    assert Below(Path(s.head), Number(t) + 1) == Path(t);
  }

  lemma {:induction false} RewindTargetIsAncestor(h: Header, headBlock: nat, headTime: nat, updateFn: Option<UpdateFn>)
    ensures IsAncestor(RewindTarget(h, headBlock, headTime, updateFn), h)
    decreases h
  {
    if !Done(h, headBlock, headTime) && h.Child? {
      var (block, time) := Retarget(h.parent, headBlock, headTime, updateFn);
      RewindTargetIsAncestor(h.parent, block, time, updateFn);
    }
  }

  /** Without a forcing callback the rewind stops at the highest ancestor that
      satisfies the request, or at genesis. */
  lemma {:induction false} RewindTargetIsHighest(h: Header, headBlock: nat, headTime: nat, n: nat)
    requires n <= Number(h)
    ensures var t := RewindTarget(h, headBlock, headTime, None);
            && (t.Genesis? || Done(t, headBlock, headTime))
            && (Number(t) < n ==> !Done(AncestorAt(h, n), headBlock, headTime))
    decreases h
  {
    if !Done(h, headBlock, headTime) && h.Child? {
      RewindTargetIsHighest(h.parent, headBlock, headTime, if n < Number(h) then n else 0);
    }
  }

  /** A rewind to a number stops exactly there, or stays if it is below already. */
  lemma {:induction false} RewindToNumberIs(h: Header, headBlock: nat)
    ensures RewindTarget(h, headBlock, 0, None) == if Number(h) <= headBlock then h else AncestorAt(h, headBlock)
    decreases h
  {
    if headBlock < Number(h) {
      RewindToNumberIs(h.parent, headBlock);
    }
  }

  /** A rewind to a time stops on the highest ancestor that is not later, or on genesis. */
  lemma {:induction false} RewindToTimeIs(h: Header, headBlock: nat, headTime: nat, n: nat)
    requires headTime > 0 && n <= Number(h)
    ensures var t := RewindTarget(h, headBlock, headTime, None);
            && (t.time <= headTime || Number(t) == 0)
            && (Number(t) < n ==> AncestorAt(h, n).time > headTime)
    decreases h
  {
    if h.time > headTime && h.Child? {
      RewindToTimeIs(h.parent, headBlock, headTime, if n < Number(h) then n else 0);
    }
  }

  /** A rewind never stops above the number it was asked for. */
  lemma {:induction false} RewindReachesNumber(h: Header, headBlock: nat, updateFn: Option<UpdateFn>)
    ensures Number(RewindTarget(h, headBlock, 0, updateFn)) <= headBlock
    decreases h
  {
    if !Done(h, headBlock, 0) && h.Child? {
      var (block, time) := Retarget(h.parent, headBlock, 0, updateFn);
      RewindReachesNumber(h.parent, block, updateFn);
    }
  }

  /** A callback that forces the rewind at its first call takes it down to the block it
      names, also when a time was asked for. */
  lemma ForcedRewindGoesOn(h: Header, headBlock: nat, headTime: nat, updateFn: UpdateFn)
    requires !Done(h, headBlock, headTime) && h.Child? && updateFn(h.parent).1
    requires var b := updateFn(h.parent).0;
             if headTime > 0 then b.time < headTime else Number(b) < headBlock
    ensures Number(RewindTarget(h, headBlock, headTime, Some(updateFn))) <= Number(updateFn(h.parent).0)
  {
    RewindReachesNumber(h.parent, Number(updateFn(h.parent).0), Some(updateFn));
  }

  /** A callback that never forces changes nothing. */
  lemma {:induction false} UnforcedRewind(h: Header, headBlock: nat, headTime: nat, updateFn: UpdateFn)
    requires forall p :: !updateFn(p).1
    ensures RewindTarget(h, headBlock, headTime, Some(updateFn)) == RewindTarget(h, headBlock, headTime, None)
    decreases h
  {
    if !Done(h, headBlock, headTime) && h.Child? {
      assert !updateFn(h.parent).1;
      UnforcedRewind(h.parent, headBlock, headTime, updateFn);
    }
  }

  // ---------------------------------------------------------------- whole runs

  datatype Op =
    | Import(batch: seq<Header>, interrupted: bool, coin: bool)
    | Rewind(block: nat, time: nat, updateFn: Option<UpdateFn>)

  /** An import that reaches the fork choice. */
  ghost predicate Commits(s: State, op: Op) {
    op.Import? && op.batch != [] && KnownParent(s, op.batch) && !op.interrupted
  }

  ghost function Apply(s: State, genesis: Header, op: Op): State {
    if op.Import? then
      if Commits(s, op) then Written(s, op.batch, op.coin) else s
    else if op.time > 0 && genesis.time > op.time then s
    else Rewound(s, RewindTarget(s.head, op.block, op.time, op.updateFn))
  }

  /** Not an all-known batch that beats a head it does not end in. */
  ghost predicate Sound(s: State, op: Op) {
    Commits(s, op) ==>
      !Wins(Last(op.batch), s.head, op.coin) || HasNew(s, op.batch) || Last(op.batch) == s.head
  }

  /** `run[i]` is the state before `ops[i]`; batches are linked, as header validation
      guarantees. */
  ghost predicate IsRun(run: seq<State>, ops: seq<Op>, genesis: Header) {
    && |run| == |ops| + 1
    && forall i :: 0 <= i < |ops| ==>
         && (ops[i].Import? ==> Linked(ops[i].batch))
         && run[i + 1] == Apply(run[i], genesis, ops[i])
  }

  ghost function Fresh(genesis: Header): State {
    State({genesis}, map[genesis := TotalDifficulty(genesis)], map[0 := genesis], genesis, genesis)
  }

  lemma FreshInv(genesis: Header)
    requires genesis.Genesis?
    ensures Inv(Fresh(genesis), genesis)
  {
    var p := Path(genesis);
    assert Number(genesis) == 0;
    assert forall n: nat :: n in p <==> n == 0;
    assert p[0] == genesis;
    assert p == map[0 := genesis];
  }

  lemma StepKeepsInvExactlyWhen(s: State, genesis: Header, op: Op)
    requires Inv(s, genesis) && (op.Import? ==> Linked(op.batch))
    ensures Inv(Apply(s, genesis, op), genesis) <==> Sound(s, op)
  {
    if op.Import? {
      if Commits(s, op) {
        ImportKeepsInvExactlyWhen(s, genesis, op.batch, op.coin);
      }
    } else {
      RewindTargetIsAncestor(s.head, op.block, op.time, op.updateFn);
      RewindKeepsInv(s, genesis, RewindTarget(s.head, op.block, op.time, op.updateFn));
    }
  }

  /** The main theorem: over any run of imports and rewinds from a fresh chain, the
      invariant holds in every state exactly when every import is sound. */
  lemma RunKeepsInvExactlyWhen(run: seq<State>, ops: seq<Op>, genesis: Header)
    requires genesis.Genesis? && IsRun(run, ops, genesis) && run[0] == Fresh(genesis)
    ensures (forall i :: 0 <= i < |run| ==> Inv(run[i], genesis))
            <==> (forall i :: 0 <= i < |ops| ==> Sound(run[i], ops[i]))
  {
    if forall i :: 0 <= i < |run| ==> Inv(run[i], genesis) {
      forall i | 0 <= i < |ops| ensures Sound(run[i], ops[i]) {
        assert Inv(run[i + 1], genesis);
        StepKeepsInvExactlyWhen(run[i], genesis, ops[i]);
      }
    }
    if forall i :: 0 <= i < |ops| ==> Sound(run[i], ops[i]) {
      forall i | 0 <= i < |run| ensures Inv(run[i], genesis) {
        SoundRunKeepsInv(run, ops, genesis, i);
      }
    }
  }

  lemma {:induction false} SoundRunKeepsInv(run: seq<State>, ops: seq<Op>, genesis: Header, i: nat)
    requires genesis.Genesis? && IsRun(run, ops, genesis) && run[0] == Fresh(genesis) && i < |run|
    requires forall j :: 0 <= j < |ops| ==> Sound(run[j], ops[j])
    ensures Inv(run[i], genesis)
  {
    if i == 0 {
      FreshInv(genesis);
    } else {
      SoundRunKeepsInv(run, ops, genesis, i - 1);
      StepKeepsInvExactlyWhen(run[i - 1], genesis, ops[i - 1]);
    }
  }

  /** The head order: more total difficulty, or as much in no more blocks. */
  predicate AtLeast(a: Header, b: Header) {
    || TotalDifficulty(a) > TotalDifficulty(b)
    || (TotalDifficulty(a) == TotalDifficulty(b) && Number(a) <= Number(b))
  }

  /** Imports never lower the head; only a rewind can. */
  lemma {:induction false} ImportsNeverLowerHead(run: seq<State>, ops: seq<Op>, genesis: Header, i: nat, j: nat)
    requires IsRun(run, ops, genesis) && i <= j < |run|
    requires forall k :: i <= k < j ==> ops[k].Import?
    ensures AtLeast(run[j].head, run[i].head)
  {
    if i < j {
      ImportsNeverLowerHead(run, ops, genesis, i, j - 1);
      assert run[j - 1 + 1] == Apply(run[j - 1], genesis, ops[j - 1]);
    }
  }

  lemma AtLeastTransitive(a: Header, b: Header, c: Header)
    requires AtLeast(a, b) && AtLeast(b, c)
    ensures AtLeast(a, c)
  {
  }

  /** Every header of a linked batch is outweighed by its last one. */
  lemma LastIsHeaviest(batch: seq<Header>, h: Header)
    requires Linked(batch) && h in batch
    ensures AtLeast(Last(batch), h)
  {
    var i :| 0 <= i < |batch| && batch[i] == h;
    LinkedAncestors(batch, i, |batch| - 1);
    AncestorLighter(Last(batch), Number(h));
  }

  /** Over any run of imports from a fresh chain the head is the heaviest stored header,
      and among the heaviest a shortest one. */
  lemma {:induction false} HeadIsHeaviest(run: seq<State>, ops: seq<Op>, genesis: Header, i: nat)
    requires IsRun(run, ops, genesis) && run[0] == Fresh(genesis) && i < |run|
    requires forall k :: 0 <= k < i ==> ops[k].Import?
    ensures forall h :: h in run[i].headers ==> AtLeast(run[i].head, h)
  {
    if i > 0 {
      HeadIsHeaviest(run, ops, genesis, i - 1);
      var s, op, t := run[i - 1], ops[i - 1], run[i];
      assert run[i - 1 + 1] == Apply(s, genesis, op);
      if Commits(s, op) {
        forall h | h in t.headers ensures AtLeast(t.head, h) {
          ImportBeats(s, op.batch, op.coin, h);
        }
      }
    }
  }

  lemma ImportBeats(s: State, batch: seq<Header>, coin: bool, h: Header)
    requires Linked(batch) && batch != [] && batch[0].Child?
    requires forall x :: x in s.headers ==> AtLeast(s.head, x)
    requires h in Written(s, batch, coin).headers
    ensures AtLeast(Written(s, batch, coin).head, h)
  {
    hide ImportMarks, Weights;
    var head, last := Written(s, batch, coin).head, Last(batch);
    assert AtLeast(head, s.head) && AtLeast(head, last);
    if h in s.headers {
      AtLeastTransitive(head, s.head, h);
    } else {
      LastIsHeaviest(batch, h);
      AtLeastTransitive(head, last, h);
    }
  }

  /** A one-header import on a stored parent, spelled out. */
  lemma SingleImport(s: State, genesis: Header, h: Header, coin: bool)
    requires Inv(s, genesis) && h.Child? && h.parent in s.headers
    ensures var t := Apply(s, genesis, Import([h], false, coin));
            && t.headers == s.headers + {h}
            && t.head == (if Wins(h, s.head, coin) then h else s.head)
            && (!Wins(h, s.head, coin) ==> t.canon == s.canon)
            && (h in s.headers && Wins(h, s.head, coin) ==> t.canon == Below(s.canon, Number(h) + 1) + Path(h.parent))
            && (Inv(t, genesis) <==> !Wins(h, s.head, coin) || h !in s.headers || h == s.head)
  {
    hide Path, Below, Weights, AncestorAt, Inv, StoreInv, ImportMarks, Number, TotalDifficulty;
    assert h in [h];
    assert Last([h]) == h;
    assert Elems([h]) == {h};
    StepKeepsInvExactlyWhen(s, genesis, Import([h], false, coin));
    if h in s.headers && Wins(h, s.head, coin) {
      OnlyNewOnHead(s, genesis, h);
      KnownMarks(s, genesis, [h]);
    }
  }

  lemma OnlyNewOnHead(s: State, genesis: Header, h: Header)
    requires Inv(s, genesis) && h.Child? && h in s.headers
    ensures ChainInv(s, genesis) && h.parent != s.head && !HasNew(s, [h])
  {
  }

  /** Three legal imports that leave a head without markers: two siblings of equal
      weight, then the losing one again.  The second time the coin lets it win, and
      since it is known by then nothing marks it. */
  lemma KnownSiblingLosesItsMarkers(genesis: Header, a: Header, b: Header)
    requires genesis.Genesis? && a != b && a.Child? && b.Child?
    requires a.parent == genesis == b.parent && a.difficulty == b.difficulty
    ensures var s1 := Apply(Fresh(genesis), genesis, Import([a], false, false));
            var s2 := Apply(s1, genesis, Import([b], false, false));
            var s3 := Apply(s2, genesis, Import([b], false, true));
            && Inv(s1, genesis) && Inv(s2, genesis) && !Inv(s3, genesis)
            && s3.head == b && s3.canon == Path(a)
  {
    hide Path, Below, Apply, StoreInv, NoChildOfHead;
    var s0 := Fresh(genesis);
    FreshInv(genesis);
    SingleImport(s0, genesis, a, false);
    var s1 := Apply(s0, genesis, Import([a], false, false));
    SingleImport(s1, genesis, b, false);
    var s2 := Apply(s1, genesis, Import([b], false, false));
    SingleImport(s2, genesis, b, true);
    MarkersOfSibling(genesis, a);
  }

  lemma MarkersOfSibling(genesis: Header, a: Header)
    requires genesis.Genesis? && a.Child? && a.parent == genesis
    ensures Path(Fresh(genesis).head) == Path(genesis) && Number(a) == 1
    ensures Below(Path(a), 2) + Path(genesis) == Path(a)
  {
  }
}
