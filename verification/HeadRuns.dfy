/** Header imports, block writes and rewinds on one database, over whole runs.  An import
    moves the head header, a block write moves the head block and takes the head header
    along, so either may be ahead of the other.  The steps are the functions that the
    methods of HeaderChain, BlockChain and ChainRewind are proved to compute. */
module HeadRuns {
  import opened Options
  import opened BlockTree
  import opened HeaderState
  import opened BlockState
  import opened ChainRewind
  import Blocks = Rewind

  /** A header import, an executed block, a known block made the head, a block of a side
      chain, and a rewind of the whole chain. */
  datatype Write =
    | ImportHeaders(batch: seq<Header>, interrupted: bool, coin: bool)
    | WriteBlock(b: Header, committed: bool, coin: bool)
    | WriteKnown(b: Header)
    | StoreSide(b: Header)
    | RewindChain(block: nat, time: nat, states: set<Root>, root: Option<Root>, pivot: Option<nat>)

  ghost predicate Imports(l: Ledger, w: Write) {
    w.ImportHeaders? && w.batch != [] && KnownParent(l.hs, w.batch) && !w.interrupted
  }

  /** The step makes its block the head block. */
  ghost predicate Adopts(l: Ledger, w: Write) {
    || (w.WriteKnown? && Reorganisable(l.bodies, l.block, w.b))
    || (&& w.WriteBlock? && w.committed && w.b.Child? && w.b.parent in l.hs.headers
        && Wins(w.b, l.block, w.coin) && Reorganisable(l.bodies + {w.b}, l.block, w.b))
  }

  /** Where a rewind takes the head header. */
  function Target(l: Ledger, w: Write): Header
    requires w.RewindChain?
  {
    RewindTarget(l.hs.head, w.block, w.time, None)
  }

  /** The step is a rewind that drops a header. */
  predicate Rewinds(l: Ledger, w: Write) {
    w.RewindChain? && !(w.time > 0 && AncestorAt(l.hs.head, 0).time > w.time) && Target(l, w) != l.hs.head
  }

  /** The head block a rewind leaves, None if it crashes. */
  function NewBlock(l: Ledger, w: Write): Option<Header>
    requires w.RewindChain?
  {
    var cx := Blocks.Context(AncestorAt(l.hs.head, 0), l.bodies, w.states, w.root, w.pivot);
    BlockAfter(cx, l.block, l.hs.head, Number(Target(l, w)))
  }

  ghost function After(l: Ledger, w: Write): Ledger {
    match w
    case ImportHeaders(batch, _, coin) => if Imports(l, w) then l.(hs := Written(l.hs, batch, coin)) else l
    case WriteBlock(b, committed, coin) => BlockWritten(l, b, committed, coin)
    case WriteKnown(b) => KnownWritten(l, b)
    case StoreSide(b) => if b.Child? && b.parent in l.hs.headers then Stored(l, b) else l
    case RewindChain(_, _, _, _, _) =>
      if Rewinds(l, w) && NewBlock(l, w).Some? then ChainRewound(l, Target(l, w), NewBlock(l, w).value) else l
  }

  /** Batches are linked, as header validation guarantees; a known block is stored; a
      rewind does not crash. */
  predicate Legal(l: Ledger, w: Write) {
    && (w.ImportHeaders? ==> Linked(w.batch))
    && (w.WriteKnown? ==> w.b in l.bodies)
    && (Rewinds(l, w) ==> NewBlock(l, w).Some?)
  }

  /** `run[i]` is the ledger before `ws[i]`. */
  ghost predicate IsHistory(run: seq<Ledger>, ws: seq<Write>) {
    && |run| == |ws| + 1
    && forall i :: 0 <= i < |ws| ==> Legal(run[i], ws[i]) && run[i + 1] == After(run[i], ws[i])
  }

  ghost function FreshLedger(genesis: Header): Ledger {
    Ledger(Fresh(genesis), {genesis}, TxIndex(genesis), genesis)
  }

  lemma FreshLedgerInv(genesis: Header)
    requires genesis.Genesis?
    ensures var l := FreshLedger(genesis);
            BlocksInv(l, genesis) && IndexRight(l.hs) && LookupsRight(l) && Closed(l.bodies)
  {
    FreshInv(genesis);
  }

  // ---------------------------------------------------------------- the store

  /** What a rewind keeps, in terms of the step. */
  lemma RewindStepKeeps(l: Ledger, genesis: Header, w: Write)
    requires BlocksInv(l, genesis) && w.RewindChain?
    ensures IsAncestor(Target(l, w), l.hs.head)
    ensures Closed(l.bodies) ==> NewBlock(l, w).Some?
    ensures BlocksInv(After(l, w), genesis)
    ensures IndexRight(l.hs) ==> IndexRight(After(l, w).hs)
    ensures Closed(l.bodies) ==> Closed(After(l, w).bodies)
  {
    hide StoreInv, IndexRight, Closed, RewindTarget, BlockAfter, ChainRewound;
    RewindTargetIsAncestor(l.hs.head, w.block, w.time, None);
    RootOf(l, genesis);
    var cx := Blocks.Context(AncestorAt(l.hs.head, 0), l.bodies, w.states, w.root, w.pivot);
    RewindKeepsChain(l, genesis, Target(l, w), cx);
  }

  lemma RootOf(l: Ledger, genesis: Header)
    requires BlocksInv(l, genesis)
    ensures AncestorAt(l.hs.head, 0) == genesis
  {
    RootedGenesis(l.hs.headers, genesis, l.hs.head);
  }

  lemma StepKeepsStore(l: Ledger, genesis: Header, w: Write)
    requires BlocksInv(l, genesis) && Legal(l, w)
    ensures BlocksInv(After(l, w), genesis)
  {
    hide KnownWritten, Written, StoreInv, Rewinds, NewBlock, ChainRewound;
    match w
    case ImportHeaders(batch, _, coin) =>
      if Imports(l, w) {
        ImportKeepsStore(l.hs, genesis, batch, coin);
        ImportGrows(l.hs, batch, coin);
      }
    case WriteBlock(b, _, _) =>
      if b.Child? && b.parent in l.hs.headers {
        StoredKeepsInv(l, genesis, b);
        KnownKeepsInv(Stored(l, b), genesis, b);
      }
    case WriteKnown(b) =>
      KnownKeepsInv(l, genesis, b);
    case StoreSide(b) =>
      if b.Child? && b.parent in l.hs.headers {
        StoredKeepsInv(l, genesis, b);
      }
    case RewindChain(_, _, _, _, _) =>
      RewindStepKeeps(l, genesis, w);
  }

  lemma ImportGrows(s: State, batch: seq<Header>, coin: bool)
    requires batch != [] && batch[0].Child?
    ensures s.headers <= Written(s, batch, coin).headers
  {
  }

  /** Whichever writer recorded it, every total difficulty is the sum back to genesis; the
      header store stays ancestor-closed and the head block stored: in every state of every
      run, however the heads stand to each other. */
  lemma {:induction false} RunKeepsStore(run: seq<Ledger>, ws: seq<Write>, genesis: Header, i: nat)
    requires IsHistory(run, ws) && BlocksInv(run[0], genesis) && i < |run|
    ensures BlocksInv(run[i], genesis)
    ensures run[i].hs.tds == Weights(run[i].hs.headers)
  {
    if i > 0 {
      RunKeepsStore(run, ws, genesis, i - 1);
      StepKeepsStore(run[i - 1], genesis, ws[i - 1]);
    }
  }

  /** A block is written only when its parent's body is stored, as block validation
      demands. */
  predicate BodyFirst(l: Ledger, w: Write) {
    (w.WriteBlock? || w.StoreSide?) && w.b.Child? ==> w.b.parent in l.bodies
  }

  lemma StepKeepsClosed(l: Ledger, genesis: Header, w: Write)
    requires BlocksInv(l, genesis) && Closed(l.bodies) && BodyFirst(l, w)
    ensures Closed(After(l, w).bodies)
  {
    if w.RewindChain? {
      RewindStepKeeps(l, genesis, w);
    }
  }

  /** Then bodies are ancestor-closed in every state of every run, the path of the head
      block is stored, and no rewind can crash. */
  lemma {:induction false} RunKeepsClosed(run: seq<Ledger>, ws: seq<Write>, genesis: Header, i: nat)
    requires IsHistory(run, ws) && BlocksInv(run[0], genesis) && Closed(run[0].bodies) && i < |run|
    requires forall j :: 0 <= j < |ws| ==> BodyFirst(run[j], ws[j])
    ensures Closed(run[i].bodies) && PathStored(run[i].bodies, run[i].block)
    ensures forall w: Write :: w.RewindChain? ==> NewBlock(run[i], w).Some?
  {
    hide After, NewBlock, BodyFirst;
    if i > 0 {
      RunKeepsClosed(run, ws, genesis, i - 1);
      RunKeepsStore(run, ws, genesis, i - 1);
      StepKeepsClosed(run[i - 1], genesis, ws[i - 1]);
      assert run[i - 1 + 1] == After(run[i - 1], ws[i - 1]);
    }
    RunKeepsStore(run, ws, genesis, i);
    forall n: nat | n <= Number(run[i].block) ensures AncestorAt(run[i].block, n) in run[i].bodies {
      ClosedHasAncestors(run[i].bodies, run[i].block, n);
    }
    forall w: Write | w.RewindChain? ensures NewBlock(run[i], w).Some? {
      RewindStepKeeps(run[i], genesis, w);
    }
  }

  // ---------------------------------------------------------------- the index

  /** What a step must satisfy for the index to stay right; a rewind always does. */
  ghost predicate SoundWrite(l: Ledger, w: Write) {
    && (Imports(l, w) ==> ImportSound(l.hs, w.batch, w.coin))
    && (Adopts(l, w) ==> AdoptionSound(l.hs.head, l.block, w.b, Common(l.block, w.b).value))
  }

  lemma StepKeepsIndexExactlyWhen(l: Ledger, genesis: Header, w: Write)
    requires BlocksInv(l, genesis) && IndexRight(l.hs) && Legal(l, w)
    ensures IndexRight(After(l, w).hs) <==> SoundWrite(l, w)
  {
    hide KnownWritten, Written, BlocksInv, AdoptionSound, ImportSound, Path, Common, Rewinds, NewBlock, ChainRewound;
    match w
    case ImportHeaders(batch, _, coin) =>
      if Imports(l, w) {
        HeadersOf(l, genesis);
        ImportRightExactlyWhen(l.hs, genesis, batch, coin);
      }
    case WriteBlock(b, committed, coin) =>
      if b.Child? && b.parent in l.hs.headers {
        StoredKeepsInv(l, genesis, b);
        KnownKeepsInv(Stored(l, b), genesis, b);
        KnownOrNot(Stored(l, b), b);
      }
    case WriteKnown(b) =>
      KnownKeepsInv(l, genesis, b);
      KnownOrNot(l, b);
    case StoreSide(b) =>
    case RewindChain(_, _, _, _, _) =>
      RewindStepKeeps(l, genesis, w);
  }

  lemma HeadersOf(l: Ledger, genesis: Header)
    requires BlocksInv(l, genesis)
    ensures StoreInv(l.hs, genesis)
  {
  }

  lemma KnownOrNot(l: Ledger, b: Header)
    ensures !Reorganisable(l.bodies, l.block, b) ==> KnownWritten(l, b) == l
    ensures Reorganisable(l.bodies, l.block, b) ==> KnownWritten(l, b).block == b == KnownWritten(l, b).hs.head
  {
  }

  /** Over any run of imports, block writes and rewinds from a fresh database, the index is
      the path of the head header in every state exactly when every step is sound. */
  lemma RunKeepsIndexExactlyWhen(run: seq<Ledger>, ws: seq<Write>, genesis: Header)
    requires genesis.Genesis? && IsHistory(run, ws) && run[0] == FreshLedger(genesis)
    ensures (forall i :: 0 <= i < |run| ==> IndexRight(run[i].hs))
            <==> (forall i :: 0 <= i < |ws| ==> SoundWrite(run[i], ws[i]))
  {
    hide BlocksInv, IndexRight, SoundWrite, After, FreshLedger, LookupsRight, Closed;
    FreshLedgerInv(genesis);
    if forall i :: 0 <= i < |run| ==> IndexRight(run[i].hs) {
      forall i | 0 <= i < |ws| ensures SoundWrite(run[i], ws[i]) {
        assert IndexRight(run[i].hs) && IndexRight(run[i + 1].hs);
        RunKeepsStore(run, ws, genesis, i);
        StepKeepsIndexExactlyWhen(run[i], genesis, ws[i]);
      }
    }
    if forall i :: 0 <= i < |ws| ==> SoundWrite(run[i], ws[i]) {
      forall i | 0 <= i < |run| ensures IndexRight(run[i].hs) {
        SoundRunKeepsIndex(run, ws, genesis, i);
      }
    }
  }

  lemma {:induction false} SoundRunKeepsIndex(run: seq<Ledger>, ws: seq<Write>, genesis: Header, i: nat)
    requires IsHistory(run, ws) && BlocksInv(run[0], genesis) && IndexRight(run[0].hs) && i < |run|
    requires forall j :: 0 <= j < |ws| ==> SoundWrite(run[j], ws[j])
    ensures IndexRight(run[i].hs)
  {
    hide BlocksInv, IndexRight, SoundWrite, After;
    if i > 0 {
      SoundRunKeepsIndex(run, ws, genesis, i - 1);
      RunKeepsStore(run, ws, genesis, i - 1);
      StepKeepsIndexExactlyWhen(run[i - 1], genesis, ws[i - 1]);
      assert run[i - 1 + 1] == After(run[i - 1], ws[i - 1]);
    }
  }

  // ---------------------------------------------------------------- the lookup index

  /** What a step must satisfy for the lookup index to stay right: an adoption loses no
      transaction, and a rewind goes to a block with the same entries above the fork. */
  ghost predicate KeepsLookups(l: Ledger, w: Write) {
    && (Adopts(l, w) ==> forall t :: !Lost(t, l.block, w.b, Common(l.block, w.b).value))
    && (Rewinds(l, w) && NewBlock(l, w).Some? && Common(l.block, NewBlock(l, w).value).Some? ==>
          var b := NewBlock(l, w).value;
          var c := Number(Common(l.block, b).value);
          IndexAbove(l.block, c) == IndexAbove(b, c))
  }

  lemma StepKeepsLookupsExactlyWhen(l: Ledger, genesis: Header, w: Write)
    requires BlocksInv(l, genesis) && LookupsRight(l) && Legal(l, w)
    ensures LookupsRight(After(l, w)) <==> KeepsLookups(l, w)
  {
    hide Written, BlocksInv, Adopted, LookupsRight, Lost, Common, IndexAbove, Reorganisable, Wins;
    hide NewBlock, ChainRewound;
    match w
    case ImportHeaders(batch, _, coin) =>
      SameLookups(l, After(l, w));
    case WriteBlock(b, committed, coin) =>
      if b.Child? && b.parent in l.hs.headers {
        StoredKeepsInv(l, genesis, b);
        SameLookups(l, Stored(l, b));
        KnownLookups(Stored(l, b), genesis, b);
      }
    case WriteKnown(b) =>
      KnownLookups(l, genesis, b);
    case StoreSide(b) =>
      SameLookups(l, After(l, w));
    case RewindChain(_, _, _, _, _) =>
      if Rewinds(l, w) {
        RewindLookups(l, genesis, w);
      }
  }

  lemma SameLookups(l: Ledger, m: Ledger)
    requires m.lookups == l.lookups && m.block == l.block
    ensures LookupsRight(m) <==> LookupsRight(l)
  {
  }

  lemma KnownLookups(l: Ledger, genesis: Header, b: Header)
    requires BlocksInv(l, genesis) && LookupsRight(l) && b in l.bodies
    ensures Reorganisable(l.bodies, l.block, b) ==> Common(l.block, b).Some?
    ensures LookupsRight(KnownWritten(l, b))
            <==> (Reorganisable(l.bodies, l.block, b) ==> forall t :: !Lost(t, l.block, b, Common(l.block, b).value))
  {
    hide BlocksInv, Adopted, LookupsRight, Lost, Common, Fetched;
    if Reorganisable(l.bodies, l.block, b) {
      AdoptedKeepsInv(l, genesis, b, Common(l.block, b).value);
    }
  }

  lemma RewindLookups(l: Ledger, genesis: Header, w: Write)
    requires BlocksInv(l, genesis) && LookupsRight(l) && Rewinds(l, w) && NewBlock(l, w).Some?
    ensures var b := NewBlock(l, w).value;
            && Common(l.block, b).Some?
            && var c := Number(Common(l.block, b).value);
               LookupsRight(After(l, w)) <==> IndexAbove(l.block, c) == IndexAbove(b, c)
  {
    hide LookupsRight, Common, IndexAbove, BlockAfter, ChainRewound, RewindTarget;
    RootOf(l, genesis);
    RewindTargetIsAncestor(l.hs.head, w.block, w.time, None);
    var cx := Blocks.Context(AncestorAt(l.hs.head, 0), l.bodies, w.states, w.root, w.pivot);
    LookupsSurviveExactlyWhen(l, genesis, Target(l, w), cx);
  }

  /** Over any run from a fresh database the lookup index is that of the path of the head
      block in every state exactly when every step keeps it. */
  lemma RunKeepsLookupsExactlyWhen(run: seq<Ledger>, ws: seq<Write>, genesis: Header)
    requires genesis.Genesis? && IsHistory(run, ws) && run[0] == FreshLedger(genesis)
    ensures (forall i :: 0 <= i < |run| ==> LookupsRight(run[i]))
            <==> (forall i :: 0 <= i < |ws| ==> KeepsLookups(run[i], ws[i]))
  {
    hide BlocksInv, IndexRight, KeepsLookups, After, FreshLedger, LookupsRight, Closed;
    FreshLedgerInv(genesis);
    if forall i :: 0 <= i < |run| ==> LookupsRight(run[i]) {
      forall i | 0 <= i < |ws| ensures KeepsLookups(run[i], ws[i]) {
        assert LookupsRight(run[i]) && LookupsRight(run[i + 1]);
        RunKeepsStore(run, ws, genesis, i);
        StepKeepsLookupsExactlyWhen(run[i], genesis, ws[i]);
      }
    }
    if forall i :: 0 <= i < |ws| ==> KeepsLookups(run[i], ws[i]) {
      forall i | 0 <= i < |run| ensures LookupsRight(run[i]) {
        KeptLookups(run, ws, genesis, i);
      }
    }
  }

  lemma {:induction false} KeptLookups(run: seq<Ledger>, ws: seq<Write>, genesis: Header, i: nat)
    requires IsHistory(run, ws) && BlocksInv(run[0], genesis) && LookupsRight(run[0]) && i < |run|
    requires forall j :: 0 <= j < |ws| ==> KeepsLookups(run[j], ws[j])
    ensures LookupsRight(run[i])
  {
    hide BlocksInv, KeepsLookups, After, LookupsRight;
    if i > 0 {
      KeptLookups(run, ws, genesis, i - 1);
      RunKeepsStore(run, ws, genesis, i - 1);
      StepKeepsLookupsExactlyWhen(run[i - 1], genesis, ws[i - 1]);
      assert run[i - 1 + 1] == After(run[i - 1], ws[i - 1]);
    }
  }

  // ---------------------------------------------------------------- the heads

  lemma HeadsAfter(l: Ledger, w: Write)
    requires Legal(l, w)
    ensures !Rewinds(l, w) ==> After(l, w).block == if Adopts(l, w) then w.b else l.block
    ensures After(l, w).hs.head ==
              if Adopts(l, w) then w.b
              else if Imports(l, w) && Wins(Last(w.batch), l.hs.head, w.coin) then Last(w.batch)
              else if Rewinds(l, w) then Target(l, w)
              else l.hs.head
  {
    hide Reorganisable, Wins, AdoptedMarks, Relooked, ImportMarks, HasNew, Weights, Elems, BlockAfter, RewindTarget;
  }

  /** The head block never gets lighter, nor longer at equal weight, unless a known block
      is made the head or the chain is rewound. */
  lemma {:induction false} HeadBlockNeverFalls(run: seq<Ledger>, ws: seq<Write>, i: nat, j: nat)
    requires IsHistory(run, ws) && i <= j < |run|
    requires forall k :: i <= k < j ==> !ws[k].WriteKnown? && !ws[k].RewindChain?
    ensures AtLeast(run[j].block, run[i].block)
  {
    hide After, Reorganisable;
    if i < j {
      HeadBlockNeverFalls(run, ws, i, j - 1);
      assert run[j - 1 + 1] == After(run[j - 1], ws[j - 1]);
      HeadsAfter(run[j - 1], ws[j - 1]);
    }
  }

  /** A committed block on a known parent that can be reorganised to is never heavier than
      the head block again, nor as heavy and shorter. */
  lemma HeadBlockBeatsWritten(run: seq<Ledger>, ws: seq<Write>, i: nat, j: nat)
    requires IsHistory(run, ws) && i < j < |run| && ws[i].WriteBlock? && ws[i].committed
    requires ws[i].b.Child? && ws[i].b.parent in run[i].hs.headers
    requires Reorganisable(run[i].bodies + {ws[i].b}, run[i].block, ws[i].b)
    requires forall k :: i <= k < j ==> !ws[k].WriteKnown? && !ws[k].RewindChain?
    ensures AtLeast(run[j].block, ws[i].b)
  {
    hide After, Reorganisable;
    HeadsAfter(run[i], ws[i]);
    HeadBlockNeverFalls(run, ws, i + 1, j);
    AtLeastTransitive(run[j].block, run[i + 1].block, ws[i].b);
  }

  /** A block is adopted that does not come up to the head header, or the chain rewound. */
  ghost predicate DropsHeader(l: Ledger, w: Write) {
    (Adopts(l, w) && !AtLeast(w.b, l.hs.head)) || Rewinds(l, w)
  }

  lemma StepDropsHeader(l: Ledger, w: Write)
    requires Legal(l, w)
    ensures !AtLeast(After(l, w).hs.head, l.hs.head) <==> DropsHeader(l, w)
  {
    hide After, Reorganisable, RewindTarget, NewBlock;
    HeadsAfter(l, w);
    if Rewinds(l, w) {
      RewindTargetIsAncestor(l.hs.head, w.block, w.time, None);
      AncestorLighter(l.hs.head, Number(Target(l, w)));
    }
  }

  /** Between two points of a run the head header never falls exactly when no block is
      adopted that does not come up to it, and the chain is not rewound. */
  lemma HeadHeaderNeverFallsExactlyWhen(run: seq<Ledger>, ws: seq<Write>, i: nat, j: nat)
    requires IsHistory(run, ws) && i <= j < |run|
    ensures (forall a, b :: i <= a <= b <= j ==> AtLeast(run[b].hs.head, run[a].hs.head))
            <==> (forall k :: i <= k < j ==> !DropsHeader(run[k], ws[k]))
  {
    hide After, DropsHeader, AtLeast;
    if forall a, b :: i <= a <= b <= j ==> AtLeast(run[b].hs.head, run[a].hs.head) {
      forall k | i <= k < j ensures !DropsHeader(run[k], ws[k]) {
        assert AtLeast(run[k + 1].hs.head, run[k].hs.head);
        StepDropsHeader(run[k], ws[k]);
      }
    }
    if forall k :: i <= k < j ==> !DropsHeader(run[k], ws[k]) {
      forall a, b | i <= a <= b <= j ensures AtLeast(run[b].hs.head, run[a].hs.head) {
        HeaderRises(run, ws, a, b);
      }
    }
  }

  lemma {:induction false} HeaderRises(run: seq<Ledger>, ws: seq<Write>, a: nat, b: nat)
    requires IsHistory(run, ws) && a <= b < |run|
    requires forall k :: a <= k < b ==> !DropsHeader(run[k], ws[k])
    ensures AtLeast(run[b].hs.head, run[a].hs.head)
  {
    hide After, DropsHeader;
    if a < b {
      HeaderRises(run, ws, a, b - 1);
      StepDropsHeader(run[b - 1], ws[b - 1]);
      assert run[b - 1 + 1] == After(run[b - 1], ws[b - 1]);
    }
  }

  // ---------------------------------------------------------------- runs that go wrong

  /** Headers ahead of the blocks: after both headers of a chain are imported and its
      first block is written, the head header has fallen back to that block, the marker
      above it is still there, and the head has a stored child. */
  lemma HeadersAheadFallBack(genesis: Header, a: Header, b: Header)
    requires genesis.Genesis? && Extends(a, genesis) && Extends(b, a)
    ensures var l0 := FreshLedger(genesis);
            var l1 := After(l0, ImportHeaders([a, b], false, false));
            var l2 := After(l1, WriteBlock(a, true, false));
            && IndexRight(l1.hs) && l1.hs.head == b && l1.block == genesis
            && l2.hs.head == l2.block == a && DropsHeader(l1, WriteBlock(a, true, false))
            && l2.hs.canon == Path(b) && !IndexRight(l2.hs) && !NoChildOfHead(l2.hs)
  {
    hide Path, Relooked;
    var l0 := FreshLedger(genesis);
    FreshLedgerInv(genesis);
    BothAhead(genesis, a, b);
    var l1 := After(l0, ImportHeaders([a, b], false, false));
    StepKeepsIndexExactlyWhen(l0, genesis, ImportHeaders([a, b], false, false));
    Extendable(Stored(l1, a), a);
    FirstOfPath(a, b);
  }

  lemma BothAhead(genesis: Header, a: Header, b: Header)
    requires genesis.Genesis? && Extends(a, genesis) && Extends(b, a)
    ensures var l0 := FreshLedger(genesis);
            var w := ImportHeaders([a, b], false, false);
            && Legal(l0, w) && Imports(l0, w) && SoundWrite(l0, w)
            && Wins(b, genesis, false) && Wins(a, genesis, false) && !AtLeast(a, b)
            && Elems([a, b]) == {a, b} && Last([a, b]) == b
  {
    assert [a, b][0] == a && [a, b][1] == b;
    assert a in [a, b];
  }

  lemma FirstOfPath(a: Header, b: Header)
    requires Extends(b, a)
    ensures Path(b)[Number(a) := a] == Path(b) && Path(b) != Path(a)
  {
    assert Number(b) in Path(b) && Number(b) !in Path(a);
    assert AncestorAt(b, Number(a)) == a;
  }

  /** When the head has a stored child and the index is right, a header import on top of
      the head that starts with that child leaves its number unmarked. */
  lemma KnownChildLeavesGap(l: Ledger, genesis: Header, x: Header, y: Header, coin: bool)
    requires BlocksInv(l, genesis) && IndexRight(l.hs)
    requires Extends(x, l.hs.head) && x in l.hs.headers && Extends(y, x) && y !in l.hs.headers
    ensures var w := ImportHeaders([x, y], false, coin);
            && Legal(l, w) && Imports(l, w)
            && After(l, w).hs.head == y && Number(x) !in After(l, w).hs.canon
  {
    var batch := [x, y];
    assert batch[0] == x && batch[1] == y && Last(batch) == y;
    assert TotalDifficulty(y) > TotalDifficulty(x) > TotalDifficulty(l.hs.head);
    GapInMarks(l.hs, batch);
  }

  /** Such a run: a block is stored and its state cannot be committed, then its header and
      the next one are imported. */
  lemma UncommittedBlockLeavesGap(genesis: Header, x: Header, y: Header, coin: bool)
    requires genesis.Genesis? && Extends(x, genesis) && Extends(y, x)
    ensures var l1 := After(FreshLedger(genesis), WriteBlock(x, false, coin));
            var l2 := After(l1, ImportHeaders([x, y], false, coin));
            && IndexRight(l1.hs) && l1.hs.head == genesis
            && l2.hs.head == y && Number(x) !in l2.hs.canon && !IndexRight(l2.hs)
  {
    var l0 := FreshLedger(genesis);
    FreshLedgerInv(genesis);
    var l1 := After(l0, WriteBlock(x, false, coin));
    assert l1 == Stored(l0, x);
    StoredKeepsInv(l0, genesis, x);
    assert y != x && y != genesis;
    KnownChildLeavesGap(l1, genesis, x, y, coin);
    assert Number(x) in Path(y);
  }

  /** A head block `c` on another fork than the head header `b`: two blocks of equal
      weight are written, the second stays beside the first, its child's header is
      imported, and the chain is rewound to number 1. */
  lemma RewindOffForkLosesLookups(genesis: Header, a: Header, b: Header, c: Header, states: set<Root>)
    requires genesis.Genesis? && Extends(a, genesis) && Extends(c, genesis) && Extends(b, a) && a != c
    requires a.difficulty == c.difficulty && a.txs != [] && c.txs == [] && a.root in states
    ensures var l1 := After(FreshLedger(genesis), WriteBlock(c, true, false));
            var l2 := After(l1, WriteBlock(a, true, false));
            var l3 := After(l2, ImportHeaders([b], false, false));
            var l4 := After(l3, RewindChain(1, 0, states, None, None));
            && IndexRight(l3.hs) && LookupsRight(l3) && l3.block == c && l3.hs.head == b
            && l4.block == a && !LookupsRight(l4)
  {
    hide Path, TxIndex, Weights, StoreInv;
    var l1 := After(FreshLedger(genesis), WriteBlock(c, true, false));
    var l2 := After(l1, WriteBlock(a, true, false));
    var l3 := After(l2, ImportHeaders([b], false, false));
    FirstBlock(genesis, c);
    SecondBlock(genesis, a, c, l1);
    HeaderOnFork(genesis, a, b, c, l2);
    ThenRewound(genesis, a, b, c, l3, states);
  }

  lemma FirstBlock(genesis: Header, c: Header)
    requires genesis.Genesis? && Extends(c, genesis)
    ensures var l1 := After(FreshLedger(genesis), WriteBlock(c, true, false));
            && BlocksInv(l1, genesis) && IndexRight(l1.hs) && LookupsRight(l1)
            && l1.hs.head == c == l1.block && l1.hs.headers == {genesis, c} == l1.bodies
  {
    var l0, w := FreshLedger(genesis), WriteBlock(c, true, false);
    FreshLedgerInv(genesis);
    Extendable(Stored(l0, c), c);
    assert Number(genesis) == 0 && TotalDifficulty(c) > TotalDifficulty(genesis);
    assert Adopts(l0, w) && Legal(l0, w);
    StepKeepsStore(l0, genesis, w);
    assert IsAncestor(genesis, genesis);
    StepKeepsIndexExactlyWhen(l0, genesis, w);
    assert IndexAbove(genesis, 0) == map[];
    StepKeepsLookupsExactlyWhen(l0, genesis, w);
  }

  lemma SecondBlock(genesis: Header, a: Header, c: Header, l1: Ledger)
    requires BlocksInv(l1, genesis) && IndexRight(l1.hs) && LookupsRight(l1)
    requires l1.hs.head == c == l1.block && l1.hs.headers == {genesis, c} == l1.bodies
    requires genesis.Genesis? && Extends(a, genesis) && Extends(c, genesis) && a.difficulty == c.difficulty
    ensures After(l1, WriteBlock(a, true, false)) == Stored(l1, a)
    ensures BlocksInv(Stored(l1, a), genesis)
  {
    StoredKeepsInv(l1, genesis, a);
  }

  lemma HeaderOnFork(genesis: Header, a: Header, b: Header, c: Header, l2: Ledger)
    requires BlocksInv(l2, genesis) && IndexRight(l2.hs) && LookupsRight(l2) && l2.hs.head == c == l2.block
    requires a in l2.hs.headers && l2.hs.headers == {genesis, a, c} == l2.bodies
    requires genesis.Genesis? && Extends(a, genesis) && Extends(c, genesis) && Extends(b, a) && a != c
    requires a.difficulty == c.difficulty
    ensures var l3 := After(l2, ImportHeaders([b], false, false));
            && BlocksInv(l3, genesis) && IndexRight(l3.hs) && LookupsRight(l3)
            && l3.hs.head == b && l3.block == c && l3.bodies == {genesis, a, c}
  {
    var w := ImportHeaders([b], false, false);
    assert [b][0] == b && Last([b]) == b;
    assert TotalDifficulty(b) > TotalDifficulty(a) == TotalDifficulty(c);
    assert b != a && b != c && b != genesis && b in [b];
    StepKeepsStore(l2, genesis, w);
    StepKeepsIndexExactlyWhen(l2, genesis, w);
  }

  lemma ThenRewound(genesis: Header, a: Header, b: Header, c: Header, l3: Ledger, states: set<Root>)
    requires BlocksInv(l3, genesis) && LookupsRight(l3) && l3.hs.head == b && l3.block == c
    requires l3.bodies == {genesis, a, c} && a.root in states && a.txs != [] && c.txs == []
    requires genesis.Genesis? && Extends(a, genesis) && Extends(c, genesis) && Extends(b, a)
    ensures var l4 := After(l3, RewindChain(1, 0, states, None, None)); l4.block == a && !LookupsRight(l4)
  {
    var w := RewindChain(1, 0, states, None, None);
    assert Number(genesis) == 0 && Number(a) == 1 && Number(b) == 2;
    assert RewindTarget(a, 1, 0, None) == a;
    assert Target(l3, w) == a;
    RootOf(l3, genesis);
    var cx := Blocks.Context(genesis, l3.bodies, states, None, None);
    LookupMissing(genesis, a, b, c, cx);
  }
}
