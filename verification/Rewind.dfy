/** Rewinding the head block: from a target header back to a block whose state is
    there, at or below the block that carries a requested state root. */
module Rewind {
  import opened Options
  import opened BlockTree

  /** What a rewind works with.  `root` is the optional threshold root, `pivot` the
      optional fast-sync pivot below which blocks never had state. */
  datatype Context = Context(
    genesis: Header,
    bodies: set<Header>,
    states: set<Root>,
    root: Option<Root>,
    pivot: Option<nat>)

  /** On the path of `target`, number `n` is at or below a block with the threshold root. */
  ghost predicate Crossed(cx: Context, target: Header, n: nat) {
    cx.root.None? || exists m: nat :: n <= m <= Number(target) && AncestorAt(target, m).root == cx.root.value
  }

  /** A block a rewind may stop on. */
  ghost predicate Acceptable(cx: Context, target: Header, n: nat)
    requires n <= Number(target)
  {
    AncestorAt(target, n).root in cx.states && Crossed(cx, target, n)
  }

  /** A block without state from which a rewind gives up and goes to genesis. */
  ghost predicate Dead(cx: Context, target: Header, n: nat)
    requires n <= Number(target)
  {
    && AncestorAt(target, n).root !in cx.states
    && ((cx.pivot.Some? && n <= cx.pivot.value) || (n > 0 && AncestorAt(target, n - 1) !in cx.bodies))
  }

  /** A block above the threshold, with state, whose parent is missing: the program
      goes on with a nil block there. */
  ghost predicate Crash(cx: Context, target: Header, n: nat)
    requires n <= Number(target)
  {
    && n > 0 && AncestorAt(target, n).root in cx.states && !Crossed(cx, target, n)
    && AncestorAt(target, n - 1) !in cx.bodies
  }

  /** A rewind passes number `n` and goes on with its parent. */
  ghost predicate Passed(cx: Context, target: Header, n: nat)
    requires n <= Number(target)
  {
    !Acceptable(cx, target, n) && !Dead(cx, target, n) && !Crash(cx, target, n)
  }

  ghost predicate AllPassedAbove(cx: Context, target: Header, k: nat) {
    forall n: nat :: k < n <= Number(target) ==> Passed(cx, target, n)
  }

  /** The highest block with the threshold root among those above number `k`. */
  ghost predicate IsRootNumber(cx: Context, target: Header, k: nat, r: nat) {
    && r <= Number(target) && k <= r && cx.root.Some?
    && AncestorAt(target, r).root == cx.root.value
    && forall m: nat :: r < m <= Number(target) ==> AncestorAt(target, m).root != cx.root.value
  }

  /** Exactly where a rewind ends up.  `head` is the new head block, or None where the
      program would dereference nil. */
  ghost predicate Rewound(cx: Context, target: Header, head: Option<Header>) {
    if target !in cx.bodies then head == Some(cx.genesis)
    else exists k: nat :: k <= Number(target) && StopsAt(cx, target, k) && head == Outcome(cx, target, k)
  }

  /** The first number, from the top, that is not passed; number 0 always stops. */
  ghost predicate StopsAt(cx: Context, target: Header, k: nat)
    requires k <= Number(target)
  {
    AllPassedAbove(cx, target, k) && (k == 0 || !Passed(cx, target, k))
  }

  ghost function Outcome(cx: Context, target: Header, k: nat): Option<Header>
    requires k <= Number(target)
  {
    if Acceptable(cx, target, k) then Some(AncestorAt(target, k))
    else if k == 0 || Dead(cx, target, k) then Some(cx.genesis)
    else None
  }

  /** The walk of a rewind, from the stored block `b`; `beyond` says whether the
      threshold was crossed above it. */
  function WalkBack(cx: Context, b: Header, beyond: bool): Option<Header> {
    var crossed := beyond || (cx.root.Some? && b.root == cx.root.value);
    if b.root !in cx.states then
      if (cx.pivot.None? || Number(b) > cx.pivot.value) && b.Child? && b.parent in cx.bodies
      then WalkBack(cx, b.parent, crossed) else Some(cx.genesis)
    else if crossed || b.Genesis? then Some(b)
    else if b.parent in cx.bodies then WalkBack(cx, b.parent, crossed)
    else None
  }

  function RewindTo(cx: Context, target: Header): Option<Header> {
    if target in cx.bodies then WalkBack(cx, target, cx.root.None?) else Some(cx.genesis)
  }

  /** The root number after the walk: the number of the first block on it that carries the
      threshold root, or what it was before. */
  function WalkRoot(cx: Context, b: Header, beyond: bool, was: nat): nat {
    var hit := cx.root.Some? && b.root == cx.root.value;
    var now := if hit && !beyond then Number(b) else was;
    if b.root !in cx.states then
      if (cx.pivot.None? || Number(b) > cx.pivot.value) && b.Child? && b.parent in cx.bodies
      then WalkRoot(cx, b.parent, beyond || hit, now) else now
    else if beyond || hit || b.Genesis? || b.parent !in cx.bodies then now
    else WalkRoot(cx, b.parent, false, now)
  }

  function RewindRoot(cx: Context, target: Header, was: nat): nat {
    if target in cx.bodies then WalkRoot(cx, target, cx.root.None?, was) else was
  }

  /** Rewinds from `target`; `was` is the root number found so far. */
  method RewindHead(cx: Context, target: Header, was: nat) returns (head: Option<Header>, rootNumber: nat)
    requires Rooted(cx.bodies, cx.genesis)
    ensures Rewound(cx, target, head) && head == RewindTo(cx, target)
    ensures rootNumber == RewindRoot(cx, target, was)
    ensures target !in cx.bodies || cx.root.None? ==> rootNumber == was
    ensures target !in cx.bodies ==> head == Some(cx.genesis)
    ensures head.Some? && target in cx.bodies && cx.root.Some? ==>
              || IsRootNumber(cx, target, Number(head.value), rootNumber)
              || (rootNumber == was && head.value == cx.genesis)
  {
    RewindToIsRewound(cx, target, RewindTo(cx, target));
    RewindRootIs(cx, target, was);
    hide Rewound, IsRootNumber;
    rootNumber := was;
    if target !in cx.bodies {
      return Some(cx.genesis), rootNumber;
    }
    var b, beyondRoot := target, cx.root.None?;
    while true
      invariant b in cx.bodies
      invariant RewindTo(cx, target) == WalkBack(cx, b, beyondRoot)
      invariant RewindRoot(cx, target, was) == WalkRoot(cx, b, beyondRoot, rootNumber)
      decreases b
    {
      if cx.root.Some? && !beyondRoot && b.root == cx.root.value {
        beyondRoot, rootNumber := true, Number(b);
      }
      if b.root !in cx.states {
        if cx.pivot.None? || Number(b) > cx.pivot.value {
          if b.Child? && b.parent in cx.bodies {
            b := b.parent;
            continue;
          }
        }
        // A missing block in the middle, or the pivot passed: aim at genesis.
        return Some(cx.genesis), rootNumber;
      }
      if beyondRoot || Number(b) == 0 {
        return Some(b), rootNumber;
      }
      if b.parent !in cx.bodies {
        return None, rootNumber;
      }
      b := b.parent;
    }
    head := None;
  }

  lemma StepDown(cx: Context, target: Header, b: Header)
    requires IsAncestor(b, target) && b.Child?
    ensures IsAncestor(b.parent, target) && Number(b.parent) == Number(b) - 1
    ensures AncestorAt(target, Number(b) - 1) == b.parent
  {
    AncestorTransitive(target, Number(b), Number(b) - 1);
  }

  /** On an ancestor-closed store a rewind neither crashes nor, without a pivot, gives
      up: it stops on the highest acceptable block, or on genesis. */
  lemma ClosedRewind(cx: Context, target: Header, head: Option<Header>)
    requires Closed(cx.bodies) && Rooted(cx.bodies, cx.genesis) && target in cx.bodies
    requires Rewound(cx, target, head)
    ensures head.Some? && IsAncestor(head.value, target)
    ensures head.value == cx.genesis || Acceptable(cx, target, Number(head.value))
    ensures cx.pivot.None? ==>
              forall n: nat :: Number(head.value) < n <= Number(target) ==> !Acceptable(cx, target, n)
  {
    var k: nat :| k <= Number(target) && StopsAt(cx, target, k) && head == Outcome(cx, target, k);
    RootedGenesis(cx.bodies, cx.genesis, target);
    AncestorNumber(target, k);
    if k > 0 {
      ClosedHasAncestors(cx.bodies, target, k - 1);
    }
    forall n: nat | k < n <= Number(target) ensures !Acceptable(cx, target, n) {
      assert Passed(cx, target, n);
    }
  }

  /** In terms of states and roots: on an ancestor-closed store a rewind ends on genesis, or
      on a block with state that has a block with the root, if one was given, between itself
      and the target.  Without a pivot every block above it lacks one of the two. */
  lemma ClosedRewindSpelledOut(cx: Context, target: Header, head: Option<Header>)
    requires Closed(cx.bodies) && Rooted(cx.bodies, cx.genesis) && target in cx.bodies && Rewound(cx, target, head)
    ensures head.Some? && IsAncestor(head.value, target)
    ensures head.value == cx.genesis || head.value.root in cx.states
    ensures head.value != cx.genesis && cx.root.Some? ==>
              exists m: nat :: Number(head.value) <= m <= Number(target) && AncestorAt(target, m).root == cx.root.value
    ensures cx.pivot.None? ==>
              forall n: nat, m: nat :: Number(head.value) < n <= m <= Number(target) ==>
                || AncestorAt(target, n).root !in cx.states
                || (cx.root.Some? && AncestorAt(target, m).root != cx.root.value)
  {
    ClosedRewind(cx, target, head);
    assert AncestorAt(target, Number(head.value)) == head.value;
    if head.value != cx.genesis && cx.root.Some? {
      assert Crossed(cx, target, Number(head.value));
    }
    forall n: nat, m: nat | cx.pivot.None? && Number(head.value) < n <= m <= Number(target)
      ensures || AncestorAt(target, n).root !in cx.states
              || (cx.root.Some? && AncestorAt(target, m).root != cx.root.value)
    {
      assert !Acceptable(cx, target, n);
    }
  }

  /** Block `n` is acceptable and none above it is. */
  ghost predicate IsHighest(cx: Context, target: Header, n: nat)
    requires n <= Number(target)
  {
    Acceptable(cx, target, n) && forall m: nat :: n < m <= Number(target) ==> !Acceptable(cx, target, m)
  }

  /** A block above number `n` has no state and is not above the pivot. */
  ghost predicate GivesUpAbove(cx: Context, target: Header, n: nat) {
    cx.pivot.Some? &&
    exists m: nat :: n < m <= Number(target) && m <= cx.pivot.value && AncestorAt(target, m).root !in cx.states
  }

  lemma HighestOrGivenUp(cx: Context, target: Header, n: nat, k: nat)
    requires Closed(cx.bodies) && Rooted(cx.bodies, cx.genesis) && target in cx.bodies
    requires n <= Number(target) && k <= Number(target) && IsHighest(cx, target, n) && StopsAt(cx, target, k)
    ensures Outcome(cx, target, k)
            == Some(if GivesUpAbove(cx, target, n) then cx.genesis else AncestorAt(target, n))
  {
    forall m: nat | m <= Number(target) ensures AncestorAt(target, m) in cx.bodies {
      ClosedHasAncestors(cx.bodies, target, m);
    }
    assert !Passed(cx, target, n);
    assert k >= n;
    if k == n {
      forall m: nat | n < m <= Number(target)
        ensures AncestorAt(target, m).root in cx.states || cx.pivot.None? || m > cx.pivot.value
      {
        assert Passed(cx, target, m);
      }
    } else {
      assert !Acceptable(cx, target, k) && Dead(cx, target, k);
    }
  }

  /** With a pivot a rewind on an ancestor-closed store ends on the highest acceptable block
      `n`, unless a block without state lies at or below the pivot above it: then it gives
      up and ends on genesis. */
  lemma ClosedRewindWithPivot(cx: Context, target: Header, head: Option<Header>, n: nat)
    requires Closed(cx.bodies) && Rooted(cx.bodies, cx.genesis) && target in cx.bodies
    requires Rewound(cx, target, head) && n <= Number(target) && IsHighest(cx, target, n)
    ensures head == Some(if GivesUpAbove(cx, target, n) then cx.genesis else AncestorAt(target, n))
  {
    hide StopsAt, Outcome, IsHighest, GivesUpAbove, Closed, Rooted, AncestorAt;
    var k: nat :| k <= Number(target) && StopsAt(cx, target, k) && head == Outcome(cx, target, k);
    HighestOrGivenUp(cx, target, n, k);
  }

  /** The walk from `target` down to number `n` has not crossed the threshold, found
      every block it needs, and finds block `n` with state but without its parent. */
  ghost predicate CrashesAt(cx: Context, target: Header, n: nat) {
    && cx.root.Some? && 0 < n <= Number(target)
    && AncestorAt(target, n).root in cx.states && AncestorAt(target, n - 1) !in cx.bodies
    && (forall m: nat :: n <= m <= Number(target) ==> AncestorAt(target, m).root != cx.root.value)
    && (forall m: nat :: n < m <= Number(target) ==> GoesOn(cx, target, m))
  }

  /** Block `m` has a stored parent, and has state or lies above the pivot. */
  ghost predicate GoesOn(cx: Context, target: Header, m: nat)
    requires 0 < m <= Number(target)
  {
    && AncestorAt(target, m - 1) in cx.bodies
    && (AncestorAt(target, m).root in cx.states || cx.pivot.None? || m > cx.pivot.value)
  }

  /** Above the threshold a number is passed exactly when the walk goes on there. */
  lemma PassedAboveRoot(cx: Context, target: Header, m: nat)
    requires 0 < m <= Number(target) && !Crossed(cx, target, m)
    ensures Passed(cx, target, m) <==> GoesOn(cx, target, m)
  {
  }

  /** Exactly when a rewind runs into the missing parent. */
  lemma CrashExactlyWhen(cx: Context, target: Header)
    ensures Rewound(cx, target, None) <==> target in cx.bodies && exists n: nat :: CrashesAt(cx, target, n)
  {
    if Rewound(cx, target, None) {
      var k: nat :| k <= Number(target) && StopsAt(cx, target, k) && Outcome(cx, target, k) == None;
      assert Crash(cx, target, k);
      forall m: nat | k < m <= Number(target) ensures GoesOn(cx, target, m) {
        assert Passed(cx, target, m);
        assert !Crossed(cx, target, m);
        PassedAboveRoot(cx, target, m);
      }
      assert CrashesAt(cx, target, k);
    }
    if target in cx.bodies && exists n: nat :: CrashesAt(cx, target, n) {
      var n: nat :| CrashesAt(cx, target, n);
      forall m: nat | n < m <= Number(target) ensures Passed(cx, target, m) {
        assert GoesOn(cx, target, m) && !Crossed(cx, target, m);
        PassedAboveRoot(cx, target, m);
      }
      assert !Crossed(cx, target, n);
      assert StopsAt(cx, target, n) && Outcome(cx, target, n) == None;
    }
  }

  /** A gap in the bodies and a threshold root that no block carries. */
  lemma MissingParentCrashes(genesis: Header, a: Header, b: Header, root: Root)
    requires genesis.Genesis? && a.Child? && a.parent == genesis && b.Child? && b.parent == a
    requires root != b.root
    ensures Rewound(Context(genesis, {genesis, b}, {b.root}, Some(root), None), b, None)
  {
    var cx := Context(genesis, {genesis, b}, {b.root}, Some(root), None);
    assert Number(genesis) == 0 && Number(a) == 1;
    assert Number(b) == 2 && AncestorAt(b, 2) == b && AncestorAt(b, 1) == a;
    assert a != b && a != genesis;
    assert CrashesAt(cx, b, 2);
    CrashExactlyWhen(cx, b);
  }

  /** The stopping point is unique, so `Rewound` leaves no choice. */
  lemma RewoundUnique(cx: Context, target: Header, head: Option<Header>, other: Option<Header>)
    requires Rewound(cx, target, head) && Rewound(cx, target, other)
    ensures head == other
  {
    if target in cx.bodies {
      var j: nat :| j <= Number(target) && StopsAt(cx, target, j) && head == Outcome(cx, target, j);
      var k: nat :| k <= Number(target) && StopsAt(cx, target, k) && other == Outcome(cx, target, k);
      assert j == k;
    }
  }

  lemma {:induction false} WalkBackStops(cx: Context, target: Header, b: Header, beyond: bool)
    requires Rooted(cx.bodies, cx.genesis) && target in cx.bodies && b in cx.bodies && IsAncestor(b, target)
    requires AllPassedAbove(cx, target, Number(b))
    requires beyond <==> cx.root.None? || Crossed(cx, target, Number(b) + 1)
    ensures Rewound(cx, target, WalkBack(cx, b, beyond))
    decreases b
  {
    var k, crossed := Number(b), beyond || (cx.root.Some? && b.root == cx.root.value);
    assert crossed <==> Crossed(cx, target, k);
    if b.Child? {
      StepDown(cx, target, b);
    }
    if Passed(cx, target, k) && b.Child? {
      WalkBackStops(cx, target, b.parent, crossed);
    } else {
      assert StopsAt(cx, target, k);
    }
  }

  /** The walk ends where the rewind does. */
  lemma RewindToIsRewound(cx: Context, target: Header, head: Option<Header>)
    requires Rooted(cx.bodies, cx.genesis)
    ensures Rewound(cx, target, head) <==> head == RewindTo(cx, target)
  {
    if target in cx.bodies {
      WalkBackStops(cx, target, target, cx.root.None?);
    }
    if Rewound(cx, target, head) {
      RewoundUnique(cx, target, head, RewindTo(cx, target));
    }
  }

  lemma {:induction false} WalkRootIs(cx: Context, target: Header, b: Header, beyond: bool, was: nat)
    requires Rooted(cx.bodies, cx.genesis) && b in cx.bodies && IsAncestor(b, target) && cx.root.Some?
    requires beyond <==> Crossed(cx, target, Number(b) + 1)
    requires beyond ==> IsRootNumber(cx, target, Number(b) + 1, was)
    ensures var r, w := WalkBack(cx, b, beyond), WalkRoot(cx, b, beyond, was);
            r.Some? ==>
              || (Number(r.value) <= Number(b) && IsRootNumber(cx, target, Number(r.value), w))
              || (!beyond && w == was && r.value == cx.genesis)
    decreases b
  {
    var hit := b.root == cx.root.value;
    var now := if hit && !beyond then Number(b) else was;
    assert AncestorAt(target, Number(b)) == b;
    assert beyond || hit <==> Crossed(cx, target, Number(b));
    if b.Child? {
      StepDown(cx, target, b);
      if b.parent in cx.bodies {
        WalkRootIs(cx, target, b.parent, beyond || hit, now);
      }
    }
  }

  /** The root number of a rewind that does not crash: that of the highest block with the
      root, at or above the block it ends on; or unchanged, and it ends on genesis. */
  lemma RewindRootIs(cx: Context, target: Header, was: nat)
    requires Rooted(cx.bodies, cx.genesis)
    ensures target !in cx.bodies || cx.root.None? ==> RewindRoot(cx, target, was) == was
    ensures var r, w := RewindTo(cx, target), RewindRoot(cx, target, was);
            r.Some? && target in cx.bodies && cx.root.Some? ==>
              IsRootNumber(cx, target, Number(r.value), w) || (w == was && r.value == cx.genesis)
  {
    if target in cx.bodies {
      if cx.root.Some? {
        WalkRootIs(cx, target, target, false, was);
      } else {
        NoRoot(cx, target, was);
      }
    }
  }

  /** With ancestor-closed bodies and no pivot it is the highest block with the root, if the
      path has one at all. */
  lemma ClosedRewindRoot(cx: Context, target: Header, was: nat)
    requires Closed(cx.bodies) && Rooted(cx.bodies, cx.genesis) && target in cx.bodies
    requires cx.root.Some? && cx.pivot.None?
    ensures var w := RewindRoot(cx, target, was);
            if Crossed(cx, target, 0) then IsRootNumber(cx, target, 0, w) else w == was
  {
    WalkRootToBottom(cx, target, target, false, was);
  }

  lemma {:induction false} WalkRootToBottom(cx: Context, target: Header, b: Header, beyond: bool, was: nat)
    requires Closed(cx.bodies) && Rooted(cx.bodies, cx.genesis) && b in cx.bodies && IsAncestor(b, target)
    requires cx.root.Some? && cx.pivot.None?
    requires beyond <==> Crossed(cx, target, Number(b) + 1)
    requires beyond ==> IsRootNumber(cx, target, Number(b) + 1, was)
    ensures var w := WalkRoot(cx, b, beyond, was);
            if Crossed(cx, target, 0) then IsRootNumber(cx, target, 0, w) else w == was
    decreases b
  {
    var hit := b.root == cx.root.value;
    var now := if hit && !beyond then Number(b) else was;
    assert AncestorAt(target, Number(b)) == b;
    assert beyond || hit <==> Crossed(cx, target, Number(b));
    if b.Child? {
      StepDown(cx, target, b);
      WalkRootToBottom(cx, target, b.parent, beyond || hit, now);
    }
  }

  lemma {:induction false} NoRoot(cx: Context, b: Header, was: nat)
    requires cx.root.None?
    ensures WalkRoot(cx, b, true, was) == was
  {
    if b.Child? {
      NoRoot(cx, b.parent, was);
    }
  }

  /** A walk that does not crash ends on genesis, or on a stored ancestor with state. */
  lemma {:induction false} WalkBackIn(cx: Context, b: Header, beyond: bool)
    requires Rooted(cx.bodies, cx.genesis) && b in cx.bodies
    ensures var r := WalkBack(cx, b, beyond);
            r.Some? ==>
              && r.value in cx.bodies
              && (r.value == cx.genesis || (IsAncestor(r.value, b) && r.value.root in cx.states))
    ensures Closed(cx.bodies) ==> WalkBack(cx, b, beyond).Some?
  {
    if b.Child? && b.parent in cx.bodies {
      WalkBackIn(cx, b.parent, beyond || (cx.root.Some? && b.root == cx.root.value));
    }
  }
}
