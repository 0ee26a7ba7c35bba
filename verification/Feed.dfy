/** One-to-many delivery: `Send` hands a value to every subscribed channel while other
    goroutines subscribe and unsubscribe.

    The send cases live in one array.  The channels a running Send has yet to serve are
    a prefix of it; serving one swaps it behind the prefix, and an unsubscription
    shifts the array.  The receive case for unsubscriptions, slot 0 of the program's
    list, is implicit: it is the `HandOff` step below. */
module Feed {

  type Chan = nat

  // ---------------------------------------------------------------- case lists

  predicate Distinct<T(==)>(s: seq<T>) {
    forall i, j :: 0 <= i < j < |s| ==> s[i] != s[j]
  }

  /** The index of the first case for a channel, or -1. */
  function Find(s: seq<Chan>, c: Chan): (i: int)
    ensures -1 <= i < |s| && (i == -1 <==> c !in s) && (i >= 0 ==> s[i] == c)
  {
    if s == [] then -1
    else if s[0] == c then 0
    else
      var i := Find(s[1..], c);
      if i == -1 then -1 else i + 1
  }

  function Delete(s: seq<Chan>, i: nat): seq<Chan>
    requires i < |s|
  {
    s[..i] + s[i + 1..]
  }

  /** The list after case `i` of its first `n` has been swapped behind them. */
  function Deactivate(s: seq<Chan>, i: nat, n: nat): seq<Chan>
    requires i < n <= |s|
  {
    s[i := s[n - 1]][n - 1 := s[i]]
  }

  lemma DeleteFacts(s: seq<Chan>, i: nat)
    requires Distinct(s) && i < |s|
    ensures Distinct(Delete(s, i)) && forall c :: c in Delete(s, i) <==> c in s && c != s[i]
  {
    var d := Delete(s, i);
    forall c ensures c in d <==> c in s && c != s[i] {
      if c in s && c != s[i] {
        var k :| 0 <= k < |s| && s[k] == c;
        assert k < i ==> d[k] == c;
        assert k > i ==> d[k - 1] == c;
      }
    }
  }

  /** A removal in the shared list removes from the pending prefix or from the rest. */
  lemma DeleteSplits(s: seq<Chan>, i: nat, n: nat)
    requires i < |s| && n <= |s|
    ensures i < n ==> Delete(s, i)[..n - 1] == Delete(s[..n], i) && Delete(s, i)[n - 1..] == s[n..]
    ensures i >= n ==> Delete(s, i)[..n] == s[..n] && Delete(s, i)[n..] == Delete(s[n..], i - n)
  {
  }

  lemma DeactivateFacts(s: seq<Chan>, i: nat, n: nat)
    requires Distinct(s) && i < n <= |s|
    ensures var d := Deactivate(s, i, n);
            && Distinct(d)
            && (forall c :: c in d <==> c in s)
            && (forall c :: c in d[..n - 1] <==> c in s[..n] && c != s[i])
            && d[n - 1..] == [s[i]] + s[n..]
  {
    var d := Deactivate(s, i, n);
    forall c ensures c in d[..n - 1] <==> c in s[..n] && c != s[i] {
      if c in s[..n] && c != s[i] {
        var k :| 0 <= k < n && s[k] == c;
        assert k < n - 1 ==> d[k] == c;
        assert k == n - 1 ==> d[i] == c;
      }
    }
    forall c ensures c in d <==> c in s {
      if c in s {
        var k :| 0 <= k < |s| && s[k] == c;
        assert d[if k == i then n - 1 else if k == n - 1 then i else k] == c;
      }
    }
  }

  lemma DistinctSplits(s: seq<Chan>, n: nat)
    requires Distinct(s) && n <= |s|
    ensures Distinct(s[..n]) && Distinct(s[n..])
    ensures forall c :: c in s <==> c in s[..n] || c in s[n..]
    ensures forall c :: !(c in s[..n] && c in s[n..])
  {
    assert s == s[..n] + s[n..];
  }

  // ---------------------------------------------------------------- the protocol

  /** What the holder of the send lock is doing. */
  datatype Phase =
    | Idle                                // the lock is free
    | Acquired                            // a Send holds it, the inbox not yet merged
    | Sending(active: nat)                // `active` cases still to serve
    | Removing(active: nat, gone: Chan)   // received `gone`, not yet deleted

  datatype State = State(
    cases: seq<Chan>,                 // the send cases
    inbox: seq<Chan>,                 // subscriptions since the last merge
    waiting: set<Chan>,               // unsubscriptions blocked in their select
    phase: Phase,
    id: nat,                          // the Send in progress, or the last one
    nsent: nat,
    // History: deliveries in order, live subscriptions, those live when the current
    // Send took the lock, and those of them that have ended since.
    delivered: seq<(Chan, nat)>,
    subs: set<Chan>,
    atStart: set<Chan>,
    left: set<Chan>)

  datatype Step =
    | Subscribe(c: Chan)
    | UnsubscribeInbox(c: Chan)    // found in the inbox: returns at once
    | UnsubscribeWait(c: Chan)     // not in the inbox: goes into the select
    | UnsubscribeLock(c: Chan)     // the select got the send lock: returns
    | HandOff(c: Chan)             // a Send received the channel: returns
    | Acquire
    | Merge
    | Deliver(i: nat)
    | Remove
    | Release

  function Ended(s: State, c: Chan): State {
    s.(subs := s.subs - {c}, left := s.left + {c})
  }

  /** The step of the program; distinct channels means a channel is subscribed again
      only after its Unsubscribe has returned. */
  predicate Enabled(s: State, step: Step) {
    match step
    case Subscribe(c) => c !in s.subs
    case UnsubscribeInbox(c) => c in s.subs - s.waiting && c in s.inbox
    case UnsubscribeWait(c) => c in s.subs - s.waiting && c !in s.inbox
    case UnsubscribeLock(c) => c in s.waiting && s.phase.Idle?
    case HandOff(c) => c in s.waiting && s.phase.Sending? && s.phase.active > 0
    case Acquire => s.phase.Idle?
    case Merge => s.phase.Acquired?
    case Deliver(i) => s.phase.Sending? && i < s.phase.active && i < |s.cases|
    case Remove => s.phase.Removing?
    case Release => s.phase == Sending(0)
  }

  /** `delete` is never called with index -1. */
  predicate Safe(s: State, step: Step) {
    match step
    case UnsubscribeInbox(c) => Find(s.inbox, c) != -1
    case UnsubscribeLock(c) => Find(s.cases, c) != -1
    case Remove => s.phase.Removing? ==> Find(s.cases, s.phase.gone) != -1
    case Deliver(i) => s.phase.Sending? ==> s.phase.active <= |s.cases|
    case _ => true
  }

  function Apply(s: State, step: Step): State
    requires Enabled(s, step) && Safe(s, step)
  {
    match step
    case Subscribe(c) => s.(inbox := s.inbox + [c], subs := s.subs + {c})
    case UnsubscribeInbox(c) => Ended(s.(inbox := Delete(s.inbox, Find(s.inbox, c))), c)
    case UnsubscribeWait(c) => s.(waiting := s.waiting + {c})
    case UnsubscribeLock(c) =>
      Ended(s.(cases := Delete(s.cases, Find(s.cases, c)), waiting := s.waiting - {c}), c)
    case HandOff(c) =>
      Ended(s.(phase := Removing(s.phase.active, c), waiting := s.waiting - {c}), c)
    case Acquire => s.(phase := Acquired, id := s.id + 1, nsent := 0, atStart := s.subs, left := {})
    case Merge => s.(cases := s.cases + s.inbox, inbox := [], phase := Sending(|s.cases| + |s.inbox|))
    case Deliver(i) =>
      s.(cases := Deactivate(s.cases, i, s.phase.active), phase := Sending(s.phase.active - 1),
         nsent := s.nsent + 1, delivered := s.delivered + [(s.cases[i], s.id)])
    case Remove =>
      var index := Find(s.cases, s.phase.gone);
      s.(cases := Delete(s.cases, index),
         phase := Sending(if index < s.phase.active then s.phase.active - 1 else s.phase.active))
    case Release => s.(phase := Idle)
  }

  // ---------------------------------------------------------------- invariant

  /** The case about to be deleted. */
  function Doomed(s: State): set<Chan> {
    if s.phase.Removing? then {s.phase.gone} else {}
  }

  /** A live subscription has exactly one case, in the inbox or in the send cases; the
      only case without a subscription is the one being removed. */
  ghost predicate SubsInv(s: State) {
    && Distinct(s.cases) && Distinct(s.inbox)
    && (forall c :: c in s.subs <==> c in s.inbox || (c in s.cases && c !in Doomed(s)))
    && (forall c :: c in s.inbox && c in s.cases ==> c in Doomed(s))
    && (forall c :: c in Doomed(s) ==> c in s.cases)
    && (forall c :: c in s.waiting ==> c in s.cases && c !in s.inbox && c !in Doomed(s))
  }

  function Active(s: State): nat {
    match s.phase
    case Sending(a) => a
    case Removing(a, _) => a
    case _ => 0
  }

  predicate Serving(s: State) {
    s.phase.Sending? || s.phase.Removing?
  }

  /** The number of deliveries made for Send `id`. */
  function Count(log: seq<(Chan, nat)>, id: nat): nat {
    if log == [] then 0 else Count(log[..|log| - 1], id) + (if log[|log| - 1].1 == id then 1 else 0)
  }

  /** The pending prefix has not been served by this Send, the rest has; nobody was
      served twice; deliveries are in the order of the Sends. */
  ghost predicate DeliveryInv(s: State) {
    && Distinct(s.delivered)
    && (forall i, j :: 0 <= i < j < |s.delivered| ==> s.delivered[i].1 <= s.delivered[j].1)
    && (forall i :: 0 <= i < |s.delivered| ==> s.delivered[i].1 <= s.id)
    && (s.phase.Acquired? ==> forall i :: 0 <= i < |s.delivered| ==> s.delivered[i].1 < s.id)
    && s.nsent == Count(s.delivered, s.id)
    && Active(s) <= |s.cases|
    && (Serving(s) ==> forall c :: c in s.cases[..Active(s)] ==> (c, s.id) !in s.delivered)
    && (Serving(s) ==> forall c :: c in s.cases[Active(s)..] ==> (c, s.id) in s.delivered)
  }

  /** Subscriptions live since the lock was taken are still in the lists. */
  ghost predicate StayInv(s: State) {
    && Doomed(s) <= s.left
    && (forall c :: c in s.atStart && c !in s.left ==> c in s.subs)
    && (Serving(s) ==> forall c :: c in s.atStart && c !in s.left ==> c in s.cases)
  }

  ghost predicate Inv(s: State) {
    SubsInv(s) && DeliveryInv(s) && StayInv(s)
  }

  lemma EnabledIsSafe(s: State, step: Step)
    requires Inv(s) && Enabled(s, step)
    ensures Safe(s, step)
  {
  }

  /** The steps of the lock holder that are left, other goroutines aside. */
  function Work(s: State): nat {
    match s.phase
    case Idle => 0
    case Acquired => |s.cases| + |s.inbox| + 2
    case Sending(a) => a + 1
    case Removing(a, _) => a + 2
  }

  /** The holder of the lock is never stuck: it has a next step, every pending channel can
      be served next, and every step it takes brings the release closer. */
  lemma HolderGoesOn(s: State, step: Step)
    requires Inv(s) && Enabled(s, step) && Safe(s, step)
    ensures s.phase.Acquired? ==> Enabled(s, Merge)
    ensures s.phase.Removing? ==> Enabled(s, Remove)
    ensures s.phase.Sending? ==> if s.phase.active == 0 then Enabled(s, Release)
                                 else forall i: nat :: i < s.phase.active ==> Enabled(s, Deliver(i))
    ensures step.Merge? || step.Remove? || step.Deliver? || step.Release? ==> Work(Apply(s, step)) < Work(s)
    ensures step.Release? <==> !s.phase.Idle? && Apply(s, step).phase.Idle?
  {
  }

  /** Any channel without a subscription can be subscribed at any time, and any live
      subscription can be ended: at once from the inbox, or through the lock or a Send. */
  lemma SubscribersGoOn(s: State, c: Chan)
    requires Inv(s)
    ensures c !in s.subs ==> Enabled(s, Subscribe(c))
    ensures c in s.subs && c !in s.waiting ==> Enabled(s, UnsubscribeInbox(c)) || Enabled(s, UnsubscribeWait(c))
    ensures c in s.waiting && s.phase.Idle? ==> Enabled(s, UnsubscribeLock(c))
    ensures c in s.waiting && s.phase.Sending? && s.phase.active > 0 ==> Enabled(s, HandOff(c))
    ensures forall step :: Enabled(s, step) && Safe(s, step) && c in s.subs && c !in Apply(s, step).subs ==>
              step == UnsubscribeInbox(c) || step == UnsubscribeLock(c) || step == HandOff(c)
  {
  }

  lemma MergeFacts(s: State)
    requires SubsInv(s) && s.phase.Acquired?
    ensures Distinct(s.cases + s.inbox) && forall c :: c in s.cases + s.inbox <==> c in s.cases || c in s.inbox
  {
    var all := s.cases + s.inbox;
    forall i, j | 0 <= i < j < |all| ensures all[i] != all[j] {
      if i < |s.cases| <= j {
        assert all[i] in s.cases && all[j] in s.inbox;
      }
    }
  }

  lemma StepKeepsSubs(s: State, step: Step)
    requires Inv(s) && Enabled(s, step) && Safe(s, step)
    ensures SubsInv(Apply(s, step))
  {
    match step
    case UnsubscribeInbox(c) => DeleteFacts(s.inbox, Find(s.inbox, c));
    case UnsubscribeLock(c) => DeleteFacts(s.cases, Find(s.cases, c));
    case Merge => MergeFacts(s);
    case Deliver(i) => DeactivateFacts(s.cases, i, s.phase.active);
    case Remove => DeleteFacts(s.cases, Find(s.cases, s.phase.gone));
    case _ =>
  }

  lemma StepKeepsStay(s: State, step: Step)
    requires Inv(s) && Enabled(s, step) && Safe(s, step)
    ensures StayInv(Apply(s, step))
  {
    match step
    case UnsubscribeInbox(c) => DeleteFacts(s.inbox, Find(s.inbox, c));
    case UnsubscribeLock(c) => DeleteFacts(s.cases, Find(s.cases, c));
    case Merge => MergeFacts(s);
    case Deliver(i) => DeactivateFacts(s.cases, i, s.phase.active);
    case Remove => DeleteFacts(s.cases, Find(s.cases, s.phase.gone));
    case _ =>
  }

  lemma {:induction false} CountNone(log: seq<(Chan, nat)>, id: nat)
    requires forall i :: 0 <= i < |log| ==> log[i].1 < id
    ensures Count(log, id) == 0
  {
    if log != [] {
      CountNone(log[..|log| - 1], id);
    }
  }

  lemma DeliverKeepsDelivery(s: State, i: nat)
    requires Inv(s) && Enabled(s, Deliver(i)) && Safe(s, Deliver(i))
    ensures DeliveryInv(Apply(s, Deliver(i)))
  {
    var a, t := s.phase.active, Apply(s, Deliver(i));
    DeactivateFacts(s.cases, i, a);
    DistinctSplits(s.cases, a);
    assert s.cases[i] in s.cases[..a];
    assert t.delivered[..|s.delivered|] == s.delivered;
    assert t.cases[Active(t)..] == [s.cases[i]] + s.cases[a..];
  }

  lemma RemoveKeepsDelivery(s: State)
    requires Inv(s) && Enabled(s, Remove) && Safe(s, Remove)
    ensures DeliveryInv(Apply(s, Remove))
  {
    var a, index := s.phase.active, Find(s.cases, s.phase.gone);
    DeleteSplits(s.cases, index, a);
    DistinctSplits(s.cases, a);
    if index < a {
      DeleteFacts(s.cases[..a], index);
    } else {
      DeleteFacts(s.cases[a..], index - a);
    }
  }

  lemma StepKeepsDelivery(s: State, step: Step)
    requires Inv(s) && Enabled(s, step) && Safe(s, step)
    ensures DeliveryInv(Apply(s, step))
  {
    match step
    case Acquire => CountNone(s.delivered, s.id + 1);
    case Deliver(i) => DeliverKeepsDelivery(s, i);
    case Remove => RemoveKeepsDelivery(s);
    case _ =>
  }

  // ---------------------------------------------------------------- whole runs

  const INITIAL := State([], [], {}, Idle, 0, 0, [], {}, {}, {})

  /** Any interleaving of steps of any number of goroutines. */
  ghost predicate IsRun(run: seq<State>, steps: seq<Step>) {
    && |run| == |steps| + 1 && run[0] == INITIAL
    && forall i :: 0 <= i < |steps| ==> IsStep(run[i], steps[i], run[i + 1])
  }

  ghost predicate IsStep(s: State, step: Step, t: State) {
    Enabled(s, step) && (Safe(s, step) ==> t == Apply(s, step))
  }

  lemma StepKeepsInv(s: State, step: Step, t: State)
    requires Inv(s) && IsStep(s, step, t)
    ensures Safe(s, step) && t == Apply(s, step) && Inv(t)
  {
    EnabledIsSafe(s, step);
    StepKeepsSubs(s, step);
    StepKeepsDelivery(s, step);
    StepKeepsStay(s, step);
  }

  /** In every reachable state the invariant holds and the next step never deletes a
      case that is not there. */
  lemma {:induction false} RunKeepsInv(run: seq<State>, steps: seq<Step>, i: nat)
    requires IsRun(run, steps) && i < |run|
    ensures Inv(run[i])
    ensures i < |steps| ==> Enabled(run[i], steps[i]) && Safe(run[i], steps[i]) && run[i + 1] == Apply(run[i], steps[i])
  {
    hide Inv, Apply, Safe, Enabled;
    if i > 0 {
      RunKeepsInv(run, steps, i - 1);
      assert IsStep(run[i - 1], steps[i - 1], run[i]);
      StepKeepsInv(run[i - 1], steps[i - 1], run[i]);
    } else {
      InitialInv();
    }
    if i < |steps| {
      assert IsStep(run[i], steps[i], run[i + 1]);
      StepKeepsInv(run[i], steps[i], run[i + 1]);
    }
  }

  lemma InitialInv()
    ensures Inv(INITIAL)
  {
  }

  /** A value goes only to a channel whose Unsubscribe has not returned, and only if
      this Send has not served that channel before. */
  lemma DeliversToLiveOnly(run: seq<State>, steps: seq<Step>, i: nat)
    requires IsRun(run, steps) && i < |steps| && steps[i].Deliver?
    ensures steps[i].i < |run[i].cases|
    ensures var c := run[i].cases[steps[i].i]; c in run[i].subs && (c, run[i].id) !in run[i].delivered
  {
    RunKeepsInv(run, steps, i);
    var s := run[i];
    assert IsStep(s, steps[i], run[i + 1]);
    assert s.cases[steps[i].i] in s.cases[..s.phase.active];
  }

  /** The Send that takes the lock at step `a` still holds it at state `k`. */
  ghost predicate HeldSince(run: seq<State>, steps: seq<Step>, a: nat, k: nat) {
    a < k < |run| && a < |steps| && steps[a].Acquire? && forall j :: a < j < k && j < |steps| ==> !steps[j].Release?
  }

  lemma {:induction false} WhileHeld(run: seq<State>, steps: seq<Step>, a: nat, k: nat, c: Chan)
    requires IsRun(run, steps) && HeldSince(run, steps, a, k)
    requires forall j :: a <= j <= k ==> c in run[j].subs
    ensures !run[k].phase.Idle? && run[k].id == run[a].id + 1
    ensures c in run[k].atStart && c !in run[k].left
  {
    RunKeepsInv(run, steps, k - 1);
    assert c in run[k].subs;
    assert IsStep(run[k - 1], steps[k - 1], run[k]);
    if k > a + 1 {
      WhileHeld(run, steps, a, k - 1, c);
    }
  }

  /** The main theorem.  A Send that takes the lock at step `a` and gives it back at step
      `b` has by then delivered its value to every channel that was subscribed all the
      time in between: once, since the log holds no entry twice, and not before `a`.
      Its result is the number of deliveries it made. */
  lemma SendServesEveryoneOnce(run: seq<State>, steps: seq<Step>, a: nat, b: nat, c: Chan)
    requires IsRun(run, steps) && b < |steps| && steps[b].Release? && HeldSince(run, steps, a, b)
    requires forall j :: a <= j <= b ==> c in run[j].subs
    ensures var s := run[b];
            && (c, s.id) in s.delivered && Distinct(s.delivered)
            && (c, s.id) !in run[a].delivered
            && s.nsent == Count(s.delivered, s.id)
  {
    WhileHeld(run, steps, a, b, c);
    RunKeepsInv(run, steps, b);
    RunKeepsInv(run, steps, a);
    assert IsStep(run[b], steps[b], run[b + 1]);
    var s := run[b];
    assert s.cases[0..] == s.cases;
    assert c in s.cases[Active(s)..];
  }

  /** Every channel receives the values of successive Sends in their order. */
  lemma ReceivedInOrder(run: seq<State>, steps: seq<Step>, k: nat, i: nat, j: nat)
    requires IsRun(run, steps) && k < |run| && i < j < |run[k].delivered|
    requires run[k].delivered[i].0 == run[k].delivered[j].0
    ensures run[k].delivered[i].1 < run[k].delivered[j].1
  {
    RunKeepsInv(run, steps, k);
  }

  // ---------------------------------------------------------------- the shared array

  /** The send cases in place: `arr[..len]` are the cases, `arr[..active]` those a Send
      has yet to serve. */
  class CaseList {
    const arr: array<Chan>
    var len: nat
    var active: nat

    ghost predicate Valid()
      reads this, arr
    {
      active <= len <= arr.Length && Distinct(arr[..len])
    }

    ghost function Cases(): seq<Chan>
      requires len <= arr.Length
      reads this, arr
    {
      arr[..len]
    }

    constructor (capacity: nat)
      ensures Valid() && fresh(arr) && arr.Length == capacity && Cases() == [] && active == 0
    {
      arr := new Chan[capacity];
      len, active := 0, 0;
    }

    method FindCase(c: Chan) returns (index: int)
      requires Valid()
      ensures index == Find(Cases(), c)
    {
      index := 0;
      while index < len
        invariant 0 <= index <= len && c !in arr[..index]
      {
        if arr[index] == c {
          FoundFirst(arr[..len], c, index);
          return;
        }
        index := index + 1;
      }
      index := -1;
    }

    /** Shifts the cases behind `index` down by one, and the end of the pending prefix
        with them if it was among those pending. */
    method DeleteCase(index: nat)
      requires Valid() && index < len
      modifies this, arr
      ensures Valid() && Cases() == Delete(old(Cases()), index)
      ensures active == if index < old(active) then old(active) - 1 else old(active)
    {
      ghost var s := arr[..len];
      DeleteFacts(s, index);
      var i := index;
      while i < len - 1
        invariant len == old(len) && active == old(active) && index <= i <= len - 1
        invariant forall k :: 0 <= k < index ==> arr[k] == s[k]
        invariant forall k :: index <= k < i ==> arr[k] == s[k + 1]
        invariant forall k :: i <= k < len ==> arr[k] == s[k]
      {
        arr[i] := arr[i + 1];
        i := i + 1;
      }
      assert arr[..len - 1] == Delete(s, index);
      len := len - 1;
      if index < active {
        active := active - 1;
      }
    }

    /** Swaps a served case behind the pending ones. */
    method DeactivateCase(index: nat)
      requires Valid() && index < active
      modifies this, arr
      ensures Valid() && len == old(len) && active == old(active) - 1
      ensures Cases() == Deactivate(old(Cases()), index, old(active))
    {
      ghost var s := arr[..len];
      DeactivateFacts(s, index, active);
      arr[index], arr[active - 1] := arr[active - 1], arr[index];
      active := active - 1;
      assert arr[..len] == Deactivate(s, index, active + 1);
    }

    /** The fast path of Send: tries every pending case once, without blocking.
        `ready` are the channels that have room. */
    method FastPath(ready: set<Chan>) returns (nsent: nat)
      requires Valid()
      modifies this, arr
      ensures Valid() && len == old(len) && nsent == old(active) - active
      ensures forall c :: c in Cases() <==> c in old(Cases())
      ensures forall c :: c in Cases()[..active] <==> c in old(Cases()[..active]) && c !in ready
    {
      nsent := 0;
      var i := 0;
      while i < active
        invariant Valid() && len == old(len) && i <= active && nsent == old(active) - active
        invariant forall c :: c in Cases() <==> c in old(Cases())
        invariant forall c :: c in Cases()[..active] ==> c in old(Cases()[..active])
        invariant forall c :: c in old(Cases()[..active]) && c !in ready ==> c in Cases()[..active]
        invariant forall c :: c in Cases()[..i] ==> c !in ready
        decreases active - i
      {
        if arr[i] in ready {
          DeactivateFacts(Cases(), i, active);
          DeactivatePrefix(Cases(), i, active);
          DeactivateCase(i);
          nsent := nsent + 1;
        } else {
          assert Cases()[..i + 1] == Cases()[..i] + [arr[i]];
          i := i + 1;
        }
      }
    }
  }

  lemma FoundFirst(s: seq<Chan>, c: Chan, i: nat)
    requires i < |s| && s[i] == c && c !in s[..i]
    ensures Find(s, c) == i
  {
    if i > 0 {
      assert s[1..][..i - 1] == s[..i][1..];
      FoundFirst(s[1..], c, i - 1);
    }
  }

  lemma DeactivatePrefix(s: seq<Chan>, i: nat, n: nat)
    requires i < n <= |s|
    ensures Deactivate(s, i, n)[..i] == s[..i]
  {
  }
}
