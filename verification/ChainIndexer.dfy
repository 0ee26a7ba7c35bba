/** The section indexer: it works through the canonical chain in sections of equal
    size, without the lock while it reads headers, and records the last block of every
    section it finished.  No checkpoint, no child indexers. */
module ChainIndexer {
  import opened Options
  import opened BlockTree

  datatype Index = Index(
    stored: nat,                 // sections finished
    known: nat,                  // sections known to be complete
    heads: map<nat, Header>)     // section -> its last block

  /** The number of the last block of section `s`. */
  function EndOf(size: Pos, s: nat): nat {
    size - 1 + s * size
  }

  /** Exactly the sections below `stored` are recorded, and each recorded head is the
      `size`-th descendant of the one before. */
  ghost predicate SectionInv(ix: Index, size: Pos) {
    && (forall s: nat :: s in ix.heads <==> s < ix.stored)
    && (forall s: nat :: s in ix.heads ==> Number(ix.heads[s]) == EndOf(size, s))
    && (forall r: nat, s: nat {:trigger Follows(ix.heads[s], ix.heads[r])} ::
          r in ix.heads && s in ix.heads && s == r + 1 ==> Follows(ix.heads[s], ix.heads[r]))
  }

  predicate Follows(h: Header, earlier: Header) {
    IsAncestor(earlier, h)
  }

  function HeadOf(ix: Index, s: nat): Option<Header> {
    if s in ix.heads then Some(ix.heads[s]) else None
  }

  predicate Marks(canon: map<nat, Header>, h: Header) {
    Number(h) in canon && canon[Number(h)] == h
  }

  /** The index cut down to `n` sections. */
  function Truncated(ix: Index, n: nat): Index {
    Index(n, ix.known, map s: nat | s in ix.heads && !(n <= s < ix.stored) :: ix.heads[s])
  }

  /** The index after sections whose last block is not canonical are dropped, from the
      end, up to the first that is. */
  function Verified(ix: Index, size: Pos, canon: map<nat, Header>): Index
    decreases ix.stored
  {
    if ix.stored == 0 then ix
    else if EndOf(size, ix.stored - 1) in canon
              && HeadOf(ix, ix.stored - 1) == Some(canon[EndOf(size, ix.stored - 1)]) then ix
    else Verified(Truncated(ix, ix.stored - 1), size, canon)
  }

  // ---------------------------------------------------------------- what the last head says

  /** Any two recorded heads lie on one line. */
  lemma {:induction false} HeadsOnOneLine(ix: Index, size: Pos, r: nat, s: nat)
    requires SectionInv(ix, size) && r <= s < ix.stored
    ensures IsAncestor(ix.heads[r], ix.heads[s])
  {
    if r < s {
      HeadsOnOneLine(ix, size, r, s - 1);
      assert Follows(ix.heads[s], ix.heads[s - 1]);
      AncestorTransitive(ix.heads[s], EndOf(size, s - 1), EndOf(size, r));
    }
  }

  /** If one recorded head is canonical, all earlier ones are: checking the last one
      is enough. */
  lemma LastHeadSpeaksForAll(ix: Index, size: Pos, head: Header, s: nat, r: nat)
    requires SectionInv(ix, size) && r <= s < ix.stored && Marks(Path(head), ix.heads[s])
    ensures Marks(Path(head), ix.heads[r])
  {
    HeadsOnOneLine(ix, size, r, s);
    AncestorTransitive(head, Number(ix.heads[s]), Number(ix.heads[r]));
  }

  lemma TruncatedKeepsInv(ix: Index, size: Pos, n: nat)
    requires SectionInv(ix, size) && n <= ix.stored
    ensures SectionInv(Truncated(ix, n), size)
  {
  }

  lemma TruncatedTwice(ix: Index, size: Pos, m: nat, n: nat)
    requires SectionInv(ix, size) && n <= m <= ix.stored
    ensures Truncated(Truncated(ix, m), n) == Truncated(ix, n)
    ensures Truncated(ix, ix.stored) == ix
  {
  }

  lemma VerifiedStep(ix: Index, size: Pos, canon: map<nat, Header>)
    requires SectionInv(ix, size)
    ensures Verified(ix, size, canon) ==
            if ix.stored == 0 || Marks(canon, ix.heads[ix.stored - 1]) then ix
            else Verified(Truncated(ix, ix.stored - 1), size, canon)
  {
  }

  /** Verification cuts at the last canonical head and drops only heads that are not. */
  lemma {:induction false} VerifiedCuts(ix: Index, size: Pos, canon: map<nat, Header>)
    requires SectionInv(ix, size)
    ensures var v := Verified(ix, size, canon);
            && v.stored <= ix.stored && v == Truncated(ix, v.stored)
            && (v.stored > 0 ==> Marks(canon, ix.heads[v.stored - 1]))
            && (forall s: nat :: v.stored <= s < ix.stored ==> !Marks(canon, ix.heads[s]))
    decreases ix.stored
  {
    hide EndOf, Follows, Marks, Number, Verified;
    VerifiedStep(ix, size, canon);
    TruncatedTwice(ix, size, ix.stored, ix.stored);
    if ix.stored > 0 && !Marks(canon, ix.heads[ix.stored - 1]) {
      var t := Truncated(ix, ix.stored - 1);
      TruncatedKeepsInv(ix, size, ix.stored - 1);
      VerifiedCuts(t, size, canon);
      TruncatedTwice(ix, size, ix.stored - 1, Verified(t, size, canon).stored);
    }
  }

  /** Verification against a canonical chain keeps exactly the sections whose recorded
      head is canonical. */
  lemma VerifiedIsExact(ix: Index, size: Pos, head: Header)
    requires SectionInv(ix, size)
    ensures var v := Verified(ix, size, Path(head));
            && SectionInv(v, size)
            && (forall s: nat :: s in v.heads <==> s in ix.heads && Marks(Path(head), ix.heads[s]))
            && (forall s: nat :: s in v.heads ==> v.heads[s] == ix.heads[s])
  {
    hide Path, EndOf, Follows, Verified, Marks, Number;
    var v := Verified(ix, size, Path(head));
    VerifiedCuts(ix, size, Path(head));
    TruncatedKeepsInv(ix, size, v.stored);
    forall s: nat | 0 <= s < v.stored ensures Marks(Path(head), ix.heads[s]) {
      LastHeadSpeaksForAll(ix, size, head, v.stored - 1, s);
    }
  }

  // ---------------------------------------------------------------- the update loop

  /** A section being processed without the lock. */
  datatype Job = Job(section: nat, oldHead: Option<Header>)

  ghost predicate JobOk(job: Job, size: Pos) {
    if job.section == 0 then job.oldHead.None?
    else job.oldHead.Some? && Number(job.oldHead.value) == EndOf(size, job.section - 1)
  }

  /** `h` ends the section of `job` and descends from the head the job started on. */
  ghost predicate Completes(h: Header, job: Job, size: Pos) {
    && Number(h) == EndOf(size, job.section)
    && (job.oldHead.Some? ==> IsAncestor(job.oldHead.value, h))
  }

  /** Notification of a new head, or of a rollback to `head`. */
  function Notified(ix: Index, size: Pos, confirms: nat, head: nat, reorg: bool): Index {
    if reorg then
      var k := (head + 1) / size;
      var cut := if k < ix.stored then Truncated(ix, k) else ix;
      cut.(known := if k < ix.known then k else ix.known)
    else if head >= confirms && (head + 1 - confirms) / size > ix.known then
      ix.(known := (head + 1 - confirms) / size)
    else ix
  }

  function Started(ix: Index): Job {
    Job(ix.stored, if ix.stored > 0 then HeadOf(ix, ix.stored - 1) else None)
  }

  /** The locked end of one round of the update loop. */
  function Finished(ix: Index, size: Pos, job: Job, result: Option<Header>, canon: map<nat, Header>): Index {
    if result.Some? && (job.section == 0 || HeadOf(ix, job.section - 1) == job.oldHead) then
      Truncated(ix.(heads := ix.heads[job.section := result.value]), job.section + 1)
    else
      var v := Verified(ix, size, canon);
      v.(known := v.stored)
  }

  datatype System = System(ix: Index, job: Option<Job>)

  /** Atomic steps.  The canonical chain is not part of the system: it may be any
      index at every step that reads it, so it may have been reorganised in any way in
      between. */
  datatype Step =
    | NewHead(head: nat, reorg: bool)
    | Query(canon: map<nat, Header>)
    | Begin(canon: map<nat, Header>)
    | ResetFails
    | Finish(result: Option<Header>, canon: map<nat, Header>)

  ghost predicate Next(size: Pos, confirms: nat, s: System, step: Step, t: System) {
    match step
    case NewHead(head, reorg) => t == s.(ix := Notified(s.ix, size, confirms, head, reorg))
    case Query(canon) => t == s.(ix := Verified(s.ix, size, canon))
    case Begin(canon) =>
      var v := Verified(s.ix, size, canon);
      s.job.None? && s.ix.known > s.ix.stored && t == System(v, Some(Started(v)))
    case ResetFails => s.job.Some? && t == s.(ix := Truncated(s.ix, 0))
    case Finish(result, canon) =>
      && s.job.Some?
      && (result.Some? ==> Completes(result.value, s.job.value, size))
      && t == System(Finished(s.ix, size, s.job.value, result, canon), None)
  }

  /** While a section is processed nothing else raises the number of sections. */
  ghost predicate SystemInv(s: System, size: Pos) {
    && SectionInv(s.ix, size)
    && (s.job.Some? ==> JobOk(s.job.value, size) && s.ix.stored <= s.job.value.section)
  }

  lemma FinishKeepsInv(ix: Index, size: Pos, job: Job, result: Option<Header>, canon: map<nat, Header>)
    requires SectionInv(ix, size) && JobOk(job, size) && ix.stored <= job.section
    requires result.Some? ==> Completes(result.value, job, size)
    ensures SectionInv(Finished(ix, size, job, result, canon), size)
  {
    hide EndOf, IsAncestor, Number, Verified;
    if result.Some? && (job.section == 0 || HeadOf(ix, job.section - 1) == job.oldHead) {
      assert ix.stored == job.section;
      var t := Finished(ix, size, job, result, canon);
      forall r: nat, s: nat | r in t.heads && s in t.heads && s == r + 1 ensures Follows(t.heads[s], t.heads[r]) {
        if s < job.section {
          assert Follows(ix.heads[s], ix.heads[r]);
        }
      }
    } else {
      VerifiedCuts(ix, size, canon);
      TruncatedKeepsInv(ix, size, Verified(ix, size, canon).stored);
    }
  }

  lemma StepKeepsInv(size: Pos, confirms: nat, s: System, step: Step, t: System)
    requires SystemInv(s, size) && Next(size, confirms, s, step, t)
    ensures SystemInv(t, size)
  {
    hide EndOf, Follows, Verified;
    match step
    case NewHead(head, reorg) =>
      var k := (head + 1) / size;
      if reorg && k < s.ix.stored {
        TruncatedKeepsInv(s.ix, size, k);
      }
    case Query(canon) =>
      VerifiedCuts(s.ix, size, canon);
      TruncatedKeepsInv(s.ix, size, Verified(s.ix, size, canon).stored);
    case Begin(canon) =>
      VerifiedCuts(s.ix, size, canon);
      TruncatedKeepsInv(s.ix, size, Verified(s.ix, size, canon).stored);
    case ResetFails =>
      TruncatedKeepsInv(s.ix, size, 0);
    case Finish(result, canon) =>
      FinishKeepsInv(s.ix, size, s.job.value, result, canon);
  }

  ghost predicate IsRun(size: Pos, confirms: nat, run: seq<System>, steps: seq<Step>) {
    && |run| == |steps| + 1
    && run[0] == System(Index(0, 0, map[]), None)
    && forall i :: 0 <= i < |steps| ==> Next(size, confirms, run[i], steps[i], run[i + 1])
  }

  /** Over every run, with the chain reorganised at will between any two steps, the
      recorded heads are those of sections 0 to `stored - 1` and each descends from the
      one before. */
  lemma {:induction false} RunKeepsInv(size: Pos, confirms: nat, run: seq<System>, steps: seq<Step>, i: nat)
    requires IsRun(size, confirms, run, steps) && i < |run|
    ensures SystemInv(run[i], size)
  {
    if i > 0 {
      RunKeepsInv(size, confirms, run, steps, i - 1);
      StepKeepsInv(size, confirms, run[i - 1], steps[i - 1], run[i]);
    }
  }

  /** So a query answers with canonical sections only, and with all of them that are
      recorded, whatever happened before. */
  lemma QueriesAreCanonical(size: Pos, confirms: nat, run: seq<System>, steps: seq<Step>, i: nat, head: Header)
    requires IsRun(size, confirms, run, steps) && i < |steps| && steps[i] == Query(Path(head))
    ensures var old', new' := run[i].ix.heads, run[i + 1].ix.heads;
            && (forall s: nat :: s in new' <==> s in old' && Marks(Path(head), old'[s]))
            && (forall s: nat :: s in new' ==> new'[s] == old'[s])
  {
    RunKeepsInv(size, confirms, run, steps, i);
    hide Path, Marks, Verified, Next;
    assert run[i + 1].ix == Verified(run[i].ix, size, Path(head)) by {
      NextQuery(size, confirms, run[i], Path(head), run[i + 1]);
    }
    VerifiedIsExact(run[i].ix, size, head);
  }

  lemma NextQuery(size: Pos, confirms: nat, s: System, canon: map<nat, Header>, t: System)
    requires Next(size, confirms, s, Query(canon), t)
    ensures t.ix == Verified(s.ix, size, canon)
  {
  }

  /** A rollback notification cuts deep enough: if every recorded head was canonical
      before a reorganisation, then after the notification with the common ancestor
      every recorded head is canonical on the new chain. */
  lemma RollbackCutsDeepEnough(ix: Index, size: Pos, confirms: nat, before: Header, after: Header, common: Header)
    requires SectionInv(ix, size) && IsAncestor(common, before) && IsAncestor(common, after)
    requires forall s: nat :: s in ix.heads ==> Marks(Path(before), ix.heads[s])
    ensures var n := Notified(ix, size, confirms, Number(common), true);
            SectionInv(n, size) && forall s: nat :: s in n.heads ==> Marks(Path(after), n.heads[s])
  {
    hide Path, Marks, EndOf, Follows, Number, IsAncestor;
    var k := (Number(common) + 1) / size;
    var n := Notified(ix, size, confirms, Number(common), true);
    if k < ix.stored {
      TruncatedKeepsInv(ix, size, k);
    }
    forall s: nat | s in n.heads ensures Marks(Path(after), n.heads[s]) {
      SectionBelow(size, Number(common), s);
      assert n.heads[s] == ix.heads[s];
      MarkedOnBoth(before, after, common, ix.heads[s]);
    }
  }

  lemma MarkedOnBoth(before: Header, after: Header, common: Header, h: Header)
    requires IsAncestor(common, before) && IsAncestor(common, after)
    requires Marks(Path(before), h) && Number(h) <= Number(common)
    ensures Marks(Path(after), h)
  {
    PathsAgreeBelow(before, after, Number(common));
  }

  /** And no deeper: a rollback keeps exactly the sections, recorded and known, that end
      at or below the block it goes back to. */
  lemma RollbackIsExact(ix: Index, size: Pos, confirms: nat, head: nat, s: nat)
    requires SectionInv(ix, size)
    ensures var n := Notified(ix, size, confirms, head, true);
            && (s in n.heads <==> s in ix.heads && EndOf(size, s) <= head)
            && (s in n.heads ==> n.heads[s] == ix.heads[s])
            && (s < n.stored <==> s < ix.stored && EndOf(size, s) <= head)
            && (s < n.known <==> s < ix.known && EndOf(size, s) <= head)
  {
    hide EndOf, Follows;
    if s < (head + 1) / size {
      SectionBelow(size, head, s);
    } else {
      SectionAbove(size, head, s);
    }
  }

  /** A head notification leaves what is recorded, keeps what is known, and makes exactly
      the sections known that end at least the required number of confirmations below the
      head. */
  lemma KnownSectionsAreConfirmed(ix: Index, size: Pos, confirms: nat, head: nat, s: nat)
    ensures var n := Notified(ix, size, confirms, head, false);
            && n.heads == ix.heads && n.stored == ix.stored
            && (s < n.known <==> s < ix.known || EndOf(size, s) + confirms <= head)
  {
    hide EndOf;
    if head >= confirms {
      var n := head - confirms;
      if s < (n + 1) / size {
        SectionBelow(size, n, s);
      } else {
        SectionAbove(size, n, s);
      }
    }
  }

  /** A section that failed, or was built on a head that is no longer recorded, is not
      recorded: what stays is exactly what is still canonical, and no more is known. */
  lemma AbandonedSectionIsDropped(ix: Index, size: Pos, job: Job, result: Option<Header>, head: Header)
    requires SectionInv(ix, size)
    requires result.None? || (job.section > 0 && HeadOf(ix, job.section - 1) != job.oldHead)
    ensures var f := Finished(ix, size, job, result, Path(head));
            && f.known == f.stored
            && (forall s: nat :: s in f.heads <==> s in ix.heads && Marks(Path(head), ix.heads[s]))
            && (forall s: nat :: s in f.heads ==> f.heads[s] == ix.heads[s])
  {
    hide Verified, Path, Marks, Follows;
    VerifiedIsExact(ix, size, head);
  }

  lemma SectionAbove(size: Pos, n: nat, s: nat)
    requires s >= (n + 1) / size
    ensures EndOf(size, s) > n
  {
    var k := (n + 1) / size;
    assert n + 1 < (k + 1) * size;
    assert (k + 1) * size <= (s + 1) * size;
  }

  /** A section processed without a rollback in between is recorded: the index grows by
      that section and nothing else changes. */
  lemma UndisturbedSectionIsRecorded(ix: Index, size: Pos, h: Header, canon: map<nat, Header>)
    requires SectionInv(ix, size)
    ensures Finished(ix, size, Started(ix), Some(h), canon)
            == ix.(stored := ix.stored + 1, heads := ix.heads[ix.stored := h])
  {
    var grown := ix.heads[ix.stored := h];
    assert Truncated(ix.(heads := grown), ix.stored + 1).heads == grown;
  }

  /** A section counted complete at head `n` ends at or below `n`. */
  lemma SectionBelow(size: Pos, n: nat, s: nat)
    requires s < (n + 1) / size
    ensures EndOf(size, s) <= n
  {
    var k := (n + 1) / size;
    assert k * size <= n + 1;
    assert (s + 1) * size <= k * size;
  }

  // ---------------------------------------------------------------- the class

  /** What one read of the chain saw at a number: the header marked canonical there,
      if there is a marker and the header is stored. */
  type Sight = nat -> Option<Header>

  /** What was seen from `first` up to `upto` forms one chain on top of `lastHead`. */
  ghost predicate Continuous(seen: Sight, first: nat, lastHead: Option<Header>, upto: nat) {
    && (forall n: nat :: first <= n < upto ==> seen(n).Some?)
    && (first < upto ==> ParentHash(seen(first).value) == lastHead)
    && (forall m: nat, n: nat :: first <= m && n == m + 1 < upto ==> ParentHash(seen(n).value) == seen(m))
  }

  /** A section read off one chain on which the old head lies is continuous. */
  lemma ChainIsContinuous(seen: Sight, head: Header, first: nat, lastHead: Option<Header>, upto: nat)
    requires first < upto <= Number(head) + 1
    requires lastHead == if first == 0 then None else Some(AncestorAt(head, first - 1))
    requires forall n: nat :: first <= n < upto ==> seen(n) == Some(AncestorAt(head, n))
    ensures Continuous(seen, first, lastHead, upto)
  {
    hide AncestorAt, Number;
    ParentOnChain(head, first);
    forall m: nat, n: nat | first <= m && n == m + 1 < upto ensures ParentHash(seen(n).value) == seen(m) {
      ParentOnChain(head, n);
    }
  }

  lemma ParentOnChain(head: Header, n: nat)
    requires n <= Number(head)
    ensures ParentHash(AncestorAt(head, n)) == if n == 0 then None else Some(AncestorAt(head, n - 1))
  {
    AncestorNumber(head, n);
    if n > 0 {
      AncestorTransitive(head, n, n - 1);
    }
  }

  lemma EndsMeet(size: Pos, s: nat)
    ensures EndOf(size, s) + 1 == s * size + size
    ensures s > 0 ==> EndOf(size, s - 1) + 1 == s * size
  {
  }

  lemma {:induction false} SeenChain(seen: Sight, first: nat, lastHead: Option<Header>, upto: nat, n: nat)
    requires Continuous(seen, first, lastHead, upto) && first <= n < upto
    requires if lastHead.None? then first == 0 else Number(lastHead.value) + 1 == first
    ensures Number(seen(n).value) == n
    ensures lastHead.Some? ==> IsAncestor(lastHead.value, seen(n).value)
  {
    if n > first {
      SeenChain(seen, first, lastHead, upto, n - 1);
      assert ParentHash(seen(n).value) == seen(n - 1);
    }
  }

  class ChainIndexer {
    const sectionSize: Pos
    const confirmsReq: nat
    var storedSections: nat
    var knownSections: nat
    var heads: map<nat, Header>

    ghost function View(): Index
      reads this
    {
      Index(storedSections, knownSections, heads)
    }

    constructor (size: Pos, confirms: nat)
      ensures sectionSize == size && confirmsReq == confirms && View() == Index(0, 0, map[])
    {
      sectionSize, confirmsReq := size, confirms;
      storedSections, knownSections, heads := 0, 0, map[];
    }

    method SetValidSections(sections: nat)
      modifies this
      ensures View() == Truncated(old(View()), sections)
    {
      while storedSections > sections
        invariant knownSections == old(knownSections) && storedSections <= old(storedSections)
        invariant storedSections == old(storedSections) || sections <= storedSections
        invariant heads == map s: nat | s in old(heads) && !(storedSections <= s < old(storedSections)) :: old(heads)[s]
      {
        storedSections := storedSections - 1;
        heads := heads - {storedSections};
      }
      storedSections := sections;
    }

    method NewHead(head: nat, reorg: bool)
      modifies this
      ensures View() == Notified(old(View()), sectionSize, confirmsReq, head, reorg)
    {
      if reorg {
        var known := (head + 1) / sectionSize;
        if known < knownSections {
          knownSections := known;
        }
        if known < storedSections {
          SetValidSections(known);
        }
        return;
      }
      if head >= confirmsReq {
        var sections := (head + 1 - confirmsReq) / sectionSize;
        if sections > knownSections {
          knownSections := sections;
        }
      }
    }

    /** Compares the last recorded head with the canonical chain, from the end back. */
    method VerifyLastHead(canon: map<nat, Header>)
      modifies this
      ensures View() == Verified(old(View()), sectionSize, canon)
    {
      while storedSections > 0
        invariant Verified(View(), sectionSize, canon) == Verified(old(View()), sectionSize, canon)
      {
        var number := storedSections * sectionSize - 1;
        assert number == EndOf(sectionSize, storedSections - 1);
        if number in canon && storedSections - 1 in heads && heads[storedSections - 1] == canon[number] {
          return;
        }
        SetValidSections(storedSections - 1);
      }
    }

    /** The locked start of a round of the update loop. */
    method BeginUpdate(canon: map<nat, Header>) returns (job: Option<Job>)
      modifies this
      ensures old(knownSections) <= old(storedSections) ==> job.None? && View() == old(View())
      ensures old(knownSections) > old(storedSections) ==>
                View() == Verified(old(View()), sectionSize, canon) && job == Some(Started(View()))
    {
      if knownSections <= storedSections {
        return None;
      }
      VerifyLastHead(canon);
      var section, oldHead := storedSections, None;
      if section > 0 && section - 1 in heads {
        oldHead := Some(heads[section - 1]);
      }
      job := Some(Job(section, oldHead));
    }

    /** Reads the headers of a section one by one, without the lock.  Each number is
        read once, so `seen` stands for any chain of states of the database. */
    method ProcessSection(job: Job, seen: Sight, resetOk: bool, processOk: nat -> bool, commitOk: bool)
      returns (result: Option<Header>)
      modifies this
      ensures View() == if resetOk then old(View()) else Truncated(old(View()), 0)
      ensures JobOk(job, sectionSize) && result.Some? ==> Completes(result.value, job, sectionSize)
      ensures JobOk(job, sectionSize) ==>
                (result.Some? <==>
                  && resetOk && commitOk
                  && (forall n: nat :: job.section * sectionSize <= n <= EndOf(sectionSize, job.section) ==>
                            processOk(n))
                  && Continuous(seen, job.section * sectionSize, job.oldHead, EndOf(sectionSize, job.section) + 1))
    {
      if !resetOk {
        SetValidSections(0);
        return None;
      }
      var first := job.section * sectionSize;
      var end := first + sectionSize;
      EndsMeet(sectionSize, job.section);
      hide EndOf, Number, IsAncestor;
      var lastHead, number := job.oldHead, first;
      while number < end
        invariant first <= number <= end
        invariant forall n: nat :: first <= n < number ==> processOk(n)
        invariant Continuous(seen, first, job.oldHead, number)
        invariant lastHead == if number == first then job.oldHead else seen(number - 1)
      {
        var header := seen(number);
        if header.None? {
          return None;
        }
        if ParentHash(header.value) != lastHead {
          return None;
        }
        if !processOk(number) {
          return None;
        }
        lastHead := header;
        number := number + 1;
      }
      if !commitOk {
        return None;
      }
      if JobOk(job, sectionSize) {
        SeenChain(seen, first, job.oldHead, end, end - 1);
      }
      result := lastHead;
    }

    /** The locked end of a round of the update loop. */
    method FinishUpdate(job: Job, result: Option<Header>, canon: map<nat, Header>)
      modifies this
      ensures View() == Finished(old(View()), sectionSize, job, result, canon)
    {
      var previous := None;
      if job.section > 0 && job.section - 1 in heads {
        previous := Some(heads[job.section - 1]);
      }
      if result.Some? && (job.section == 0 || previous == job.oldHead) {
        heads := heads[job.section := result.value];
        SetValidSections(job.section + 1);
      } else {
        VerifyLastHead(canon);
        knownSections := storedSections;
      }
    }
  }
}
