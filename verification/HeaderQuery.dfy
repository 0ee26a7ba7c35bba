/** The responder to a header request of a peer: starting from a block hash or a
    block number, headers `skip` apart towards genesis or towards the head. */
module HeaderQuery {
  import opened Options
  import opened BlockTree
  import opened HeaderState
  import opened HeaderChain
  import opened Words

  const MAX_HEADER_FETCH: nat := 192
  const SOFT_RESPONSE_LIMIT: nat := 2 * 1024 * 1024
  const MAX_NON_CANONICAL: nat := 100

  datatype Origin = ByHash(hash: Header) | ByNumber(number: uint64)

  datatype Query = Query(origin: Origin, amount: uint64, skip: uint64, reverse: bool)

  /** Conversion of an unsigned to a signed 64-bit integer. */
  function ToInt(n: uint64): int {
    if n < UINT64 / 2 then n else n - UINT64
  }

  /** `b` is the `k`-th ancestor of `a`. */
  predicate Generations(a: Header, b: Header, k: nat) {
    Number(a) == Number(b) + k && AncestorAt(a, Number(b)) == b
  }

  /** Two consecutive headers of an answer to a request by hash. */
  predicate Step(a: Header, b: Header, skip: nat, reverse: bool) {
    if reverse then Generations(a, b, skip + 1) else Generations(b, a, skip + 1)
  }

  /** Stored headers, each one step after the one before. */
  predicate Line(hs: seq<Header>, stored: set<Header>, skip: nat, reverse: bool) {
    && (forall i :: 0 <= i < |hs| ==> hs[i] in stored)
    && (forall i :: 0 <= i < |hs| - 1 ==> Step(hs[i], hs[i + 1], skip, reverse))
  }

  /** There is a next header on the canonical line. */
  predicate HasNext(h: Header, head: Header, skip: nat, reverse: bool) {
    if reverse then skip + 1 <= Number(h) else Number(h) + skip + 1 <= Number(head)
  }

  function Bytes(hs: seq<Header>, size: Header -> nat): nat {
    if hs == [] then 0 else Bytes(hs[..|hs| - 1], size) + size(hs[|hs| - 1])
  }

  /** The numbers of a chain fit in 64 bits. */
  ghost predicate Fits(hc: HeaderChain)
    reads hc
  {
    ChainInv(hc.View(), hc.genesis) && forall h :: h in hc.headers ==> Number(h) < UINT64
  }

  /** The blocks visited one by one on a step back from `h`: none for the parent, which is
      read off the header; otherwise until the walk is on the canonical chain. */
  function Visits(canon: map<nat, Header>, h: Header, skip: nat): nat {
    if skip == 0 then 0 else Min(Detour(canon, h), skip + 1)
  }

  /** The blocks visited on the steps back from all of `hs`. */
  function Visited(canon: map<nat, Header>, hs: seq<Header>, skip: nat): nat {
    if hs == [] then 0 else Visited(canon, hs[..|hs| - 1], skip) + Visits(canon, hs[|hs| - 1], skip)
  }

  method NextTowardsGenesis(hc: HeaderChain, h: Header, skip: uint64, budget: nat)
    returns (next: Option<Header>, left: nat)
    requires Fits(hc) && h in hc.headers
    ensures next.Some? ==> next.value in hc.headers && Generations(h, next.value, skip + 1)
    ensures next.Some? <==> skip + 1 <= Number(h) && (skip == 0 || Min(Detour(hc.canon, h), skip + 1) <= budget)
    ensures left == if skip + 1 <= Number(h) then budget - Min(budget, Visits(hc.canon, h, skip)) else budget
    ensures hc.Canonical(h, Number(h)) && next.Some? ==> hc.Canonical(next.value, Number(next.value))
  {
    hide MarksStored, Weights, Rooted;
    var ancestor := Add64(skip, 1);
    if ancestor == 0 {
      return None, budget;
    }
    var n;
    next, n, left := hc.GetAncestor(h, Number(h), ancestor, budget);
    if next.Some? {
      AncestorNumber(h, n);
      ClosedHasAncestors(hc.headers, h, n);
      OnPath(hc.current, h, n);
    }
  }

  method NextTowardsHead(hc: HeaderChain, h: Header, skip: uint64, budget: nat)
    returns (next: Option<Header>, left: nat)
    requires Fits(hc) && h in hc.headers
    ensures next.Some? ==> next.value in hc.headers && Generations(next.value, h, skip + 1)
    ensures next.Some? ==> hc.Canonical(h, Number(h)) && hc.Canonical(next.value, Number(next.value))
    ensures hc.Canonical(h, Number(h)) ==>
              left == budget && (next.Some? <==> Number(h) + skip + 1 <= Number(hc.current))
  {
    hide MarksStored, Weights, Rooted;
    PathOnly(hc.current);
    hide Path;
    var current := Number(h);
    var candidate := Add64(Add64(current, skip), 1);
    if candidate <= current {
      return None, budget;
    }
    if candidate in hc.canon {
      var nextHash := hc.canon[candidate];
      AncestorTransitive(hc.current, candidate, current);
      ClosedHasAncestors(hc.headers, hc.current, candidate);
      var expected, n;
      expected, n, left := hc.GetAncestor(nextHash, candidate, skip + 1, budget);
      if expected == Some(h) {
        return Some(nextHash), left;
      }
      return None, left;
    }
    return None, budget;
  }

  /** The header after `h` of a request by hash, if the responder finds one. */
  method NextByHash(hc: HeaderChain, h: Header, skip: uint64, reverse: bool, budget: nat)
    returns (next: Option<Header>, left: nat)
    requires Fits(hc) && h in hc.headers
    ensures next.Some? ==> next.value in hc.headers && Step(h, next.value, skip, reverse)
    ensures reverse ==>
              && (next.Some? <==> HasNext(h, hc.current, skip, true) && Visits(hc.canon, h, skip) <= budget)
              && (next.Some? ==> left == budget - Visits(hc.canon, h, skip))
    ensures hc.Canonical(h, Number(h)) ==>
              && left == budget
              && (next.Some? <==> HasNext(h, hc.current, skip, reverse))
              && (next.Some? ==> hc.Canonical(next.value, Number(next.value)))
    ensures !hc.Canonical(h, Number(h)) && !reverse ==> next.None?
  {
    hide Fits, Generations;
    if reverse {
      next, left := NextTowardsGenesis(hc, h, skip, budget);
    } else {
      next, left := NextTowardsHead(hc, h, skip, budget);
    }
  }

  /** An ancestor of a canonical block is canonical. */
  lemma OnPath(head: Header, h: Header, n: nat)
    requires n <= Number(h)
    ensures IsAncestor(h, head) ==> n in Path(head) && Path(head)[n] == AncestorAt(h, n)
  {
    if IsAncestor(h, head) {
      AncestorTransitive(head, Number(h), n);
    }
  }

  lemma EmptyLine(stored: set<Header>, skip: nat, reverse: bool, size: Header -> nat)
    ensures Line([], stored, skip, reverse) && Bytes([], size) == 0
  {
  }

  lemma ExtendLine(hs: seq<Header>, h: Header, stored: set<Header>, skip: nat, reverse: bool, size: Header -> nat)
    requires Line(hs, stored, skip, reverse) && h in stored
    requires hs != [] ==> Step(hs[|hs| - 1], h, skip, reverse)
    ensures Line(hs + [h], stored, skip, reverse)
    ensures (hs + [h])[..|hs|] == hs && Bytes(hs + [h], size) == Bytes(hs, size) + size(h)
  {
    hide Step;
    BytesOfMore(hs, h, size);
  }

  lemma BytesOfMore(hs: seq<Header>, h: Header, size: Header -> nat)
    ensures (hs + [h])[..|hs|] == hs && Bytes(hs + [h], size) == Bytes(hs, size) + size(h)
  {
  }

  lemma NoVisits(canon: map<nat, Header>, skip: nat)
    ensures Visited(canon, [], skip) == 0
  {
  }

  lemma MoreVisits(canon: map<nat, Header>, hs: seq<Header>, h: Header, skip: nat)
    ensures Visited(canon, hs + [h], skip) == Visited(canon, hs, skip) + Visits(canon, h, skip)
    ensures skip == 0 ==> Visits(canon, h, skip) == 0
  {
    assert (hs + [h])[..|hs|] == hs;
  }

  /** The answer to a request by hash. */
  method AnswerByHash(hc: HeaderChain, q: Query, size: Header -> nat) returns (headers: seq<Header>)
    requires Fits(hc) && q.origin.ByHash?
    ensures |headers| <= q.amount && |headers| <= MAX_HEADER_FETCH
    ensures headers != [] ==> headers[0] == q.origin.hash && Bytes(headers[..|headers| - 1], size) < SOFT_RESPONSE_LIMIT
    ensures Line(headers, hc.headers, q.skip, q.reverse)
    ensures q.origin.hash in hc.headers && 0 < ToInt(q.amount) ==> headers != []
    // From a canonical origin the line goes on until a limit or its end is reached.
    ensures headers != [] && hc.Canonical(headers[0], Number(headers[0])) ==>
              || |headers| == q.amount
              || |headers| == MAX_HEADER_FETCH
              || Bytes(headers, size) >= SOFT_RESPONSE_LIMIT
              || !HasNext(headers[|headers| - 1], hc.current, q.skip, q.reverse)
    // Towards genesis, from any origin, it goes on until a limit or its end is reached, or
    // until more blocks off the canonical chain would have to be visited than are allowed.
    ensures headers != [] && q.reverse ==>
              || |headers| == q.amount
              || |headers| == MAX_HEADER_FETCH
              || Bytes(headers, size) >= SOFT_RESPONSE_LIMIT
              || !HasNext(headers[|headers| - 1], hc.current, q.skip, true)
              || (q.skip > 0 && Visited(hc.canon, headers, q.skip) > MAX_NON_CANONICAL)
    // Towards the head, a block off the canonical chain is followed by nothing.
    ensures !q.reverse && !hc.Canonical(q.origin.hash, Number(q.origin.hash)) ==> |headers| <= 1
  {
    hide Fits, Step, HasNext, Line, Bytes, Visited, Visits;
    headers := [];
    EmptyLine(hc.headers, q.skip, q.reverse, size);
    NoVisits(hc.canon, q.skip);
    var bytes, unknown, left := 0, false, MAX_NON_CANONICAL;
    var origin := q.origin.hash;
    if origin !in hc.headers {
      return;
    }
    ghost var onPath := hc.Canonical(origin, Number(origin));
    while !unknown && |headers| < ToInt(q.amount) && bytes < SOFT_RESPONSE_LIMIT && |headers| < MAX_HEADER_FETCH
      invariant |headers| <= MAX_HEADER_FETCH && (headers != [] ==> |headers| <= ToInt(q.amount))
      invariant bytes == Bytes(headers, size)
      invariant headers == [] ==> origin == q.origin.hash && !unknown
      invariant headers != [] ==>
                  && headers[0] == q.origin.hash
                  && Bytes(headers[..|headers| - 1], size) < SOFT_RESPONSE_LIMIT
      invariant !unknown ==> origin in hc.headers
      invariant Line(headers, hc.headers, q.skip, q.reverse)
      invariant headers != [] && !unknown ==> Step(headers[|headers| - 1], origin, q.skip, q.reverse)
      invariant onPath && !unknown ==> hc.Canonical(origin, Number(origin))
      invariant onPath && unknown ==> !HasNext(headers[|headers| - 1], hc.current, q.skip, q.reverse)
      invariant q.reverse && !unknown ==> left == MAX_NON_CANONICAL - Visited(hc.canon, headers, q.skip)
      invariant q.reverse && unknown ==>
                  || !HasNext(headers[|headers| - 1], hc.current, q.skip, true)
                  || (q.skip > 0 && Visited(hc.canon, headers, q.skip) > MAX_NON_CANONICAL)
      invariant !onPath && !q.reverse ==> headers == [] || (|headers| == 1 && unknown)
      decreases MAX_HEADER_FETCH - |headers|
    {
      ExtendLine(headers, origin, hc.headers, q.skip, q.reverse, size);
      MoreVisits(hc.canon, headers, origin, q.skip);
      headers := headers + [origin];
      bytes := bytes + size(origin);
      var next;
      next, left := NextByHash(hc, origin, q.skip, q.reverse, left);
      if next.Some? {
        origin := next.value;
      } else {
        unknown := true;
      }
    }
  }

  lemma GenerationsCompose(a: Header, b: Header, c: Header, k: nat, m: nat)
    requires Generations(a, b, k) && Generations(b, c, m)
    ensures Generations(a, c, k + m)
  {
    AncestorTransitive(a, Number(b), Number(c));
  }

  /** An answer lies on one line of ancestry: any two of its headers, not only
      neighbours, are as many generations apart as their positions say. */
  lemma {:induction false} LineIsAncestry(hs: seq<Header>, stored: set<Header>, skip: nat, reverse: bool,
      i: nat, j: nat)
    requires Line(hs, stored, skip, reverse) && i < j < |hs|
    ensures if reverse then Generations(hs[i], hs[j], (j - i) * (skip + 1))
            else Generations(hs[j], hs[i], (j - i) * (skip + 1))
    decreases j - i
  {
    hide Generations;
    assert Step(hs[i], hs[i + 1], skip, reverse);
    if i + 1 < j {
      LineIsAncestry(hs, stored, skip, reverse, i + 1, j);
      var rest := (j - (i + 1)) * (skip + 1);
      assert (j - i) * (skip + 1) == rest + (skip + 1);
      if reverse {
        GenerationsCompose(hs[i], hs[i + 1], hs[j], skip + 1, rest);
      } else {
        GenerationsCompose(hs[j], hs[i + 1], hs[i], rest, skip + 1);
      }
    }
  }

  /** The number after `n` of a request by number, in 64-bit arithmetic. */
  function NextNumber(n: uint64, skip: uint64, reverse: bool): Option<uint64> {
    var step := Add64(skip, 1);
    if !reverse then Some(Add64(n, step))
    else if n >= step then Some(n - step)
    else None
  }

  /** The step from one number to the next did not wrap around. */
  predicate NoWrap(n: uint64, skip: uint64, reverse: bool) {
    if reverse then skip + 1 < UINT64 else n + skip + 1 < UINT64
  }

  /** On the canonical chain a step by number is a step by ancestry exactly when it
      does not wrap: otherwise the responder repeats itself or turns back. */
  lemma NumberStepExactlyWhen(head: Header, n: uint64, skip: uint64, reverse: bool)
    requires Number(head) < UINT64 && n <= Number(head)
    requires NextNumber(n, skip, reverse).Some? && NextNumber(n, skip, reverse).value <= Number(head)
    ensures Step(AncestorAt(head, n), AncestorAt(head, NextNumber(n, skip, reverse).value), skip, reverse)
            <==> NoWrap(n, skip, reverse)
  {
    var m := NextNumber(n, skip, reverse).value;
    AncestorNumber(head, n);
    AncestorNumber(head, m);
    if n <= m {
      AncestorTransitive(head, m, n);
    } else {
      AncestorTransitive(head, n, m);
    }
  }

  lemma MarkedIsStored(hc: HeaderChain, n: nat)
    requires Fits(hc)
    ensures n in hc.canon <==> n <= Number(hc.current)
    ensures n in hc.canon ==> IsAncestor(hc.canon[n], hc.current) && Number(hc.canon[n]) == n < UINT64
  {
    if n <= Number(hc.current) {
      AncestorNumber(hc.current, n);
      ClosedHasAncestors(hc.headers, hc.current, n);
    }
  }

  /** Headers of the path of `head`, the first at number `n`, each of the others at the
      number after the one before. */
  ghost predicate Numbered(headers: seq<Header>, head: Header, n: uint64, skip: uint64, reverse: bool) {
    && (forall i :: 0 <= i < |headers| ==> IsAncestor(headers[i], head) && Number(headers[i]) < UINT64)
    && (headers != [] ==> Number(headers[0]) == n)
    && (forall i :: 0 <= i < |headers| - 1 ==>
          NextNumber(Number(headers[i]), skip, reverse) == Some(Number(headers[i + 1])))
  }

  /** What an answer to a request by number is, on a chain with the head `head`: it
      starts at the number asked for, if that is marked, and goes on until a limit is
      reached or the next number is not marked. */
  ghost predicate NumberAnswer(headers: seq<Header>, head: Header, q: Query, size: Header -> nat)
    requires q.origin.ByNumber?
  {
    && |headers| <= q.amount && |headers| <= MAX_HEADER_FETCH
    && Numbered(headers, head, q.origin.number, q.skip, q.reverse)
    && (headers != [] ==> Bytes(headers[..|headers| - 1], size) < SOFT_RESPONSE_LIMIT)
    && (q.origin.number <= Number(head) && 0 < ToInt(q.amount) ==> headers != [])
    && (headers != [] ==>
          || |headers| == q.amount
          || |headers| == MAX_HEADER_FETCH
          || Bytes(headers, size) >= SOFT_RESPONSE_LIMIT
          || var next := NextNumber(Number(headers[|headers| - 1]), q.skip, q.reverse);
             next.None? || next.value > Number(head))
  }

  lemma ExtendNumbered(hs: seq<Header>, h: Header, head: Header, n: uint64, skip: uint64, reverse: bool)
    requires Numbered(hs, head, n, skip, reverse) && IsAncestor(h, head) && Number(h) < UINT64
    requires hs == [] ==> Number(h) == n
    requires hs != [] ==> NextNumber(Number(hs[|hs| - 1]), skip, reverse) == Some(Number(h))
    ensures Numbered(hs + [h], head, n, skip, reverse)
  {
    hide NextNumber, IsAncestor, Number;
  }

  /** The answer to a request by number. */
  method AnswerByNumber(hc: HeaderChain, q: Query, size: Header -> nat) returns (headers: seq<Header>)
    requires Fits(hc) && q.origin.ByNumber?
    ensures NumberAnswer(headers, hc.current, q, size)
    ensures Line(headers, hc.headers, q.skip, q.reverse) <==> QueryFits(q, |headers|)
  {
    hide QueryFits, Fits, Bytes, NextNumber, IsAncestor, Line, NoWrap, Numbered, Number;
    headers := [];
    EmptyLine(hc.headers, q.skip, q.reverse, size);
    NoneNumbered(hc.current, q.origin.number, q.skip, q.reverse);
    var bytes, unknown, number := 0, false, q.origin.number;
    while !unknown && |headers| < ToInt(q.amount) && bytes < SOFT_RESPONSE_LIMIT && |headers| < MAX_HEADER_FETCH
      invariant |headers| <= MAX_HEADER_FETCH && (headers != [] ==> |headers| <= ToInt(q.amount))
      invariant Numbered(headers, hc.current, q.origin.number, q.skip, q.reverse)
      invariant bytes == Bytes(headers, size)
      invariant headers == [] ==> number == q.origin.number && !unknown
      invariant headers != [] ==> Bytes(headers[..|headers| - 1], size) < SOFT_RESPONSE_LIMIT
      invariant headers != [] ==> Number(headers[|headers| - 1]) < UINT64
      invariant headers != [] ==> NextNumber(Number(headers[|headers| - 1]), q.skip, q.reverse)
                                  == if unknown then None else Some(number)
      decreases MAX_HEADER_FETCH - |headers|
    {
      MarkedIsStored(hc, number);
      if number !in hc.canon {
        break;
      }
      BytesOfMore(headers, hc.canon[number], size);
      ExtendNumbered(headers, hc.canon[number], hc.current, q.origin.number, q.skip, q.reverse);
      headers := headers + [hc.canon[number]];
      bytes := bytes + size(hc.canon[number]);
      var next := NextNumber(number, q.skip, q.reverse);
      if next.Some? {
        number := next.value;
      } else {
        unknown := true;
      }
    }
    MarkedIsStored(hc, number);
    NumberAnswerIsLineExactlyWhen(headers, hc, q, size);
  }

  lemma NoneNumbered(head: Header, n: uint64, skip: uint64, reverse: bool)
    ensures Numbered([], head, n, skip, reverse)
  {
  }

  /** The first `k` numbers of a request by number are reached without wrapping around. */
  predicate QueryFits(q: Query, k: nat)
    requires q.origin.ByNumber?
  {
    k > 1 ==> if q.reverse then q.skip + 1 < UINT64 else q.origin.number + (k - 1) * (q.skip + 1) < UINT64
  }

  lemma StepsMonotone(a: nat, b: nat, step: nat)
    requires a <= b
    ensures a * step <= b * step && (a + 1) * step == a * step + step
  {
  }

  /** Up to the first wrap the numbers of an answer towards the head grow evenly. */
  lemma {:induction false} EvenNumbers(headers: seq<Header>, head: Header, q: Query, size: Header -> nat, i: nat)
    requires q.origin.ByNumber? && NumberAnswer(headers, head, q, size) && !q.reverse && i < |headers|
    requires (forall j :: 0 <= j < i ==> NoWrap(Number(headers[j]), q.skip, false)) || QueryFits(q, i + 1)
    ensures Number(headers[i]) == q.origin.number + i * (q.skip + 1)
  {
    hide Bytes;
    if i > 0 {
      StepsMonotone(i - 1, i, q.skip + 1);
      EvenNumbers(headers, head, q, size, i - 1);
      assert NextNumber(Number(headers[i - 1]), q.skip, q.reverse) == Some(Number(headers[i - 1 + 1]));
    }
  }

  /** No step of an answer wraps around exactly when the last one does not, which the
      request and the length of the answer decide. */
  lemma NoWrapExactlyWhen(headers: seq<Header>, head: Header, q: Query, size: Header -> nat)
    requires q.origin.ByNumber? && NumberAnswer(headers, head, q, size)
    ensures (forall i :: 0 <= i < |headers| - 1 ==> NoWrap(Number(headers[i]), q.skip, q.reverse))
            <==> QueryFits(q, |headers|)
  {
    hide Bytes, NextNumber;
    var k := |headers|;
    if k > 1 {
      if q.reverse {
        assert NoWrap(Number(headers[0]), q.skip, true) <==> q.skip + 1 < UINT64;
      } else {
        StepsMonotone(k - 2, k - 1, q.skip + 1);
        if forall i :: 0 <= i < k - 1 ==> NoWrap(Number(headers[i]), q.skip, q.reverse) {
          EvenNumbers(headers, head, q, size, k - 2);
          assert NoWrap(Number(headers[k - 2]), q.skip, q.reverse);
        }
        if QueryFits(q, k) {
          forall i | 0 <= i < k - 1 ensures NoWrap(Number(headers[i]), q.skip, q.reverse) {
            StepsMonotone(i, k - 1, q.skip + 1);
            StepsMonotone(i + 1, k - 1, q.skip + 1);
            EvenNumbers(headers, head, q, size, i);
          }
        }
      }
    }
  }

  /** An answer by number lies on one line of ancestry, in steps of `skip + 1`, exactly
      when the request can be stepped through that far without wrapping around. */
  lemma NumberAnswerIsLineExactlyWhen(headers: seq<Header>, hc: HeaderChain, q: Query, size: Header -> nat)
    requires Fits(hc) && q.origin.ByNumber? && NumberAnswer(headers, hc.current, q, size)
    ensures Line(headers, hc.headers, q.skip, q.reverse) <==> QueryFits(q, |headers|)
  {
    hide Bytes, NextNumber, Step, NoWrap, QueryFits;
    NoWrapExactlyWhen(headers, hc.current, q, size);
    forall i | 0 <= i < |headers| ensures headers[i] in hc.headers {
      ClosedHasAncestors(hc.headers, hc.current, Number(headers[i]));
    }
    if Line(headers, hc.headers, q.skip, q.reverse) {
      forall i | 0 <= i < |headers| - 1 ensures NoWrap(Number(headers[i]), q.skip, q.reverse) {
        assert Step(headers[i], headers[i + 1], q.skip, q.reverse);
        StepOfAnswer(headers, hc, q, size, i);
      }
    }
    if forall i :: 0 <= i < |headers| - 1 ==> NoWrap(Number(headers[i]), q.skip, q.reverse) {
      forall i | 0 <= i < |headers| - 1 ensures Step(headers[i], headers[i + 1], q.skip, q.reverse) {
        assert NoWrap(Number(headers[i]), q.skip, q.reverse);
        StepOfAnswer(headers, hc, q, size, i);
      }
    }
  }

  lemma StepOfAnswer(headers: seq<Header>, hc: HeaderChain, q: Query, size: Header -> nat, i: nat)
    requires Fits(hc) && q.origin.ByNumber? && NumberAnswer(headers, hc.current, q, size) && i < |headers| - 1
    ensures Step(headers[i], headers[i + 1], q.skip, q.reverse) <==> NoWrap(Number(headers[i]), q.skip, q.reverse)
  {
    hide Bytes, NextNumber, Step, NoWrap;
    assert IsAncestor(headers[i], hc.current) && IsAncestor(headers[i + 1], hc.current);
    assert NextNumber(Number(headers[i]), q.skip, q.reverse) == Some(Number(headers[i + 1]));
    NumberStepExactlyWhen(hc.current, Number(headers[i]), q.skip, q.reverse);
  }

  /** A skip of 2^64 - 1 wraps around to no step at all: the responder sends the one
      header again and again, until a limit is reached. */
  lemma FullSkipRepeats(headers: seq<Header>, head: Header, q: Query, size: Header -> nat)
    requires q.origin.ByNumber? && q.skip == UINT64 - 1 && NumberAnswer(headers, head, q, size)
    ensures forall n: uint64 :: NextNumber(n, q.skip, q.reverse) == Some(n)
    ensures forall i :: 0 <= i < |headers| ==> headers[i] == AncestorAt(head, q.origin.number)
    ensures headers != [] ==>
              |headers| == q.amount || |headers| == MAX_HEADER_FETCH || Bytes(headers, size) >= SOFT_RESPONSE_LIMIT
  {
    hide Bytes, NextNumber, AncestorAt;
    forall n: uint64 ensures NextNumber(n, q.skip, q.reverse) == Some(n) {
      NoStep(n, q.reverse);
    }
    forall i | 0 <= i < |headers| ensures headers[i] == AncestorAt(head, q.origin.number) {
      SameNumber(headers, head, q, size, i);
    }
    if headers != [] {
      SameNumber(headers, head, q, size, |headers| - 1);
    }
  }

  lemma NoStep(n: uint64, reverse: bool)
    ensures NextNumber(n, UINT64 - 1, reverse) == Some(n)
  {
  }

  lemma {:induction false} SameNumber(headers: seq<Header>, head: Header, q: Query, size: Header -> nat, i: nat)
    requires q.origin.ByNumber? && q.skip == UINT64 - 1 && NumberAnswer(headers, head, q, size) && i < |headers|
    ensures Number(headers[i]) == q.origin.number <= Number(head) && IsAncestor(headers[i], head)
  {
    hide Bytes, NextNumber;
    if i > 0 {
      SameNumber(headers, head, q, size, i - 1);
      NoStep(Number(headers[i - 1]), q.reverse);
      assert NextNumber(Number(headers[i - 1]), q.skip, q.reverse) == Some(Number(headers[i - 1 + 1]));
    }
  }
}
