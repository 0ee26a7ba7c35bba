/** Payment of model authors: the virtual machine reports model gas per author, and
    each author is paid out of the gas the transaction used, in the iteration order of
    a map, which is not determined. */
module ModelGas {
  import opened Balances

  const MODEL_GAS_UP_LIMIT: nat := 400000

  /** The entries that are paid; larger ones are skipped. */
  function Eligible(modelGas: map<Address, nat>): map<Address, nat> {
    map a | a in modelGas && modelGas[a] <= MODEL_GAS_UP_LIMIT :: modelGas[a]
  }

  /** An order in which a map may be iterated. */
  ghost predicate IsOrder(order: seq<Address>, m: map<Address, nat>) {
    && (forall i, j :: 0 <= i < j < |order| ==> order[i] != order[j])
    && (forall a :: a in order <==> a in m)
  }

  /** The balances after every eligible author has been paid. */
  ghost function Paid(b: Balances, eligible: map<Address, nat>, price: nat): Balances {
    map a | a in b.Keys + eligible.Keys :: BalanceOf(b, a) + (if a in eligible then Cost(eligible[a], price) else 0)
  }

  lemma {:induction false} TotalNonNegative(m: map<Address, nat>)
    ensures Total(m) >= 0
    decreases |m|
  {
    if m != map[] {
      var a :| a in m;
      TotalRemove(m, a);
      assert (m - {a}).Keys == m.Keys - {a};
      TotalNonNegative(m - {a});
    }
  }

  lemma PaidStep(b: Balances, done: map<Address, nat>, price: nat, a: Address, g: nat)
    requires a !in done
    ensures Paid(b, done[a := g], price) == AddBalance(Paid(b, done, price), a, Cost(g, price))
  {
  }

  /** Part of the map visited by the first `i` steps. */
  ghost function Visited(m: map<Address, nat>, order: seq<Address>, i: nat): map<Address, nat>
    requires i <= |order|
  {
    map a | a in order[..i] && a in m :: m[a]
  }

  /** Pays the authors in the given order.  Whatever the order, it succeeds exactly
      when the eligible gas fits into the gas used, and then the remaining gas and the
      balances are the same. */
  method ModelGasCalculate(modelGas: map<Address, nat>, order: seq<Address>, gasUsed: nat, price: nat,
      balances: Balances)
    returns (ok: bool, gu: nat, b: Balances)
    requires IsOrder(order, modelGas)
    ensures ok <==> Total(Eligible(modelGas)) <= gasUsed
    ensures ok ==> gu == gasUsed - Total(Eligible(modelGas)) && b == Paid(balances, Eligible(modelGas), price)
  {
    hide Eligible, Total, Paid, Visited, Cost, AddBalance;
    ghost var eligible := Eligible(modelGas);
    gu, b := gasUsed, balances;
    ghost var done: map<Address, nat> := map[];
    PaidNothing(balances, price);
    VisitedEnds(modelGas, order);
    for i := 0 to |order|
      invariant done == Visited(eligible, order, i)
      invariant gu == gasUsed - Total(done)
      invariant b == Paid(balances, done, price)
    {
      var a := order[i];
      assert a in order;
      var mgas := modelGas[a];
      EligibleAt(modelGas, a);
      VisitedStep(eligible, order, i);
      if mgas > MODEL_GAS_UP_LIMIT {
        continue;
      }
      TotalUpdate(done, a, mgas);
      PaidStep(balances, done, price, a, mgas);
      done := done[a := mgas];
      if gu < mgas {
        VisitedTotal(eligible, order, i + 1);
        return false, 0, b;
      }
      gu := gu - mgas;
      b := AddBalance(b, a, Cost(mgas, price));
    }
    ok := true;
  }

  lemma EligibleAt(modelGas: map<Address, nat>, a: Address)
    requires a in modelGas
    ensures a in Eligible(modelGas) <==> modelGas[a] <= MODEL_GAS_UP_LIMIT
    ensures a in Eligible(modelGas) ==> Eligible(modelGas)[a] == modelGas[a]
  {
  }

  lemma VisitedEnds(modelGas: map<Address, nat>, order: seq<Address>)
    requires IsOrder(order, modelGas)
    ensures Visited(Eligible(modelGas), order, 0) == map[]
    ensures Visited(Eligible(modelGas), order, |order|) == Eligible(modelGas)
  {
  }

  lemma VisitedStep(m: map<Address, nat>, order: seq<Address>, i: nat)
    requires i < |order| && forall i, j :: 0 <= i < j < |order| ==> order[i] != order[j]
    ensures order[i] !in Visited(m, order, i)
    ensures Visited(m, order, i + 1) == if order[i] in m
              then Visited(m, order, i)[order[i] := m[order[i]]] else Visited(m, order, i)
  {
    assert order[..i + 1] == order[..i] + [order[i]];
  }

  /** What has been visited weighs no more than the whole. */
  lemma {:induction false} VisitedTotal(m: map<Address, nat>, order: seq<Address>, i: nat)
    requires i <= |order| && forall i, j :: 0 <= i < j < |order| ==> order[i] != order[j]
    ensures Total(Visited(m, order, i)) <= Total(m)
    decreases |m|
  {
    SubmapTotal(Visited(m, order, i), m);
  }

  lemma {:induction false} SubmapTotal(part: map<Address, nat>, m: map<Address, nat>)
    requires forall a :: a in part ==> a in m && part[a] == m[a]
    ensures Total(part) <= Total(m)
    decreases |part|
  {
    if part == map[] {
      TotalNonNegative(m);
    } else {
      var a :| a in part;
      TotalRemove(part, a);
      TotalRemove(m, a);
      assert (part - {a}).Keys == part.Keys - {a};
      SubmapTotal(part - {a}, m - {a});
    }
  }

  lemma PaidNothing(b: Balances, price: nat)
    ensures Paid(b, map[], price) == b && Total(map[]) == 0 == Cost(0, price)
  {
  }

  /** The rewards paid out are the eligible gas at the gas price. */
  lemma {:induction false} PaidTotal(b: Balances, eligible: map<Address, nat>, price: nat)
    ensures Total(Paid(b, eligible, price)) == Total(b) + Cost(Total(eligible), price)
    decreases |eligible|
  {
    hide Paid, Total, Cost;
    if eligible == map[] {
      PaidNothing(b, price);
    } else {
      var a :| a in eligible;
      var rest := eligible - {a};
      assert rest.Keys == eligible.Keys - {a};
      assert rest[a := eligible[a]] == eligible;
      TotalRemove(eligible, a);
      PaidTotal(b, rest, price);
      PaidStep(b, rest, price, a, eligible[a]);
      TotalAfterAdd(Paid(b, rest, price), a, Cost(eligible[a], price));
      CostSum(eligible[a], Total(rest), price);
    }
  }
}
