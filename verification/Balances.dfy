/** Account balances and the sums taken over them. */
module Balances {

  type Address = nat

  /** Balances of the accounts that exist; any other account has balance zero. */
  type Balances = map<Address, int>

  function BalanceOf(b: Balances, a: Address): int {
    if a in b then b[a] else 0
  }

  function AddBalance(b: Balances, a: Address, amount: int): Balances {
    b[a := BalanceOf(b, a) + amount]
  }

  function SubBalance(b: Balances, a: Address, amount: int): Balances {
    b[a := BalanceOf(b, a) - amount]
  }

  /** What an amount of gas costs at a price. */
  function Cost(gas: int, price: int): int {
    gas * price
  }

  lemma CostSum(x: int, y: int, price: int)
    ensures Cost(x + y, price) == Cost(x, price) + Cost(y, price)
  {
  }

  /** The sum of all values of a map. */
  ghost function Total(m: map<Address, int>): int {
    if m == map[] then 0 else
    var a :| a in m;
    m[a] + Total(m - {a})
  }

  /** The sum does not depend on which entry is taken out first. */
  lemma {:induction false} TotalRemove(m: map<Address, int>, a: Address)
    requires a in m
    ensures Total(m) == m[a] + Total(m - {a})
    decreases |m|
  {
    var b :| b in m && Total(m) == m[b] + Total(m - {b});
    if b != a {
      assert |(m - {b}).Keys| < |m.Keys| && |(m - {a}).Keys| < |m.Keys| by {
        assert (m - {b}).Keys == m.Keys - {b} && (m - {a}).Keys == m.Keys - {a};
      }
      TotalRemove(m - {b}, a);
      TotalRemove(m - {a}, b);
      assert m - {b} - {a} == m - {a} - {b};
    }
  }

  lemma TotalUpdate(m: map<Address, int>, a: Address, v: int)
    ensures Total(m[a := v]) == Total(m) + v - BalanceOf(m, a)
  {
    TotalRemove(m[a := v], a);
    if a in m {
      TotalRemove(m, a);
      assert m[a := v] - {a} == m - {a};
    } else {
      assert m[a := v] - {a} == m;
    }
  }

  lemma TotalAfterAdd(b: Balances, a: Address, amount: int)
    ensures Total(AddBalance(b, a, amount)) == Total(b) + amount
    ensures Total(SubBalance(b, a, amount)) == Total(b) - amount
  {
    TotalUpdate(b, a, BalanceOf(b, a) + amount);
    TotalUpdate(b, a, BalanceOf(b, a) - amount);
  }

  /** A transfer moves value without creating or destroying any, also when sender and
      recipient are the same account. */
  lemma TransferConserves(b: Balances, sender: Address, recipient: Address, amount: int)
    ensures var t := AddBalance(SubBalance(b, sender, amount), recipient, amount);
            && Total(t) == Total(b)
            && (sender == recipient ==> BalanceOf(t, sender) == BalanceOf(b, sender))
            && (forall a :: a != sender && a != recipient ==> BalanceOf(t, a) == BalanceOf(b, a))
  {
    TotalAfterAdd(b, sender, amount);
    TotalAfterAdd(SubBalance(b, sender, amount), recipient, amount);
  }
}
