/** The gas and quota a block has left for its transactions. */
module Pools {
  import opened Words

  class GasPool {
    var gas: uint64

    constructor ()
      ensures gas == 0
    {
      gas := 0;
    }

    /** Where this answers false the program panics. */
    method AddGas(amount: uint64) returns (ok: bool)
      modifies this
      ensures ok <==> old(gas) + amount < UINT64
      ensures gas == if ok then old(gas) + amount else old(gas)
    {
      if gas > UINT64 - 1 - amount {
        return false;
      }
      gas := gas + amount;
      ok := true;
    }

    method SubGas(amount: uint64) returns (ok: bool)
      modifies this
      ensures ok <==> amount <= old(gas)
      ensures gas == if ok then old(gas) - amount else old(gas)
    {
      if gas < amount {
        return false;
      }
      gas := gas - amount;
      ok := true;
    }
  }

  class QuotaPool {
    var quota: uint64

    constructor (x: uint64)
      ensures quota == x
    {
      quota := x;
    }

    method SubQuota(amount: uint64) returns (ok: bool)
      modifies this
      ensures ok <==> amount <= old(quota)
      ensures quota == if ok then old(quota) - amount else old(quota)
    {
      if quota < amount {
        return false;
      }
      quota := quota - amount;
      ok := true;
    }
  }
}
