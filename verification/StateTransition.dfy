/** Applying one transaction: prepaid gas, the virtual machine, the refund, the model
    authors, the coinbase, and the upload quota. */
module StateTransition {
  import opened Options
  import opened Words
  import opened Balances
  import opened ModelGas
  import opened Pools

  const TX_GAS: nat := 21000
  const TX_GAS_CREATION: nat := 53000
  const UPLOAD_GAS: nat := 277777
  const DATA_ZERO_GAS: nat := 4
  const DATA_NONZERO_FRONTIER: nat := 68
  const DATA_NONZERO_EIP2028: nat := 16
  const SEEDING_BLOCKS: int := 6
  const PER_UPLOAD_BYTES: uint64 := 512 * 1024

  // ---------------------------------------------------------------- intrinsic gas

  function NonZero(data: seq<bv8>): nat {
    if data == [] then 0 else NonZero(data[..|data| - 1]) + (if data[|data| - 1] != 0 then 1 else 0)
  }

  function BaseGas(creation: bool, upload: bool, homestead: bool): nat {
    if creation && homestead then TX_GAS_CREATION else if upload then UPLOAD_GAS else TX_GAS
  }

  /** The price of a message in unbounded arithmetic. */
  function Price(data: seq<bv8>, creation: bool, upload: bool, homestead: bool, eip2028: bool): nat {
    BaseGas(creation, upload, homestead)
    + NonZero(data) * (if eip2028 then DATA_NONZERO_EIP2028 else DATA_NONZERO_FRONTIER)
    + (|data| - NonZero(data)) * DATA_ZERO_GAS
  }

  /** What a message of each kind costs without data, and what every byte adds. */
  lemma PriceOfOneMoreByte(data: seq<bv8>, b: bv8, creation: bool, upload: bool, homestead: bool, eip2028: bool)
    ensures Price([], creation, upload, homestead, eip2028)
            == if creation && homestead then 53000 else if upload then 277777 else 21000
    ensures Price(data + [b], creation, upload, homestead, eip2028)
            == Price(data, creation, upload, homestead, eip2028)
               + (if b == 0 then 4 else if eip2028 then 16 else 68)
  {
    assert (data + [b])[..|data|] == data;
  }

  lemma TimesMonotone(a: nat, b: nat, unit: nat)
    requires a <= b
    ensures a * unit <= b * unit
  {
  }

  /** Dividing what is left tells whether a product still fits. */
  lemma FitsByDivision(room: nat, unit: nat, count: nat)
    requires unit > 0
    ensures room / unit < count <==> room < count * unit
  {
    var q := room / unit;
    assert room == q * unit + room % unit;
    if q < count {
      TimesMonotone(q + 1, count, unit);
    } else {
      TimesMonotone(count, q, unit);
    }
  }

  /** The two divisions reject exactly the messages whose price does not fit in 64 bits. */
  method IntrinsicGas(data: seq<bv8>, creation: bool, upload: bool, homestead: bool, eip2028: bool)
    returns (ok: bool, gas: uint64)
    requires |data| < UINT64
    ensures ok <==> Price(data, creation, upload, homestead, eip2028) < UINT64
    ensures ok ==> gas == Price(data, creation, upload, homestead, eip2028)
  {
    gas := if creation && homestead then TX_GAS_CREATION else if upload then UPLOAD_GAS else TX_GAS;
    if |data| > 0 {
      var nz := 0;
      for i := 0 to |data|
        invariant nz == NonZero(data[..i]) <= i
      {
        assert data[..i + 1][..i] == data[..i];
        if data[i] != 0 {
          nz := nz + 1;
        }
      }
      assert data[..|data|] == data;
      var nonZeroGas := if eip2028 then DATA_NONZERO_EIP2028 else DATA_NONZERO_FRONTIER;
      FitsByDivision(UINT64 - 1 - gas, nonZeroGas, nz);
      if (UINT64 - 1 - gas) / nonZeroGas < nz {
        return false, 0;
      }
      gas := gas + nz * nonZeroGas;
      var z := |data| - nz;
      FitsByDivision(UINT64 - 1 - gas, DATA_ZERO_GAS, z);
      if (UINT64 - 1 - gas) / DATA_ZERO_GAS < z {
        return false, 0;
      }
      gas := gas + z * DATA_ZERO_GAS;
    }
    ok := true;
  }

  // ---------------------------------------------------------------- the world

  /** The part of the state database that the accounting reads and writes. */
  datatype World = World(
    balances: Balances,
    nonces: map<Address, uint64>,
    uploads: map<Address, uint64>,   // bytes still to be uploaded
    nums: map<Address, nat>,         // block number of creation or of upload completion
    refund: uint64)                  // refund counter

  class StateDB {
    var w: World

    constructor (world: World)
      ensures w == world
    {
      w := world;
    }
  }

  datatype Message = Message(to: Option<Address>, from: Address, nonce: uint64, value: nat,
                             gasLimit: uint64, gasPrice: nat, data: seq<bv8>, skipAccountChecks: bool)

  datatype VmError = NoError | ErrRuntime | ErrInsufficientBalance | ErrOutOfGas | ErrOther

  datatype VmResult = VmResult(world: World, gas: uint64, modelGas: map<Address, nat>, err: VmError)

  /** The virtual machine, the caller included. */
  type Vm = (World, uint64) -> VmResult

  /** The machine neither creates nor destroys balance and returns no more gas than it
      was given. */
  ghost predicate Conservative(vm: Vm) {
    forall w, g {:trigger vm(w, g)} :: Total(vm(w, g).world.balances) == Total(w.balances) && vm(w, g).gas <= g
  }

  /** What a block gives every transaction.  `meta` is the raw size in the metadata of a
      model or input contract, None if the code is neither; `iterate` is the order in
      which a map is walked. */
  datatype Env = Env(
    coinbase: Address, blockNumber: nat, blocked: bool, homestead: bool, istanbul: bool,
    paysOnOutOfGas: bool, meta: Address -> Option<uint64>, downloads: bool,
    iterate: map<Address, nat> -> seq<Address>)

  ghost predicate Iterates(env: Env) {
    forall m {:trigger env.iterate(m)} :: IsOrder(env.iterate(m), m)
  }

  function UploadOf(w: World, a: Address): uint64 {
    if a in w.uploads then w.uploads[a] else 0
  }

  function NumOf(w: World, a: Address): nat {
    if a in w.nums then w.nums[a] else 0
  }

  function NonceOf(w: World, a: Address): uint64 {
    if a in w.nonces then w.nonces[a] else 0
  }

  /** The message is one step of an upload to its target. */
  predicate Uploading(msg: Message, w: World) {
    msg.to.Some? && msg.value == 0 && UploadOf(w, msg.to.value) > 0
  }

  /** The quota a message is charged before it runs. */
  function QuotaCost(msg: Message, w: World): uint64 {
    if Uploading(msg, w) then Min(PER_UPLOAD_BYTES, UploadOf(w, msg.to.value)) else 0
  }

  // ---------------------------------------------------------------- settlement

  /** Gas handed back: a refund of at most half the gas used, on top of what is left. */
  function GasBack(limit: uint64, left: uint64, counter: uint64): nat
    requires left <= limit
  {
    left + Min((limit - left) / 2, counter)
  }

  /** The balances after a message has been paid for: refund to the sender, rewards to
      the model authors, the rest to the coinbase. */
  ghost function Settled(b: Balances, from: Address, coinbase: Address, limit: uint64, back: nat, price: nat,
                         rewards: map<Address, nat>): Balances
  {
    AddBalance(Paid(AddBalance(b, from, Cost(back, price)), rewards, price), coinbase,
              Cost(limit - back - Total(rewards), price))
  }

  /** Settlement hands out exactly the prepaid gas, whoever the parties are. */
  lemma SettlementConserves(b: Balances, from: Address, coinbase: Address, limit: uint64, back: nat, price: nat,
                            rewards: map<Address, nat>)
    ensures Total(Settled(b, from, coinbase, limit, back, price, rewards)) == Total(b) + Cost(limit, price)
  {
    hide Total, Paid, AddBalance, Cost;
    var b1 := AddBalance(b, from, Cost(back, price));
    TotalAfterAdd(b, from, Cost(back, price));
    PaidTotal(b1, rewards, price);
    TotalAfterAdd(Paid(b1, rewards, price), coinbase, Cost(limit - back - Total(rewards), price));
    CostSum(back, Total(rewards), price);
    CostSum(back + Total(rewards), limit - back - Total(rewards), price);
  }

  /** And every party gets its share: the sender the gas handed back, an author its
      model gas, the coinbase the rest; shares add up where parties coincide. */
  lemma SettlementShares(b: Balances, from: Address, coinbase: Address, limit: uint64, back: nat, price: nat,
                         rewards: map<Address, nat>, a: Address)
    ensures BalanceOf(Settled(b, from, coinbase, limit, back, price, rewards), a)
            == BalanceOf(b, a)
               + (if a == from then Cost(back, price) else 0)
               + (if a in rewards then Cost(rewards[a], price) else 0)
               + (if a == coinbase then Cost(limit - back - Total(rewards), price) else 0)
  {
    hide Total, Cost;
  }

  // ---------------------------------------------------------------- what a message does

  /** The world the virtual machine starts in: gas prepaid, nonce raised for a call. */
  function Entered(w: World, msg: Message): World {
    var paid := w.(balances := SubBalance(w.balances, msg.from, Cost(msg.gasLimit, msg.gasPrice)));
    if msg.to.None? then paid else paid.(nonces := paid.nonces[msg.from := Add64(NonceOf(paid, msg.from), 1)])
  }

  predicate NonceOk(w: World, msg: Message) {
    msg.skipAccountChecks || (NonceOf(w, msg.from) == msg.nonce && msg.nonce + 1 < UINT64)
  }

  predicate UploadReady(w: World, msg: Message, env: Env) {
    Uploading(msg, w) ==> 0 < NumOf(w, msg.to.value) <= env.blockNumber - SEEDING_BLOCKS
  }

  function GasPrice(w: World, msg: Message, env: Env): nat {
    Price(msg.data, msg.to.None?, Uploading(msg, w), env.homestead, env.istanbul)
  }

  /** What the virtual machine makes of the message, if it gets to run. */
  function Ran(w: World, msg: Message, env: Env, vm: Vm): VmResult {
    var w1 := Entered(w, msg);
    var price := GasPrice(w1, msg, env);
    vm(w1, if price <= msg.gasLimit then msg.gasLimit - price else 0)
  }

  /** The upload step after a run without error can be carried out. */
  predicate UploadOk(w: World, msg: Message, env: Env) {
    Uploading(msg, w) ==> env.meta(msg.to.value).Some? && env.downloads
  }

  /** The world after one upload step: the quota is taken off, and the step that
      completes the upload records the block. */
  function Uploaded(w: World, msg: Message, env: Env): World {
    if !Uploading(msg, w) then w else
    var a := msg.to.value;
    var remain := UploadOf(w, a) - QuotaCost(msg, w);
    var w1 := w.(uploads := w.uploads[a := remain]);
    if remain == 0 then w1.(nums := w1.nums[a := env.blockNumber]) else w1
  }

  /** The author rewards of a run. */
  function Rewards(v: VmResult, env: Env): map<Address, nat> {
    if v.err.NoError? || (env.paysOnOutOfGas && v.err.ErrOutOfGas?) then Eligible(v.modelGas) else map[]
  }

  function Back(msg: Message, v: VmResult): nat
    requires v.gas <= msg.gasLimit
  {
    GasBack(msg.gasLimit, v.gas, v.world.refund)
  }

  /** Exactly the messages that get through the checks before anything is paid. */
  predicate PreChecks(w: World, poolGas: uint64, poolQuota: uint64, msg: Message, env: Env) {
    && NonceOk(w, msg) && UploadReady(w, msg, env)
    && QuotaCost(msg, w) <= poolQuota
    && Cost(msg.gasLimit, msg.gasPrice) <= BalanceOf(w.balances, msg.from)
    && msg.gasLimit <= poolGas
  }

  /** Exactly the messages that reach the virtual machine. */
  predicate Enters(w: World, poolGas: uint64, poolQuota: uint64, msg: Message, env: Env) {
    && PreChecks(w, poolGas, poolQuota, msg, env)
    && GasPrice(Entered(w, msg), msg, env) <= msg.gasLimit
    && msg.value <= BalanceOf(Entered(w, msg).balances, msg.from)
    && !env.blocked
  }

  /** Exactly the messages that are applied. */
  ghost predicate Accepts(w: World, poolGas: uint64, poolQuota: uint64, msg: Message, env: Env, vm: Vm) {
    && Enters(w, poolGas, poolQuota, msg, env)
    && var v := Ran(w, msg, env, vm);
       && !v.err.ErrRuntime? && !v.err.ErrInsufficientBalance?
       && (v.err.NoError? ==> UploadOk(v.world, msg, env))
       && v.gas <= msg.gasLimit
       && Total(Rewards(v, env)) <= msg.gasLimit - Back(msg, v)
  }

  /** The messages that reach the virtual machine, in terms of accounts and pools. */
  lemma EntersExactlyWhen(w: World, poolGas: uint64, poolQuota: uint64, msg: Message, env: Env)
    ensures Enters(w, poolGas, poolQuota, msg, env) <==>
              var upload := msg.to.Some? && msg.value == 0 && UploadOf(w, msg.to.value) > 0;
              var prepaid := msg.gasLimit * msg.gasPrice;
              && (msg.skipAccountChecks || (msg.nonce == NonceOf(w, msg.from) && msg.nonce < UINT64 - 1))
              && (upload ==> NumOf(w, msg.to.value) > 0 && NumOf(w, msg.to.value) + 6 <= env.blockNumber)
              && (upload ==> Min(524288, UploadOf(w, msg.to.value)) <= poolQuota)
              && msg.gasLimit <= poolGas
              && prepaid + msg.value <= BalanceOf(w.balances, msg.from)
              && Price(msg.data, msg.to.None?, upload, env.homestead, env.istanbul) <= msg.gasLimit
              && !env.blocked
  {
  }

  /** The world the virtual machine starts in: the sender has prepaid, its nonce is one
      higher for a call and as it was for a creation, and nothing else has changed. */
  lemma EnteredIs(w: World, msg: Message, a: Address)
    ensures var e := Entered(w, msg);
            && BalanceOf(e.balances, a)
               == BalanceOf(w.balances, a) - (if a == msg.from then msg.gasLimit * msg.gasPrice else 0)
            && NonceOf(e, a) == (if a == msg.from && msg.to.Some? then Add64(NonceOf(w, a), 1) else NonceOf(w, a))
            && e.uploads == w.uploads && e.nums == w.nums && e.refund == w.refund
  {
  }

  /** The messages that are applied, among those that reach the virtual machine. */
  lemma AcceptsExactlyWhen(w: World, poolGas: uint64, poolQuota: uint64, msg: Message, env: Env, vm: Vm)
    requires Enters(w, poolGas, poolQuota, msg, env) && Conservative(vm)
    ensures var v := Ran(w, msg, env, vm);
            var paid := v.err.NoError? || (env.paysOnOutOfGas && v.err.ErrOutOfGas?);
            && v.gas <= msg.gasLimit
            && (Accepts(w, poolGas, poolQuota, msg, env, vm) <==>
                  && !v.err.ErrRuntime? && !v.err.ErrInsufficientBalance?
                  && (v.err.NoError? && msg.to.Some? && msg.value == 0 && UploadOf(v.world, msg.to.value) > 0 ==>
                        env.meta(msg.to.value).Some? && env.downloads)
                  && (paid ==> Total(Eligible(v.modelGas)) <= msg.gasLimit - Back(msg, v)))
  {
    hide Eligible, Enters;
    assert Total(map[]) == 0;
  }

  /** What every account but the coinbase has after settlement. */
  lemma SettledBalance(msg: Message, env: Env, v: VmResult, a: Address)
    requires v.gas <= msg.gasLimit && a != env.coinbase
    ensures var paid := v.err.NoError? || (env.paysOnOutOfGas && v.err.ErrOutOfGas?);
            BalanceOf(Settled(v.world.balances, msg.from, env.coinbase, msg.gasLimit, Back(msg, v), msg.gasPrice,
                              Rewards(v, env)), a)
            == BalanceOf(v.world.balances, a)
               + (if a == msg.from then Back(msg, v) * msg.gasPrice else 0)
               + (if paid && a in v.modelGas && v.modelGas[a] <= 400000
                  then v.modelGas[a] * msg.gasPrice else 0)
  {
    hide Settled, Back, Total;
    SettlementShares(v.world.balances, msg.from, env.coinbase, msg.gasLimit, Back(msg, v), msg.gasPrice,
                     Rewards(v, env), a);
  }

  datatype Outcome = Rejected | Applied(usedGas: uint64, quota: uint64, refunded: uint64, err: VmError)

  class StateTransition {
    const gp: GasPool
    const qp: QuotaPool
    const db: StateDB
    const msg: Message
    var gas: uint64
    var initialGas: uint64
    var modelGas: map<Address, nat>

    constructor (gasPool: GasPool, quotaPool: QuotaPool, state: StateDB, message: Message)
      ensures gp == gasPool && qp == quotaPool && db == state && msg == message
    {
      gp, qp, db, msg := gasPool, quotaPool, state, message;
      gas, initialGas, modelGas := 0, 0, map[];
    }

    method PreQuotaCheck(env: Env) returns (ok: bool)
      modifies qp
      ensures ok <==> UploadReady(db.w, msg, env) && QuotaCost(msg, db.w) <= old(qp.quota)
      ensures qp.quota == if ok then old(qp.quota) - QuotaCost(msg, db.w) else old(qp.quota)
    {
      if Uploading(msg, db.w) {
        if NumOf(db.w, msg.to.value) <= 0 {
          return false;
        }
        if NumOf(db.w, msg.to.value) > env.blockNumber - SEEDING_BLOCKS {
          return false;
        }
        ok := qp.SubQuota(Min(PER_UPLOAD_BYTES, UploadOf(db.w, msg.to.value)));
        return;
      }
      ok := true;
    }

    method BuyGas() returns (ok: bool)
      modifies this, gp, db
      ensures ok <==>
                && Cost(msg.gasLimit, msg.gasPrice) <= BalanceOf(old(db.w).balances, msg.from)
                && msg.gasLimit <= old(gp.gas)
      ensures !ok ==> gp.gas == old(gp.gas) && db.w == old(db.w)
      ensures ok ==> gp.gas == old(gp.gas) - msg.gasLimit && gas == initialGas == msg.gasLimit
      ensures ok ==> db.w == old(db.w).(balances := SubBalance(old(db.w).balances, msg.from, Cost(msg.gasLimit,
                msg.gasPrice)))
    {
      var mgval := Cost(msg.gasLimit, msg.gasPrice);
      if BalanceOf(db.w.balances, msg.from) < mgval {
        return false;
      }
      ok := gp.SubGas(msg.gasLimit);
      if !ok {
        return;
      }
      gas := msg.gasLimit;
      initialGas := msg.gasLimit;
      db.w := db.w.(balances := SubBalance(db.w.balances, msg.from, mgval));
    }

    method PreCheck(env: Env) returns (ok: bool)
      modifies this, gp, qp, db
      ensures ok <==> PreChecks(old(db.w), old(gp.gas), old(qp.quota), msg, env)
      ensures !ok ==> gp.gas == old(gp.gas) && db.w == old(db.w) && qp.quota <= old(qp.quota)
      ensures ok ==> gp.gas == old(gp.gas) - msg.gasLimit && gas == initialGas == msg.gasLimit
      ensures ok ==> qp.quota == old(qp.quota) - QuotaCost(msg, old(db.w))
      ensures ok ==> db.w == old(db.w).(balances := SubBalance(old(db.w).balances, msg.from, Cost(msg.gasLimit,
                msg.gasPrice)))
    {
      if !msg.skipAccountChecks {
        var stNonce := NonceOf(db.w, msg.from);
        if stNonce < msg.nonce {
          return false;
        } else if stNonce > msg.nonce {
          return false;
        } else if Add64(stNonce, 1) < stNonce {
          return false;
        }
      }
      ok := PreQuotaCheck(env);
      if !ok {
        return;
      }
      ok := BuyGas();
    }

    /** Takes the quota of one upload step off the target; `request` is the download
        size then asked for, in 64-bit arithmetic. */
    method QuotaCalculate(env: Env) returns (ok: bool, quota: uint64, request: uint64)
      modifies db
      ensures ok <==> UploadOk(old(db.w), msg, env)
      ensures ok ==> quota == QuotaCost(msg, old(db.w)) && db.w == Uploaded(old(db.w), msg, env)
      ensures ok && Uploading(msg, old(db.w)) ==>
                request == Sub64(env.meta(msg.to.value).value, UploadOf(db.w, msg.to.value))
    {
      quota, request := 0, 0;
      if Uploading(msg, db.w) {
        var a := msg.to.value;
        var cur := UploadOf(db.w, a);
        quota := Min(PER_UPLOAD_BYTES, cur);
        var remain := cur - quota;
        db.w := db.w.(uploads := db.w.uploads[a := remain]);
        if remain == 0 {
          db.w := db.w.(nums := db.w.nums[a := env.blockNumber]);
        }
        var rawSize := env.meta(a);
        if rawSize.None? {
          return false, 0, 0;
        }
        request := Sub64(rawSize.value, remain);
        if !env.downloads {
          return false, 0, 0;
        }
      }
      ok := true;
    }

    /** Returns unused gas, with the capped refund, to the sender and to the pool. */
    method RefundGas() returns (ok: bool, refund: uint64)
      requires gas <= initialGas
      modifies this, gp, db
      ensures initialGas == old(initialGas)
      ensures gas == GasBack(old(initialGas), old(gas), old(db.w).refund) == old(gas) + refund <= initialGas
      ensures refund == Min((initialGas - old(gas)) / 2, old(db.w).refund)
      ensures db.w == old(db.w).(balances := AddBalance(old(db.w).balances, msg.from, Cost(gas, msg.gasPrice)))
      ensures ok <==> old(gp.gas) + gas < UINT64
      ensures ok ==> gp.gas == old(gp.gas) + gas
      ensures modelGas == old(modelGas)
    {
      refund := (initialGas - gas) / 2;
      if refund > db.w.refund {
        refund := db.w.refund;
      }
      gas := gas + refund;
      db.w := db.w.(balances := AddBalance(db.w.balances, msg.from, Cost(gas, msg.gasPrice)));
      ok := gp.AddGas(gas);
    }

    /** Applies the message. */
    method TransitionDb(vm: Vm, env: Env) returns (r: Outcome)
      requires Conservative(vm) && Iterates(env) && |msg.data| < UINT64
      modifies this, gp, qp, db
      ensures r.Applied? <==> Accepts(old(db.w), old(gp.gas), old(qp.quota), msg, env, vm)
      ensures r.Applied? ==> Total(db.w.balances) == Total(old(db.w).balances)
      ensures r.Applied? ==>
                var v := Ran(old(db.w), msg, env, vm);
                && v.gas <= msg.gasLimit
                && r.usedGas == msg.gasLimit - Back(msg, v)
                && gp.gas == old(gp.gas) - r.usedGas
                && db.w.balances == Settled(v.world.balances, msg.from, env.coinbase, msg.gasLimit, Back(msg,
                          v), msg.gasPrice, Rewards(v, env))
                && db.w == (if v.err.NoError? then Uploaded(v.world, msg, env) else v.world).(balances := db.w.balances)
                && qp.quota == old(qp.quota) - QuotaCost(msg, old(db.w))
                && r.quota == (if v.err.NoError? then QuotaCost(msg, v.world) else 0)
                && r.err == v.err
      // The refund is the counter, but at most half of the gas used.
      ensures r.Applied? ==>
                var v := Ran(old(db.w), msg, env, vm);
                && r.usedGas == msg.gasLimit - v.gas - r.refunded
                && r.refunded == Min((msg.gasLimit - v.gas) / 2, v.world.refund)
      // Everybody but the coinbase, to which the rest goes: the sender gets back the gas not
      // used, an author the model gas reported, if it is not too much and the run is paid.
      ensures r.Applied? ==>
                var v := Ran(old(db.w), msg, env, vm);
                var paid := v.err.NoError? || (env.paysOnOutOfGas && v.err.ErrOutOfGas?);
                forall a :: a != env.coinbase ==>
                  BalanceOf(db.w.balances, a) == BalanceOf(v.world.balances, a)
                    + (if a == msg.from then (msg.gasLimit - r.usedGas) * msg.gasPrice else 0)
                    + (if paid && a in v.modelGas && v.modelGas[a] <= 400000
                       then v.modelGas[a] * msg.gasPrice else 0)
      // A paid run that reports more model gas than was used is refused.
      ensures var v := Ran(old(db.w), msg, env, vm);
              var paid := v.err.NoError? || (env.paysOnOutOfGas && v.err.ErrOutOfGas?);
              paid && v.gas <= msg.gasLimit && Total(Eligible(v.modelGas)) > msg.gasLimit - Back(msg, v) ==> r.Rejected?
    {
      hide Total, Cost, Settled, Eligible, Uploaded, Entered, Enters, QuotaCost, Rewards, Back, GasPrice;
      ghost var w0 := db.w;
      var ok := Enter(env);
      if !ok {
        return Rejected;
      }
      var v := vm(db.w, gas);
      db.w, gas, modelGas := v.world, v.gas, v.modelGas;
      if v.err.ErrRuntime? || v.err.ErrInsufficientBalance? {
        return Rejected;
      }
      r := Settle(v, env);
      EnteredTotal(w0, msg);
      RewardsOf(v, env);
      if r.Applied? {
        ghost var paid := v.err.NoError? || (env.paysOnOutOfGas && v.err.ErrOutOfGas?);
        forall a | a != env.coinbase
          ensures BalanceOf(db.w.balances, a) == BalanceOf(v.world.balances, a)
                    + (if a == msg.from then (msg.gasLimit - r.usedGas) * msg.gasPrice else 0)
                    + (if paid && a in v.modelGas && v.modelGas[a] <= 400000
                       then v.modelGas[a] * msg.gasPrice else 0)
        {
          SettledBalance(msg, env, v, a);
        }
      }
    }

    /** Everything before the run: checks, prepaid gas, intrinsic gas, nonce. */
    method Enter(env: Env) returns (ok: bool)
      requires |msg.data| < UINT64
      modifies this, gp, qp, db
      ensures ok <==> Enters(old(db.w), old(gp.gas), old(qp.quota), msg, env)
      ensures ok ==> db.w == Entered(old(db.w), msg)
      ensures ok ==> GasPrice(db.w, msg, env) <= msg.gasLimit
                     && gas == msg.gasLimit - GasPrice(db.w, msg, env) && initialGas == msg.gasLimit
      ensures ok ==> msg.gasLimit <= old(gp.gas) && gp.gas == old(gp.gas) - msg.gasLimit
      ensures ok ==> QuotaCost(msg, old(db.w)) <= old(qp.quota) && qp.quota == old(qp.quota) - QuotaCost(msg, old(db.w))
    {
      hide Cost, Price, UploadReady, NonceOk;
      ok := PreCheck(env);
      if !ok {
        return;
      }
      var price;
      ok, price := IntrinsicGas(msg.data, msg.to.None?, Uploading(msg, db.w), env.homestead, env.istanbul);
      if !ok || gas < price {
        return false;
      }
      gas := gas - price;
      if msg.value > 0 && BalanceOf(db.w.balances, msg.from) < msg.value {
        return false;
      }
      if env.blocked {
        return false;
      }
      if msg.to.Some? {
        db.w := db.w.(nonces := db.w.nonces[msg.from := Add64(NonceOf(db.w, msg.from), 1)]);
      }
    }

    /** Everything after the run: quota, refund, authors, coinbase. */
    method Settle(v: VmResult, env: Env) returns (r: Outcome)
      requires Iterates(env) && db.w == v.world && modelGas == v.modelGas
      requires gas == v.gas <= initialGas == msg.gasLimit && gp.gas + msg.gasLimit < UINT64
      modifies this, gp, db
      ensures r.Applied? <==>
                && (v.err.NoError? ==> UploadOk(v.world, msg, env))
                && Total(Rewards(v, env)) <= msg.gasLimit - Back(msg, v)
      ensures r.Applied? ==>
                && r.usedGas == msg.gasLimit - Back(msg, v)
                && gp.gas == old(gp.gas) + Back(msg, v)
                && db.w.balances == Settled(v.world.balances, msg.from, env.coinbase, msg.gasLimit, Back(msg,
                          v), msg.gasPrice, Rewards(v, env))
                && Total(db.w.balances) == Total(v.world.balances) + Cost(msg.gasLimit, msg.gasPrice)
                && db.w == (if v.err.NoError? then Uploaded(v.world, msg, env) else v.world).(balances := db.w.balances)
                && r.quota == (if v.err.NoError? then QuotaCost(msg, v.world) else 0)
                && r.err == v.err
                && r.refunded == Min((msg.gasLimit - v.gas) / 2, v.world.refund)
                && r.usedGas == msg.gasLimit - v.gas - r.refunded
    {
      hide Total, Cost, Settled, Uploaded, UploadOk, Rewards, QuotaCost, Back;
      var ok, quota, request := true, 0, 0;
      UploadedFrame(v.world, msg, env);
      if v.err.NoError? {
        ok, quota, request := QuotaCalculate(env);
        if !ok {
          return Rejected;
        }
      }
      var refund;
      ok, refund := PayFees(v, env);
      if !ok {
        return Rejected;
      }
      SettlementConserves(v.world.balances, msg.from, env.coinbase, msg.gasLimit, Back(msg, v), msg.gasPrice,
                Rewards(v, env));
      r := Applied(initialGas - gas, quota, refund, v.err);
    }

    /** Refund, author rewards, coinbase fee. */
    method PayFees(v: VmResult, env: Env) returns (ok: bool, refund: uint64)
      requires Iterates(env) && modelGas == v.modelGas
      requires db.w.balances == v.world.balances && db.w.refund == v.world.refund
      requires gas == v.gas <= initialGas == msg.gasLimit && gp.gas + msg.gasLimit < UINT64
      modifies this, gp, db
      ensures ok <==> Total(Rewards(v, env)) <= msg.gasLimit - Back(msg, v)
      ensures ok ==> gas == Back(msg, v) <= initialGas == msg.gasLimit && gp.gas == old(gp.gas) + Back(msg, v)
      ensures ok ==> gas == v.gas + refund && refund == Min((msg.gasLimit - v.gas) / 2, v.world.refund)
      ensures ok ==> db.w == old(db.w).(balances :=
                Settled(v.world.balances, msg.from, env.coinbase, msg.gasLimit, Back(msg, v), msg.gasPrice,
                          Rewards(v, env)))
    {
      hide Total, Paid, Cost, Eligible;
      ok, refund := RefundGas();
      assert ok;
      var gu: nat := initialGas - gas;
      PaidNothing(db.w.balances, msg.gasPrice);
      if v.err.NoError? || (env.paysOnOutOfGas && v.err.ErrOutOfGas?) {
        var b;
        assert IsOrder(env.iterate(modelGas), modelGas);
        ok, gu, b := ModelGasCalculate(modelGas, env.iterate(modelGas), gu, msg.gasPrice, db.w.balances);
        if !ok {
          return;
        }
        db.w := db.w.(balances := b);
      }
      db.w := db.w.(balances := AddBalance(db.w.balances, env.coinbase, Cost(gu, msg.gasPrice)));
    }
  }

  lemma RewardsOf(v: VmResult, env: Env)
    ensures v.err.NoError? || (env.paysOnOutOfGas && v.err.ErrOutOfGas?) ==> Rewards(v, env) == Eligible(v.modelGas)
  {
  }

  lemma EnteredTotal(w: World, msg: Message)
    ensures Total(Entered(w, msg).balances) == Total(w.balances) - Cost(msg.gasLimit, msg.gasPrice)
  {
    hide Total, Cost;
    TotalAfterAdd(w.balances, msg.from, Cost(msg.gasLimit, msg.gasPrice));
  }

  lemma UploadedFrame(w: World, msg: Message, env: Env)
    ensures Uploaded(w, msg, env).balances == w.balances && Uploaded(w, msg, env).refund == w.refund
  {
  }
}
