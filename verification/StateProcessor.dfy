/** Processing a block: its transactions one after the other, against one gas pool and
    one quota pool. */
module StateProcessor {
  import opened Options
  import opened Words
  import opened Balances
  import opened Pools
  import opened StateTransition

  /** The virtual machine, for each message of the block. */
  type Machine = Message -> Vm

  ghost predicate AllConservative(run: Machine) {
    forall m :: Conservative(run(m))
  }

  /** A run that may be an upload step leaves its target with an upload whose next step
      costs no more quota: the pending upload has not grown, or a full step was pending
      before. */
  ghost predicate Calm(run: Machine) {
    forall m, w, g {:trigger run(m)(w, g)} :: ChargeBounded(m, w, run(m)(w, g).world)
  }

  predicate ChargeBounded(m: Message, w: World, w': World) {
    m.to.Some? && m.value == 0 ==>
      UploadOf(w', m.to.value) <= UploadOf(w, m.to.value) || UploadOf(w, m.to.value) >= PER_UPLOAD_BYTES
  }

  /** Exactly when the quota found after a run is covered by the quota taken before it. */
  lemma ChargeCoveredExactlyWhen(m: Message, w: World, w': World)
    requires m.to.Some? && m.value == 0
    ensures QuotaCost(m, w') <= QuotaCost(m, w) <==> ChargeBounded(m, w, w')
  {
  }

  datatype BlockOutcome =
    | NoQuota                                     // the block starts above its quota
    | TxRejected(index: nat)
    | LateQuota(index: nat)                       // the check after a transaction fired
    | Processed(usedGas: nat, quotaUsed: uint64)

  datatype TxStatus = Ok | Refused | Late

  // ---------------------------------------------------------------- what a block does

  /** Where processing stands: the world, what is left in the two pools, the header's
      used quota and the cumulative gas. */
  datatype Tally = Tally(world: World, gas: uint64, quota: uint64, used: uint64, usedGas: nat)

  /** The quota an applied message adds to the header, read off after the run. */
  function Charge(w: World, msg: Message, env: Env, vm: Vm): uint64 {
    var v := Ran(w, msg, env, vm);
    if v.err.NoError? then QuotaCost(msg, v.world) else 0
  }

  /** The world an applied message leaves. */
  ghost function Left(w: World, msg: Message, env: Env, vm: Vm): World
    requires Ran(w, msg, env, vm).gas <= msg.gasLimit
  {
    var v := Ran(w, msg, env, vm);
    (if v.err.NoError? then Uploaded(v.world, msg, env) else v.world).(balances :=
      Settled(v.world.balances, msg.from, env.coinbase, msg.gasLimit, Back(msg, v), msg.gasPrice, Rewards(v, env)))
  }

  ghost predicate Admits(t: Tally, msg: Message, env: Env, run: Machine) {
    Accepts(t.world, t.gas, t.quota, msg, env, run(msg))
  }

  /** The tally after an admitted message, before the late check. */
  ghost function Next(t: Tally, msg: Message, env: Env, run: Machine): Tally
    requires Admits(t, msg, env, run)
  {
    var used := msg.gasLimit - Back(msg, Ran(t.world, msg, env, run(msg)));
    Tally(Left(t.world, msg, env, run(msg)), t.gas - used, t.quota - QuotaCost(msg, t.world),
          Add64(t.used, Charge(t.world, msg, env, run(msg))), t.usedGas + used)
  }

  ghost function StatusOf(t: Tally, msg: Message, quota: uint64, env: Env, run: Machine): TxStatus {
    if !Admits(t, msg, env, run) then Refused
    else if Charge(t.world, msg, env, run(msg)) > 0 && quota < Next(t, msg, env, run).used then Late
    else Ok
  }

  /** The tally after the first `n` messages, if they all pass. */
  ghost function Prefix(t: Tally, txs: seq<Message>, n: nat, quota: uint64, env: Env, run: Machine): Option<Tally>
    requires n <= |txs|
  {
    if n == 0 then Some(t) else
    var p := Prefix(t, txs, n - 1, quota, env, run);
    if p.Some? && StatusOf(p.value, txs[n - 1], quota, env, run).Ok? then Some(Next(p.value, txs[n - 1], env, run))
    else None
  }

  lemma PrefixEmpty(t: Tally, txs: seq<Message>, quota: uint64, env: Env, run: Machine)
    ensures Prefix(t, txs, 0, quota, env, run) == Some(t)
  {
  }

  /** One unfolding of a prefix. */
  lemma PrefixStep(t: Tally, txs: seq<Message>, n: nat, quota: uint64, env: Env, run: Machine)
    requires 0 < n <= |txs|
    ensures var p, r := Prefix(t, txs, n - 1, quota, env, run), Prefix(t, txs, n, quota, env, run);
            && (r.Some? <==> p.Some? && StatusOf(p.value, txs[n - 1], quota, env, run).Ok?)
            && (r.Some? ==> Admits(p.value, txs[n - 1], env, run) && r == Some(Next(p.value, txs[n - 1], env, run)))
  {
    hide Next, Admits;
  }

  function Start(w: World, gasLimit: uint64, quota: uint64, quotaUsed: uint64): Tally
    requires quotaUsed <= quota
  {
    Tally(w, gasLimit, quota - quotaUsed, quotaUsed, 0)
  }

  /** With a calm machine the quota found after the run is at most the quota taken. */
  lemma ChargeWithinPool(w: World, m: Message, env: Env, run: Machine)
    requires Calm(run)
    ensures Charge(w, m, env, run(m)) <= QuotaCost(m, w)
  {
    if m.to.Some? && m.value == 0 {
      var w1 := Entered(w, m);
      var v := Ran(w, m, env, run(m));
      assert ChargeBounded(m, w1, v.world);
      ChargeCoveredExactlyWhen(m, w1, v.world);
      assert QuotaCost(m, w1) == QuotaCost(m, w);
    }
  }

  /** With a calm machine the quota pool covers every charge, so an admitted message
      passes the late check, and no quota arithmetic wraps around. */
  lemma CalmNeverLate(t: Tally, msg: Message, quota: uint64, env: Env, run: Machine)
    requires Calm(run) && t.quota + t.used <= quota && Admits(t, msg, env, run)
    ensures StatusOf(t, msg, quota, env, run).Ok?
    ensures var n := Next(t, msg, env, run);
            n.used == t.used + Charge(t.world, msg, env, run(msg)) && n.quota + n.used <= quota
  {
    ChargeWithinPool(t.world, msg, env, run);
    hide Calm, Charge, Left, Ran, Back, QuotaCost;
    hide Total, Rewards;
  }

  /** The quota sum of a block does not wrap around from here on: because the machine is
      calm and the pool covers the rest, or because the quota leaves room for a step. */
  ghost predicate NoWrap(t: Tally, quota: uint64, run: Machine) {
    t.used <= quota && ((Calm(run) && t.quota + t.used <= quota) || quota + PER_UPLOAD_BYTES < UINT64)
  }

  lemma ChargeIsOneStep(w: World, msg: Message, env: Env, vm: Vm)
    ensures Charge(w, msg, env, vm) <= PER_UPLOAD_BYTES
  {
  }

  lemma NextUsed(t: Tally, msg: Message, env: Env, run: Machine)
    requires Admits(t, msg, env, run)
    ensures Next(t, msg, env, run).used == Add64(t.used, Charge(t.world, msg, env, run(msg)))
  {
    hide Charge, Left, Ran, Back, QuotaCost, Total, Rewards;
  }

  /** An admitted message passes the late check exactly when its charge fits. */
  lemma StepWithoutWrap(t: Tally, msg: Message, quota: uint64, env: Env, run: Machine)
    requires NoWrap(t, quota, run) && Admits(t, msg, env, run)
    ensures var n, charge := Next(t, msg, env, run), Charge(t.world, msg, env, run(msg));
            && n.used == t.used + charge
            && (StatusOf(t, msg, quota, env, run).Ok? <==> t.used + charge <= quota)
            && (StatusOf(t, msg, quota, env, run).Ok? ==> NoWrap(n, quota, run))
  {
    hide Calm, Charge, Next, Admits, QuotaCost;
    NextUsed(t, msg, env, run);
    ChargeIsOneStep(t.world, msg, env, run(msg));
    if Calm(run) && t.quota + t.used <= quota {
      CalmNeverLate(t, msg, quota, env, run);
    }
  }

  /** Balance left by an applied message. */
  lemma LeftConserves(w: World, msg: Message, env: Env, vm: Vm)
    requires Conservative(vm) && Ran(w, msg, env, vm).gas <= msg.gasLimit
    ensures Total(Left(w, msg, env, vm).balances) == Total(w.balances)
  {
    hide Total, Settled, Cost, Rewards, Back;
    var v := Ran(w, msg, env, vm);
    SettlementConserves(v.world.balances, msg.from, env.coinbase, msg.gasLimit, Back(msg, v), msg.gasPrice,
              Rewards(v, env));
    EnteredTotal(w, msg);
  }

  lemma StepKeeps(p: Tally, msg: Message, quota: uint64, env: Env, run: Machine)
    requires AllConservative(run) && p.used <= quota && StatusOf(p, msg, quota, env, run).Ok?
    ensures var n := Next(p, msg, env, run);
            && n.gas + n.usedGas == p.gas + p.usedGas && n.used <= quota && n.quota <= p.quota
            && Total(n.world.balances) == Total(p.world.balances)
  {
    hide Calm, Total, Left, Ran, Conservative, Charge, Rewards, Back, QuotaCost;
    assert Conservative(run(msg));
    LeftConserves(p.world, msg, env, run(msg));
  }

  /** What holds after any number of messages: gas pool and cumulative gas make up the
      gas limit, the used quota is within the quota, balance is conserved.  With a calm
      machine the used quota is also covered by the pool.  Unless it wraps around it never
      falls. */
  lemma {:induction false} PrefixKeeps(t: Tally, txs: seq<Message>, n: nat, quota: uint64, env: Env, run: Machine)
    requires AllConservative(run) && n <= |txs| && t.used <= quota
    requires Prefix(t, txs, n, quota, env, run).Some?
    ensures var p := Prefix(t, txs, n, quota, env, run).value;
            && p.gas + p.usedGas == t.gas + t.usedGas
            && p.used <= quota && p.quota <= t.quota
            && Total(p.world.balances) == Total(t.world.balances)
            && (Calm(run) && t.quota + t.used <= quota ==> p.quota + p.used <= quota)
            && (NoWrap(t, quota, run) ==> NoWrap(p, quota, run) && t.used <= p.used)
  {
    hide Calm, Total, AllConservative, Prefix, Admits, Next, StatusOf, Charge, QuotaCost, NoWrap;
    if n == 0 {
      PrefixEmpty(t, txs, quota, env, run);
    } else {
      PrefixStep(t, txs, n, quota, env, run);
      PrefixKeeps(t, txs, n - 1, quota, env, run);
      var p := Prefix(t, txs, n - 1, quota, env, run).value;
      StepKeeps(p, txs[n - 1], quota, env, run);
      if Calm(run) && t.quota + t.used <= quota {
        CalmNeverLate(p, txs[n - 1], quota, env, run);
      }
      if NoWrap(t, quota, run) {
        StepWithoutWrap(p, txs[n - 1], quota, env, run);
      }
    }
  }

  /** With a calm machine no message that is admitted fails the late check. */
  lemma NeverLate(t: Tally, txs: seq<Message>, n: nat, quota: uint64, env: Env, run: Machine)
    requires AllConservative(run) && Calm(run) && n < |txs| && t.quota + t.used <= quota
    requires Prefix(t, txs, n, quota, env, run).Some?
    ensures !StatusOf(Prefix(t, txs, n, quota, env, run).value, txs[n], quota, env, run).Late?
  {
    PrefixKeeps(t, txs, n, quota, env, run);
    var p := Prefix(t, txs, n, quota, env, run).value;
    if Admits(p, txs[n], env, run) {
      CalmNeverLate(p, txs[n], quota, env, run);
    }
  }

  // ---------------------------------------------------------------- as the program does it

  /** One transaction of a block.  `used` and `usedGas` are the header's used quota and
      the cumulative gas so far. */
  method ApplyTransaction(gp: GasPool, qp: QuotaPool, db: StateDB, msg: Message, quota: uint64, used: uint64,
                          usedGas: nat, env: Env, run: Machine)
    returns (r: TxStatus, used': uint64, usedGas': nat)
    requires AllConservative(run) && Iterates(env) && |msg.data| < UINT64
    modifies gp, qp, db
    ensures var t := Tally(old(db.w), old(gp.gas), old(qp.quota), used, usedGas);
            && r == StatusOf(t, msg, quota, env, run)
            && (r.Ok? ==> Tally(db.w, gp.gas, qp.quota, used', usedGas') == Next(t, msg, env, run))
  {
    hide Total, Conservative, Ran, Settled, Accepts, QuotaCost, Rewards, Back, Uploaded;
    used', usedGas' := used, usedGas;
    var st := new StateTransition(gp, qp, db, msg);
    assert Conservative(run(msg));
    var result := st.TransitionDb(run(msg), env);
    if result.Rejected? {
      return Refused, used', usedGas';
    }
    if result.quota > 0 {
      used' := Add64(used', result.quota);
      if quota < used' {
        return Late, used, usedGas';
      }
    }
    usedGas' := usedGas + result.usedGas;
    r := Ok;
  }

  /** Processes the messages of a block.  `quota` and `quotaUsed` are header fields. */
  method Process(db: StateDB, txs: seq<Message>, gasLimit: uint64, quota: uint64, quotaUsed: uint64, env: Env,
      run: Machine)
    returns (r: BlockOutcome)
    requires AllConservative(run) && Iterates(env)
    requires forall i :: 0 <= i < |txs| ==> |txs[i].data| < UINT64
    modifies db
    ensures r.NoQuota? <==> quotaUsed > quota
    ensures !r.NoQuota? ==>
              var t := Start(old(db.w), gasLimit, quota, quotaUsed);
              && (r.Processed? <==> Prefix(t, txs, |txs|, quota, env, run).Some?)
              && (r.Processed? ==>
                    var p := Prefix(t, txs, |txs|, quota, env, run).value;
                    db.w == p.world && r.usedGas == p.usedGas && r.quotaUsed == p.used)
              && (r.TxRejected? || r.LateQuota? ==>
                    && r.index < |txs| && Prefix(t, txs, r.index, quota, env, run).Some?
                    && StatusOf(Prefix(t, txs, r.index, quota, env, run).value, txs[r.index], quota, env, run)
                       == if r.TxRejected? then Refused else Late)
    ensures r.Processed? ==> r.usedGas <= gasLimit && Total(db.w.balances) == Total(old(db.w).balances)
    ensures r.Processed? ==> r.quotaUsed <= quota
    ensures r.Processed? && (Calm(run) || quota + PER_UPLOAD_BYTES < UINT64) ==> quotaUsed <= r.quotaUsed
    ensures Calm(run) ==> !r.LateQuota?
  {
    hide Total, Calm, AllConservative, Iterates, StatusOf, Next;
    var gp := new GasPool();
    var qp := new QuotaPool(quota);
    var ok := gp.AddGas(gasLimit);
    ok := qp.SubQuota(quotaUsed);
    if !ok {
      return NoQuota;
    }
    var usedGas: nat, used: uint64 := 0, quotaUsed;
    ghost var t := Start(db.w, gasLimit, quota, quotaUsed);
    for i := 0 to |txs|
      invariant Prefix(t, txs, i, quota, env, run) == Some(Tally(db.w, gp.gas, qp.quota, used, usedGas))
    {
      var status;
      status, used, usedGas := ApplyTransaction(gp, qp, db, txs[i], quota, used, usedGas, env, run);
      if !status.Ok? {
        FailsForGood(t, txs, i, |txs|, quota, env, run);
      }
      if status.Refused? {
        return TxRejected(i);
      }
      if status.Late? {
        if Calm(run) {
          NeverLate(t, txs, i, quota, env, run);
        }
        return LateQuota(i);
      }
    }
    PrefixKeeps(t, txs, |txs|, quota, env, run);
    r := Processed(usedGas, used);
  }

  /** A block that fails at message `i` is not processed. */
  lemma {:induction false} FailsForGood(t: Tally, txs: seq<Message>, i: nat, n: nat, quota: uint64, env: Env,
      run: Machine)
    requires i < n <= |txs| && Prefix(t, txs, i, quota, env, run).Some?
    requires !StatusOf(Prefix(t, txs, i, quota, env, run).value, txs[i], quota, env, run).Ok?
    ensures Prefix(t, txs, n, quota, env, run).None?
  {
    hide StatusOf, Next;
    if i + 1 < n {
      FailsForGood(t, txs, i, n - 1, quota, env, run);
    }
  }

  // ---------------------------------------------------------------- producing and importing

  /** Replaying messages that passed once, from the same world with the same gas but
      another quota pool and another used quota: they pass again exactly when the pool
      covers what was taken the first time and the used quota has room for what was
      charged, and then do the same. */
  lemma {:induction false} ReplayExactlyWhen(t: Tally, u: Tally, txs: seq<Message>, n: nat, quota: uint64,
      env: Env, run: Machine)
    requires AllConservative(run) && n <= |txs| && NoWrap(t, quota, run) && NoWrap(u, quota, run)
    requires u.world == t.world && u.gas == t.gas && u.usedGas == t.usedGas
    requires Prefix(t, txs, n, quota, env, run).Some?
    ensures var p, q := Prefix(t, txs, n, quota, env, run).value, Prefix(u, txs, n, quota, env, run);
            && p.quota <= t.quota && t.used <= p.used
            && (q.Some? <==> t.quota - p.quota <= u.quota && u.used + (p.used - t.used) <= quota)
            && (q.Some? ==>
                  && q.value.world == p.world && q.value.gas == p.gas && q.value.usedGas == p.usedGas
                  && t.quota - p.quota == u.quota - q.value.quota && p.used - t.used == q.value.used - u.used)
  {
    hide Calm, AllConservative, Prefix, Admits, Next, StatusOf, QuotaCost, Charge, Total, NoWrap;
    if n == 0 {
      PrefixEmpty(t, txs, quota, env, run);
      PrefixEmpty(u, txs, quota, env, run);
      UsedFits(u, quota, run);
    } else {
      PrefixStep(t, txs, n, quota, env, run);
      PrefixStep(u, txs, n, quota, env, run);
      ReplayExactlyWhen(t, u, txs, n - 1, quota, env, run);
      UsedFits(t, quota, run);
      PrefixKeeps(t, txs, n - 1, quota, env, run);
      var p, q := Prefix(t, txs, n - 1, quota, env, run).value, Prefix(u, txs, n - 1, quota, env, run);
      NextTakes(p, txs[n - 1], env, run);
      StepWithoutWrap(p, txs[n - 1], quota, env, run);
      if q.Some? {
        UsedFits(u, quota, run);
        PrefixKeeps(u, txs, n - 1, quota, env, run);
        ReplayStep(p, q.value, txs[n - 1], quota, env, run);
      }
    }
  }

  lemma UsedFits(t: Tally, quota: uint64, run: Machine)
    requires NoWrap(t, quota, run)
    ensures t.used <= quota
  {
  }

  lemma NextTakes(p: Tally, msg: Message, env: Env, run: Machine)
    requires Admits(p, msg, env, run)
    ensures Next(p, msg, env, run).quota == p.quota - QuotaCost(msg, p.world)
  {
    hide Ran, Left, QuotaCost, Rewards, Back, Total;
  }

  /** The step of a replay: pool and used quota decide, and nothing else differs. */
  lemma ReplayStep(p: Tally, q: Tally, msg: Message, quota: uint64, env: Env, run: Machine)
    requires NoWrap(p, quota, run) && NoWrap(q, quota, run)
    requires q.world == p.world && q.gas == p.gas && q.usedGas == p.usedGas && Admits(p, msg, env, run)
    ensures var a := Next(p, msg, env, run);
            && a.quota <= p.quota && p.used <= a.used
            && (StatusOf(q, msg, quota, env, run).Ok? <==>
                  p.quota - a.quota <= q.quota && q.used + (a.used - p.used) <= quota)
            && (StatusOf(q, msg, quota, env, run).Ok? ==>
                  var b := Next(q, msg, env, run);
                  && b.world == a.world && b.gas == a.gas && b.usedGas == a.usedGas
                  && p.quota - a.quota == q.quota - b.quota && a.used - p.used == b.used - q.used)
  {
    hide Calm, Next, QuotaCost, Charge, NoWrap;
    NextTakes(p, msg, env, run);
    StepWithoutWrap(p, msg, quota, env, run);
    SameButQuota(p, q, msg, env, run);
    if Admits(q, msg, env, run) {
      StepWithoutWrap(q, msg, quota, env, run);
    }
  }

  /** The quota pool decides about nothing but its own cost. */
  lemma SameButQuota(p: Tally, q: Tally, msg: Message, env: Env, run: Machine)
    requires q.world == p.world && q.gas == p.gas && q.usedGas == p.usedGas && Admits(p, msg, env, run)
    ensures Admits(q, msg, env, run) <==> QuotaCost(msg, p.world) <= q.quota
    ensures Admits(q, msg, env, run) ==>
              var a, b := Next(p, msg, env, run), Next(q, msg, env, run);
              && b.world == a.world && b.gas == a.gas && b.usedGas == a.usedGas
              && p.quota - a.quota == q.quota - b.quota == QuotaCost(msg, p.world)
  {
    hide Ran, Left, QuotaCost, Rewards, Back, Total;
  }

  /** Every run leaves its target's next step as it is and, if there is one, succeeds. */
  ghost predicate Steady(run: Machine) {
    forall m, w, g {:trigger run(m)(w, g)} ::
      && QuotaCost(m, run(m)(w, g).world) == QuotaCost(m, w)
      && (QuotaCost(m, w) > 0 ==> run(m)(w, g).err.NoError?)
  }

  lemma {:induction false} SteadyChargesWhatItTakes(t: Tally, txs: seq<Message>, n: nat, quota: uint64,
      env: Env, run: Machine)
    requires AllConservative(run) && Steady(run) && n <= |txs| && t.quota + t.used <= quota
    requires Prefix(t, txs, n, quota, env, run).Some?
    ensures var p := Prefix(t, txs, n, quota, env, run).value; p.used + p.quota == t.used + t.quota
  {
    hide Calm, AllConservative, Steady, Prefix, Admits, Next, StatusOf, Charge, QuotaCost, Total;
    SteadyIsCalm(run);
    if n == 0 {
      PrefixEmpty(t, txs, quota, env, run);
    } else {
      PrefixStep(t, txs, n, quota, env, run);
      SteadyChargesWhatItTakes(t, txs, n - 1, quota, env, run);
      PrefixKeeps(t, txs, n - 1, quota, env, run);
      var p, msg := Prefix(t, txs, n - 1, quota, env, run).value, txs[n - 1];
      SteadyCharge(p.world, msg, env, run);
      NextTakes(p, msg, env, run);
      CalmNeverLate(p, msg, quota, env, run);
    }
  }

  lemma SteadyIsCalm(run: Machine)
    requires Steady(run)
    ensures Calm(run)
  {
    forall m, w, g ensures ChargeBounded(m, w, run(m)(w, g).world) {
      assert QuotaCost(m, run(m)(w, g).world) == QuotaCost(m, w);
    }
  }

  lemma SteadyCharge(w: World, m: Message, env: Env, run: Machine)
    requires Steady(run)
    ensures Charge(w, m, env, run(m)) == QuotaCost(m, w)
  {
    var w1 := Entered(w, m);
    assert QuotaCost(m, w1) == QuotaCost(m, w);
    var v := Ran(w, m, env, run(m));
    assert QuotaCost(m, v.world) == QuotaCost(m, w1);
  }

  /** A producer starts from the parent's used quota and records the quota used after
      the block in the header.  The importer starts from that recorded value, since the
      assignment of the parent's value goes to a copy of the header.  So it charges the
      uploads of the block a second time: a produced block is processed on import exactly
      when, on top of what was recorded, the pool covers what its uploads take and the
      quota has room for what they are charged.  With a calm machine the pool decides.
      With a steady one the two are the same and read off the two headers: twice the quota
      recorded, less the parent's, is within the quota. */
  lemma ImportExactlyWhen(w: World, txs: seq<Message>, gasLimit: uint64, quota: uint64, parentUsed: uint64,
                          env: Env, run: Machine)
    requires AllConservative(run) && parentUsed <= quota && (Calm(run) || quota + PER_UPLOAD_BYTES < UINT64)
    requires Prefix(Start(w, gasLimit, quota, parentUsed), txs, |txs|, quota, env, run).Some?
    ensures var made := Prefix(Start(w, gasLimit, quota, parentUsed), txs, |txs|, quota, env, run).value;
            var taken := quota - parentUsed - made.quota;
            && parentUsed <= made.used <= quota
            && var imported := Prefix(Start(w, gasLimit, quota, made.used), txs, |txs|, quota, env, run);
               && (imported.Some? <==> made.used + taken <= quota && 2 * made.used <= quota + parentUsed)
               && (imported.Some? ==> imported.value.world == made.world && imported.value.usedGas == made.usedGas)
               && (Calm(run) ==> (imported.Some? <==> made.used + taken <= quota))
               && (Steady(run) ==> taken == made.used - parentUsed)
               && (Steady(run) ==> (imported.Some? <==> 2 * made.used <= quota + parentUsed))
  {
    hide Calm, AllConservative, Steady, Prefix, Total;
    var t := Start(w, gasLimit, quota, parentUsed);
    PrefixKeeps(t, txs, |txs|, quota, env, run);
    var made := Prefix(t, txs, |txs|, quota, env, run).value;
    var u := Start(w, gasLimit, quota, made.used);
    ReplayExactlyWhen(t, u, txs, |txs|, quota, env, run);
    if Steady(run) {
      SteadyChargesWhatItTakes(t, txs, |txs|, quota, env, run);
    }
  }

  /** A machine that does nothing. */
  function Idle(): Machine {
    (m: Message) => (w: World, g: uint64) => VmResult(w, g, map[], NoError)
  }

  lemma IdleIsSteady()
    ensures AllConservative(Idle()) && Calm(Idle()) && Steady(Idle())
  {
  }

  /** A legal block that its producer accepts and every importer refuses: one upload
      step that fills the quota. */
  lemma FullBlockIsRefused(env: Env)
    requires env.blockNumber >= 7 && !env.blocked && env.downloads && env.meta(1).Some?
    ensures var w := World(map[], map[], map[1 := PER_UPLOAD_BYTES], map[1 := 1], 0);
            var txs := [Message(Some(1), 0, 0, 0, 300000, 0, [], false)];
            var made := Prefix(Start(w, 300000, PER_UPLOAD_BYTES, 0), txs, 1, PER_UPLOAD_BYTES, env, Idle());
            && made.Some? && made.value.used == PER_UPLOAD_BYTES
            && Prefix(Start(w, 300000, PER_UPLOAD_BYTES, made.value.used), txs, 1, PER_UPLOAD_BYTES, env, Idle()).None?
  {
    var w := World(map[], map[], map[1 := PER_UPLOAD_BYTES], map[1 := 1], 0);
    var msg := Message(Some(1), 0, 0, 0, 300000, 0, [], false);
    IdleAdmits(w, msg, env);
    hide Admits, Next, QuotaCost;
    var t := Start(w, 300000, PER_UPLOAD_BYTES, 0);
    IdleIsSteady();
    hide AllConservative, Calm, Steady, Idle;
    CalmNeverLate(t, msg, PER_UPLOAD_BYTES, env, Idle());
    SteadyCharge(w, msg, env, Idle());
    PrefixStep(t, [msg], 1, PER_UPLOAD_BYTES, env, Idle());
    PrefixStep(Start(w, 300000, PER_UPLOAD_BYTES, PER_UPLOAD_BYTES), [msg], 1, PER_UPLOAD_BYTES, env, Idle());
  }

  /** An upload of one full step, pending since block 1, and a free message for it. */
  predicate IsSample(w: World, msg: Message) {
    && w == World(map[], map[], map[1 := PER_UPLOAD_BYTES], map[1 := 1], 0)
    && msg == Message(Some(1), 0, 0, 0, 300000, 0, [], false)
  }

  lemma IdleAdmits(w: World, msg: Message, env: Env)
    requires IsSample(w, msg)
    requires env.blockNumber >= 7 && !env.blocked && env.downloads && env.meta(1).Some?
    ensures QuotaCost(msg, w) == PER_UPLOAD_BYTES
    ensures Admits(Start(w, 300000, PER_UPLOAD_BYTES, 0), msg, env, Idle())
    ensures !Admits(Start(w, 300000, PER_UPLOAD_BYTES, PER_UPLOAD_BYTES), msg, env, Idle())
  {
    var t, u := Start(w, 300000, PER_UPLOAD_BYTES, 0), Start(w, 300000, PER_UPLOAD_BYTES, PER_UPLOAD_BYTES);
    hide Accepts, Enters, Ran, Idle, Total, Rewards, Back;
    StepOfSample(w, msg, env);
    SampleEnters(w, msg, env);
    SampleRuns(w, msg, env);
    SampleAccepted(w, msg, env);
    NoQuotaNoEntry(w, msg, env);
  }

  lemma StepOfSample(w: World, msg: Message, env: Env)
    requires IsSample(w, msg)
    ensures Uploading(msg, w) && Uploading(msg, Entered(w, msg))
    ensures QuotaCost(msg, w) == PER_UPLOAD_BYTES
  {
  }

  lemma PriceOfNoData(creation: bool, upload: bool, homestead: bool, eip2028: bool)
    ensures Price([], creation, upload, homestead, eip2028) == BaseGas(creation, upload, homestead)
  {
  }

  lemma SampleEnters(w: World, msg: Message, env: Env)
    requires IsSample(w, msg) && env.blockNumber >= 7 && !env.blocked
    ensures Enters(w, 300000, PER_UPLOAD_BYTES, msg, env)
    ensures GasPrice(Entered(w, msg), msg, env) == UPLOAD_GAS
  {
    hide Price, QuotaCost;
    StepOfSample(w, msg, env);
    PriceOfNoData(false, true, env.homestead, env.istanbul);
    assert Cost(300000, 0) == 0;
  }

  lemma SampleRuns(w: World, msg: Message, env: Env)
    requires IsSample(w, msg) && GasPrice(Entered(w, msg), msg, env) == UPLOAD_GAS
    ensures Ran(w, msg, env, Idle()(msg)) == VmResult(Entered(w, msg), 300000 - UPLOAD_GAS, map[], NoError)
  {
    hide GasPrice, Entered;
  }

  lemma SampleAccepted(w: World, msg: Message, env: Env)
    requires IsSample(w, msg) && env.downloads && env.meta(1).Some?
    requires Enters(w, 300000, PER_UPLOAD_BYTES, msg, env)
    requires Ran(w, msg, env, Idle()(msg)) == VmResult(Entered(w, msg), 300000 - UPLOAD_GAS, map[], NoError)
    ensures Accepts(w, 300000, PER_UPLOAD_BYTES, msg, env, Idle()(msg))
  {
    hide Enters, Ran, Entered, Idle;
    var v := Ran(w, msg, env, Idle()(msg));
    assert Rewards(v, env) == map[];
    assert Total(map[]) == 0;
  }

  lemma NoQuotaNoEntry(w: World, msg: Message, env: Env)
    requires QuotaCost(msg, w) > 0
    ensures !Accepts(w, 300000, 0, msg, env, Idle()(msg))
  {
  }

  // ---------------------------------------------------------------- uploads

  /** One successful upload transaction: the world before its upload step and after. */
  datatype Upload = Upload(before: World, msg: Message, env: Env)

  function After(u: Upload): World {
    Uploaded(u.before, u.msg, u.env)
  }

  /** The successful upload transactions to `a`, in order; in between nothing else
      touches the pending upload of `a`. */
  ghost predicate IsUpload(us: seq<Upload>, a: Address) {
    && (forall i :: 0 <= i < |us| ==> us[i].msg.to == Some(a) && Uploading(us[i].msg, us[i].before))
    && (forall i, j {:trigger us[i], us[j]} :: 0 <= i && j == i + 1 < |us| ==>
          UploadOf(us[j].before, a) == UploadOf(After(us[i]), a))
  }

  /** The quotas charged by the first `n` upload transactions. */
  function Charged(us: seq<Upload>, n: nat): nat
    requires n <= |us|
  {
    if n == 0 then 0 else Charged(us, n - 1) + QuotaCost(us[n - 1].msg, us[n - 1].before)
  }

  /** Every transaction takes a full step off the pending upload until the last takes
      what is left, and what was taken is what was charged. */
  lemma {:induction false} UploadProgress(us: seq<Upload>, a: Address, n: nat)
    requires IsUpload(us, a) && 0 < n <= |us|
    ensures var total := UploadOf(us[0].before, a);
            && UploadOf(After(us[n - 1]), a) == (if n * PER_UPLOAD_BYTES <= total
                      then total - n * PER_UPLOAD_BYTES else 0)
            && (n - 1) * PER_UPLOAD_BYTES < total
            && Charged(us, n) == total - UploadOf(After(us[n - 1]), a)
  {
    if n > 1 {
      UploadProgress(us, a, n - 1);
      assert UploadOf(us[n - 1].before, a) == UploadOf(After(us[n - 2]), a);
    } else {
      assert Charged(us, 1) == Charged(us, 0) + QuotaCost(us[0].msg, us[0].before);
    }
  }

  /** The number of steps an upload of `total` bytes takes. */
  function Steps(total: nat): nat {
    (total + PER_UPLOAD_BYTES - 1) / PER_UPLOAD_BYTES
  }

  /** An upload is complete after exactly the rounded-up number of steps; then the
      charges add up to its size; and only the completing transaction records the
      block number. */
  lemma UploadCompletes(us: seq<Upload>, a: Address, n: nat)
    requires IsUpload(us, a) && 0 < n <= |us|
    ensures var total, last := UploadOf(us[0].before, a), us[n - 1];
            && n <= Steps(total)
            && (UploadOf(After(last), a) == 0 <==> n == Steps(total))
            && (n == Steps(total) ==> Charged(us, n) == total)
            && NumOf(After(last), a) == (if n == Steps(total) then last.env.blockNumber else NumOf(last.before, a))
  {
    UploadProgress(us, a, n);
  }

  /** The download size asked for grows with every step and ends at the raw size, if
      the whole file was to be uploaded. */
  lemma RequestsGrow(us: seq<Upload>, a: Address, rawSize: uint64, n: nat)
    requires IsUpload(us, a) && 0 < n <= |us| && rawSize == UploadOf(us[0].before, a)
    ensures var request := Sub64(rawSize, UploadOf(After(us[n - 1]), a));
            && request == Charged(us, n) <= rawSize
            && (n > 1 ==> request > Sub64(rawSize, UploadOf(After(us[n - 2]), a)))
            && (request == rawSize <==> n == Steps(rawSize))
  {
    UploadProgress(us, a, n);
    UploadCompletes(us, a, n);
    if n > 1 {
      UploadProgress(us, a, n - 1);
    }
  }
}
