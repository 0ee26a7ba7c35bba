/** The gas limit of the next block, and where iterating it leads. */
module GasLimit {
  import opened Words

  const BOUND_DIVISOR: nat := 1024
  const MIN_GAS_LIMIT: nat := 8000000

  /** The limit after a parent with limit `limit` that used `used` gas, in 64-bit
      arithmetic. */
  function CalcGasLimit(limit: uint64, used: uint64, gasFloor: uint64, gasCeil: uint64): uint64 {
    var ceil := Ceiling(gasFloor, gasCeil);
    var contrib := Add64(used, used / 2) / BOUND_DIVISOR;
    var decay := Sub64(limit / BOUND_DIVISOR, 1);
    var plain := Add64(Sub64(limit, decay), contrib);
    var next := if plain < MIN_GAS_LIMIT then MIN_GAS_LIMIT else plain;
    if next < gasFloor then
      var up := Add64(limit, decay);
      if up > gasFloor then gasFloor else up
    else if next > ceil then
      var down := Sub64(limit, decay);
      if down < ceil then ceil else down
    else next
  }

  function Ceiling(gasFloor: uint64, gasCeil: uint64): uint64 {
    if gasFloor > gasCeil then gasFloor else gasCeil
  }

  predicate InBand(limit: uint64, gasFloor: uint64, gasCeil: uint64) {
    gasFloor <= limit <= Ceiling(gasFloor, gasCeil)
  }

  /** How far a limit is from the band. */
  function Distance(limit: uint64, gasFloor: uint64, gasCeil: uint64): nat {
    if limit < gasFloor then gasFloor - limit
    else if limit > Ceiling(gasFloor, gasCeil) then limit - Ceiling(gasFloor, gasCeil)
    else 0
  }

  /** Limits and ceilings for which nothing wraps around. */
  predicate Small(n: uint64) {
    n + n / 2 + 1 < UINT64
  }

  /** One step: inside the band it stays there, outside it comes strictly closer, and
      it never goes above both its parent and the ceiling. */
  lemma StepTowardsBand(limit: uint64, used: uint64, gasFloor: uint64, gasCeil: uint64)
    requires 2048 <= limit && used <= limit && Small(limit)
    requires MIN_GAS_LIMIT <= Ceiling(gasFloor, gasCeil) && Small(Ceiling(gasFloor, gasCeil))
    ensures var next := CalcGasLimit(limit, used, gasFloor, gasCeil);
            && 2048 <= next && Small(next)
            && (InBand(limit, gasFloor, gasCeil) ==> InBand(next, gasFloor, gasCeil))
            && (!InBand(limit, gasFloor, gasCeil) ==>
                  Distance(next, gasFloor, gasCeil) < Distance(limit, gasFloor, gasCeil))
  {
    assert used / 2 <= limit / 2;
    assert 1 <= limit / BOUND_DIVISOR - 1 <= limit;
  }

  /** Inside the band, where nothing wraps around: the limit rises exactly when the parent
      used enough and it is not at the ceiling, falls exactly when the parent used too
      little and it is not at the floor, and moves by less than a 1024th. */
  lemma UsageMovesLimit(limit: uint64, used: uint64, gasFloor: uint64, gasCeil: uint64)
    requires used <= limit && Small(limit) && MIN_GAS_LIMIT <= limit && InBand(limit, gasFloor, gasCeil)
    ensures var next := CalcGasLimit(limit, used, gasFloor, gasCeil);
            var wanted, decay := (used + used / 2) / 1024, limit / 1024 - 1;
            && (next > limit <==> wanted > decay && limit < gasCeil)
            && (next < limit <==> wanted < decay && limit > gasFloor && limit > MIN_GAS_LIMIT)
            && limit - decay <= next <= limit + decay
            && (used + used / 2 >= limit ==> next >= limit)
  {
    assert used / 2 <= limit / 2;
    assert (used + used / 2) / 1024 <= limit / 1024 + limit / 2048 + 1;
  }

  /** Successive limits with fixed floor and ceiling, every block using at most its limit. */
  ghost predicate IsChain(limits: seq<uint64>, used: seq<uint64>, gasFloor: uint64, gasCeil: uint64) {
    && |limits| == |used| + 1
    && forall i :: 0 <= i < |used| ==>
         used[i] <= limits[i] && limits[i + 1] == CalcGasLimit(limits[i], used[i], gasFloor, gasCeil)
  }

  lemma {:induction false} ChainStaysSmall(limits: seq<uint64>, used: seq<uint64>, gasFloor: uint64,
      gasCeil: uint64, n: nat)
    requires IsChain(limits, used, gasFloor, gasCeil) && n < |limits|
    requires 2048 <= limits[0] && Small(limits[0])
    requires MIN_GAS_LIMIT <= Ceiling(gasFloor, gasCeil) && Small(Ceiling(gasFloor, gasCeil))
    ensures 2048 <= limits[n] && Small(limits[n])
    ensures Distance(limits[n], gasFloor, gasCeil)
            <= (if n <= Distance(limits[0], gasFloor, gasCeil) then Distance(limits[0], gasFloor, gasCeil) - n else 0)
  {
    if n > 0 {
      ChainStaysSmall(limits, used, gasFloor, gasCeil, n - 1);
      StepTowardsBand(limits[n - 1], used[n - 1], gasFloor, gasCeil);
    }
  }

  /** The limit enters the band after at most as many blocks as it is away from it,
      whatever gas the blocks use, and never leaves it again. */
  lemma LimitConverges(limits: seq<uint64>, used: seq<uint64>, gasFloor: uint64, gasCeil: uint64, n: nat)
    requires IsChain(limits, used, gasFloor, gasCeil) && n < |limits|
    requires 2048 <= limits[0] && Small(limits[0])
    requires MIN_GAS_LIMIT <= Ceiling(gasFloor, gasCeil) && Small(Ceiling(gasFloor, gasCeil))
    ensures n >= Distance(limits[0], gasFloor, gasCeil) ==> InBand(limits[n], gasFloor, gasCeil)
    ensures n + 1 < |limits| && InBand(limits[n], gasFloor, gasCeil) ==> InBand(limits[n + 1], gasFloor, gasCeil)
    ensures n + 1 < |limits| && !InBand(limits[n], gasFloor, gasCeil) ==>
              Distance(limits[n + 1], gasFloor, gasCeil) < Distance(limits[n], gasFloor, gasCeil)
  {
    ChainStaysSmall(limits, used, gasFloor, gasCeil, n);
    if n + 1 < |limits| {
      StepTowardsBand(limits[n], used[n], gasFloor, gasCeil);
    }
  }

  /** One step from below 2048, under a floor above the protocol minimum.  From 1024 up
      the step is zero and the limit stands still; below it wraps around to minus one and
      the limit falls; and from zero the wrapped step leaps over the floor. */
  lemma SmallStep(limit: uint64, used: uint64, gasFloor: uint64, gasCeil: uint64)
    requires limit < 2048 && used <= limit && gasFloor > MIN_GAS_LIMIT
    ensures CalcGasLimit(limit, used, gasFloor, gasCeil)
            == if limit >= 1024 then limit else if limit > 0 then limit - 1 else gasFloor
  {
    assert limit / BOUND_DIVISOR == if limit >= 1024 then 1 else 0;
    assert Add64(used, used / 2) / BOUND_DIVISOR <= 2;
  }

  /** A limit in 1024..2047 never moves. */
  lemma {:induction false} LimitStandsStill(limits: seq<uint64>, used: seq<uint64>, gasFloor: uint64,
      gasCeil: uint64, n: nat)
    requires IsChain(limits, used, gasFloor, gasCeil) && n < |limits|
    requires 1024 <= limits[0] < 2048 && gasFloor > MIN_GAS_LIMIT
    ensures limits[n] == limits[0]
  {
    if n > 0 {
      LimitStandsStill(limits, used, gasFloor, gasCeil, n - 1);
      SmallStep(limits[n - 1], used[n - 1], gasFloor, gasCeil);
    }
  }

  /** A limit below 1024 falls to zero, one per block, and is the floor in the next. */
  lemma {:induction false} LimitFallsThenLeaps(limits: seq<uint64>, used: seq<uint64>, gasFloor: uint64,
      gasCeil: uint64, n: nat)
    requires IsChain(limits, used, gasFloor, gasCeil) && n < |limits|
    requires limits[0] < 1024 && n <= limits[0] + 1 && gasFloor > MIN_GAS_LIMIT
    ensures limits[n] == if n <= limits[0] then limits[0] - n else gasFloor
  {
    if n > 0 {
      LimitFallsThenLeaps(limits, used, gasFloor, gasCeil, n - 1);
      SmallStep(limits[n - 1], used[n - 1], gasFloor, gasCeil);
    }
  }

  /** After how many blocks a limit is in the band, if it gets there. */
  function BlocksToBand(limit: uint64, gasFloor: uint64, gasCeil: uint64): nat {
    if limit < 1024 then limit + 1 else Distance(limit, gasFloor, gasCeil)
  }

  /** Under a floor above the protocol minimum, a limit that starts anywhere outside
      1024..2047 is in the band from a known block on; one that starts inside is never. */
  lemma BandReachedExactlyWhen(limits: seq<uint64>, used: seq<uint64>, gasFloor: uint64, gasCeil: uint64)
    requires IsChain(limits, used, gasFloor, gasCeil) && gasFloor > MIN_GAS_LIMIT
    requires Small(limits[0]) && Small(Ceiling(gasFloor, gasCeil))
    requires BlocksToBand(limits[0], gasFloor, gasCeil) < |limits|
    ensures (exists n :: 0 <= n < |limits| && InBand(limits[n], gasFloor, gasCeil)) <==> !(1024 <= limits[0] < 2048)
    ensures !(1024 <= limits[0] < 2048) ==>
              forall n :: BlocksToBand(limits[0], gasFloor, gasCeil) <= n < |limits| ==>
                InBand(limits[n], gasFloor, gasCeil)
  {
    if 1024 <= limits[0] < 2048 {
      forall n | 0 <= n < |limits| ensures !InBand(limits[n], gasFloor, gasCeil) {
        LimitStandsStill(limits, used, gasFloor, gasCeil, n);
      }
    } else {
      forall n | BlocksToBand(limits[0], gasFloor, gasCeil) <= n < |limits|
        ensures InBand(limits[n], gasFloor, gasCeil)
      {
        InBandFromThere(limits, used, gasFloor, gasCeil, n);
      }
      assert InBand(limits[BlocksToBand(limits[0], gasFloor, gasCeil)], gasFloor, gasCeil);
    }
  }

  lemma InBandFromThere(limits: seq<uint64>, used: seq<uint64>, gasFloor: uint64, gasCeil: uint64, n: nat)
    requires IsChain(limits, used, gasFloor, gasCeil) && gasFloor > MIN_GAS_LIMIT
    requires Small(limits[0]) && Small(Ceiling(gasFloor, gasCeil)) && !(1024 <= limits[0] < 2048)
    requires BlocksToBand(limits[0], gasFloor, gasCeil) <= n < |limits|
    ensures InBand(limits[n], gasFloor, gasCeil)
  {
    if limits[0] >= 2048 {
      LimitConverges(limits, used, gasFloor, gasCeil, n);
    } else {
      // From the leap on it is a chain that starts at the floor.
      var k := limits[0] + 1;
      LimitFallsThenLeaps(limits, used, gasFloor, gasCeil, k);
      assert IsChain(limits[k..], used[k..], gasFloor, gasCeil);
      LimitConverges(limits[k..], used[k..], gasFloor, gasCeil, n - k);
    }
  }
}
