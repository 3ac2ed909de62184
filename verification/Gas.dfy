/** Gas: saturating milligas, nested limits (`fvm/src/gas/mod.rs`), the reconciliation with the Wasm
    counter (`fvm/src/syscalls/mod.rs`) and the final settlement (`fvm/src/gas/outputs.rs`). */
module Gas {
  import opened Common

  const I64_MAX: nat := 0x7fff_ffff_ffff_ffff
  const MILLIGAS_PRECISION: nat := 1000

  datatype GasError = OutOfGas | Fatal

  function SatAdd(a: nat, b: nat): nat {
    if a + b > U64_MAX then U64_MAX else a + b
  }

  function SatSub(a: nat, b: nat): nat {
    if a < b then 0 else a - b
  }

  /** `Gas::new`: whole gas as milligas. */
  function FromGas(gas: nat): nat {
    if gas * MILLIGAS_PRECISION > U64_MAX then U64_MAX else gas * MILLIGAS_PRECISION
  }

  /** `Gas::round_up`. */
  function RoundUp(milligas: nat): nat {
    milligas / MILLIGAS_PRECISION + if milligas % MILLIGAS_PRECISION != 0 then 1 else 0
  }

  /** Rounding up is to the next whole gas, and whole gas comes back from milligas. */
  lemma RoundUpIs(milligas: nat, gas: nat)
    ensures milligas <= RoundUp(milligas) * MILLIGAS_PRECISION < milligas + MILLIGAS_PRECISION
    ensures gas * MILLIGAS_PRECISION <= U64_MAX ==> RoundUp(FromGas(gas)) == gas
  {
  }

  lemma RoundUpMonotone(a: nat, b: nat)
    requires a <= b
    ensures RoundUp(a) <= RoundUp(b)
  {
  }

  // ---------------------------------------------------------------- the tracker

  datatype GasSnapshot = GasSnapshot(limit: nat, used: nat)

  /** Each limit fits in what the level above has left. */
  ghost predicate Nested(snapshots: seq<GasSnapshot>, limit: nat) {
    && (forall i :: 0 <= i < |snapshots| ==> snapshots[i].used <= snapshots[i].limit <= I64_MAX)
    && (forall i :: 0 <= i < |snapshots| - 1 ==> snapshots[i + 1].limit <= snapshots[i].limit - snapshots[i].used)
    && (|snapshots| > 0 ==> limit <= snapshots[|snapshots| - 1].limit - snapshots[|snapshots| - 1].used)
  }

  class GasTracker {
    var gasLimit: nat
    var gasUsed: nat
    var snapshots: seq<GasSnapshot>

    ghost predicate Valid()
      reads this
    {
      gasUsed <= gasLimit <= I64_MAX && Nested(snapshots, gasLimit)
    }

    constructor (limit: nat, used: nat)
      ensures Valid() && snapshots == []
      ensures gasLimit == Min(limit, I64_MAX) && gasUsed == Min(used, gasLimit)
    {
      gasLimit := Min(limit, I64_MAX);
      gasUsed := Min(used, Min(limit, I64_MAX));
      snapshots := [];
    }

    function Available(): nat
      reads this
    {
      SatSub(gasLimit, gasUsed)
    }

    /** A charge that does not fit uses up the limit. */
    method ChargeGas(toUse: nat) returns (r: Result<(), GasError>)
      requires Valid()
      modifies this`gasUsed
      ensures Valid()
      ensures r.Ok? <==> toUse <= old(Available())
      ensures gasUsed == if r.Ok? then old(gasUsed) + toUse else gasLimit
      ensures r.Err? ==> r.error == OutOfGas
    {
      var used := SatAdd(gasUsed, toUse);
      if used > gasLimit {
        gasUsed := gasLimit;
        return Err(OutOfGas);
      }
      gasUsed := used;
      return Ok(());
    }

    method PushLimit(newLimit: nat)
      requires Valid()
      modifies this
      ensures Valid()
      ensures snapshots == old(snapshots) + [GasSnapshot(old(gasLimit), old(gasUsed))]
      ensures gasUsed == 0 && gasLimit == Min(old(Available()), newLimit)
    {
      var available := Available();
      snapshots := snapshots + [GasSnapshot(gasLimit, gasUsed)];
      gasLimit := Min(available, newLimit);
      gasUsed := 0;
    }

    /** The gas used inside is added, without saturation, to what was used before. */
    method PopLimit() returns (r: Result<(), GasError>)
      requires Valid()
      modifies this
      ensures Valid()
      ensures r.Ok? <==> old(snapshots) != []
      ensures r.Err? ==> r.error == Fatal && gasUsed == old(gasUsed) && gasLimit == old(gasLimit)
                         && snapshots == old(snapshots)
      ensures r.Ok? ==>
                var snap := old(snapshots)[|old(snapshots)| - 1];
                && snapshots == old(snapshots)[..|old(snapshots)| - 1]
                && gasLimit == snap.limit && gasUsed == snap.used + old(gasUsed) <= snap.limit
    {
      if snapshots == [] {
        return Err(Fatal);
      }
      var snap := snapshots[|snapshots| - 1];
      snapshots := snapshots[..|snapshots| - 1];
      gasLimit := snap.limit;
      gasUsed := SatAdd(gasUsed, snap.used);
      return Ok(());
    }
  }

  /** What `finish` reports never exceeds the message's limit. */
  lemma RoundedUseFits(messageLimit: nat, used: nat)
    requires used <= Min(FromGas(messageLimit), I64_MAX)
    ensures RoundUp(used) <= messageLimit
  {
    assert used <= messageLimit * 1000;
  }

  // ---------------------------------------------------------------- the Wasm counter

  class WasmCounter {
    const tracker: GasTracker
    /** The global that the instrumented code counts down; it goes negative when gas runs out. */
    var global: int
    var lastGasAvailable: nat
    var lastMemoryBytes: nat

    constructor (tracker: GasTracker)
      ensures this.tracker == tracker
    {
      this.tracker, global, lastGasAvailable, lastMemoryBytes := tracker, 0, 0, 0;
    }

    /** `update_gas_available`, before control goes back to Wasm. */
    method UpdateGasAvailable(memoryUsed: nat) returns (r: Result<(), GasError>)
      requires tracker.Valid()
      modifies this
      ensures r.Ok? && global == lastGasAvailable == tracker.Available() && lastMemoryBytes == memoryUsed
    {
      var avail := tracker.Available();
      if avail > I64_MAX {
        return Err(Fatal);
      }
      global := avail;
      lastGasAvailable := avail;
      lastMemoryBytes := memoryUsed;
      return Ok(());
    }

    /** `charge_for_exec`: charges the drop of the counter, split into execution and memory. */
    method ChargeForExec(memoryUsed: nat, growMemoryGas: nat -> nat) returns (r: Result<(), GasError>)
      requires tracker.Valid() && lastGasAvailable == tracker.Available()
      requires -0x8000_0000_0000_0000 <= global <= lastGasAvailable
      modifies tracker`gasUsed
      ensures tracker.Valid()
      ensures r.Ok? <==> global >= 0
      ensures r.Err? ==> r.error == OutOfGas
      ensures tracker.Available() == if global >= 0 then global else 0
      ensures r.Ok? ==> tracker.gasUsed == old(tracker.gasUsed) + (lastGasAvailable - global)
    {
      var abs: nat := if global < 0 then -global else global;
      var execGas := if global < 0 then SatAdd(lastGasAvailable, abs) else SatSub(lastGasAvailable, abs);
      var memoryDelta := SatSub(memoryUsed, lastMemoryBytes);
      var memoryGas := growMemoryGas(memoryDelta);
      if memoryGas <= execGas {
        execGas := SatSub(execGas, memoryGas);
      } else {
        memoryGas := execGas;
        execGas := 0;
      }
      r := tracker.ChargeGas(execGas);
      if r.Err? {
        return;
      }
      if memoryGas != 0 {
        r := tracker.ChargeGas(memoryGas);
      }
    }
  }

  // ---------------------------------------------------------------- settlement

  datatype GasOutputs = GasOutputs(
    baseFeeBurn: int,
    overEstimationBurn: int,
    minerPenalty: int,
    minerTip: int,
    refund: int,
    gasRefund: nat,
    gasBurned: nat)

  /** The share of the unused gas that is burned: all of it if none was used, else the part by which the
      limit is more than a tenth too high, at most all, over what was used. */
  ghost function Wasted(gasUsed: nat, gasLimit: nat): int {
    if gasUsed == 0 then gasLimit
    else (SatSub(gasLimit, gasUsed) * Min(SatSub(gasLimit, (11 * gasUsed) / 10), gasUsed)) / gasUsed
  }

  /** How much of the unused gas is given back and how much is burned. */
  method ComputeGasOverestimationBurn(gasUsed: nat, gasLimit: nat) returns (refund: nat, burned: nat)
    ensures burned == Wasted(gasUsed, gasLimit)
    ensures gasUsed <= gasLimit ==> gasUsed + refund + burned == gasLimit
    ensures gasUsed > gasLimit ==> refund == 0 && burned == 0
    ensures gasUsed == 0 ==> burned == gasLimit
    ensures 0 < gasUsed && gasLimit <= (11 * gasUsed) / 10 ==> burned == 0
    ensures 0 < gasUsed && gasLimit >= 2 * gasUsed + gasUsed / 10 + 1 ==> refund == 0
    ensures 0 < gasUsed && (11 * gasUsed) / 10 <= gasLimit <= 2 * gasUsed + gasUsed / 10 ==>
              burned * gasUsed <= (gasLimit - gasUsed) * (gasLimit - (11 * gasUsed) / 10) < (burned + 1) * gasUsed
  {
    if gasUsed == 0 {
      return 0, gasLimit;
    }
    var over := Min(SatSub(gasLimit, (11 * gasUsed) / 10), gasUsed);
    var remaining := SatSub(gasLimit, gasUsed);
    var toBurn := (remaining * over) / gasUsed;
    FractionOf(remaining, over, gasUsed);
    DivRounds(remaining * over, gasUsed);
    return SatSub(remaining, toBurn), toBurn;
  }

  lemma DivRounds(p: nat, u: nat)
    requires u > 0
    ensures (p / u) * u <= p < (p / u + 1) * u
  {
  }

  /** A higher limit never burns less. */
  lemma HigherLimitBurnsMore(gasUsed: nat, gasLimit: nat, higher: nat)
    requires gasUsed <= gasLimit <= higher
    ensures Wasted(gasUsed, gasLimit) <= Wasted(gasUsed, higher)
  {
    if gasUsed > 0 {
      var tenth := (11 * gasUsed) / 10;
      var a, b := gasLimit - gasUsed, Min(SatSub(gasLimit, tenth), gasUsed);
      var c, d := higher - gasUsed, Min(SatSub(higher, tenth), gasUsed);
      ProductMonotone(a, b, c, d);
      DivMonotone(a * b, c * d, gasUsed);
    }
  }

  lemma ProductMonotone(a: nat, b: nat, c: nat, d: nat)
    requires a <= c && b <= d
    ensures a * b <= c * d
  {
    MulMonotone(a, b, d);
    MulMonotone(d, a, c);
  }

  lemma DivMonotone(p: nat, q: nat, u: nat)
    requires u > 0 && p <= q
    ensures p / u <= q / u
  {
    DivRounds(p, u);
    DivRounds(q, u);
    if p / u > q / u {
      MulMonotone(u, q / u + 1, p / u);
    }
  }

  /** A fraction of at most one. */
  lemma FractionOf(remaining: nat, over: nat, used: nat)
    requires used > 0 && over <= used
    ensures 0 <= (remaining * over) / used <= remaining
    ensures over == 0 ==> (remaining * over) / used == 0
    ensures over == used ==> (remaining * over) / used == remaining
    ensures remaining == 0 ==> (remaining * over) / used == 0
  {
    var p := remaining * over;
    assert p <= remaining * used by {
      MulMonotone(remaining, over, used);
    }
    DivBound(p, remaining, used);
    if over == used {
      DivExact(remaining, used);
    }
  }

  lemma MulMonotone(a: nat, b: nat, c: nat)
    requires b <= c
    ensures a * b <= a * c
  {
  }

  lemma DivBound(p: nat, r: nat, u: nat)
    requires u > 0 && p <= r * u
    ensures 0 <= p / u <= r
  {
  }

  lemma DivExact(r: nat, u: nat)
    requires u > 0
    ensures (r * u) / u == r
  {
    DivBound(r * u, r, u);
    if (r * u) / u < r {
      var q := (r * u) / u;
      assert r * u < (q + 1) * u;
      MulMonotone(u, q + 1, r);
    }
  }

  /** The fees for gas used under a limit: at most the fee cap is paid for the base fee, and the premium
      is cut to what the cap leaves. The miner pays for the part of the base fee above the cap. */
  ghost predicate FeesFor(out: GasOutputs, gasUsed: nat, gasLimit: nat, baseFee: int, feeCap: int, premium: int) {
    var base := Min(baseFee, feeCap);
    && out.gasBurned == Wasted(gasUsed, gasLimit)
    && gasUsed + out.gasBurned + out.gasRefund == gasLimit
    && out.baseFeeBurn == base * gasUsed
    && out.overEstimationBurn == base * out.gasBurned
    && out.minerTip == Min(premium, feeCap - base) * gasLimit
    && out.minerPenalty == (baseFee - base) * gasUsed + (baseFee - base) * out.gasBurned
    && out.baseFeeBurn + out.overEstimationBurn + out.refund + out.minerTip == feeCap * gasLimit
  }

  method ComputeOutputs(gasUsed: nat, gasLimit: nat, baseFee: int, feeCap: int, premium: int)
    returns (out: GasOutputs)
    requires gasUsed <= gasLimit && baseFee >= 0 && feeCap >= 0 && premium >= 0
    ensures FeesFor(out, gasUsed, gasLimit, baseFee, feeCap, premium)
    ensures out.baseFeeBurn >= 0 && out.overEstimationBurn >= 0 && out.minerTip >= 0 && out.refund >= 0
    ensures out.minerPenalty >= 0 && (baseFee <= feeCap ==> out.minerPenalty == 0)
    ensures out.baseFeeBurn + out.overEstimationBurn + out.refund + out.minerTip == feeCap * gasLimit
    ensures gasUsed + out.gasBurned + out.gasRefund == gasLimit
    ensures out.baseFeeBurn + out.overEstimationBurn == Min(baseFee, feeCap) * (gasUsed + out.gasBurned)
    ensures out.minerTip == Min(premium, feeCap - Min(baseFee, feeCap)) * gasLimit
    ensures out.baseFeeBurn + out.overEstimationBurn + out.minerPenalty == baseFee * (gasUsed + out.gasBurned)
  {
    var baseFeeToPay := baseFee;
    var penalty := 0;
    if baseFee > feeCap {
      baseFeeToPay := feeCap;
      penalty := (baseFee - feeCap) * gasUsed;
    }
    var baseFeeBurn := baseFeeToPay * gasUsed;
    var tip := premium;
    if baseFeeToPay + tip > feeCap {
      tip := feeCap - baseFeeToPay;
    }
    var minerTip := tip * gasLimit;
    var gasRefund, gasBurned := ComputeGasOverestimationBurn(gasUsed, gasLimit);
    var overEstimationBurn := 0;
    if gasBurned != 0 {
      overEstimationBurn := baseFeeToPay * gasBurned;
      penalty := penalty + (baseFee - baseFeeToPay) * gasBurned;
    }
    var refund := feeCap * gasLimit - baseFeeBurn - minerTip - overEstimationBurn;
    Settles(gasUsed, gasBurned, gasLimit, baseFee, baseFeeToPay, tip, feeCap);
    out := GasOutputs(baseFeeBurn, overEstimationBurn, penalty, minerTip, refund, gasRefund, gasBurned);
  }

  /** The fees charged never exceed the fee cap for the whole limit. */
  lemma Settles(used: nat, burned: nat, limit: nat, baseFee: int, base: int, tip: int, cap: int)
    requires used + burned <= limit && 0 <= base <= baseFee && 0 <= tip && base + tip <= cap
    ensures base * used >= 0 && base * burned >= 0 && tip * limit >= 0
    ensures (baseFee - base) * used >= 0 && (baseFee - base) * burned >= 0
    ensures base * used + base * burned == base * (used + burned)
    ensures base * used + base * burned + tip * limit <= cap * limit
    ensures base * used + (baseFee - base) * used + (base * burned + (baseFee - base) * burned) == baseFee * (used + burned)
  {
    MulMonotone(base, used + burned, limit);
    assert (base + tip) * limit == base * limit + tip * limit;
    assert (base + tip) * limit <= cap * limit by {
      MulMonotone(limit, base + tip, cap);
    }
    Spread(base, baseFee - base, used, burned);
  }

  lemma Spread(a: int, b: int, x: int, y: int)
    ensures a * x + b * x + (a * y + b * y) == (a + b) * (x + y)
    ensures a * x + a * y == a * (x + y)
  {
  }
}
