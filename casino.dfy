/**
 * The fixed configuration of the mini-casino world: the payout table shared by
 * both machines, its probabilities, the cost of one play and the time budget.
 *
 * The probabilities are Java doubles in the program; here they are exact
 * Dafny reals, an idealisation of floating point.
 */
module Casino {

  /** Possible payout values of one play, in bucket order. */
  const Payouts: seq<int> := [0, 1, 5, 100]

  /** Cost of one round, in Php. */
  const CostPerPlay: int := 1

  /** Time one play consumes, in seconds. */
  const SecondsPerPlay: int := 10

  /** The fixed total play time, in seconds. */
  const TotalPlayTime: int := 90

  /** Probability of each payout bucket, aligned with Payouts. */
  const FixedChances: seq<real> := [0.50, 0.30, 0.15, 0.05]

  /** Each machine gets its own copy of the fixed distribution. */
  const MachineAChances: seq<real> := FixedChances
  const MachineBChances: seq<real> := FixedChances

  /** Number of rounds the time budget allows (integer division, 90 / 10). */
  const MaxTimeBasedPlays: int := TotalPlayTime / SecondsPerPlay

  /** Largest and smallest Java `int`. */
  const Int32Max: int := 0x7fff_ffff
  const Int32Min: int := -0x8000_0000

  function Min(a: int, b: int): (m: int)
    ensures m <= a && m <= b
    ensures m == a || m == b
  {
    if a <= b then a else b
  }

  /** Java's two's-complement wrap-around of an `int` result. */
  function Wrap32(x: int): (w: int)
    ensures Int32Min <= w <= Int32Max
    ensures (w - x) % 0x1_0000_0000 == 0
    ensures Int32Min <= x <= Int32Max ==> w == x
  {
    var m := x % 0x1_0000_0000;
    if m > Int32Max then m - 0x1_0000_0000 else m
  }
}
