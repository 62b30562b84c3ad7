/**
 * System.Random seen as an oracle: a run draws reals from [0, 1) one after
 * the other, and the integer draws are derived from them the way the
 * .NET Framework's seeded generator derives them (Next(n) scales one
 * sample by n and truncates it; Next(0) still consumes a sample).
 */
module Random {

  /** One value of Random.NextDouble(), that is one sample. */
  type Draw = u: real | 0.0 <= u < 1.0

  /** Random.Next(maxValue) computed from the sample u. */
  function Next(u: Draw, maxValue: nat): (r: nat)
    ensures maxValue > 0 ==> r < maxValue
    ensures maxValue == 0 ==> r == 0
  {
    var scaled := u * maxValue as real;
    assert maxValue as real - scaled == (1.0 - u) * maxValue as real;
    assert maxValue > 0 ==> (1.0 - u) * maxValue as real > 0.0;
    scaled.Floor
  }
}
