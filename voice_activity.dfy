/** The voice-activity detector's energy measure: the sum of squared deviations
    of an 8-bit time-domain buffer from its midpoint 128, and the loudness test
    `rms > 0.06` on it, written in exact integer arithmetic. */
module VoiceActivity {

  newtype Byte = x: int | 0 <= x < 256

  /** Deviation of a sample from the silent midpoint, in 1/128 units. */
  function Deviation(b: Byte): int {
    b as int - 128
  }

  /** The sum of squared deviations of the samples, left to right. */
  function SquareSum(d: seq<Byte>): nat {
    if d == [] then 0
    else SquareSum(d[..|d| - 1]) + Deviation(d[|d| - 1]) * Deviation(d[|d| - 1])
  }

  /** The accumulation loop of the detector's tick: sum over the buffer. */
  method Energy(data: array<Byte>) returns (sum: nat)
    ensures sum == SquareSum(data[..])
  {
    sum := 0;
    var i := 0;
    while i < data.Length
      invariant 0 <= i <= data.Length
      invariant sum == SquareSum(data[..i])
    {
      assert data[..i + 1][..i] == data[..i];
      var v := Deviation(data[i]);
      sum := sum + v * v;
      i := i + 1;
    }
    assert data[..data.Length] == data[..];
  }

  /** With samples scaled by 1/128, rms > 0.06 means
      sum / (len * 128 * 128) > 0.06 * 0.06 = 36 / 10000, that is
      10000 * sum > 36 * 16384 * len. A buffer of length zero gives NaN in the
      source, which is never loud. */
  predicate IsLoud(sum: nat, len: nat) {
    len > 0 && 10000 * sum > 589824 * len
  }

  /** The integer test is the real-number comparison of the mean square with
      0.06 squared. */
  lemma IsLoudMeansMeanSquareAbove(sum: nat, len: nat)
    requires len > 0
    ensures IsLoud(sum, len) <==> (sum as real) / ((len * 16384) as real) > 0.0036
  {
    var m := (len * 16384) as real;
    var q := (sum as real) / m;
    assert m == 16384.0 * (len as real) && m > 0.0;
    assert q * m == sum as real;
    assert IsLoud(sum, len) <==> sum as real > 0.0036 * m;
    assert (q - 0.0036) * m == sum as real - 0.0036 * m;
    if q > 0.0036 {
      PositiveProduct(q - 0.0036, m);
    } else if q < 0.0036 {
      PositiveProduct(0.0036 - q, m);
    }
  }

  lemma PositiveProduct(a: real, b: real)
    requires a > 0.0 && b > 0.0
    ensures a * b > 0.0
  {
  }

  /** A silent buffer (every sample at the midpoint) never triggers a barge-in. */
  lemma {:induction false} SilenceIsQuiet(d: seq<Byte>)
    requires forall i :: 0 <= i < |d| ==> d[i] == 128
    ensures SquareSum(d) == 0 && !IsLoud(SquareSum(d), |d|)
  {
    if d != [] {
      SilenceIsQuiet(d[..|d| - 1]);
    }
  }
}
