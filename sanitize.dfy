/**
 * Sanitising a fresh set of samples against the previous measurement: a
 * counter that grew by more than 10 percent since the previous sample of the
 * same series is taken to be a glitch, and the previous sample is kept.
 */
module Sanitize {
  import opened Wrappers
  import opened Model

  /** Whether current / last > 1.1 under IEEE division: a zero divisor gives
      +infinity for a positive dividend and NaN (never greater) otherwise. */
  predicate Exceeds(current: real, last: real) {
    if last == 0.0 then current > 0.0 else current / last > 1.1
  }

  /** For a positive previous value, exceeding means growing by more than 10
      percent; for a negative one the comparison turns around. */
  lemma ExceedsMeaning(current: real, last: real)
    ensures last > 0.0 ==> (Exceeds(current, last) <==> current > 1.1 * last)
    ensures last < 0.0 ==> (Exceeds(current, last) <==> current < 1.1 * last)
    ensures last == 0.0 ==> (Exceeds(current, last) <==> current > 0.0)
  {
    if last != 0.0 {
      var q := current / last;
      assert (q - 1.1) * last == current - 1.1 * last;
      SignOfProduct(q - 1.1, last);
    }
  }

  lemma SignOfProduct(a: real, b: real)
    requires b != 0.0
    ensures b > 0.0 ==> (a > 0.0 <==> a * b > 0.0)
    ensures b < 0.0 ==> (a > 0.0 <==> a * b < 0.0)
  {
  }

  /** The position of the first previous sample of the same series. */
  function FirstSameSeries(s: Sample, last: seq<Sample>, from: nat := 0): (r: Option<nat>)
    requires from <= |last|
    ensures r.Some? ==> from <= r.value < |last| && s.SameSeries(last[r.value])
    ensures r.Some? ==> forall j :: from <= j < r.value ==> !s.SameSeries(last[j])
    ensures r.None? ==> forall j :: from <= j < |last| ==> !s.SameSeries(last[j])
    decreases |last| - from
  {
    if from == |last| then None
    else if s.SameSeries(last[from]) then Some(from)
    else FirstSameSeries(s, last, from + 1)
  }

  /** What sanitising makes of one sample: only the first previous sample of
      the same series is consulted, and a counter that exceeds it is replaced
      by it. */
  function SanitizeOne(s: Sample, last: seq<Sample>): Sample {
    match FirstSameSeries(s, last)
    case None => s
    case Some(k) => if s.metricType == Counter && Exceeds(s.value, last[k].value) then last[k] else s
  }

  /** Sanitising a whole list of samples, one by one and in order. */
  function SanitizeAll(current: seq<Sample>, last: seq<Sample>): (r: seq<Sample>)
    ensures |r| == |current|
    ensures forall i :: 0 <= i < |current| ==> r[i] == SanitizeOne(current[i], last)
  {
    if current == [] then []
    else SanitizeAll(current[..|current| - 1], last) + [SanitizeOne(current[|current| - 1], last)]
  }

  /** sanitize_samples: one output per current sample, in order. */
  method SanitizeSamples(current: seq<Sample>, last: seq<Sample>) returns (sanitized: seq<Sample>)
    ensures |sanitized| == |current|
    ensures forall i :: 0 <= i < |current| ==> sanitized[i] == SanitizeOne(current[i], last)
  {
    sanitized := [];
    for i := 0 to |current|
      invariant |sanitized| == i
      invariant forall k :: 0 <= k < i ==> sanitized[k] == SanitizeOne(current[k], last)
    {
      var s := current[i];
      var sanitize := false;
      var j := 0;
      while j < |last|
        invariant 0 <= j <= |last|
        invariant FirstSameSeries(s, last) == FirstSameSeries(s, last, j)
        invariant |sanitized| == i && !sanitize
        invariant forall k :: 0 <= k < i ==> sanitized[k] == SanitizeOne(current[k], last)
        decreases |last| - j
      {
        var ls := last[j];
        if s.SameSeries(ls) {
          if s.metricType == Counter && Exceeds(s.value, ls.value) {
            sanitize := true;
            sanitized := sanitized + [ls];
          }
          break;
        }
        j := j + 1;
      }
      if !sanitize {
        sanitized := sanitized + [s];
      }
    }
  }

  /** A sample keeps its series: only its value can change. */
  lemma SanitizeKeepsSeries(s: Sample, last: seq<Sample>)
    ensures SanitizeOne(s, last).SameSeries(s)
    ensures SanitizeOne(s, last) == s || SanitizeOne(s, last) in last
  {
  }

  /** Gauges, and samples with no previous sample of their series, pass unchanged. */
  lemma SanitizeLeavesOthers(s: Sample, last: seq<Sample>)
    ensures s.metricType != Counter ==> SanitizeOne(s, last) == s
    ensures (forall j :: 0 <= j < |last| ==> !s.SameSeries(last[j])) ==> SanitizeOne(s, last) == s
  {
  }

  /** A counter whose first previous sample is positive never comes out more
      than 10 percent above it. */
  lemma SanitizedCounterBounded(s: Sample, last: seq<Sample>, k: nat)
    requires s.metricType == Counter
    requires FirstSameSeries(s, last) == Some(k) && last[k].value > 0.0
    ensures SanitizeOne(s, last).value <= 1.1 * last[k].value
  {
    ExceedsMeaning(s.value, last[k].value);
  }

  /** Sanitising against the same previous samples twice changes nothing more. */
  lemma SanitizeIdempotent(s: Sample, last: seq<Sample>)
    ensures SanitizeOne(SanitizeOne(s, last), last) == SanitizeOne(s, last)
  {
    var t := SanitizeOne(s, last);
    match FirstSameSeries(s, last) {
      case None =>
      case Some(k) =>
        if t != s {
          assert t == last[k];
          assert FirstSameSeries(t, last) == Some(k) by {
            assert forall j :: 0 <= j < |last| ==> (t.SameSeries(last[j]) <==> s.SameSeries(last[j]));
          }
          if last[k].value != 0.0 {
            assert t.value / last[k].value == 1.0;
          }
        }
    }
  }

  /** A counter previously at 100: a reading of 200 is replaced by the previous
      sample, a reading of 105 is kept; and when two previous samples of the
      series exist, only the first one counts (150 is within 10 percent of 200,
      though not of 100). */
  lemma SanitizeExamples()
    ensures var prev := Sample(Device, "heatpump", ElectricityConsumption, "consumption", Counter, 100.0);
      && SanitizeOne(prev.(value := 200.0), [prev]) == prev
      && SanitizeOne(prev.(value := 105.0), [prev]) == prev.(value := 105.0)
      && SanitizeOne(prev.(value := 150.0), [prev.(value := 200.0), prev]) == prev.(value := 150.0)
  {
    var prev := Sample(Device, "heatpump", ElectricityConsumption, "consumption", Counter, 100.0);
    assert prev.(value := 200.0).SameSeries(prev);
    assert FirstSameSeries(prev.(value := 200.0), [prev]) == Some(0);
    assert FirstSameSeries(prev.(value := 105.0), [prev]) == Some(0);
    assert FirstSameSeries(prev.(value := 150.0), [prev.(value := 200.0), prev]) == Some(0);
  }
}
