/**
 Energy from a counter that wraps.

 A RAPL counter shows the energy consumed so far modulo some width, which the
 code knows only through the announced maximum of the counter.
*/
module RaplCounter {
  import opened Machine

  function SaturatingAdd(a: u64, b: u64): u64 { if a + b > U64_MAX then U64_MAX else a + b }

  // Microjoules between two readings, `max` being the announced maximum.
  function Difference(prev: u64, last: u64, max: u64): u64 {
    if last >= prev then last - prev else SaturatingAdd(SaturatingSub(max, prev), last)
  }

  // A reading beyond the announced maximum counts for nothing when the next is
  // lower; otherwise it is at most the largest u64 that is measured.
  lemma DifferenceIs(prev: u64, last: u64, max: u64)
    ensures last >= prev ==> Difference(prev, last, max) == last - prev
    ensures last < prev <= max ==> Difference(prev, last, max) == max - prev + last
    ensures last < prev && max < prev ==> Difference(prev, last, max) == last
  {
  }

  // What the code makes of a series of readings.
  function Measured(readings: seq<u64>, max: u64): nat {
    if |readings| < 2 then 0
    else Measured(readings[..|readings| - 1], max)
         + Difference(readings[|readings| - 2], readings[|readings| - 1], max)
  }

  // How often a series goes down.
  function Wraps(readings: seq<u64>): nat {
    if |readings| < 2 then 0
    else Wraps(readings[..|readings| - 1]) + if readings[|readings| - 1] < readings[|readings| - 2] then 1 else 0
  }

  // True energies at the instants of the readings: they grow, by less than the
  // width w of the counter from one to the next.
  ghost predicate Plausible(energies: seq<nat>, w: nat) {
    forall i :: 0 <= i < |energies| - 1 ==> energies[i] <= energies[i + 1] < energies[i] + w
  }

  // How often a counter of width w has come round, and what it shows.
  function Laps(energy: nat, w: nat): nat
    requires w > 0
  {
    energy / w
  }

  function Face(energy: nat, w: nat): nat
    requires w > 0
  {
    energy % w
  }

  ghost predicate Shows(readings: seq<u64>, energies: seq<nat>, w: nat)
    requires w > 0
  {
    |readings| == |energies| && forall i :: 0 <= i < |readings| ==> readings[i] == Face(energies[i], w)
  }

  // Within less than one width a counter wraps at most once, and does so just
  // when the reading goes down.
  lemma OneWrap(a: nat, b: nat, w: nat)
    requires w > 0 && a <= b < a + w
    ensures Laps(b, w) - Laps(a, w) == if Face(b, w) < Face(a, w) then 1 else 0
    ensures b - a == Face(b, w) - Face(a, w) + if Face(b, w) < Face(a, w) then w else 0
  {
    var qa, qb, ra, rb := a / w, b / w, a % w, b % w;
    assert a == qa * w + ra && b == qb * w + rb;
    NextOrSame(qa, ra, qb, rb, w);
    if qb == qa + 1 { assert qb * w == qa * w + w; }
  }

  lemma NextOrSame(qa: int, ra: nat, qb: int, rb: nat, w: nat)
    requires ra < w && rb < w && qa * w + ra <= qb * w + rb < qa * w + ra + w
    ensures qb == qa || qb == qa + 1
  {
    if qb < qa { AtLeast(qa, qb + 1, w); }
    if qb > qa + 1 { AtLeast(qb, qa + 2, w); }
  }

  lemma AtLeast(q: int, n: int, w: nat)
    requires q >= n
    ensures q * w >= n * w
  {
    assert q * w - n * w == (q - n) * w;
  }

  // What k wraps hide of the energy; less than nothing if the counter announces
  // more than its width.
  function Hidden(k: nat, w: nat, max: u64): int {
    k * (w - max)
  }

  lemma HiddenSteps(k: nat, w: nat, max: u64)
    ensures Hidden(0, w, max) == 0
    ensures Hidden(k + 1, w, max) == Hidden(k, w, max) + (w - max)
    ensures Hidden(k, w, max) == 0 <==> k == 0 || max == w
    ensures max <= w ==> Hidden(k, w, max) >= 0
  {
    assert (k + 1) * (w - max) == k * (w - max) + (w - max);
    if k > 0 && max < w { AtLeast(k, 1, w - max); }
    if k > 0 && max > w {
      AtLeast(k, 1, max - w);
      assert k * (w - max) == -(k * (max - w));
    }
  }

  // Readings of a counter of width w that announces max, which bounds them.
  ghost predicate Observed(readings: seq<u64>, energies: seq<nat>, w: nat, max: u64) {
    && 0 < w && energies != []
    && Plausible(energies, w) && Shows(readings, energies, w)
    && forall i :: 0 <= i < |readings| ==> readings[i] <= max
  }

  // Over any series of readings the measured energy is the true energy short
  // of w - max for every wrap of the counter.
  lemma {:induction false} MeasuredEnergy(energies: seq<nat>, readings: seq<u64>, w: nat, max: u64)
    requires Observed(readings, energies, w, max)
    ensures Laps(energies[|energies| - 1], w) == Laps(energies[0], w) + Wraps(readings)
    ensures energies[|energies| - 1] == energies[0] + Measured(readings, max) + Hidden(Wraps(readings), w, max)
    decreases |energies|
  {
    hide Laps, Face, Hidden;
    var n := |energies| - 1;
    if n == 0 {
      HiddenSteps(0, w, max);
    } else {
      var earlier := readings[..n];
      assert Observed(earlier, energies[..n], w, max);
      MeasuredEnergy(energies[..n], earlier, w, max);
      OneWrap(energies[n - 1], energies[n], w);
      HiddenSteps(Wraps(earlier), w, max);
      LastStep(readings, max);
    }
  }

  lemma LastStep(readings: seq<u64>, max: u64)
    requires |readings| >= 2 && forall i :: 0 <= i < |readings| ==> readings[i] <= max
    ensures var n := |readings| - 1;
      var last, prev := readings[n], readings[n - 1];
      && Measured(readings, max) == Measured(readings[..n], max) + (if last < prev then max - prev + last else last - prev)
      && Wraps(readings) == Wraps(readings[..n]) + (if last < prev then 1 else 0)
  {
  }

  // The energy is exact if and only if the counter did not wrap or wraps where
  // it says it does.
  lemma ExactEnergy(energies: seq<nat>, readings: seq<u64>, w: nat, max: u64)
    requires Observed(readings, energies, w, max)
    ensures energies[|energies| - 1] == energies[0] + Measured(readings, max)
       <==> max == w || Laps(energies[0], w) == Laps(energies[|energies| - 1], w)
  {
    hide Laps, Face, Hidden;
    MeasuredEnergy(energies, readings, w, max);
    HiddenSteps(Wraps(readings), w, max);
  }

  // Where no maximum can be read the largest u64 stands in for it: every wrap
  // then overstates the energy by what the counter lacks of that width.
  lemma MissingMaximum(energies: seq<nat>, readings: seq<u64>, w: nat)
    requires Observed(readings, energies, w, U64_MAX)
    ensures energies[0] + Measured(readings, U64_MAX)
         == energies[|energies| - 1] + Wraps(readings) * (U64_MAX - w)
  {
    hide Laps;
    MeasuredEnergy(energies, readings, w, U64_MAX);
    assert Wraps(readings) * (w - U64_MAX) == -(Wraps(readings) * (U64_MAX - w));
  }
}
