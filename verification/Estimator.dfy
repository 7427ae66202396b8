/**
 The estimator of a socket's background power.

 At every cycle with idle or activation events it compares the power at hand
 with its estimate and keeps the lower, but the power it compares is already net
 of the larger of its own two estimates, and it takes 0 for no estimate.
*/
module Estimator {
  import opened Machine
  import opened Kernel

  datatype Estimate = Estimate(idle: u64, activation: u64) {
    function Background(): u64 { Max(idle, activation) }

    function Of(t: CpuEventType): u64 { if t.IdleEvent? then idle else activation }
  }

  function Current(estimates: seq<Estimate>): Estimate {
    if estimates == [] then Estimate(0, 0) else estimates[|estimates| - 1]
  }

  function Net(raw: u64, background: u64): u64 { SaturatingSub(raw, background) }

  function Lowered(former: u64, current: u64): u64 {
    if former != 0 then Min(current, former) else current
  }

  // A refresh cycle: the power at hand, if any, and the events seen.
  datatype Cycle = Cycle(raw: Option<u64>, idleSeen: bool, activationSeen: bool) {
    predicate Measures(t: CpuEventType) { raw.Some? && if t.IdleEvent? then idleSeen else activationSeen }
  }

  function NextEstimate(e: Estimate, raw: u64, idleSeen: bool, activationSeen: bool): Estimate {
    var current := Net(raw, e.Background());
    Estimate(if idleSeen then Lowered(e.idle, current) else e.idle,
             if activationSeen then Lowered(e.activation, current) else e.activation)
  }

  function AfterCycle(e: Estimate, c: Cycle): Estimate {
    match c.raw
    case None => e
    case Some(raw) => NextEstimate(e, raw, c.idleSeen, c.activationSeen)
  }

  function EstimateAfter(cycles: seq<Cycle>): Estimate {
    if cycles == [] then Estimate(0, 0)
    else AfterCycle(EstimateAfter(cycles[..|cycles| - 1]), cycles[|cycles| - 1])
  }

  lemma OneMoreCycle(cycles: seq<Cycle>, c: Cycle)
    ensures EstimateAfter(cycles + [c]) == AfterCycle(EstimateAfter(cycles), c)
  {
    assert (cycles + [c])[..|cycles|] == cycles;
  }

  // ----- what an estimate can do

  // What is subtracted and what remains add up to what was measured, unless
  // the estimate exceeds the measurement.
  lemma NetPlusBackground(raw: u64, background: u64)
    ensures Net(raw, background) + background == Max(raw, background)
  {
  }

  // One cycle: a value rises only from 0, and never above the measured power.
  lemma EstimateStep(e: Estimate, raw: u64, idleSeen: bool, activationSeen: bool, t: CpuEventType)
    ensures var e' := NextEstimate(e, raw, idleSeen, activationSeen);
      && (e.Of(t) != 0 ==> e'.Of(t) <= e.Of(t))
      && (e'.Of(t) > e.Of(t) ==> e.Of(t) == 0 && e'.Of(t) <= raw)
  {
  }

  ghost predicate NeverZero(cycles: seq<Cycle>, i: nat, t: CpuEventType) {
    forall k :: i <= k < |cycles| ==> EstimateAfter(cycles[..k]).Of(t) != 0
  }

  // From any point of a run on, a value does not rise until it has been 0.
  lemma {:induction false} FallsUntilZero(cycles: seq<Cycle>, i: nat, t: CpuEventType)
    requires i <= |cycles| && NeverZero(cycles, i, t)
    ensures EstimateAfter(cycles).Of(t) <= EstimateAfter(cycles[..i]).Of(t)
    decreases |cycles|
  {
    hide EstimateAfter;
    if i == |cycles| {
      assert cycles[..i] == cycles;
    } else {
      var n := |cycles| - 1;
      var before := cycles[..n];
      assert forall k :: 0 <= k < n ==> before[..k] == cycles[..k];
      FallsUntilZero(before, i, t);
      assert before[..i] == cycles[..i];
      OneMoreCycle(before, cycles[n]);
      assert before + [cycles[n]] == cycles;
    }
  }

  // Over any run, the background stays within the largest power measured.
  lemma {:induction false} BackgroundIsObserved(cycles: seq<Cycle>)
    ensures var background := EstimateAfter(cycles).Background();
      background != 0 ==> exists i :: 0 <= i < |cycles| && cycles[i].raw.Some? && background <= cycles[i].raw.value
    decreases |cycles|
  {
    if cycles != [] {
      var n := |cycles| - 1;
      var e, e' := EstimateAfter(cycles[..n]), EstimateAfter(cycles);
      BackgroundIsObserved(cycles[..n]);
      if e'.Background() > e.Background() {
        assert cycles[n].raw.Some? && e'.Background() <= cycles[n].raw.value;
      } else if e'.Background() != 0 {
        var i :| 0 <= i < n && cycles[..n][i].raw.Some? && e.Background() <= cycles[..n][i].raw.value;
        assert cycles[i].raw.Some? && e'.Background() <= cycles[i].raw.value;
      }
    }
  }

  // ----- what the estimate is

  function EstimateAt(cycles: seq<Cycle>, n: nat): Estimate
    requires n <= |cycles|
  {
    EstimateAfter(cycles[..n])
  }

  // What the power of a cycle exceeds both estimates before it by, if it does.
  function NetAt(cycles: seq<Cycle>, i: nat): u64
    requires i < |cycles| && cycles[i].raw.Some?
  {
    var raw, e := cycles[i].raw.value, EstimateAt(cycles, i);
    if raw <= e.idle || raw <= e.activation then 0
    else if e.idle <= e.activation then raw - e.activation else raw - e.idle
  }

  // The estimate was 0 after m cycles, and has not been since.
  ghost predicate SinceZero(cycles: seq<Cycle>, t: CpuEventType, m: nat, n: nat)
    requires m < n <= |cycles|
  {
    && EstimateAt(cycles, m).Of(t) == 0
    && forall k :: m < k <= n ==> EstimateAt(cycles, k).Of(t) != 0
  }

  // x is the lowest net power of the cycles from m on that have such events.
  ghost predicate LowestNet(cycles: seq<Cycle>, t: CpuEventType, m: nat, n: nat, x: u64)
    requires m < n <= |cycles|
  {
    && (forall i :: m <= i < n && cycles[i].Measures(t) ==> x <= NetAt(cycles, i))
    && (exists i :: m <= i < n && cycles[i].Measures(t) && NetAt(cycles, i) == x)
  }

  lemma EstimateNext(cycles: seq<Cycle>, n: nat, t: CpuEventType)
    requires n < |cycles|
    ensures var e, e' := EstimateAt(cycles, n).Of(t), EstimateAt(cycles, n + 1).Of(t);
      if !cycles[n].Measures(t) then e' == e
      else if e == 0 || NetAt(cycles, n) < e then e' == NetAt(cycles, n) else e' == e
  {
    hide EstimateAfter;
    OneMoreCycle(cycles[..n], cycles[n]);
    assert cycles[..n] + [cycles[n]] == cycles[..n + 1];
  }

  lemma {:induction false} LowestNetSinceZero(cycles: seq<Cycle>, t: CpuEventType, m: nat, n: nat)
    requires m < n <= |cycles| && SinceZero(cycles, t, m, n)
    ensures LowestNet(cycles, t, m, n, EstimateAt(cycles, n).Of(t))
    decreases n
  {
    hide EstimateAt, NetAt;
    EstimateNext(cycles, n - 1, t);
    if n == m + 1 {
      assert cycles[m].Measures(t) && NetAt(cycles, m) == EstimateAt(cycles, n).Of(t);
    } else {
      LowestNetSinceZero(cycles, t, m, n - 1);
    }
  }

  lemma {:induction false} LastZero(cycles: seq<Cycle>, t: CpuEventType, n: nat) returns (m: nat)
    requires n <= |cycles| && EstimateAt(cycles, n).Of(t) != 0
    ensures m < n && SinceZero(cycles, t, m, n)
    decreases n
  {
    NoRun(cycles);
    if EstimateAt(cycles, n - 1).Of(t) == 0 {
      m := n - 1;
    } else {
      m := LastZero(cycles, t, n - 1);
    }
  }

  // No cycle from m on has such events.
  predicate Unmeasured(cycles: seq<Cycle>, t: CpuEventType, m: nat) {
    forall i :: m <= i < |cycles| ==> !cycles[i].Measures(t)
  }

  lemma {:induction false} StaysUnmeasured(cycles: seq<Cycle>, t: CpuEventType, m: nat, n: nat)
    requires m <= n <= |cycles| && Unmeasured(cycles, t, m)
    ensures EstimateAt(cycles, n).Of(t) == EstimateAt(cycles, m).Of(t)
    decreases n
  {
    hide EstimateAt;
    if m < n {
      StaysUnmeasured(cycles, t, m, n - 1);
      EstimateNext(cycles, n - 1, t);
    }
  }

  // After every run, of any powers and events: an estimate that is not 0 is the
  // lowest net power of the cycles with such events since it was last 0. It is 0
  // if and only if there has been no such cycle, or the last one left nothing.
  lemma EstimateIsLowestNet(cycles: seq<Cycle>, t: CpuEventType)
    ensures var x, n := EstimateAfter(cycles).Of(t), |cycles|;
      && (forall m :: 0 <= m < n && SinceZero(cycles, t, m, n) ==> LowestNet(cycles, t, m, n, x))
      && (x != 0 ==> exists m :: 0 <= m < n && SinceZero(cycles, t, m, n))
      && (x == 0 <==>
            Unmeasured(cycles, t, 0)
            || exists i :: 0 <= i < n && cycles[i].Measures(t) && Unmeasured(cycles, t, i + 1) && NetAt(cycles, i) == 0)
  {
    var n := |cycles|;
    assert cycles[..n] == cycles && cycles[..0] == [];
    hide EstimateAfter, EstimateAt, NetAt;
    assert EstimateAt(cycles, n) == EstimateAfter(cycles) by { WholeRun(cycles); }
    assert EstimateAt(cycles, 0).Of(t) == 0 by { NoRun(cycles); }
    forall m | 0 <= m < n && SinceZero(cycles, t, m, n)
      ensures LowestNet(cycles, t, m, n, EstimateAfter(cycles).Of(t))
    {
      LowestNetSinceZero(cycles, t, m, n);
    }
    if EstimateAfter(cycles).Of(t) != 0 {
      var m := LastZero(cycles, t, n);
    }
    LastMeasured(cycles, t);
  }

  lemma WholeRun(cycles: seq<Cycle>)
    ensures EstimateAt(cycles, |cycles|) == EstimateAfter(cycles)
  {
    assert cycles[..|cycles|] == cycles;
  }

  lemma NoRun(cycles: seq<Cycle>)
    ensures EstimateAt(cycles, 0) == Estimate(0, 0)
  {
    assert cycles[..0] == [];
  }

  lemma LastMeasured(cycles: seq<Cycle>, t: CpuEventType)
    ensures EstimateAfter(cycles).Of(t) == 0 <==>
      || Unmeasured(cycles, t, 0)
      || exists i :: 0 <= i < |cycles| && cycles[i].Measures(t) && Unmeasured(cycles, t, i + 1) && NetAt(cycles, i) == 0
  {
    hide EstimateAfter, EstimateAt, NetAt;
    WholeRun(cycles);
    NoRun(cycles);
    if Unmeasured(cycles, t, 0) {
      StaysUnmeasured(cycles, t, 0, |cycles|);
    } else {
      var i := LastMeasurement(cycles, t, |cycles|);
      EstimateNext(cycles, i, t);
      StaysUnmeasured(cycles, t, i + 1, |cycles|);
      assert forall j :: 0 <= j < |cycles| && cycles[j].Measures(t) && Unmeasured(cycles, t, j + 1) ==> j == i;
    }
  }

  lemma {:induction false} LastMeasurement(cycles: seq<Cycle>, t: CpuEventType, n: nat) returns (i: nat)
    requires n <= |cycles| && Unmeasured(cycles, t, n) && !Unmeasured(cycles, t, 0)
    ensures i < |cycles| && cycles[i].Measures(t) && Unmeasured(cycles, t, i + 1)
    decreases n
  {
    if n > 0 && cycles[n - 1].Measures(t) {
      i := n - 1;
    } else {
      i := LastMeasurement(cycles, t, n - 1);
    }
  }

  // ----- what the documentation promises

  // The lowest power measured at a cycle with events of a kind.
  function Lowest(cycles: seq<Cycle>, t: CpuEventType): Option<u64> {
    if cycles == [] then None
    else
      var l, c := Lowest(cycles[..|cycles| - 1], t), cycles[|cycles| - 1];
      if c.Measures(t) then Some(if l.Some? then Min(l.value, c.raw.value) else c.raw.value) else l
  }

  lemma {:induction false} LowestIsMinimum(cycles: seq<Cycle>, t: CpuEventType)
    ensures Lowest(cycles, t) == None <==> forall i :: 0 <= i < |cycles| ==> !cycles[i].Measures(t)
    ensures var l := Lowest(cycles, t); l.Some? ==>
      && (forall i :: 0 <= i < |cycles| && cycles[i].Measures(t) ==> l.value <= cycles[i].raw.value)
      && (exists i :: 0 <= i < |cycles| && cycles[i].Measures(t) && cycles[i].raw == l)
    decreases |cycles|
  {
    if cycles != [] {
      var n := |cycles| - 1;
      LowestIsMinimum(cycles[..n], t);
      if cycles[n].Measures(t) && cycles[n].raw == Lowest(cycles, t) {
      } else if Lowest(cycles, t).Some? {
        var i :| 0 <= i < n && cycles[..n][i].Measures(t) && cycles[..n][i].raw == Lowest(cycles, t);
        assert cycles[i].Measures(t);
      }
    }
  }

  function DocumentedBackground(cycles: seq<Cycle>): u64 {
    Max(Lowest(cycles, IdleEvent).GetOr(0), Lowest(cycles, ActivationEvent).GetOr(0))
  }

  // After every cycle of the run, the estimate is the lowest power measured.
  ghost predicate KeepsLowest(cycles: seq<Cycle>, t: CpuEventType) {
    && EstimateAfter(cycles).Of(t) == Lowest(cycles, t).GetOr(0)
    && (cycles == [] || KeepsLowest(cycles[..|cycles| - 1], t))
  }

  // Which powers a cycle can bring without upsetting the lowest one so far,
  // when so much is subtracted: at least the background above it, or 0.
  predicate Spared(lowest: Option<u64>, background: u64, raw: u64) {
    match lowest
    case None => raw == 0 || background == 0
    case Some(l) => if l == 0 then raw <= background else raw == 0 || raw >= background + l
  }

  ghost predicate AllSpared(cycles: seq<Cycle>, t: CpuEventType) {
    cycles == []
    || (var before, c := cycles[..|cycles| - 1], cycles[|cycles| - 1];
        && AllSpared(before, t)
        && (c.Measures(t) ==> Spared(Lowest(before, t), EstimateAfter(before).Background(), c.raw.value)))
  }

  lemma SparedStep(e: Estimate, c: Cycle, lowest: Option<u64>, t: CpuEventType)
    requires e.Of(t) == lowest.GetOr(0)
    ensures c.Measures(t) ==>
      (AfterCycle(e, c).Of(t) == (if lowest.Some? then Min(lowest.value, c.raw.value) else c.raw.value)
       <==> Spared(lowest, e.Background(), c.raw.value))
    ensures !c.Measures(t) ==> AfterCycle(e, c).Of(t) == e.Of(t)
  {
  }

  // The estimator keeps the lowest power, idle or activation, if and only if
  // every cycle with such events spares it.
  lemma {:induction false} KeepsLowestExactly(cycles: seq<Cycle>, t: CpuEventType)
    ensures KeepsLowest(cycles, t) <==> AllSpared(cycles, t)
    decreases |cycles|
  {
    hide AfterCycle, Spared;
    if cycles != [] {
      var before, c := cycles[..|cycles| - 1], cycles[|cycles| - 1];
      KeepsLowestExactly(before, t);
      if KeepsLowest(before, t) { SparedStep(EstimateAfter(before), c, Lowest(before, t), t); }
    }
  }

  // A condition on the measurements alone: each is at least the lowest of its
  // kind above the documented background, or falls under one of the rules for 0.
  ghost predicate FarApart(cycles: seq<Cycle>) {
    cycles == []
    || (var before, c := cycles[..|cycles| - 1], cycles[|cycles| - 1];
        && FarApart(before)
        && (c.Measures(IdleEvent) ==> Spared(Lowest(before, IdleEvent), DocumentedBackground(before), c.raw.value))
        && (c.Measures(ActivationEvent) ==>
              Spared(Lowest(before, ActivationEvent), DocumentedBackground(before), c.raw.value)))
  }

  // On runs with idle and activation events, both estimates are as documented
  // after every cycle, and so is the background, if and only if all
  // measurements are far enough apart.
  lemma {:induction false} AsDocumentedExactly(cycles: seq<Cycle>)
    ensures KeepsLowest(cycles, IdleEvent) && KeepsLowest(cycles, ActivationEvent) <==> FarApart(cycles)
    ensures FarApart(cycles) ==> EstimateAfter(cycles).Background() == DocumentedBackground(cycles)
    decreases |cycles|
  {
    hide AfterCycle, Spared;
    if cycles != [] {
      var before, c := cycles[..|cycles| - 1], cycles[|cycles| - 1];
      AsDocumentedExactly(before);
      if FarApart(before) {
        SparedStep(EstimateAfter(before), c, Lowest(before, IdleEvent), IdleEvent);
        SparedStep(EstimateAfter(before), c, Lowest(before, ActivationEvent), ActivationEvent);
      }
    }
  }

  // ----- runs with one kind of events

  function OnlyEvents(powers: seq<u64>, t: CpuEventType): (c: seq<Cycle>)
    ensures |c| == |powers|
  {
    seq(|powers|, i requires 0 <= i < |powers| => Cycle(Some(powers[i]), t.IdleEvent?, t.ActivationEvent?))
  }

  lemma OneMorePower(powers: seq<u64>, t: CpuEventType)
    requires powers != []
    ensures var n, cycles := |powers| - 1, OnlyEvents(powers, t);
      cycles[..n] == OnlyEvents(powers[..n], t) && cycles[n] == Cycle(Some(powers[n]), t.IdleEvent?, t.ActivationEvent?)
  {
  }

  lemma {:induction false} BackgroundOfOneKind(powers: seq<u64>, t: CpuEventType)
    ensures var e := EstimateAfter(OnlyEvents(powers, t));
      e.Background() == e.Of(t) && (if t.IdleEvent? then e.activation else e.idle) == 0
    decreases |powers|
  {
    if powers != [] {
      BackgroundOfOneKind(powers[..|powers| - 1], t);
      OneMorePower(powers, t);
    }
  }

  // When the first of some powers is the lowest, it stays so.
  lemma {:induction false} FirstIsLowest(powers: seq<u64>, t: CpuEventType)
    requires powers != [] && forall i :: 0 <= i < |powers| ==> powers[0] <= powers[i]
    ensures Lowest(OnlyEvents(powers, t), t) == Some(powers[0])
    decreases |powers|
  {
    OneMorePower(powers, t);
    if |powers| > 1 { FirstIsLowest(powers[..|powers| - 1], t); }
  }

  ghost predicate TwiceTheFirst(powers: seq<u64>) {
    forall i :: 1 <= i < |powers| ==> powers[i] as int >= 2 * powers[0] as int
  }

  // Of positive powers, measured at cycles with events of one kind, the
  // estimator keeps the lowest after every cycle if and only if every later one
  // is at least twice the first.
  lemma {:induction false} KeepsLowestOfOneKind(powers: seq<u64>, t: CpuEventType)
    requires forall i :: 0 <= i < |powers| ==> powers[i] > 0
    ensures KeepsLowest(OnlyEvents(powers, t), t) <==> TwiceTheFirst(powers)
    decreases |powers|
  {
    hide AfterCycle, Lowest;
    if powers == [] {
      NoCycles(t);
    } else {
      var n := |powers| - 1;
      var earlier := powers[..n];
      OneMorePower(powers, t);
      KeepsLowestOfOneKind(earlier, t);
      assert TwiceTheFirst(powers) <==> TwiceTheFirst(earlier) && (n > 0 ==> powers[n] as int >= 2 * powers[0] as int);
      if TwiceTheFirst(earlier) {
        BackgroundOfOneKind(earlier, t);
        if n > 0 { FirstIsLowest(earlier, t); } else { NoCycles(t); }
        KeepsLowestExactly(OnlyEvents(powers, t), t);
        KeepsLowestExactly(OnlyEvents(earlier, t), t);
      }
    }
  }

  lemma NoCycles(t: CpuEventType)
    ensures KeepsLowest([], t) && Lowest([], t) == None
  {
  }

  function IdleCycles(power: u64, n: nat): (c: seq<Cycle>)
    ensures |c| == n && forall i :: 0 <= i < n ==> c[i] == Cycle(Some(power), true, false)
  {
    seq(n, _ => Cycle(Some(power), true, false))
  }

  // A machine idling at constant power is estimated at that power and at 0 by
  // turns.
  lemma {:induction false} IdleOscillates(power: u64, n: nat)
    ensures EstimateAfter(IdleCycles(power, n)) == Estimate(if n % 2 == 1 then power else 0, 0)
  {
    if n > 0 {
      assert IdleCycles(power, n)[..n - 1] == IdleCycles(power, n - 1);
      IdleOscillates(power, n - 1);
    }
  }
}
