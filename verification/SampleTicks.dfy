/**
 What sample ticks and other CPUs do to the time charged to a process.

 Between the switch that puts a task on a CPU and the one that takes it off,
 sample ticks make no difference. Other CPUs that run threads of the same task
 do: as long as they leave its start time alone the time is exact, and when they
 take it away the next charge is wrong by a known amount.
*/
module SampleTicks {
  import opened Machine
  import opened Kernel
  import opened Accounting
  import opened Timekeeping

  // On its CPU, p is at most sampled; on other CPUs anything may happen that
  // does not take p's start time away.
  predicate TickOrElsewhere(e: Event, p: u32, c: nat) {
    if HappensOn(e, c) then e.Sample? && e.pid == p else !TakesAway(e, p)
  }

  predicate TicksOnly(run: seq<Event>, p: u32, c: nat) {
    forall i :: 0 <= i < |run| ==> TickOrElsewhere(run[i], p, c)
  }

  // How far p's start time has moved.
  function Moved(k: Maps, k': Maps, p: u32, c: nat): int
    requires k.Valid() && k'.Valid() && k'.nCpus == k.nCpus && c < k.nCpus && p in k.pidLast && p in k'.pidLast
  {
    k'.pidLast[p][c] as int - k.pidLast[p][c] as int
  }

  lemma WrapNegates(a: int)
    requires Wrap(a) == 0
    ensures Wrap(-a) == 0
  {
  }

  lemma WrapCongruent(x: int, a: int, b: int)
    requires Wrap(a - b) == 0
    ensures Wrap(x + a) == Wrap(x + b)
  {
    WrapDifference(x + a, x + b);
  }

  lemma TickMoves(k: Maps, e: Event, p: u32, c: nat)
    requires k.Valid() && e.On(k.nCpus) && p != 0 && p in k.pidLast && c < k.nCpus && TickOrElsewhere(e, p, c)
    ensures p in Step(k, e).pidLast
    ensures Wrap(Gained(k, e, c) - Moved(k, Step(k, e), p, c)) == 0
  {
    hide Accepts, Wrap, NextPidTimes, NextCpuTime, NextRing, ZeroSlots;
    assert Step(k, e).pidLast == NextPidLast(k, e);
    WrapSmall(0);
    if HappensOn(e, c) {
      var gap := e.now as int - k.pidLast[p][c] as int;
      if e.tid != 0 {
        assert Gained(k, e, c) == Wrap(gap);
        WrapRemainder(gap);
        WrapNegates(gap - Wrap(gap));
      }
    } else {
      StartElsewhere(k, e, p, c);
    }
  }

  // Whether PID_TIMES takes a charge or not, p's slot on c advances by what it
  // gained there less what was refused.
  lemma SlotMoves(k: Maps, e: Event, p: u32, c: nat)
    requires k.Valid() && e.On(k.nCpus) && p != 0 && c < k.nCpus
    requires HappensOn(e, c) ==> (e.Sample? && e.pid == p) || (e.Switch? && e.prevTgid == p)
    requires HappensOn(e, c) || !TakesAway(e, p)
    ensures Slot(Step(k, e).pidTimes, p, c) == Wrap(Slot(k.pidTimes, p, c) + Gained(k, e, c) - Refused(k, e, c))
  {
    hide Wrap, Credited, NextPidLast, NextCpuTime, NextRing, Accepts;
    assert Step(k, e).pidTimes == NextPidTimes(k, e) == Buried(Paid(k, e), e);
    WrapSmall(Slot(k.pidTimes, p, c));
    var charge := ChargeOf(k, e);
    if charge.Some? {
      CreditedSlot(k.pidTimes, k.nCpus, charge.value, p, c);
      KnownKeyAccepted(k.pidTimes, p);
    }
    assert Slot(Buried(Paid(k, e), e), p, c) == Slot(Paid(k, e), p, c);
  }

  lemma {:induction false} TicksMove(k: Maps, run: seq<Event>, p: u32, c: nat)
    requires k.Valid() && RunsOn(run, k.nCpus) && p != 0 && p in k.pidLast && c < k.nCpus && TicksOnly(run, p, c)
    ensures p in Run(k, run).pidLast
    ensures Wrap(Gain(k, run, c) - Moved(k, Run(k, run), p, c)) == 0
    decreases |run|
  {
    hide Step, Gained, Wrap;
    if run == [] {
      WrapSmall(0);
    } else {
      var before, e := run[..|run| - 1], run[|run| - 1];
      TicksMove(k, before, p, c);
      var k1 := Run(k, before);
      TickMoves(k1, e, p, c);
      WrapZeros(Gain(k, before, c) - Moved(k, k1, p, c), Gained(k1, e, c) - Moved(k1, Step(k1, e), p, c));
      assert Moved(k, Step(k1, e), p, c) == Moved(k, k1, p, c) + Moved(k1, Step(k1, e), p, c);
    }
  }

  lemma {:induction false} SlotsMove(k: Maps, run: seq<Event>, p: u32, c: nat)
    requires k.Valid() && RunsOn(run, k.nCpus) && p != 0 && c < k.nCpus && TicksOnly(run, p, c)
    ensures Slot(Run(k, run).pidTimes, p, c) == Wrap(Slot(k.pidTimes, p, c) + Gain(k, run, c) - RefusedTime(k, run, c))
    decreases |run|
  {
    hide Step, Gained, Wrap, Slot, Refused;
    if run == [] {
      WrapSmall(Slot(k.pidTimes, p, c));
    } else {
      var before, e := run[..|run| - 1], run[|run| - 1];
      SlotsMove(k, before, p, c);
      var k1 := Run(k, before);
      SlotMoves(k1, e, p, c);
      WrapCarries(Slot(k.pidTimes, p, c) + Gain(k, before, c) - RefusedTime(k, before, c),
                  Gained(k1, e, c) - Refused(k1, e, c));
    }
  }

  // From the switch that puts p on CPU c at t0 to the one that takes it off at
  // t1, whatever happens elsewhere and however many sample ticks hit p, CPU_TIME
  // advances by t1 - t0, and p's slot by that less what a full map refused.
  // Elsewhere threads of p may come, run and be sampled, but not leave. Neither
  // the counters nor the clock need to stay below 2^64 or in order.
  lemma TickIndependence(k0: Maps, on: Event, mid: seq<Event>, off: Event)
    requires k0.Valid() && on.Switch? && off.Switch? && on.On(k0.nCpus) && RunsOn(mid, k0.nCpus)
    requires on.cpu == off.cpu && on.nextTgid == off.prevTgid && off.prevTgid != 0 && off.prevTid != 0
    requires TicksOnly(mid, on.nextTgid, on.cpu) && on.nextTgid in Step(k0, on).pidLast
    ensures var p, c := on.nextTgid, on.cpu;
      var k := Step(k0, on);
      var k1 := Run(k, mid);
      var k' := Step(k1, off);
      var refused := RefusedTime(k, mid, c) + Refused(k1, off, c);
      && (c < MAX_CPU ==> k'.cpuTime[c] == Wrap(k.cpuTime[c] + (off.now as int - on.now as int)))
      && Slot(k'.pidTimes, p, c) == Wrap(Slot(k.pidTimes, p, c) + (off.now as int - on.now as int) - refused)
  {
    hide Step, Wrap, Run, Gain, Gained, Slot, Refused, RefusedTime;
    var p, c := on.nextTgid, on.cpu;
    var k := Step(k0, on);
    var k1 := Run(k, mid);
    StartsAt(k0, on);
    TicksMove(k, mid, p, c);
    SlotsMove(k, mid, p, c);
    OffGains(k, k1, off, Gain(k, mid, c), p, c);
    var gain, gap := Gain(k, mid, c) + Gained(k1, off, c), off.now as int - on.now as int;
    if c < MAX_CPU {
      CpuTimeIsGain(k, mid, c);
      CpuTimeStep(k1, off, c);
      WrapCarries(k.cpuTime[c] + Gain(k, mid, c), Gained(k1, off, c));
      WrapCongruent(k.cpuTime[c], gain, gap);
    }
    SlotMoves(k1, off, p, c);
    var slot, refused := Slot(k.pidTimes, p, c), RefusedTime(k, mid, c);
    WrapCarries(slot + Gain(k, mid, c) - refused, Gained(k1, off, c) - Refused(k1, off, c));
    WrapCongruent(slot - refused - Refused(k1, off, c), gain, gap);
  }

  lemma StartsAt(k0: Maps, on: Event)
    requires k0.Valid() && on.Switch? && on.On(k0.nCpus) && on.nextTgid in Step(k0, on).pidLast
    ensures Step(k0, on).pidLast[on.nextTgid][on.cpu] == on.now
  {
    hide Wrap, NextRing, NextCpuTime, NextPidTimes, ZeroSlots;
    assert Step(k0, on).pidLast == NextPidLast(k0, on);
  }

  lemma OffGains(k: Maps, k1: Maps, off: Event, gain: nat, p: u32, c: nat)
    requires k.Valid() && k1.Valid() && k1.nCpus == k.nCpus && c < k.nCpus && p != 0 && p in k.pidLast && p in k1.pidLast
    requires off.Switch? && off.cpu == c && off.prevTgid == p && off.prevTid != 0
    requires Wrap(gain - Moved(k, k1, p, c)) == 0
    ensures Wrap(gain + Gained(k1, off, c) - (off.now as int - k.pidLast[p][c] as int)) == 0
  {
    hide Accepts, Wrap;
    var rest := off.now as int - k1.pidLast[p][c] as int;
    var g := Gained(k1, off, c);
    assert g == Wrap(rest);
    WrapRemainder(rest);
    WrapNegates(rest - g);
    WrapZeros(gain - Moved(k, k1, p, c), g - rest);
  }

  // ----- tasks on several CPUs at once

  predicate Elsewhere(run: seq<Event>, c: nat) {
    forall i :: 0 <= i < |run| ==> !HappensOn(run[i], c)
  }

  ghost predicate Disturbed(run: seq<Event>, p: u32) {
    exists i :: 0 <= i < |run| && TakesAway(run[i], p)
  }

  lemma {:induction false} StartAfter(k: Maps, mid: seq<Event>, p: u32, c: nat)
    requires k.Valid() && RunsOn(mid, k.nCpus) && p != 0 && p in k.pidLast && c < k.nCpus && Elsewhere(mid, c)
    ensures var k1 := Run(k, mid);
      && (!Disturbed(mid, p) ==> p in k1.pidLast && k1.pidLast[p][c] == k.pidLast[p][c])
      && (Disturbed(mid, p) && p in k1.pidLast ==> k1.pidLast[p][c] == 0)
    decreases |mid|
  {
    hide Step, TakesAway;
    if mid != [] {
      var before, e := mid[..|mid| - 1], mid[|mid| - 1];
      StartAfter(k, before, p, c);
      StartElsewhere(Run(k, before), e, p, c);
      DisturbedOnce(mid, p);
    }
  }

  lemma DisturbedOnce(run: seq<Event>, p: u32)
    requires run != []
    ensures Disturbed(run, p) <==> Disturbed(run[..|run| - 1], p) || TakesAway(run[|run| - 1], p)
  {
    var before := run[..|run| - 1];
    if Disturbed(before, p) {
      var i :| 0 <= i < |before| && TakesAway(before[i], p);
      assert TakesAway(run[i], p);
    }
    if Disturbed(run, p) {
      var i :| 0 <= i < |run| && TakesAway(run[i], p);
      assert i < |before| ==> TakesAway(before[i], p);
    }
  }

  // An event that charges p on c if its start time is known.
  predicate Closes(e: Event, p: u32, c: nat) {
    match e
    case Switch(cpu, _, prevTgid, prevTid, _) => cpu == c && prevTgid == p && prevTid != 0
    case Sample(cpu, _, pid, tid) => cpu == c && pid == p && tid != 0
    case Exit(cpu, _, tgid, tid, _) => cpu == c && tgid == p && tid != 0
    case _ => false
  }

  // p's start time on c is x. The next event of p on c, at time n, charges n - x
  // if no other CPU has taken the start time away in between; otherwise it
  // charges nothing, or the whole clock n if another CPU has put p back. The
  // charge is right if and only if the start time was left alone, or the
  // instants coincide.
  lemma NextCharge(k: Maps, mid: seq<Event>, e: Event, p: u32, c: nat)
    requires k.Valid() && RunsOn(mid, k.nCpus) && e.On(k.nCpus) && c < k.nCpus
    requires p != 0 && p in k.pidLast && Elsewhere(mid, c) && Closes(e, p, c)
    ensures var k1, x, n := Run(k, mid), k.pidLast[p][c], e.now;
      var charged := Gained(k1, e, c);
      && charged == (if !Disturbed(mid, p) then WrapSub(n, x) else if p in k1.pidLast then n else 0)
      && (charged == WrapSub(n, x) <==>
            !Disturbed(mid, p) || (if p in k1.pidLast then x == 0 else n == x))
  {
    hide Step, Run, Accepts, Wrap, Disturbed;
    var k1 := Run(k, mid);
    var x: int, n: int := k.pidLast[p][c], e.now;
    StartAfter(k, mid, p, c);
    assert Gained(k1, e, c) == if p in k1.pidLast then WrapSub(n, k1.pidLast[p][c]) else 0;
    WrapSmall(n);
    WrapSmall(0);
    WrapDifference(n, x);
    WrapDifference(n, n - x);
    WrapSmall(x);
  }

  // Who puts a start time back: p has one after an event if and only if the
  // event keeps the one it had, or takes a new one that fits the map.
  lemma StartsOnceMore(k: Maps, e: Event, p: u32)
    requires k.Valid() && e.On(k.nCpus) && p != 0
    ensures p in Step(k, e).pidLast <==>
      || (p in k.pidLast && !TakesAway(e, p))
      || (((e.Switch? && e.nextTgid == p) || (e.Sample? && e.pid == p && e.tid != 0)) && StartKept(k, e))
  {
    hide Accepts, Wrap, NextPidTimes, NextCpuTime, NextRing, ZeroSlots;
    assert Step(k, e).pidLast == NextPidLast(k, e);
  }

  // A task that is put on CPU d, without a start time, while it already runs on
  // CPU c: whatever the clock shows, the next event on c charges all of it.
  lemma TwoCpusOvercharge(k: Maps, on: Event, mid: seq<Event>, e: Event, p: u32, c: nat)
    requires k.Valid() && on.On(k.nCpus) && RunsOn(mid, k.nCpus) && e.On(k.nCpus) && c < k.nCpus
    requires on.Switch? && on.nextTgid == p != 0 && on.cpu != c && p !in k.pidLast && p in Step(k, on).pidLast
    requires Elsewhere(mid, c) && !Disturbed(mid, p) && Closes(e, p, c)
    ensures Gained(Run(Step(k, on), mid), e, c) == e.now
  {
    hide Step, Run, Disturbed;
    StartElsewhere(k, on, p, c);
    NextCharge(Step(k, on), mid, e, p, c);
    WrapSmall(e.now);
  }
}
