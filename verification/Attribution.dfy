/**
 From core power to process power, and the bound that ties it to the kernel.

 A process gets from each core the share of the core's busy time that is its
 own. Because the handlers charge every nanosecond of CPU_TIME to at most one
 process, the processes together never get more than the cores consumed.
*/
module Attribution {
  import opened Machine
  import opened Kernel
  import opened Accounting
  import opened CorePower
  import opened ProcessHistory

  // ----- what user space reads

  // The CPU_TIME map, read for each of the host's logical CPUs.
  function CpuTimeRecord(k: Maps, nbCores: nat): (r: seq<u64>)
    requires k.Valid()
    ensures |r| == nbCores
  {
    seq(nbCores, i => if 0 <= i < MAX_CPU then k.cpuTime[i] else 0)
  }

  // The PID_TIMES entry of a process, if it has one.
  function CoreTimes(k: Maps, pid: u32): Option<seq<u64>> {
    if pid in k.pidTimes then Some(k.pidTimes[pid]) else None
  }

  function CounterDelta(prev: u64, last: u64): u64 {
    if last >= prev then last - prev else U64_MAX - prev + last
  }

  function CpuTimeDiff(prev: seq<u64>, last: seq<u64>): (r: Option<seq<u64>>)
    ensures r.Some? ==> |r.value| == Min(|prev|, |last|)
  {
    var n := Min(|prev|, |last|);
    var diffs := seq(n, i requires 0 <= i < n => CounterDelta(prev[i], last[i]));
    if forall d :: d in diffs ==> d == 0 then None else Some(diffs)
  }

  // The counter difference is the time gained, short of one when it wrapped.
  lemma CounterDeltaIsGain(prev: u64, gain: u64)
    ensures CounterDelta(prev, WrapAdd(prev, gain)) == gain - if prev + gain >= TWO64 then 1 else 0
  {
  }

  // ----- attribution

  // The part of core `id` that a process used.
  function Share(id: u16, delta: seq<u64>, diff: seq<u64>): (r: real)
    requires id < |delta|
    ensures 0.0 <= r <= 1.0
  {
    var total := if id < |diff| then diff[id] else 0;
    if total > 0 then
      var q := delta[id] as real / total as real;
      QuotientNonNegative(delta[id] as real, total as real);
      if q <= 1.0 then q else 1.0
    else 0.0
  }

  predicate IdsBelow(ids: seq<u16>, n: nat) {
    forall i :: 0 <= i < |ids| ==> ids[i] < n
  }

  // Proportions per core of the host, in the order of the host's core list.
  function CoreProportions(ids: seq<u16>, delta: Option<seq<u64>>, diff: Option<seq<u64>>): (r: Option<seq<real>>)
    requires delta.Some? ==> IdsBelow(ids, |delta.value|)
    ensures r.Some? <==> delta.Some? && diff.Some?
    ensures r.Some? ==> |r.value| == |ids|
  {
    if delta == None || diff == None then None
    else Some(seq(|ids|, i requires 0 <= i < |ids| => Share(ids[i], delta.value, diff.value)))
  }

  function Dot(w: seq<real>, x: seq<real>): real
    requires |w| == |x|
  {
    if w == [] then 0.0 else Dot(w[..|w| - 1], x[..|x| - 1]) + w[|w| - 1] * x[|x| - 1]
  }

  // Power of a process as attributed from the eBPF counters.
  function ProcessPower(powers: seq<real>, proportions: Option<seq<real>>): real
    requires proportions.Some? ==> |proportions.value| == |powers|
  {
    match proportions
    case None => 0.0
    case Some(ps) => Dot(powers, ps)
  }

  // ----- the kernel never gives a nanosecond twice

  function Amounts(l: Ledger, pids: seq<u32>): nat {
    if pids == [] then 0 else Amounts(l, pids[..|pids| - 1]) + Amount(l, pids[|pids| - 1])
  }

  predicate Distinct(pids: seq<u32>) {
    forall i, j :: 0 <= i < j < |pids| ==> pids[i] != pids[j]
  }

  // No process of the list is retired by the run.
  predicate Spares(run: seq<Event>, pids: seq<u32>) {
    forall i :: 0 <= i < |run| ==> !(run[i].Exit? && run[i].groupDead && run[i].tgid in pids)
  }

  function PaidTo(k: Maps, e: Event, c: nat, p: u32): nat
    requires k.Valid() && e.On(k.nCpus)
  {
    match ChargeOf(k, e)
    case None => 0
    case Some(charge) => if charge.tgid == p && charge.cpu == c then charge.delta else 0
  }

  lemma AmountGrows(l: Ledger, k: Maps, e: Event, c: nat, p: u32)
    requires k.Valid() && e.On(k.nCpus) && !(e.Exit? && e.groupDead && e.tgid == p)
    ensures Amount(l, p) <= Amount(Booked(l, k, e, c), p) <= Amount(l, p) + PaidTo(k, e, c, p)
    ensures PaidTo(k, e, c, p) <= Gained(k, e, c)
  {
    hide Accepts, Wrap;
  }

  lemma {:induction false} AmountsGrow(l: Ledger, k: Maps, e: Event, c: nat, pids: seq<u32>)
    requires k.Valid() && e.On(k.nCpus) && Distinct(pids) && Spares([e], pids)
    ensures Amounts(Booked(l, k, e, c), pids) <= Amounts(l, pids) + Gained(k, e, c)
    ensures (forall i :: 0 <= i < |pids| ==> PaidTo(k, e, c, pids[i]) == 0) ==>
      Amounts(Booked(l, k, e, c), pids) <= Amounts(l, pids)
    decreases |pids|
  {
    hide Booked, ChargeOf;
    assert [e][0] == e;
    if pids != [] {
      var before, p := pids[..|pids| - 1], pids[|pids| - 1];
      AmountsGrow(l, k, e, c, before);
      AmountGrows(l, k, e, c, p);
      if PaidTo(k, e, c, p) > 0 {
        forall i | 0 <= i < |before|
          ensures PaidTo(k, e, c, before[i]) == 0
        {
        }
      }
    }
  }

  lemma {:induction false} AmountsOverRun(k0: Maps, pre: seq<Event>, mid: seq<Event>, c: nat, pids: seq<u32>)
    requires k0.Valid() && RunsOn(pre + mid, k0.nCpus) && RunsOn(pre, k0.nCpus) && c < k0.nCpus
    requires Distinct(pids) && Spares(mid, pids)
    ensures Amounts(Books(k0, pre + mid, c), pids) + Gain(k0, pre, c) <= Amounts(Books(k0, pre, c), pids) + Gain(k0, pre + mid, c)
    ensures forall p :: p in pids ==> Amount(Books(k0, pre, c), p) <= Amount(Books(k0, pre + mid, c), p)
    decreases |mid|
  {
    hide Step, Booked, Gained;
    if mid == [] {
      assert pre + mid == pre;
    } else {
      var n := |mid| - 1;
      var run, e := pre + mid[..n], mid[n];
      assert (pre + mid)[..|pre + mid| - 1] == run && (pre + mid)[|pre + mid| - 1] == e;
      AmountsOverRun(k0, pre, mid[..n], c, pids);
      assert [e][0] == e && Spares([e], pids);
      AmountsGrow(Books(k0, run, c), Run(k0, run), e, c, pids);
      forall p | p in pids
        ensures Amount(Books(k0, pre, c), p) <= Amount(Books(k0, pre + mid, c), p)
      {
        AmountGrows(Books(k0, run, c), Run(k0, run), e, c, p);
      }
    }
  }

  // ----- shares of one core

  lemma ShareTimesTotal(id: u16, delta: seq<u64>, diff: seq<u64>)
    requires id < |delta| && id < |diff|
    ensures Share(id, delta, diff) * diff[id] as real <= delta[id] as real
  {
    var d, t := delta[id] as real, diff[id] as real;
    if diff[id] > 0 {
      QuotientTimes(d, t);
    }
  }

  lemma QuotientTimes(d: real, t: real)
    requires t > 0.0 && d >= 0.0
    ensures (d / t) * t == d && (d / t > 1.0 ==> t < d)
  {
  }

  function Deltas(deltas: seq<seq<u64>>, id: u16): nat
    requires forall j :: 0 <= j < |deltas| ==> id < |deltas[j]|
  {
    if deltas == [] then 0 else Deltas(deltas[..|deltas| - 1], id) + deltas[|deltas| - 1][id]
  }

  function Shares(deltas: seq<seq<u64>>, id: u16, diff: seq<u64>): (r: real)
    requires forall j :: 0 <= j < |deltas| ==> id < |deltas[j]|
    ensures r >= 0.0
  {
    if deltas == [] then 0.0
    else Shares(deltas[..|deltas| - 1], id, diff) + Share(id, deltas[|deltas| - 1], diff)
  }

  lemma {:induction false} SharesTimesTotal(deltas: seq<seq<u64>>, id: u16, diff: seq<u64>)
    requires (forall j :: 0 <= j < |deltas| ==> id < |deltas[j]|) && id < |diff|
    ensures Shares(deltas, id, diff) * diff[id] as real <= Deltas(deltas, id) as real
    decreases |deltas|
  {
    hide Share;
    if deltas != [] {
      var before, last := deltas[..|deltas| - 1], deltas[|deltas| - 1];
      SharesTimesTotal(before, id, diff);
      ShareTimesTotal(id, last, diff);
      Distributes(Shares(before, id, diff), Share(id, last, diff), diff[id] as real);
    }
  }

  // No two of them used the core.
  predicate OneAtMost(deltas: seq<seq<u64>>, id: u16)
    requires forall j :: 0 <= j < |deltas| ==> id < |deltas[j]|
  {
    forall i, j :: 0 <= i < j < |deltas| ==> deltas[i][id] == 0 || deltas[j][id] == 0
  }

  // Whatever was sampled, processes use at most the whole core if and only if
  // the core has no time at all, their times fit into it, or no two used it.
  lemma SharesWithinOne(deltas: seq<seq<u64>>, id: u16, diff: seq<u64>)
    requires forall j :: 0 <= j < |deltas| ==> id < |deltas[j]|
    ensures Shares(deltas, id, diff) <= 1.0 <==>
      || id >= |diff| || diff[id] == 0 || Deltas(deltas, id) <= diff[id] || OneAtMost(deltas, id)
  {
    hide Shares, Deltas, Share;
    if id >= |diff| || diff[id] == 0 {
      NoShares(deltas, id, diff);
    } else if Deltas(deltas, id) <= diff[id] {
      FittingShares(deltas, id, diff);
    } else if OneAtMost(deltas, id) {
      OneShare(deltas, id, diff);
    } else {
      MoreThanOne(deltas, id, diff);
    }
  }

  lemma MoreThanOne(deltas: seq<seq<u64>>, id: u16, diff: seq<u64>)
    requires (forall j :: 0 <= j < |deltas| ==> id < |deltas[j]|) && !OneAtMost(deltas, id)
    requires id < |diff| && 0 < diff[id] < Deltas(deltas, id)
    ensures Shares(deltas, id, diff) > 1.0
  {
    hide Shares, Deltas, Share;
    if i :| 0 <= i < |deltas| && deltas[i][id] > diff[id] {
      var u, v :| 0 <= u < v < |deltas| && deltas[u][id] > 0 && deltas[v][id] > 0;
      var j := if i == u then v else u;
      WholeShare(id, deltas[i], diff);
      SomeShare(id, deltas[j], diff);
      TwoShares(deltas, id, diff, i, j);
    } else {
      UncutAboveOne(deltas, id, diff);
    }
  }

  lemma UncutAboveOne(deltas: seq<seq<u64>>, id: u16, diff: seq<u64>)
    requires forall j :: 0 <= j < |deltas| ==> id < |deltas[j]|
    requires id < |diff| && 0 < diff[id] < Deltas(deltas, id)
    requires forall j :: 0 <= j < |deltas| ==> deltas[j][id] <= diff[id]
    ensures Shares(deltas, id, diff) > 1.0
  {
    hide Shares, Deltas;
    UncutShares(deltas, id, diff);
    AboveOne(Shares(deltas, id, diff), Deltas(deltas, id) as real, diff[id] as real);
  }

  lemma FittingShares(deltas: seq<seq<u64>>, id: u16, diff: seq<u64>)
    requires forall j :: 0 <= j < |deltas| ==> id < |deltas[j]|
    requires id < |diff| && diff[id] > 0 && Deltas(deltas, id) <= diff[id]
    ensures Shares(deltas, id, diff) <= 1.0
  {
    hide Shares, Deltas;
    SharesTimesTotal(deltas, id, diff);
    AtMostOne(Shares(deltas, id, diff), Deltas(deltas, id) as real, diff[id] as real);
  }

  lemma WholeShare(id: u16, delta: seq<u64>, diff: seq<u64>)
    requires id < |delta| && id < |diff| && delta[id] > diff[id] > 0
    ensures Share(id, delta, diff) == 1.0
  {
    AboveOne(delta[id] as real / diff[id] as real, delta[id] as real, diff[id] as real);
  }

  lemma SomeShare(id: u16, delta: seq<u64>, diff: seq<u64>)
    requires id < |delta| && id < |diff| && delta[id] > 0 && diff[id] > 0
    ensures Share(id, delta, diff) > 0.0
  {
    Positive(delta[id] as real, diff[id] as real);
  }

  lemma Positive(d: real, t: real)
    requires d > 0.0 && t > 0.0
    ensures d / t > 0.0
  {
  }

  lemma AboveOne(x: real, d: real, t: real)
    requires t > 0.0 && x * t == d > t
    ensures x > 1.0
  {
    if x <= 1.0 { AtMostFactor(t, x); }
  }

  lemma {:induction false} UncutShares(deltas: seq<seq<u64>>, id: u16, diff: seq<u64>)
    requires forall j :: 0 <= j < |deltas| ==> id < |deltas[j]|
    requires id < |diff| && diff[id] > 0 && forall j :: 0 <= j < |deltas| ==> deltas[j][id] <= diff[id]
    ensures Shares(deltas, id, diff) * diff[id] as real == Deltas(deltas, id) as real
    decreases |deltas|
  {
    hide Share;
    if deltas != [] {
      var before, last := deltas[..|deltas| - 1], deltas[|deltas| - 1];
      UncutShares(before, id, diff);
      UncutShare(id, last, diff);
      Distributes(Shares(before, id, diff), Share(id, last, diff), diff[id] as real);
    }
  }

  lemma UncutShare(id: u16, delta: seq<u64>, diff: seq<u64>)
    requires id < |delta| && id < |diff| && delta[id] <= diff[id] && diff[id] > 0
    ensures Share(id, delta, diff) * diff[id] as real == delta[id] as real
  {
    QuotientTimes(delta[id] as real, diff[id] as real);
  }

  lemma {:induction false} OneShare(deltas: seq<seq<u64>>, id: u16, diff: seq<u64>)
    requires (forall j :: 0 <= j < |deltas| ==> id < |deltas[j]|) && OneAtMost(deltas, id)
    ensures Shares(deltas, id, diff) <= 1.0
    decreases |deltas|
  {
    hide Share;
    if deltas != [] {
      var n := |deltas| - 1;
      if deltas[n][id] > 0 {
        assert forall i :: 0 <= i < n ==> deltas[i][id] == 0;
        UnusedCore(deltas[..n], id, diff);
      } else {
        OneShare(deltas[..n], id, diff);
        NoShare(id, deltas[n], diff);
      }
    }
  }

  lemma NoShare(id: u16, delta: seq<u64>, diff: seq<u64>)
    requires id < |delta| && delta[id] == 0
    ensures Share(id, delta, diff) == 0.0
  {
  }

  lemma {:induction false} UnusedCore(deltas: seq<seq<u64>>, id: u16, diff: seq<u64>)
    requires forall j :: 0 <= j < |deltas| ==> id < |deltas[j]| && deltas[j][id] == 0
    ensures Shares(deltas, id, diff) == 0.0
    decreases |deltas|
  {
    hide Share;
    if deltas != [] {
      UnusedCore(deltas[..|deltas| - 1], id, diff);
      NoShare(id, deltas[|deltas| - 1], diff);
    }
  }

  lemma {:induction false} TwoShares(deltas: seq<seq<u64>>, id: u16, diff: seq<u64>, i: nat, j: nat)
    requires (forall k :: 0 <= k < |deltas| ==> id < |deltas[k]|) && i < |deltas| && j < |deltas| && i != j
    ensures Shares(deltas, id, diff) >= Share(id, deltas[i], diff) + Share(id, deltas[j], diff)
    decreases |deltas|
  {
    hide Share;
    var n := |deltas| - 1;
    if i < n && j < n {
      TwoShares(deltas[..n], id, diff, i, j);
    } else {
      AnyShare(deltas[..n], id, diff, if i == n then j else i);
    }
  }

  lemma {:induction false} AnyShare(deltas: seq<seq<u64>>, id: u16, diff: seq<u64>, i: nat)
    requires (forall k :: 0 <= k < |deltas| ==> id < |deltas[k]|) && i < |deltas|
    ensures Shares(deltas, id, diff) >= Share(id, deltas[i], diff)
    decreases |deltas|
  {
    hide Share;
    if i < |deltas| - 1 { AnyShare(deltas[..|deltas| - 1], id, diff, i); }
  }

  lemma AtMostOne(x: real, d: real, t: real)
    requires t > 0.0 && x * t <= d <= t
    ensures x <= 1.0
  {
  }

  lemma {:induction false} NoShares(deltas: seq<seq<u64>>, id: u16, diff: seq<u64>)
    requires forall j :: 0 <= j < |deltas| ==> id < |deltas[j]|
    requires id < |diff| ==> diff[id] == 0
    ensures Shares(deltas, id, diff) == 0.0
    decreases |deltas|
  {
    if deltas != [] { NoShares(deltas[..|deltas| - 1], id, diff); }
  }

  // ----- all processes, all cores

  predicate Rectangular(xs: seq<seq<real>>, n: nat) {
    forall j :: 0 <= j < |xs| ==> |xs[j]| == n
  }

  function Column(xs: seq<seq<real>>, i: nat): real
    requires forall j :: 0 <= j < |xs| ==> i < |xs[j]|
  {
    if xs == [] then 0.0 else Column(xs[..|xs| - 1], i) + xs[|xs| - 1][i]
  }

  function Rows(w: seq<real>, xs: seq<seq<real>>): real
    requires Rectangular(xs, |w|)
  {
    if xs == [] then 0.0 else Rows(w, xs[..|xs| - 1]) + Dot(w, xs[|xs| - 1])
  }

  function Trim(xs: seq<seq<real>>, n: nat): (r: seq<seq<real>>)
    requires Rectangular(xs, n) && n > 0
    ensures Rectangular(r, n - 1) && |r| == |xs|
  {
    seq(|xs|, j requires 0 <= j < |xs| => xs[j][..n - 1])
  }

  lemma {:induction false} RowsPeel(w: seq<real>, xs: seq<seq<real>>)
    requires w != [] && Rectangular(xs, |w|)
    ensures Rows(w, xs) == Rows(w[..|w| - 1], Trim(xs, |w|)) + w[|w| - 1] * Column(xs, |w| - 1)
    decreases |xs|
  {
    if xs != [] {
      var before, last, n := xs[..|xs| - 1], xs[|xs| - 1], |w|;
      RowsPeel(w, before);
      assert Trim(xs, n)[..|xs| - 1] == Trim(before, n);
      Distributes(Column(before, n - 1), last[n - 1], w[n - 1]);
    }
  }

  lemma {:induction false} TrimColumn(xs: seq<seq<real>>, n: nat, i: nat)
    requires Rectangular(xs, n) && i < n - 1
    ensures Column(Trim(xs, n), i) == Column(xs, i)
    decreases |xs|
  {
    if xs != [] {
      TrimColumn(xs[..|xs| - 1], n, i);
      assert Trim(xs, n)[..|xs| - 1] == Trim(xs[..|xs| - 1], n);
    }
  }

  // Summing process by process or core by core is the same: when nobody gets
  // more than a whole core, all together get at most the power of the cores.
  lemma {:induction false} RowsBounded(w: seq<real>, xs: seq<seq<real>>)
    requires Rectangular(xs, |w|)
    requires forall i :: 0 <= i < |w| ==> w[i] >= 0.0 && Column(xs, i) <= 1.0
    ensures Rows(w, xs) <= Sum(w)
    decreases |w|
  {
    if w == [] {
      NothingToGive(xs);
    } else {
      var n := |w|;
      RowsPeel(w, xs);
      forall i | 0 <= i < n - 1
        ensures Column(Trim(xs, n), i) <= 1.0
      {
        TrimColumn(xs, n, i);
      }
      RowsBounded(w[..n - 1], Trim(xs, n));
      AtMostFactor(w[n - 1], Column(xs, n - 1));
    }
  }

  lemma AtMostFactor(w: real, x: real)
    requires w >= 0.0 && x <= 1.0
    ensures w * x <= w
  {
  }

  lemma {:induction false} NothingToGive(xs: seq<seq<real>>)
    requires Rectangular(xs, 0)
    ensures Rows([], xs) == 0.0
    decreases |xs|
  {
    if xs != [] { NothingToGive(xs[..|xs| - 1]); }
  }

  // ----- the two halves together

  predicate Held(k: Maps, pids: seq<u32>) {
    forall i :: 0 <= i < |pids| ==> pids[i] in k.pidTimes
  }

  // How much each process advanced on each CPU between two samples.
  function Advances(k1: Maps, k2: Maps, pids: seq<u32>): (r: seq<seq<u64>>)
    requires k1.Valid() && k2.Valid() && k1.nCpus == k2.nCpus && Held(k1, pids) && Held(k2, pids)
    ensures |r| == |pids| && forall j :: 0 <= j < |r| ==> |r[j]| == k1.nCpus
  {
    seq(|pids|, j requires 0 <= j < |pids| => PerCoreDelta(CoreTimes(k1, pids[j]), CoreTimes(k2, pids[j])).value)
  }

  lemma SlotsWrapAmounts(k0: Maps, run: seq<Event>, c: nat, p: u32)
    requires k0.Valid() && RunsOn(run, k0.nCpus) && c < k0.nCpus
    ensures Slot(Run(k0, run).pidTimes, p, c) == Wrap(Amount(Books(k0, run, c), p))
  {
    hide Run, Books, Wrap;
    BooksBalance(k0, run, c);
    WrapSmall(0);
  }

  lemma WrapGrowth(a: int, b: int)
    requires a <= b < a + TWO64
    ensures Wrap(Wrap(b) - Wrap(a)) == b - a
  {
  }

  // Nanoseconds charged to CPU c between two samples.
  function Growth(k0: Maps, pre: seq<Event>, mid: seq<Event>, c: nat): int
    requires k0.Valid() && RunsOn(pre, k0.nCpus) && RunsOn(pre + mid, k0.nCpus)
  {
    Gain(k0, pre + mid, c) - Gain(k0, pre, c)
  }

  // The CPU's counter does not wrap between the samples, however often it did
  // before.
  predicate Unwrapped(k0: Maps, pre: seq<Event>, mid: seq<Event>, c: nat)
    requires k0.Valid() && RunsOn(pre, k0.nCpus) && RunsOn(pre + mid, k0.nCpus) && c < MAX_CPU
  {
    Run(k0, pre).cpuTime[c] + Growth(k0, pre, mid, c) < TWO64
  }

  // One process gains no more on a CPU than the CPU was charged.
  lemma AmountWithinGrowth(k0: Maps, pre: seq<Event>, mid: seq<Event>, c: nat, p: u32)
    requires k0.Valid() && RunsOn(pre + mid, k0.nCpus) && RunsOn(pre, k0.nCpus) && c < k0.nCpus && Spares(mid, [p])
    ensures Amount(Books(k0, pre, c), p) <= Amount(Books(k0, pre + mid, c), p)
         <= Amount(Books(k0, pre, c), p) + Growth(k0, pre, mid, c)
  {
    hide Books, Gain;
    AmountsOverRun(k0, pre, mid, c, [p]);
    assert [p][..0] == [];
    assert p in [p];
  }

  // The advances read from two samples are what the processes gained.
  lemma {:induction false} AdvancesAreGrowth(k0: Maps, pre: seq<Event>, mid: seq<Event>, c: u16, pids: seq<u32>)
    requires k0.Valid() && RunsOn(pre, k0.nCpus) && RunsOn(pre + mid, k0.nCpus) && c < k0.nCpus
    requires Growth(k0, pre, mid, c) < TWO64 && Spares(mid, pids)
    requires var k1, k2 := Run(k0, pre), Run(k0, pre + mid); Held(k1, pids) && Held(k2, pids)
    ensures Deltas(Advances(Run(k0, pre), Run(k0, pre + mid), pids), c)
         == Amounts(Books(k0, pre + mid, c), pids) - Amounts(Books(k0, pre, c), pids)
    decreases |pids|
  {
    hide Run, Books, Gain, Wrap, Growth;
    if pids != [] {
      var k1, k2 := Run(k0, pre), Run(k0, pre + mid);
      var before, p := pids[..|pids| - 1], pids[|pids| - 1];
      AdvancesAreGrowth(k0, pre, mid, c, before);
      assert Advances(k1, k2, pids)[..|pids| - 1] == Advances(k1, k2, before);
      assert Spares(mid, [p]);
      AmountWithinGrowth(k0, pre, mid, c, p);
      SlotsWrapAmounts(k0, pre, c, p);
      SlotsWrapAmounts(k0, pre + mid, c, p);
      WrapGrowth(Amount(Books(k0, pre, c), p), Amount(Books(k0, pre + mid, c), p));
    }
  }

  // Between two samples of the same instants, the processes' times on a core
  // add up to at most what the core was charged. CPU_TIME shows exactly that if
  // the counter did not wrap in between, and one nanosecond less if it did.
  lemma AdvancesFit(k0: Maps, pre: seq<Event>, mid: seq<Event>, c: u16, pids: seq<u32>)
    requires k0.Valid() && RunsOn(pre, k0.nCpus) && RunsOn(pre + mid, k0.nCpus) && c < k0.nCpus && c < MAX_CPU
    requires Distinct(pids) && Spares(mid, pids) && Growth(k0, pre, mid, c) < TWO64
    requires var k1, k2 := Run(k0, pre), Run(k0, pre + mid); Held(k1, pids) && Held(k2, pids)
    ensures var k1, k2 := Run(k0, pre), Run(k0, pre + mid);
      && Deltas(Advances(k1, k2, pids), c) <= Growth(k0, pre, mid, c)
      && CounterDelta(k1.cpuTime[c], k2.cpuTime[c])
         == Growth(k0, pre, mid, c) - if Unwrapped(k0, pre, mid, c) then 0 else 1
  {
    hide Run, Books, Gain, Wrap, CounterDelta;
    var k1, k2, growth := Run(k0, pre), Run(k0, pre + mid), Growth(k0, pre, mid, c);
    GainGrows(k0, pre, mid, c);
    AmountsOverRun(k0, pre, mid, c, pids);
    AdvancesAreGrowth(k0, pre, mid, c, pids);
    CpuTimeIsGain(k0, pre, c);
    CpuTimeIsGain(k0, pre + mid, c);
    WrapCarries(k0.cpuTime[c] + Gain(k0, pre, c), growth);
    CounterDeltaIsGain(k1.cpuTime[c], growth);
  }

  // The shares of a core between two samples stay within the whole core if and
  // only if its counter did not wrap, or it wrapped and the processes left at
  // least a nanosecond of it or no two of them used it.
  lemma CoreSharesExactly(
    k0: Maps, pre: seq<Event>, mid: seq<Event>, c: u16, pids: seq<u32>, diff: seq<u64>)
    requires k0.Valid() && RunsOn(pre, k0.nCpus) && RunsOn(pre + mid, k0.nCpus) && c < k0.nCpus && c < MAX_CPU
    requires Distinct(pids) && Spares(mid, pids) && Growth(k0, pre, mid, c) < TWO64
    requires var k1, k2 := Run(k0, pre), Run(k0, pre + mid);
      Held(k1, pids) && Held(k2, pids) && c < |diff| && diff[c] == CounterDelta(k1.cpuTime[c], k2.cpuTime[c])
    ensures var advances := Advances(Run(k0, pre), Run(k0, pre + mid), pids);
      Shares(advances, c, diff) <= 1.0 <==>
        || Unwrapped(k0, pre, mid, c)
        || Deltas(advances, c) <= Growth(k0, pre, mid, c) - 1
        || OneAtMost(advances, c)
  {
    hide Run, Gain, Shares, Deltas, Advances, CounterDelta, Growth;
    var advances := Advances(Run(k0, pre), Run(k0, pre + mid), pids);
    AdvancesFit(k0, pre, mid, c, pids);
    SharesWithinOne(advances, c, diff);
    if diff[c] == 0 && Deltas(advances, c) == 1 { OneNanosecond(advances, c); }
  }

  lemma {:induction false} OneNanosecond(deltas: seq<seq<u64>>, id: u16)
    requires (forall j :: 0 <= j < |deltas| ==> id < |deltas[j]|) && Deltas(deltas, id) <= 1
    ensures OneAtMost(deltas, id)
    ensures Deltas(deltas, id) == 0 ==> forall j :: 0 <= j < |deltas| ==> deltas[j][id] == 0
    decreases |deltas|
  {
    if deltas != [] {
      var n := |deltas| - 1;
      OneNanosecond(deltas[..n], id);
      assert forall j :: 0 <= j < n ==> deltas[..n][j] == deltas[j];
    }
  }

  // Read from two samples between which no counter wraps, the CPU_TIME difference
  // is there if and only if some CPU that is read gained time, and it has for
  // each CPU exactly what that gained.
  lemma CpuTimeDiffExactly(k0: Maps, pre: seq<Event>, mid: seq<Event>, nbCores: nat)
    requires k0.Valid() && RunsOn(pre, k0.nCpus) && RunsOn(pre + mid, k0.nCpus)
    requires forall c :: 0 <= c < nbCores && c < 256 ==> Unwrapped(k0, pre, mid, c)
    ensures var diff := CpuTimeDiff(CpuTimeRecord(Run(k0, pre), nbCores), CpuTimeRecord(Run(k0, pre + mid), nbCores));
      && (diff.Some? <==> exists c :: 0 <= c < nbCores && c < 256 && Growth(k0, pre, mid, c) > 0)
      && (diff.Some? ==> |diff.value| == nbCores && forall c :: 0 <= c < nbCores ==>
            diff.value[c] == if c < 256 then Growth(k0, pre, mid, c) else 0)
  {
    hide Run, Gain, Growth, Unwrapped, CounterDelta;
    var k1, k2 := Run(k0, pre), Run(k0, pre + mid);
    var prev, last := CpuTimeRecord(k1, nbCores), CpuTimeRecord(k2, nbCores);
    forall c | 0 <= c < nbCores
      ensures CounterDelta(prev[c], last[c]) == if c < 256 then Growth(k0, pre, mid, c) else 0
    {
      if c < 256 { CounterGrowth(k0, pre, mid, c); } else { NoDelta(); }
    }
    DiffIs(prev, last);
    if c :| 0 <= c < nbCores && c < 256 && Growth(k0, pre, mid, c) > 0 {
      assert CounterDelta(prev[c], last[c]) != 0;
    }
  }

  lemma NoDelta()
    ensures CounterDelta(0, 0) == 0
  {
  }

  lemma DiffIs(prev: seq<u64>, last: seq<u64>)
    requires |prev| == |last|
    ensures var diff := CpuTimeDiff(prev, last);
      && (diff.Some? <==> exists c :: 0 <= c < |last| && CounterDelta(prev[c], last[c]) != 0)
      && (diff.Some? ==> |diff.value| == |last| && forall c :: 0 <= c < |last| ==>
            diff.value[c] == CounterDelta(prev[c], last[c]))
  {
    hide CounterDelta;
    var n := |last|;
    var diffs := seq(n, i requires 0 <= i < n => CounterDelta(prev[i], last[i]));
    var diff := CpuTimeDiff(prev, last);
    assert diff == if forall d :: d in diffs ==> d == 0 then None else Some(diffs);
    if diff.Some? {
      var d :| d in diffs && d != 0;
      var c :| 0 <= c < n && diffs[c] == d;
      assert CounterDelta(prev[c], last[c]) != 0;
    } else {
      forall c | 0 <= c < n
        ensures CounterDelta(prev[c], last[c]) == 0
      {
        assert diffs[c] in diffs;
      }
    }
  }

  lemma CounterGrowth(k0: Maps, pre: seq<Event>, mid: seq<Event>, c: nat)
    requires k0.Valid() && RunsOn(pre, k0.nCpus) && RunsOn(pre + mid, k0.nCpus) && c < MAX_CPU
    requires Unwrapped(k0, pre, mid, c)
    ensures CounterDelta(Run(k0, pre).cpuTime[c], Run(k0, pre + mid).cpuTime[c]) == Growth(k0, pre, mid, c) >= 0
  {
    hide Run, Gain, Wrap, CounterDelta;
    GainGrows(k0, pre, mid, c);
    CpuTimeIsGain(k0, pre, c);
    CpuTimeIsGain(k0, pre + mid, c);
    WrapCarries(k0.cpuTime[c] + Gain(k0, pre, c), Growth(k0, pre, mid, c));
    CounterDeltaIsGain(Run(k0, pre).cpuTime[c], Growth(k0, pre, mid, c));
  }

  // For instance: a counter at 2^64 - 2 gains 3 ns, of which one process has 2
  // and another 1. They get one and a half cores.
  lemma WrapOvershoots()
    ensures CounterDelta(U64_MAX - 1, WrapAdd(U64_MAX - 1, 3)) == 2
    ensures Shares([[2], [1]], 0, [2]) == 1.5
  {
    var deltas: seq<seq<u64>> := [[2], [1]];
    var one: seq<seq<u64>> := [[2]];
    var none: seq<seq<u64>> := [];
    assert deltas[..1] == one && one[..0] == none;
    assert Shares(none, 0, [2]) == 0.0 && Shares(one, 0, [2]) == Shares(none, 0, [2]) + Share(0, [2], [2]);
    assert Shares(deltas, 0, [2]) == Shares(one, 0, [2]) + Share(0, [1], [2]);
  }

  lemma {:induction false} GainGrows(k0: Maps, pre: seq<Event>, mid: seq<Event>, c: nat)
    requires k0.Valid() && RunsOn(pre, k0.nCpus) && RunsOn(pre + mid, k0.nCpus)
    ensures Gain(k0, pre, c) <= Gain(k0, pre + mid, c)
    decreases |mid|
  {
    hide Gained, Step;
    if mid == [] {
      assert pre + mid == pre;
    } else {
      assert (pre + mid)[..|pre + mid| - 1] == pre + mid[..|mid| - 1];
      GainGrows(k0, pre, mid[..|mid| - 1], c);
    }
  }

  // The powers attributed to a list of processes.
  function Attributed(
    powers: seq<real>, ids: seq<u16>, k1: Maps, k2: Maps, pids: seq<u32>, diff: Option<seq<u64>>): real
    requires k1.Valid() && k2.Valid() && k1.nCpus == k2.nCpus && IdsBelow(ids, k1.nCpus) && |powers| == |ids|
  {
    if pids == [] then 0.0
    else
      var p := pids[|pids| - 1];
      Attributed(powers, ids, k1, k2, pids[..|pids| - 1], diff)
      + ProcessPower(powers, CoreProportions(ids, PerCoreDelta(CoreTimes(k1, p), CoreTimes(k2, p)), diff))
  }

  function Table(ids: seq<u16>, deltas: seq<seq<u64>>, diff: seq<u64>): (xs: seq<seq<real>>)
    requires forall j :: 0 <= j < |deltas| ==> IdsBelow(ids, |deltas[j]|)
    ensures Rectangular(xs, |ids|) && |xs| == |deltas|
  {
    seq(|deltas|, j requires 0 <= j < |deltas| => CoreProportions(ids, Some(deltas[j]), Some(diff)).value)
  }

  lemma {:induction false} ColumnIsShares(ids: seq<u16>, deltas: seq<seq<u64>>, diff: seq<u64>, i: nat)
    requires (forall j :: 0 <= j < |deltas| ==> IdsBelow(ids, |deltas[j]|)) && i < |ids|
    ensures Column(Table(ids, deltas, diff), i) == Shares(deltas, ids[i], diff)
    decreases |deltas|
  {
    hide Share;
    if deltas != [] {
      ColumnIsShares(ids, deltas[..|deltas| - 1], diff, i);
      assert Table(ids, deltas, diff)[..|deltas| - 1] == Table(ids, deltas[..|deltas| - 1], diff);
    }
  }

  lemma {:induction false} AttributedIsRows(
    powers: seq<real>, ids: seq<u16>, k1: Maps, k2: Maps, pids: seq<u32>, diff: seq<u64>)
    requires k1.Valid() && k2.Valid() && k1.nCpus == k2.nCpus && IdsBelow(ids, k1.nCpus) && |powers| == |ids|
    requires Held(k1, pids) && Held(k2, pids)
    ensures Attributed(powers, ids, k1, k2, pids, Some(diff)) == Rows(powers, Table(ids, Advances(k1, k2, pids), diff))
    decreases |pids|
  {
    hide CoreProportions, Dot;
    if pids != [] {
      var n := |pids| - 1;
      AttributedIsRows(powers, ids, k1, k2, pids[..n], diff);
      assert Advances(k1, k2, pids)[..n] == Advances(k1, k2, pids[..n]);
      assert PerCoreDelta(CoreTimes(k1, pids[n]), CoreTimes(k2, pids[n])) == Some(Advances(k1, k2, pids)[n]);
      assert Table(ids, Advances(k1, k2, pids), diff)[..n] == Table(ids, Advances(k1, k2, pids[..n]), diff);
    }
  }

  lemma {:induction false} NothingAttributed(powers: seq<real>, ids: seq<u16>, k1: Maps, k2: Maps, pids: seq<u32>)
    requires k1.Valid() && k2.Valid() && k1.nCpus == k2.nCpus && IdsBelow(ids, k1.nCpus) && |powers| == |ids|
    ensures Attributed(powers, ids, k1, k2, pids, None) == 0.0
    decreases |pids|
  {
    if pids != [] { NothingAttributed(powers, ids, k1, k2, pids[..|pids| - 1]); }
  }

  // Sample the maps at two instants of any run since boot between which no
  // CPU_TIME counter wraps. The processes that
  // are in both samples and whose numbers were not given up in between are,
  // together, attributed at most what the host's cores consumed.
  lemma EndToEndPowerBound(
    nCpus: nat, socketOf: seq<u16>, pre: seq<Event>, mid: seq<Event>, pids: seq<u32>, nbCores: nat, sockets: seq<Socket>)
    requires |socketOf| == MAX_CPU && RunsOn(pre, nCpus) && RunsOn(mid, nCpus) && nbCores <= nCpus
    requires RunsOn(pre + mid, nCpus)
    requires forall c :: 0 <= c < nCpus && c < MAX_CPU ==> Unwrapped(Boot(nCpus, socketOf), pre, mid, c)
    requires Distinct(pids) && Spares(mid, pids)
    requires var k1, k2 := Run(Boot(nCpus, socketOf), pre), Run(Boot(nCpus, socketOf), pre + mid);
      Held(k1, pids) && Held(k2, pids)
    requires AllSane(sockets) && AllRead(sockets) && IdsBelow(Keys(HostCores(sockets)), nCpus)
    ensures var k1, k2 := Run(Boot(nCpus, socketOf), pre), Run(Boot(nCpus, socketOf), pre + mid);
      var powers := HostPowers(sockets).value;
      && |powers| == |HostCores(sockets)|
      && Attributed(powers, Keys(HostCores(sockets)), k1, k2, pids,
                    CpuTimeDiff(CpuTimeRecord(k1, nbCores), CpuTimeRecord(k2, nbCores)))
         <= Sum(powers) == ActivePower(sockets)
  {
    hide Run, Gain, Sum, ActivePower, HostPowers, HostCores, Merged, Attributed, Table, Advances, CpuTimeDiff, CpuTimeRecord, Shares, Deltas;
    var k0 := Boot(nCpus, socketOf);
    var k1, k2 := Run(k0, pre), Run(k0, pre + mid);
    var powers, ids := HostPowers(sockets).value, Keys(HostCores(sockets));
    HostListsAlign(sockets);
    HostPowersConserve(sockets);
    SumNonNegative(powers);
    var diff := CpuTimeDiff(CpuTimeRecord(k1, nbCores), CpuTimeRecord(k2, nbCores));
    if diff == None {
      NothingAttributed(powers, ids, k1, k2, pids);
    } else {
      var xs := Table(ids, Advances(k1, k2, pids), diff.value);
      AttributedIsRows(powers, ids, k1, k2, pids, diff.value);
      forall i | 0 <= i < |ids|
        ensures Column(xs, i) <= 1.0
      {
        ColumnIsShares(ids, Advances(k1, k2, pids), diff.value, i);
        CoreFits(nCpus, socketOf, pre, mid, pids, nbCores, ids[i], diff.value);
        SharesWithinOne(Advances(k1, k2, pids), ids[i], diff.value);
      }
      RowsBounded(powers, xs);
      assert diff == Some(diff.value);
    }
    assert |powers| == |HostCores(sockets)|;
    assert Attributed(powers, ids, k1, k2, pids, diff) <= Sum(powers);
    assert Sum(powers) == ActivePower(sockets);
  }

  // ----- what is attributed, exactly

  // The part of what a core was charged that the processes gained on it.
  function Use(k0: Maps, pre: seq<Event>, mid: seq<Event>, pids: seq<u32>, nbCores: nat, c: u16): real
    requires k0.Valid() && RunsOn(pre, k0.nCpus) && RunsOn(pre + mid, k0.nCpus) && c < k0.nCpus
  {
    if c < nbCores && c < 256 && Growth(k0, pre, mid, c) > 0
    then (Amounts(Books(k0, pre + mid, c), pids) - Amounts(Books(k0, pre, c), pids)) as real
         / Growth(k0, pre, mid, c) as real
    else 0.0
  }

  function Uses(
    k0: Maps, pre: seq<Event>, mid: seq<Event>, pids: seq<u32>, nbCores: nat, ids: seq<u16>): (r: seq<real>)
    requires k0.Valid() && RunsOn(pre, k0.nCpus) && RunsOn(pre + mid, k0.nCpus) && IdsBelow(ids, k0.nCpus)
    ensures |r| == |ids| && forall i :: 0 <= i < |r| ==> r[i] == Use(k0, pre, mid, pids, nbCores, ids[i])
  {
    seq(|ids|, i requires 0 <= i < |ids| => Use(k0, pre, mid, pids, nbCores, ids[i]))
  }

  // Process by process or core by core, every power is given out in its parts.
  lemma {:induction false} RowsAre(w: seq<real>, xs: seq<seq<real>>, columns: seq<real>)
    requires Rectangular(xs, |w|) && |columns| == |w|
    requires forall i :: 0 <= i < |w| ==> Column(xs, i) == columns[i]
    ensures Rows(w, xs) == Dot(w, columns)
    decreases |w|
  {
    if w == [] {
      NothingToGive(xs);
    } else {
      var n := |w|;
      RowsPeel(w, xs);
      forall i | 0 <= i < n - 1
        ensures Column(Trim(xs, n), i) == columns[..n - 1][i]
      {
        TrimColumn(xs, n, i);
      }
      RowsAre(w[..n - 1], Trim(xs, n), columns[..n - 1]);
    }
  }

  lemma SharesAreUse(
    k0: Maps, pre: seq<Event>, mid: seq<Event>, pids: seq<u32>, nbCores: nat, c: u16, diff: seq<u64>)
    requires k0.Valid() && RunsOn(pre, k0.nCpus) && RunsOn(pre + mid, k0.nCpus) && c < k0.nCpus
    requires (c < MAX_CPU ==> Unwrapped(k0, pre, mid, c)) && Distinct(pids) && Spares(mid, pids)
    requires var k1, k2 := Run(k0, pre), Run(k0, pre + mid); Held(k1, pids) && Held(k2, pids)
    requires c < |diff| <==> c < nbCores
    requires c < nbCores ==> diff[c] == if c < 256 then Growth(k0, pre, mid, c) else 0
    ensures Shares(Advances(Run(k0, pre), Run(k0, pre + mid), pids), c, diff) == Use(k0, pre, mid, pids, nbCores, c)
  {
    hide Run, Gain, Books, Amounts, Shares, Deltas, Advances, Growth, Unwrapped;
    var advances := Advances(Run(k0, pre), Run(k0, pre + mid), pids);
    if c < |diff| && diff[c] > 0 {
      RoomLeft(k0, pre, mid, c);
      AdvancesFit(k0, pre, mid, c, pids);
      AdvancesAreGrowth(k0, pre, mid, c, pids);
      UncutSum(advances, c, diff);
    } else {
      NoShares(advances, c, diff);
    }
  }

  lemma UncutSum(deltas: seq<seq<u64>>, id: u16, diff: seq<u64>)
    requires forall j :: 0 <= j < |deltas| ==> id < |deltas[j]|
    requires id < |diff| && diff[id] > 0 && Deltas(deltas, id) <= diff[id]
    ensures Shares(deltas, id, diff) == Deltas(deltas, id) as real / diff[id] as real
  {
    hide Shares, Deltas;
    WithinDeltas(deltas, id);
    UncutShares(deltas, id, diff);
    Divides(Shares(deltas, id, diff), diff[id] as real, Deltas(deltas, id) as real);
  }

  lemma RoomLeft(k0: Maps, pre: seq<Event>, mid: seq<Event>, c: nat)
    requires k0.Valid() && RunsOn(pre, k0.nCpus) && RunsOn(pre + mid, k0.nCpus) && c < MAX_CPU
    requires Unwrapped(k0, pre, mid, c)
    ensures Growth(k0, pre, mid, c) < TWO64
  {
    hide Run, Growth;
  }

  lemma Divides(x: real, t: real, d: real)
    requires t > 0.0 && x * t == d
    ensures x == d / t
  {
  }

  lemma {:induction false} WithinDeltas(deltas: seq<seq<u64>>, id: u16)
    requires forall j :: 0 <= j < |deltas| ==> id < |deltas[j]|
    ensures forall j :: 0 <= j < |deltas| ==> deltas[j][id] <= Deltas(deltas, id)
    decreases |deltas|
  {
    if deltas != [] {
      var n := |deltas| - 1;
      WithinDeltas(deltas[..n], id);
      assert forall j :: 0 <= j < n ==> deltas[..n][j] == deltas[j];
    }
  }

  // What is attributed is neither more nor less than each core's power times the
  // part of the core's charged time that the processes gained.
  lemma AttributedExactly(
    nCpus: nat, socketOf: seq<u16>, pre: seq<Event>, mid: seq<Event>, pids: seq<u32>, nbCores: nat,
    powers: seq<real>, ids: seq<u16>)
    requires |socketOf| == MAX_CPU && RunsOn(pre, nCpus) && RunsOn(pre + mid, nCpus)
    requires |powers| == |ids| && IdsBelow(ids, nCpus) && Distinct(pids) && Spares(mid, pids)
    requires forall c :: 0 <= c < Max(nCpus, nbCores) && c < MAX_CPU ==> Unwrapped(Boot(nCpus, socketOf), pre, mid, c)
    requires var k1, k2 := Run(Boot(nCpus, socketOf), pre), Run(Boot(nCpus, socketOf), pre + mid);
      Held(k1, pids) && Held(k2, pids)
    ensures var k1, k2 := Run(Boot(nCpus, socketOf), pre), Run(Boot(nCpus, socketOf), pre + mid);
      Attributed(powers, ids, k1, k2, pids, CpuTimeDiff(CpuTimeRecord(k1, nbCores), CpuTimeRecord(k2, nbCores)))
      == Dot(powers, Uses(Boot(nCpus, socketOf), pre, mid, pids, nbCores, ids))
  {
    hide Run, Gain, Growth, Unwrapped, Dot, Use, Shares, Attributed, Advances, Table, CpuTimeDiff, CpuTimeRecord;
    var k0 := Boot(nCpus, socketOf);
    var k1, k2 := Run(k0, pre), Run(k0, pre + mid);
    var diff := CpuTimeDiff(CpuTimeRecord(k1, nbCores), CpuTimeRecord(k2, nbCores));
    var uses := Uses(k0, pre, mid, pids, nbCores, ids);
    CpuTimeDiffExactly(k0, pre, mid, nbCores);
    if diff == None {
      NothingAttributed(powers, ids, k1, k2, pids);
      forall i | 0 <= i < |ids|
        ensures uses[i] == 0.0
      {
        Unused(k0, pre, mid, pids, nbCores, ids[i]);
      }
      DotOfZeros(powers, uses);
    } else {
      AttributedIsRows(powers, ids, k1, k2, pids, diff.value);
      var xs := Table(ids, Advances(k1, k2, pids), diff.value);
      forall i | 0 <= i < |ids|
        ensures Column(xs, i) == uses[i]
      {
        ColumnIsShares(ids, Advances(k1, k2, pids), diff.value, i);
        SharesAreUse(k0, pre, mid, pids, nbCores, ids[i], diff.value);
      }
      RowsAre(powers, xs, uses);
      assert diff == Some(diff.value);
    }
  }

  lemma Unused(k0: Maps, pre: seq<Event>, mid: seq<Event>, pids: seq<u32>, nbCores: nat, c: u16)
    requires k0.Valid() && RunsOn(pre, k0.nCpus) && RunsOn(pre + mid, k0.nCpus) && c < k0.nCpus
    requires !(c < nbCores && c < 256 && Growth(k0, pre, mid, c) > 0)
    ensures Use(k0, pre, mid, pids, nbCores, c) == 0.0
  {
  }

  lemma {:induction false} DotOfZeros(w: seq<real>, x: seq<real>)
    requires |w| == |x| && forall i :: 0 <= i < |x| ==> x[i] == 0.0
    ensures Dot(w, x) == 0.0
    decreases |w|
  {
    if w != [] { DotOfZeros(w[..|w| - 1], x[..|x| - 1]); }
  }

  // The powers of the cores that were charged any time.
  function Charged(
    k0: Maps, pre: seq<Event>, mid: seq<Event>, nbCores: nat, powers: seq<real>, ids: seq<u16>): (r: seq<real>)
    requires k0.Valid() && RunsOn(pre, k0.nCpus) && RunsOn(pre + mid, k0.nCpus) && |powers| == |ids|
    ensures |r| == |ids|
  {
    seq(|ids|, i requires 0 <= i < |ids| =>
      if ids[i] < nbCores && ids[i] < 256 && Growth(k0, pre, mid, ids[i]) > 0 then powers[i] else 0.0)
  }

  // When the processes gained all that the cores were charged, they get all the
  // power of the cores with time.
  lemma AllAttributed(
    nCpus: nat, socketOf: seq<u16>, pre: seq<Event>, mid: seq<Event>, pids: seq<u32>, nbCores: nat,
    powers: seq<real>, ids: seq<u16>)
    requires |socketOf| == MAX_CPU && RunsOn(pre, nCpus) && RunsOn(pre + mid, nCpus)
    requires |powers| == |ids| && IdsBelow(ids, nCpus) && Distinct(pids) && Spares(mid, pids)
    requires forall c :: 0 <= c < Max(nCpus, nbCores) && c < MAX_CPU ==> Unwrapped(Boot(nCpus, socketOf), pre, mid, c)
    requires var k1, k2 := Run(Boot(nCpus, socketOf), pre), Run(Boot(nCpus, socketOf), pre + mid);
      Held(k1, pids) && Held(k2, pids)
    requires var k0 := Boot(nCpus, socketOf); forall c :: 0 <= c < nCpus ==>
      Amounts(Books(k0, pre + mid, c), pids) - Amounts(Books(k0, pre, c), pids) == Growth(k0, pre, mid, c)
    ensures var k0 := Boot(nCpus, socketOf);
      var k1, k2 := Run(k0, pre), Run(k0, pre + mid);
      Attributed(powers, ids, k1, k2, pids, CpuTimeDiff(CpuTimeRecord(k1, nbCores), CpuTimeRecord(k2, nbCores)))
      == Sum(Charged(k0, pre, mid, nbCores, powers, ids))
  {
    hide Run, Gain, Books, Amounts, Growth, Unwrapped, Dot, Sum, Attributed, CpuTimeDiff, CpuTimeRecord;
    var k0 := Boot(nCpus, socketOf);
    AttributedExactly(nCpus, socketOf, pre, mid, pids, nbCores, powers, ids);
    var uses, charged := Uses(k0, pre, mid, pids, nbCores, ids), Charged(k0, pre, mid, nbCores, powers, ids);
    forall i | 0 <= i < |ids|
      ensures charged[i] == powers[i] * uses[i]
    {
      if Growth(k0, pre, mid, ids[i]) > 0 { WholeUse(Growth(k0, pre, mid, ids[i]) as real); }
    }
    DotIsSum(powers, uses, charged);
  }

  lemma WholeUse(g: real)
    requires g > 0.0
    ensures g / g == 1.0
  {
  }

  lemma {:induction false} DotIsSum(w: seq<real>, x: seq<real>, products: seq<real>)
    requires |w| == |x| == |products| && forall i :: 0 <= i < |w| ==> products[i] == w[i] * x[i]
    ensures Dot(w, x) == Sum(products)
    decreases |w|
  {
    if w != [] {
      var n := |w| - 1;
      DotIsSum(w[..n], x[..n], products[..n]);
    }
  }

  lemma CoreFits(
    nCpus: nat, socketOf: seq<u16>, pre: seq<Event>, mid: seq<Event>, pids: seq<u32>, nbCores: nat, id: u16, diff: seq<u64>)
    requires |socketOf| == MAX_CPU && RunsOn(pre, nCpus) && RunsOn(mid, nCpus) && nbCores <= nCpus && id < nCpus
    requires RunsOn(pre + mid, nCpus) && (id < MAX_CPU ==> Unwrapped(Boot(nCpus, socketOf), pre, mid, id))
    requires Distinct(pids) && Spares(mid, pids)
    requires var k1, k2 := Run(Boot(nCpus, socketOf), pre), Run(Boot(nCpus, socketOf), pre + mid);
      && Held(k1, pids) && Held(k2, pids)
      && CpuTimeDiff(CpuTimeRecord(k1, nbCores), CpuTimeRecord(k2, nbCores)) == Some(diff)
    ensures var k1, k2 := Run(Boot(nCpus, socketOf), pre), Run(Boot(nCpus, socketOf), pre + mid);
      id < |diff| ==> diff[id] == 0 || Deltas(Advances(k1, k2, pids), id) <= diff[id]
  {
    hide Run, Gain, Deltas, Advances, ZeroSlots;
    if id < nbCores && id < MAX_CPU {
      AdvancesFit(Boot(nCpus, socketOf), pre, mid, id, pids);
    }
  }
}
