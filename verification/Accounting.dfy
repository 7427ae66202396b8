/**
 Conservation of CPU time over every run of the kernel handlers.

 For one CPU, `Ledger` books every charge in unbounded integers: what each
 live process has been given, what left with dead processes, and what was
 charged to the CPU alone because PID_TIMES refused a new key. The maps agree
 with the ledger modulo 2^64, whatever the interleaving of the handlers.
*/
module Accounting {
  import opened Machine
  import opened Kernel

  // Nanoseconds charged to CPU c by one event, and by a whole run.
  function Gained(k: Maps, e: Event, c: nat): nat
    requires k.Valid() && e.On(k.nCpus)
  {
    match ChargeOf(k, e)
    case Some(Charging(_, cpu, delta)) => if cpu == c then delta else 0
    case None => 0
  }

  function Gain(k: Maps, run: seq<Event>, c: nat): nat
    requires k.Valid() && RunsOn(run, k.nCpus)
    decreases |run|
  {
    if run == [] then 0
    else
      var before := run[..|run| - 1];
      Gain(k, before, c) + Gained(Run(k, before), run[|run| - 1], c)
  }

  // ----- the ledger of one CPU

  datatype Ledger = Ledger(live: map<u32, nat>, retired: nat, lost: nat)

  function Enter(l: Ledger, charge: Charging, accepted: bool, c: nat): Ledger {
    var d := if charge.cpu == c then charge.delta else 0;
    if charge.tgid in l.live then l.(live := l.live[charge.tgid := l.live[charge.tgid] + d])
    else if accepted then l.(live := l.live[charge.tgid := d])
    else l.(lost := l.lost + d)
  }

  function Entered(l: Ledger, k: Maps, e: Event, c: nat): Ledger
    requires k.Valid() && e.On(k.nCpus)
  {
    match ChargeOf(k, e)
    case None => l
    case Some(charge) => Enter(l, charge, Accepts(k.pidTimes, charge.tgid), c)
  }

  function Booked(l: Ledger, k: Maps, e: Event, c: nat): Ledger
    requires k.Valid() && e.On(k.nCpus)
  {
    var l1 := Entered(l, k, e, c);
    if e.Exit? && e.groupDead && e.tgid in l1.live
    then l1.(live := l1.live - {e.tgid}, retired := l1.retired + l1.live[e.tgid])
    else l1
  }

  function Amount(l: Ledger, p: u32): nat {
    if p in l.live then l.live[p] else 0
  }

  function Opening(k: Maps, c: nat): Ledger
    requires k.Valid() && c < k.nCpus
  {
    Ledger(map t | t in k.pidTimes :: k.pidTimes[t][c], 0, 0)
  }

  function Books(k: Maps, run: seq<Event>, c: nat): Ledger
    requires k.Valid() && RunsOn(run, k.nCpus) && c < k.nCpus
    decreases |run|
  {
    if run == [] then Opening(k, c)
    else
      var before := run[..|run| - 1];
      Booked(Books(k, before, c), Run(k, before), run[|run| - 1], c)
  }

  ghost function Total(m: map<u32, nat>): nat
    decreases m.Keys
  {
    if m == map[] then 0
    else
      var t :| t in m;
      m[t] + Total(m - {t})
  }

  lemma {:induction false} TotalTake(m: map<u32, nat>, t: u32)
    requires t in m
    ensures Total(m) == m[t] + Total(m - {t})
    decreases m.Keys
  {
    var u :| u in m && Total(m) == m[u] + Total(m - {u});
    if u != t {
      TotalTake(m - {u}, t);
      TotalTake(m - {t}, u);
      assert m - {u} - {t} == m - {t} - {u};
    }
  }

  lemma TotalSet(m: map<u32, nat>, t: u32, v: nat)
    ensures Total(m[t := v]) == v + Total(m - {t})
  {
    TotalTake(m[t := v], t);
    assert m[t := v] - {t} == m - {t};
  }

  // The ledger's amounts, as 64-bit slots hold them.
  ghost predicate Mirrors(m: PerCpuHash, live: map<u32, nat>, n: nat, c: nat)
    requires Sized(m, n) && c < n
  {
    m.Keys == live.Keys && forall t :: t in live ==> m[t][c] == Wrap(live[t])
  }

  // Every time charged to the CPU is booked somewhere, exactly once.
  lemma BookedConserves(l: Ledger, k: Maps, e: Event, c: nat)
    requires k.Valid() && e.On(k.nCpus) && c < k.nCpus
    ensures var l' := Booked(l, k, e, c);
      Total(l'.live) + l'.retired + l'.lost == Total(l.live) + l.retired + l.lost + Gained(k, e, c)
  {
    hide ChargeOf, Total;
    if ChargeOf(k, e).Some? {
      var charge := ChargeOf(k, e).value;
      EnterConserves(l, charge, Accepts(k.pidTimes, charge.tgid), c);
    }
    var l1 := Entered(l, k, e, c);
    if e.Exit? && e.groupDead && e.tgid in l1.live {
      TotalTake(l1.live, e.tgid);
    }
  }

  lemma EnterConserves(l: Ledger, charge: Charging, accepted: bool, c: nat)
    ensures var l' := Enter(l, charge, accepted, c);
      && l'.retired == l.retired
      && Total(l'.live) + l'.lost == Total(l.live) + l.lost + if charge.cpu == c then charge.delta else 0
  {
    hide Total;
    var t, d := charge.tgid, if charge.cpu == c then charge.delta else 0;
    if t in l.live {
      TotalTake(l.live, t);
      TotalSet(l.live, t, l.live[t] + d);
    } else if accepted {
      TotalSet(l.live, t, d);
      assert l.live - {t} == l.live;
    }
  }

  lemma EnterMirrors(l: Ledger, m: PerCpuHash, n: nat, charge: Charging, c: nat)
    requires Sized(m, n) && charge.cpu < n && c < n && Mirrors(m, l.live, n, c)
    ensures Mirrors(Credited(m, n, charge), Enter(l, charge, Accepts(m, charge.tgid), c).live, n, c)
  {
    hide Accepts, Wrap;
    var t, m', d := charge.tgid, Credited(m, n, charge), if charge.cpu == c then charge.delta else 0;
    if t in l.live {
      WrapCarries(l.live[t], charge.delta);
      assert m'[t][c] == Wrap(l.live[t] + d);
    } else if Accepts(m, t) {
      WrapSmall(d);
      assert m'[t][c] == Wrap(d);
    }
  }

  lemma BookedMirrors(l: Ledger, k: Maps, e: Event, c: nat)
    requires k.Valid() && e.On(k.nCpus) && c < k.nCpus && Mirrors(k.pidTimes, l.live, k.nCpus, c)
    ensures Mirrors(Step(k, e).pidTimes, Booked(l, k, e, c).live, k.nCpus, c)
  {
    hide Accepts, Wrap, Credited, Enter, ChargeOf, NextPidLast, NextCpuTime, NextRing;
    assert Step(k, e).pidTimes == NextPidTimes(k, e);
    if ChargeOf(k, e).Some? {
      EnterMirrors(l, k.pidTimes, k.nCpus, ChargeOf(k, e).value, c);
    }
  }

  lemma {:induction false} BooksBalance(k: Maps, run: seq<Event>, c: nat)
    requires k.Valid() && RunsOn(run, k.nCpus) && c < k.nCpus
    ensures Mirrors(Run(k, run).pidTimes, Books(k, run, c).live, k.nCpus, c)
    ensures var l := Books(k, run, c);
      Total(l.live) + l.retired + l.lost == Total(Opening(k, c).live) + Gain(k, run, c)
    decreases |run|
  {
    if run != [] {
      var before := run[..|run| - 1];
      BooksBalance(k, before, c);
      BookedConserves(Books(k, before, c), Run(k, before), run[|run| - 1], c);
      BookedMirrors(Books(k, before, c), Run(k, before), run[|run| - 1], c);
    }
  }

  lemma CpuTimeStep(k: Maps, e: Event, c: nat)
    requires k.Valid() && e.On(k.nCpus) && c < MAX_CPU
    ensures Step(k, e).cpuTime[c] == Wrap(k.cpuTime[c] + Gained(k, e, c))
  {
    hide ChargeOf, NextPidTimes, NextPidLast, NextRing;
    assert Step(k, e).cpuTime == NextCpuTime(k, e);
    WrapSmall(k.cpuTime[c]);
  }

  // CPU_TIME is the time charged, modulo the width of the counter.
  lemma {:induction false} CpuTimeIsGain(k: Maps, run: seq<Event>, c: nat)
    requires k.Valid() && RunsOn(run, k.nCpus) && c < MAX_CPU
    ensures Run(k, run).cpuTime[c] == Wrap(k.cpuTime[c] + Gain(k, run, c))
    decreases |run|
  {
    hide Step, Gained;
    if run == [] {
      WrapSmall(k.cpuTime[c]);
    } else {
      var before, e := run[..|run| - 1], run[|run| - 1];
      CpuTimeIsGain(k, before, c);
      CpuTimeStep(Run(k, before), e, c);
      WrapCarries(k.cpuTime[c] + Gain(k, before, c), Gained(Run(k, before), e, c));
    }
  }

  // The sum of one CPU's slots over all processes.
  ghost function SlotTotal(m: PerCpuHash, n: nat, c: nat): nat
    requires Sized(m, n) && c < n
  {
    Total(map t | t in m :: m[t][c])
  }

  lemma CongruentSums(a: int, a': int, b: int, b': int)
    requires a' == Wrap(a) && Wrap(b - b') == 0
    ensures Wrap((a + b) - (a' + b')) == 0
  {
    WrapRemainder(a);
    WrapZeros(a - a', b - b');
  }

  // The wrapped slots add up to the ledger's amounts modulo 2^64, and are
  // those amounts as long as their sum stays below 2^64.
  lemma {:induction false} WrappedTotal(live: map<u32, nat>, slots: map<u32, nat>)
    requires live.Keys == slots.Keys
    requires forall t :: t in live ==> slots[t] == Wrap(live[t])
    ensures Wrap(Total(live) - Total(slots)) == 0
    decreases live.Keys
  {
    hide Accepts, Wrap;
    WrapSmall(0);
    if live == map[] {
      assert slots == map[];
    } else {
      hide Total;
      var t :| t in live;
      TotalTake(live, t);
      TotalTake(slots, t);
      WrappedTotal(live - {t}, slots - {t});
      CongruentSums(live[t], slots[t], Total(live - {t}), Total(slots - {t}));
    }
  }

  lemma CongruentTotals(gain: int, counter: int, total: int, slots: int)
    requires counter == Wrap(gain) && Wrap(total - slots) == 0
    ensures Wrap(counter - slots - (gain - total)) == 0
  {
    WrapRemainder(gain);
    WrapRemainder(-(gain - counter));
    WrapZeros(total - slots, counter - gain);
  }

  lemma UnwrappedSlots(live: map<u32, nat>, slots: map<u32, nat>)
    requires live.Keys == slots.Keys && Total(live) < TWO64
    requires forall t :: t in live ==> slots[t] == Wrap(live[t])
    ensures live == slots
  {
    forall t | t in live
      ensures live[t] == slots[t]
    {
      TotalTake(live, t);
      WrapSmall(live[t]);
    }
  }

  // Conservation, for any interleaving of switches, sample ticks, state
  // ticks and exits since boot: CPU_TIME[c] is what the processes hold plus
  // what left with dead ones plus what a full PID_TIMES refused. The law holds
  // modulo 2^64 always, and exactly while the CPU's own total fits a u64.
  lemma Conservation(nCpus: nat, socketOf: seq<u16>, run: seq<Event>, c: nat)
    requires |socketOf| == 256 && RunsOn(run, nCpus) && c < nCpus && c < 256
    ensures var k0 := Boot(nCpus, socketOf);
      var k := Run(k0, run);
      var l := Books(k0, run, c);
      && Wrap(k.cpuTime[c] - SlotTotal(k.pidTimes, nCpus, c) - l.retired - l.lost) == 0
      && (Gain(k0, run, c) < TWO64 ==>
            k.cpuTime[c] == SlotTotal(k.pidTimes, nCpus, c) + l.retired + l.lost == Gain(k0, run, c))
  {
    hide Accepts, Wrap, Run, Books, Gain;
    var k0 := Boot(nCpus, socketOf);
    var k := Run(k0, run);
    var l := Books(k0, run, c);
    var slots := map t | t in k.pidTimes :: k.pidTimes[t][c];
    BooksBalance(k0, run, c);
    CpuTimeIsGain(k0, run, c);
    assert Opening(k0, c).live == map[];
    WrappedTotal(l.live, slots);
    CongruentTotals(Gain(k0, run, c), k.cpuTime[c], Total(l.live), Total(slots));
    if Gain(k0, run, c) < TWO64 {
      UnwrappedSlots(l.live, slots);
      WrapSmall(Gain(k0, run, c));
    }
  }

  // ----- when nothing is lost

  function TasksOf(e: Event): set<u32> {
    match e
    case Switch(_, _, prevTgid, _, nextTgid) => {prevTgid, nextTgid}
    case Sample(_, _, pid, _) => {pid}
    case Exit(_, _, tgid, _, _) => {tgid}
    case StateTick(_) => {}
    case Drain => {}
    case Aborted => {}
  }

  // What an event charges to CPU c without PID_TIMES taking it.
  function Refused(k: Maps, e: Event, c: nat): nat
    requires k.Valid() && e.On(k.nCpus)
  {
    match ChargeOf(k, e)
    case Some(Charging(tgid, cpu, delta)) => if cpu == c && !Accepts(k.pidTimes, tgid) then delta else 0
    case None => 0
  }

  ghost predicate NeverRefuses(k: Maps, run: seq<Event>, c: nat)
    requires k.Valid() && RunsOn(run, k.nCpus)
    decreases |run|
  {
    run == []
    || (NeverRefuses(k, run[..|run| - 1], c) && Refused(Run(k, run[..|run| - 1]), run[|run| - 1], c) == 0)
  }

  lemma KnownKeyAccepted(m: PerCpuHash, t: u32)
    ensures t in m ==> Accepts(m, t)
  {
  }

  lemma LostStep(l: Ledger, k: Maps, e: Event, c: nat)
    requires k.Valid() && e.On(k.nCpus) && c < k.nCpus && Mirrors(k.pidTimes, l.live, k.nCpus, c)
    ensures Booked(l, k, e, c).lost == l.lost + Refused(k, e, c)
  {
    hide Wrap;
  }

  function RefusedTime(k: Maps, run: seq<Event>, c: nat): nat
    requires k.Valid() && RunsOn(run, k.nCpus)
    decreases |run|
  {
    if run == [] then 0
    else
      var before := run[..|run| - 1];
      RefusedTime(k, before, c) + Refused(Run(k, before), run[|run| - 1], c)
  }

  // What the ledger books as lost is what PID_TIMES refused: nothing is lost
  // if and only if no charge of the CPU is refused.
  lemma {:induction false} NothingLost(k: Maps, run: seq<Event>, c: nat)
    requires k.Valid() && RunsOn(run, k.nCpus) && c < k.nCpus
    ensures Books(k, run, c).lost == RefusedTime(k, run, c)
    ensures Books(k, run, c).lost == 0 <==> NeverRefuses(k, run, c)
    decreases |run|
  {
    hide Booked, Refused, Mirrors;
    if run != [] {
      var before := run[..|run| - 1];
      NothingLost(k, before, c);
      BooksBalance(k, before, c);
      LostStep(Books(k, before, c), Run(k, before), run[|run| - 1], c);
    }
  }

  lemma IdleNotChargedBy(k: Maps, e: Event)
    requires k.Valid() && e.On(k.nCpus) && 0 !in k.pidTimes
    ensures 0 !in Step(k, e).pidTimes
  {
    assert Step(k, e).pidTimes == NextPidTimes(k, e);
  }

  // The idle task is never charged: PID_TIMES never holds key 0.
  lemma {:induction false} IdleNeverCharged(k: Maps, run: seq<Event>)
    requires k.Valid() && RunsOn(run, k.nCpus) && 0 !in k.pidTimes
    ensures 0 !in Run(k, run).pidTimes
    decreases |run|
  {
    if run != [] {
      IdleNeverCharged(k, run[..|run| - 1]);
      IdleNotChargedBy(Run(k, run[..|run| - 1]), run[|run| - 1]);
    }
  }
}
