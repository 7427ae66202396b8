/**
 When the maps have room.

 PID_LAST and PID_TIMES hold 32768 tasks each. Neither refuses anything while
 each has less than that at every instant, or as long as no more than that many
 different tasks occur at all.
*/
module Capacity {
  import opened Machine
  import opened Kernel
  import opened Accounting
  import opened Timekeeping

  // Room for one more task in both maps, whenever an event comes.
  ghost predicate Roomy(k: Maps, run: seq<Event>)
    requires k.Valid() && RunsOn(run, k.nCpus)
    decreases |run|
  {
    run == []
    || (Roomy(k, run[..|run| - 1])
        && |Run(k, run[..|run| - 1]).pidTimes| < 32768 && |Run(k, run[..|run| - 1]).pidLast| < 32768)
  }

  // A new key is refused if and only if there are 32768 keys already.
  lemma FullMapRefuses(m: PerCpuHash, n: nat, key: u32, cpu: nat, v: u64)
    requires Sized(m, n) && cpu < n && key !in m
    ensures key !in Insert(m, n, key, cpu, v) <==> |m| >= 32768
    ensures |m| >= 32768 ==> Insert(m, n, key, cpu, v) == m
  {
    hide ZeroSlots;
  }

  lemma RoomToStart(k: Maps, e: Event)
    requires k.Valid() && e.On(k.nCpus) && |k.pidLast| < MAX_KEYS
    ensures StartKept(k, e)
  {
    hide Wrap, NextPidTimes, NextCpuTime, NextRing, ZeroSlots;
    assert Step(k, e).pidLast == NextPidLast(k, e);
    if e.Switch? { FewerKeys(k.pidLast, e.prevTgid); }
  }

  lemma FewerKeys(m: PerCpuHash, t: u32)
    ensures |m - {t}| <= |m|
  {
    var rest := m - {t};
    assert rest.Keys <= m.Keys;
    SubsetSize(rest.Keys, m.Keys);
    assert |rest| == |rest.Keys| && |m| == |m.Keys|;
  }

  lemma SubsetSize(a: set<u32>, b: set<u32>)
    requires a <= b
    ensures |a| <= |b|
  {
    assert b == a + (b - a);
  }

  // Runs with room refuse nothing.
  lemma {:induction false} RoomKeepsAll(k: Maps, run: seq<Event>, c: nat)
    requires k.Valid() && RunsOn(run, k.nCpus) && Roomy(k, run)
    ensures StartsKept(k, run, c) && NeverRefuses(k, run, c)
    decreases |run|
  {
    hide Step, StartKept, Sized;
    if run != [] {
      var before, e := run[..|run| - 1], run[|run| - 1];
      RoomKeepsAll(k, before, c);
      RoomToStart(Run(k, before), e);
    }
  }

  // All tasks known to the maps or to the run fit into the maps.
  ghost predicate Fits(k: Maps, run: seq<Event>, tasks: set<u32>) {
    && |tasks| <= 32768
    && k.pidTimes.Keys <= tasks
    && k.pidLast.Keys <= tasks
    && forall i :: 0 <= i < |run| ==> TasksOf(run[i]) <= tasks
  }

  lemma RoomFor(m: PerCpuHash, tasks: set<u32>, t: u32)
    requires m.Keys <= tasks && t in tasks && |tasks| <= MAX_KEYS
    ensures Accepts(m, t)
  {
    if t !in m {
      SubsetSize(m.Keys, tasks - {t});
      assert |m| == |m.Keys|;
    }
  }

  lemma KeysAfter(k: Maps, e: Event, tasks: set<u32>)
    requires k.Valid() && e.On(k.nCpus)
    requires k.pidTimes.Keys <= tasks && k.pidLast.Keys <= tasks && TasksOf(e) <= tasks
    ensures Step(k, e).pidTimes.Keys <= tasks && Step(k, e).pidLast.Keys <= tasks
  {
    hide Accepts, Wrap, NextRing, NextCpuTime, ZeroSlots;
    assert Step(k, e).pidTimes == NextPidTimes(k, e);
    assert Step(k, e).pidLast == NextPidLast(k, e);
  }

  lemma FitsToStart(k: Maps, e: Event, tasks: set<u32>)
    requires k.Valid() && e.On(k.nCpus) && k.pidLast.Keys <= tasks && TasksOf(e) <= tasks && |tasks| <= MAX_KEYS
    ensures StartKept(k, e)
  {
    hide Accepts, Wrap, NextPidTimes, NextCpuTime, NextRing, ZeroSlots;
    assert Step(k, e).pidLast == NextPidLast(k, e);
    match e
    case Switch(_, _, prevTgid, _, nextTgid) =>
      RoomFor(k.pidLast, tasks, nextTgid);
      RoomFor(k.pidLast - {prevTgid}, tasks, nextTgid);
    case Sample(_, _, pid, _) => RoomFor(k.pidLast, tasks, pid);
    case _ =>
  }

  // Runs of no more than MAX_KEYS tasks refuse nothing.
  lemma {:induction false} FewTasksKeepAll(k: Maps, run: seq<Event>, c: nat, tasks: set<u32>)
    requires k.Valid() && RunsOn(run, k.nCpus) && Fits(k, run, tasks)
    ensures StartsKept(k, run, c) && NeverRefuses(k, run, c)
    ensures Run(k, run).pidTimes.Keys <= tasks && Run(k, run).pidLast.Keys <= tasks
    decreases |run|
  {
    hide Step, StartKept, Accepts;
    if run != [] {
      var before, e := run[..|run| - 1], run[|run| - 1];
      FewTasksKeepAll(k, before, c, tasks);
      var k1 := Run(k, before);
      KeysAfter(k1, e, tasks);
      FitsToStart(k1, e, tasks);
      var charge := ChargeOf(k1, e);
      if charge.Some? {
        assert charge.value.tgid in TasksOf(e);
        RoomFor(k1.pidTimes, tasks, charge.value.tgid);
      }
    }
  }
}
