/**
 A task number given up by a dead process and taken by a new one.

 The exit handler of the last thread erases the number from both maps, but
 threads of the process still run until their final context switches: they may
 be sampled, preempted and switched on again, and exit themselves. Whether a
 later process of the same number inherits time is decided by the start times
 that these events leave.
*/
module PidReuse {
  import opened Machine
  import opened Kernel
  import opened Timekeeping
  import opened SampleTicks

  // An event that gives p a start time: a sample tick or a switch-on.
  predicate Starts(k: Maps, e: Event, p: u32)
    requires k.Valid() && e.On(k.nCpus)
  {
    ((e.Switch? && e.nextTgid == p) || (e.Sample? && e.pid == p && e.tid != 0)) && StartKept(k, e)
  }

  ghost predicate EverStarted(k: Maps, run: seq<Event>, p: u32)
    requires k.Valid() && RunsOn(run, k.nCpus)
    decreases |run|
  {
    run != []
    && (EverStarted(k, run[..|run| - 1], p) || Starts(Run(k, run[..|run| - 1]), run[|run| - 1], p))
  }

  // A start time was given since p's was last taken away.
  ghost predicate LeftStarted(k: Maps, run: seq<Event>, p: u32)
    requires k.Valid() && RunsOn(run, k.nCpus)
    decreases |run|
  {
    run != []
    && (var before, e := run[..|run| - 1], run[|run| - 1];
        Starts(Run(k, before), e, p) || (LeftStarted(k, before, p) && !TakesAway(e, p)))
  }

  // An event that charges p if its start time is known.
  predicate IsAbout(e: Event, p: u32) {
    match e
    case Switch(_, _, prevTgid, prevTid, _) => prevTgid == p && prevTid != 0
    case Sample(_, _, pid, tid) => pid == p && tid != 0
    case Exit(_, _, tgid, tid, _) => tgid == p && tid != 0
    case _ => false
  }

  // A late charge of p was taken since its last thread was last buried.
  ghost predicate LeftCharged(k: Maps, run: seq<Event>, p: u32)
    requires k.Valid() && RunsOn(run, k.nCpus)
    decreases |run|
  {
    run != []
    && (var before, e := run[..|run| - 1], run[|run| - 1];
        && !Only(p).EndsWith(e)
        && (LeftCharged(k, before, p)
            || (LeftStarted(k, before, p) && IsAbout(e, p) && Accepts(Run(k, before).pidTimes, p))))
  }

  predicate Charges(k: Maps, e: Event, p: u32)
    requires k.Valid() && e.On(k.nCpus)
  {
    ChargeOf(k, e).Some? && ChargeOf(k, e).value.tgid == p
  }

  ghost predicate NeverCharged(k: Maps, run: seq<Event>, p: u32)
    requires k.Valid() && RunsOn(run, k.nCpus)
    decreases |run|
  {
    run == []
    || (NeverCharged(k, run[..|run| - 1], p) && !Charges(Run(k, run[..|run| - 1]), run[|run| - 1], p))
  }

  lemma Buries(k: Maps, e: Event)
    requires k.Valid() && e.On(k.nCpus) && e.Exit? && e.groupDead
    ensures e.tgid !in Step(k, e).pidTimes && e.tgid !in Step(k, e).pidLast
  {
    hide Accepts, Wrap, NextRing, NextCpuTime, ZeroSlots;
    assert Step(k, e).pidTimes == NextPidTimes(k, e);
    assert Step(k, e).pidLast == NextPidLast(k, e);
  }

  lemma ChargesIfStarted(k: Maps, e: Event, p: u32)
    requires k.Valid() && e.On(k.nCpus) && p != 0
    ensures Charges(k, e, p) <==> p in k.pidLast && IsAbout(e, p)
  {
    hide Wrap;
  }

  lemma EntryStep(k: Maps, e: Event, p: u32)
    requires k.Valid() && e.On(k.nCpus) && p != 0
    ensures p in Step(k, e).pidTimes <==>
      !Only(p).EndsWith(e) && (p in k.pidTimes || (Charges(k, e, p) && Accepts(k.pidTimes, p)))
  {
    hide Accepts, Wrap, Credited, NextRing, NextCpuTime, NextPidLast;
    assert Step(k, e).pidTimes == NextPidTimes(k, e);
    var charge := ChargeOf(k, e);
    if charge.Some? { CreditedKeys(k.pidTimes, k.nCpus, charge.value); }
  }

  // After p was erased from both maps: where it is in them again.
  lemma {:induction false} AfterBurial(k: Maps, run: seq<Event>, p: u32)
    requires k.Valid() && RunsOn(run, k.nCpus) && p != 0 && p !in k.pidTimes && p !in k.pidLast
    ensures p in Run(k, run).pidLast <==> LeftStarted(k, run, p)
    ensures p in Run(k, run).pidTimes <==> LeftCharged(k, run, p)
    decreases |run|
  {
    hide Step, Charges, IsAbout, Accepts, TakesAway, StartKept;
    if run != [] {
      var before, e := run[..|run| - 1], run[|run| - 1];
      var k1 := Run(k, before);
      AfterBurial(k, before, p);
      StartsAnew(k1, e, p);
      ChargesIfStarted(k1, e, p);
      EntryStep(k1, e, p);
    }
  }

  lemma StartsAnew(k: Maps, e: Event, p: u32)
    requires k.Valid() && e.On(k.nCpus) && p != 0
    ensures p in Step(k, e).pidLast <==> Starts(k, e, p) || (p in k.pidLast && !TakesAway(e, p))
  {
    StartsOnceMore(k, e, p);
  }

  // Without a new start time p stays out of both maps and is never charged.
  lemma {:induction false} StaysBuried(k: Maps, run: seq<Event>, p: u32)
    requires k.Valid() && RunsOn(run, k.nCpus) && p != 0 && p !in k.pidTimes && p !in k.pidLast
    requires !EverStarted(k, run, p)
    ensures p !in Run(k, run).pidLast && p !in Run(k, run).pidTimes && NeverCharged(k, run, p)
    decreases |run|
  {
    hide Step, Charges, IsAbout, Accepts, TakesAway, Starts;
    if run != [] {
      var before, e := run[..|run| - 1], run[|run| - 1];
      var k1 := Run(k, before);
      StaysBuried(k, before, p);
      StartsAnew(k1, e, p);
      ChargesIfStarted(k1, e, p);
      EntryStep(k1, e, p);
    }
  }

  // The last thread of p exits, anything happens, and a thread of p leaves its
  // CPU. This switch-off charges nothing if and only if no tick or switch-on has
  // left p a start time since it was last taken away. Afterwards the number is
  // out of PID_TIMES, so that a new process starts from zero everywhere, if and
  // only if no late charge was taken since p was last buried. If no start time
  // is left at all, nothing is charged to p from its exit on. All this holds
  // whatever the threads of p do, and however full the maps are.
  lemma ReuseStartsFromZero(k0: Maps, exit: Event, mid: seq<Event>, off: Event)
    requires k0.Valid() && exit.On(k0.nCpus) && RunsOn(mid, k0.nCpus) && off.On(k0.nCpus)
    requires exit.Exit? && exit.groupDead && exit.tgid != 0
    requires off.Switch? && off.prevTgid == exit.tgid && off.prevTid != 0
    ensures var p, k1, window := exit.tgid, Step(k0, exit), mid + [off];
      var k := Run(k1, mid);
      && RunsOn(window, k0.nCpus) && Run(k1, window) == Step(k, off)
      && (ChargeOf(k, off) == None <==> !LeftStarted(k1, mid, p))
      && (p !in Step(k, off).pidTimes <==> !LeftCharged(k1, window, p))
      && (!LeftCharged(k1, window, p) ==> forall c :: 0 <= c < k.nCpus ==> Slot(Step(k, off).pidTimes, p, c) == 0)
      && (!EverStarted(k1, mid, p) ==> NeverCharged(k1, window, p) && !LeftCharged(k1, window, p))
  {
    hide Step, Run, LeftStarted, LeftCharged, EverStarted, Accepts;
    var p, k1, window := exit.tgid, Step(k0, exit), mid + [off];
    Buries(k0, exit);
    RunExtends(k1, mid, off);
    AfterBurial(k1, mid, p);
    AfterBurial(k1, window, p);
    ChargesIfStarted(Run(k1, mid), off, p);
    OffIsAbout(Run(k1, mid), off, p);
    if !EverStarted(k1, mid, p) {
      StaysBuried(k1, mid, p);
      EntryStep(Run(k1, mid), off, p);
      assert window[..|mid|] == mid;
    }
  }

  lemma OffIsAbout(k: Maps, off: Event, p: u32)
    requires k.Valid() && off.On(k.nCpus) && off.Switch? && off.prevTgid == p && off.prevTid != 0
    ensures ChargeOf(k, off).Some? <==> Charges(k, off, p)
  {
  }

  lemma RunExtends(k: Maps, run: seq<Event>, e: Event)
    requires k.Valid() && RunsOn(run, k.nCpus) && e.On(k.nCpus)
    ensures RunsOn(run + [e], k.nCpus) && Run(k, run + [e]) == Step(Run(k, run), e)
  {
    hide Step;
    assert (run + [e])[..|run|] == run;
  }

  // No start time is left in particular when p is neither sampled nor switched
  // on in the window.
  predicate Quiet(run: seq<Event>, p: u32) {
    forall i :: 0 <= i < |run| ==>
      !(run[i].Sample? && run[i].pid == p && run[i].tid != 0) && !(run[i].Switch? && run[i].nextTgid == p)
  }

  lemma {:induction false} QuietNeverStarts(k: Maps, run: seq<Event>, p: u32)
    requires k.Valid() && RunsOn(run, k.nCpus) && Quiet(run, p)
    ensures !EverStarted(k, run, p)
    decreases |run|
  {
    hide Step;
    if run != [] { QuietNeverStarts(k, run[..|run| - 1], p); }
  }

  // The first charge of a number that is not in PID_TIMES opens an entry that
  // is zero on every other CPU.
  lemma FirstChargeIsFresh(k: Maps, e: Event)
    requires k.Valid() && e.On(k.nCpus) && ChargeOf(k, e).Some? && !(e.Exit? && e.groupDead)
    requires var p := ChargeOf(k, e).value.tgid; p !in k.pidTimes && Accepts(k.pidTimes, p)
    ensures var Charging(p, cpu, delta) := ChargeOf(k, e).value;
      forall c :: 0 <= c < k.nCpus ==> Slot(Step(k, e).pidTimes, p, c) == if c == cpu then delta else 0
  {
    hide Accepts, Wrap, NextRing, NextCpuTime, NextPidLast;
    assert Step(k, e).pidTimes == NextPidTimes(k, e);
  }
}
