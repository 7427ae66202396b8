/**
 The accounting against the clock.

 `Schedule` is what really happens on the machine: which task each CPU runs.
 Integrating the clock over it gives the time a CPU, or one process on one CPU,
 has really been busy. The counters are that time, up to four kinds of slip:
 time that passes before the handlers have seen a task or after they have seen
 one of its threads exit, start times that another CPU drops or puts back for a
 task that runs on several CPUs at once, and charges that a full map refuses.
*/
module Timekeeping {
  import opened Machine
  import opened Kernel
  import opened Accounting

  datatype Schedule = Schedule(running: seq<u32>, clock: u64) {
    predicate Valid(nCpus: nat) {
      |running| == nCpus
    }

    // Handlers run on the CPU of the task they are about, the clock does not go
    // back, threads of a task have a nonzero id, and kernel reads succeed. The
    // threads of a task may run on several CPUs.
    predicate Allows(e: Event, nCpus: nat)
      requires Valid(nCpus) && e.On(nCpus)
    {
      match e
      case Switch(cpu, now, prevTgid, prevTid, _) =>
        clock <= now && running[cpu] == prevTgid && (prevTgid != 0 ==> prevTid != 0)
      case Sample(cpu, now, pid, tid) =>
        clock <= now && running[cpu] == pid && (pid != 0 ==> tid != 0)
      case Exit(cpu, now, tgid, tid, _) =>
        clock <= now && running[cpu] == tgid && tgid != 0 && tid != 0
      case StateTick(_) => true
      case Drain => true
      case Aborted => false
    }

    function At(e: Event): u64 {
      match e
      case Switch(_, now, _, _, _) => now
      case Sample(_, now, _, _) => now
      case Exit(_, now, _, _, _) => now
      case _ => clock
    }

    function Elapsed(e: Event): nat {
      if At(e) >= clock then At(e) - clock else 0
    }

    function After(e: Event, nCpus: nat): (s': Schedule)
      requires Valid(nCpus) && e.On(nCpus)
      ensures s'.Valid(nCpus)
    {
      Schedule(if e.Switch? then running[e.cpu := e.nextTgid] else running, At(e))
    }
  }

  ghost predicate Legal(s: Schedule, run: seq<Event>, nCpus: nat)
    requires s.Valid(nCpus) && RunsOn(run, nCpus)
    ensures Legal(s, run, nCpus) && run != [] ==> Legal(s, run[..|run| - 1], nCpus)
    decreases |run|
  {
    run == [] || (Legal(s, run[..|run| - 1], nCpus) && Now(s, run[..|run| - 1], nCpus).Allows(run[|run| - 1], nCpus))
  }

  function Now(s: Schedule, run: seq<Event>, nCpus: nat): (s': Schedule)
    requires s.Valid(nCpus) && RunsOn(run, nCpus)
    ensures s'.Valid(nCpus)
    decreases |run|
  {
    if run == [] then s else Now(s, run[..|run| - 1], nCpus).After(run[|run| - 1], nCpus)
  }

  // ----- real time

  // Whose time is measured: that of every task, or that of one process since
  // its number was last given up.
  datatype Who = Anyone | Only(p: u32) {
    predicate Is(task: u32) { task != 0 && (Anyone? || p == task) }

    predicate EndsWith(e: Event) { Only? && e.Exit? && e.groupDead && e.tgid == p }
  }

  function Ran(s: Schedule, e: Event, who: Who, c: nat): nat
    requires c < |s.running|
  {
    if who.Is(s.running[c]) then s.Elapsed(e) else 0
  }

  // Real time CPU c has run them.
  function RealTime(s: Schedule, run: seq<Event>, nCpus: nat, who: Who, c: nat): nat
    requires s.Valid(nCpus) && RunsOn(run, nCpus) && c < nCpus
    decreases |run|
  {
    if run == [] then 0
    else
      var before, e := run[..|run| - 1], run[|run| - 1];
      if who.EndsWith(e) then 0 else RealTime(s, before, nCpus, who, c) + Ran(Now(s, before, nCpus), e, who, c)
  }

  // Busy intervals of one CPU do not overlap.
  lemma {:induction false} BusyWithinElapsed(s: Schedule, run: seq<Event>, nCpus: nat, who: Who, c: nat)
    requires s.Valid(nCpus) && RunsOn(run, nCpus) && Legal(s, run, nCpus) && c < nCpus
    ensures RealTime(s, run, nCpus, who, c) <= RealTime(s, run, nCpus, Anyone, c)
    ensures s.clock + RealTime(s, run, nCpus, Anyone, c) <= Now(s, run, nCpus).clock
    decreases |run|
  {
    if run != [] { BusyWithinElapsed(s, run[..|run| - 1], nCpus, who, c); }
  }

  // ----- start times

  // The CPU an event happens on; events of the reader and the state tick, which
  // do not look at PID_LAST, happen nowhere.
  predicate HappensOn(e: Event, c: nat) {
    match e
    case Switch(cpu, _, _, _, _) => cpu == c
    case Sample(cpu, _, _, _) => cpu == c
    case Exit(cpu, _, _, _, _) => cpu == c
    case _ => false
  }

  // Drops the start times of task q on all CPUs.
  predicate TakesAway(e: Event, q: u32) {
    match e
    case Switch(_, _, prevTgid, prevTid, _) => prevTgid == q && prevTid != 0
    case Exit(_, _, tgid, tid, groupDead) => tgid == q && (groupDead || tid != 0)
    case _ => false
  }

  // What an event on another CPU does to the start time of q on CPU c: it
  // leaves it alone, unless it takes it away; and it can put it back only as 0.
  lemma StartElsewhere(k: Maps, e: Event, q: u32, c: nat)
    requires k.Valid() && e.On(k.nCpus) && q != 0 && c < k.nCpus && !HappensOn(e, c)
    ensures q in k.pidLast && !TakesAway(e, q) ==>
      q in Step(k, e).pidLast && Step(k, e).pidLast[q][c] == k.pidLast[q][c]
    ensures (q !in k.pidLast || TakesAway(e, q)) && q in Step(k, e).pidLast ==> Step(k, e).pidLast[q][c] == 0
    ensures Gained(k, e, c) == 0
  {
    hide Accepts, Wrap, NextPidTimes, NextCpuTime, NextRing;
    assert Step(k, e).pidLast == NextPidLast(k, e);
  }

  // No start time is ahead of the clock.
  ghost predicate Timed(k: Maps, s: Schedule)
    requires k.Valid()
  {
    && s.Valid(k.nCpus)
    && forall t, c :: t in k.pidLast && 0 <= c < k.nCpus ==> k.pidLast[t][c] <= s.clock
  }

  // The task that CPU c runs has a start time.
  predicate Started(k: Maps, s: Schedule, c: nat)
    requires k.Valid() && s.Valid(k.nCpus) && c < k.nCpus
  {
    s.running[c] != 0 && s.running[c] in k.pidLast
  }

  // What would be charged on CPU c now.
  function Pending(k: Maps, s: Schedule, who: Who, c: nat): nat
    requires k.Valid() && s.Valid(k.nCpus) && c < k.nCpus
  {
    if Started(k, s, c) && who.Is(s.running[c]) then SaturatingSub(s.clock, k.pidLast[s.running[c]][c]) else 0
  }

  lemma TimedStep(k: Maps, s: Schedule, e: Event)
    requires k.Valid() && e.On(k.nCpus) && Timed(k, s) && s.Allows(e, k.nCpus)
    ensures Timed(Step(k, e), s.After(e, k.nCpus))
  {
    hide Accepts, Wrap, NextPidTimes, NextCpuTime, NextRing;
    assert Step(k, e).pidLast == NextPidLast(k, e);
  }

  // ----- slips

  // Time that is not charged because the running task has no start time, time
  // whose start another CPU dropped, whole clock readings due to a start time
  // that another CPU put back as 0, and charges that PID_TIMES refused.
  datatype Slips = Slips(unseen: nat, dropped: nat, revived: nat, refused: nat) {
    function Plus(o: Slips): Slips {
      Slips(unseen + o.unseen, dropped + o.dropped, revived + o.revived, refused + o.refused)
    }
  }

  const NoSlips := Slips(0, 0, 0, 0)

  function EventSlips(k: Maps, s: Schedule, e: Event, who: Who, c: nat): Slips
    requires k.Valid() && e.On(k.nCpus) && s.Valid(k.nCpus) && c < k.nCpus
  {
    var q := s.running[c];
    if !who.Is(q) then NoSlips
    else
      var kept := Started(k, s, c) && !TakesAway(e, q);
      Slips(if Started(k, s, c) then 0 else s.Elapsed(e),
            if Started(k, s, c) && !kept && !HappensOn(e, c) then Pending(k, s, Anyone, c) + s.Elapsed(e) else 0,
            if q in Step(k, e).pidLast && !kept && !HappensOn(e, c) then s.At(e) else 0,
            Refused(k, e, c))
  }

  function AllSlips(k: Maps, s: Schedule, run: seq<Event>, who: Who, c: nat): Slips
    requires k.Valid() && RunsOn(run, k.nCpus) && s.Valid(k.nCpus) && c < k.nCpus
    decreases |run|
  {
    if run == [] then NoSlips
    else
      var before, e := run[..|run| - 1], run[|run| - 1];
      if who.EndsWith(e) then NoSlips
      else AllSlips(k, s, before, who, c).Plus(EventSlips(Run(k, before), Now(s, before, k.nCpus), e, who, c))
  }

  lemma ChargedHere(k: Maps, s: Schedule, e: Event, c: nat)
    requires k.Valid() && e.On(k.nCpus) && Timed(k, s) && s.Allows(e, k.nCpus) && c < k.nCpus && HappensOn(e, c)
    ensures Gained(k, e, c) == if Started(k, s, c) then Pending(k, s, Anyone, c) + s.Elapsed(e) else 0
  {
    hide Accepts, Wrap;
    var q := s.running[c];
    if Started(k, s, c) {
      WrapSmall(s.At(e) - k.pidLast[q][c]);
      assert ChargeOf(k, e) == Some(Charging(q, c, s.At(e) - k.pidLast[q][c]));
    } else {
      assert ChargeOf(k, e) == None;
    }
  }

  lemma RestartedHere(k: Maps, s: Schedule, e: Event, c: nat)
    requires k.Valid() && e.On(k.nCpus) && Timed(k, s) && s.Allows(e, k.nCpus) && c < k.nCpus && HappensOn(e, c)
    ensures Pending(Step(k, e), s.After(e, k.nCpus), Anyone, c) == 0
  {
    hide Accepts, Wrap, NextPidTimes, NextCpuTime, NextRing, ZeroSlots;
    assert Step(k, e).pidLast == NextPidLast(k, e);
  }

  // Whatever an event charges and whatever stays pending is the time that was
  // pending and the busy time that passed, up to the slips.
  lemma PendingStep(k: Maps, s: Schedule, e: Event, who: Who, c: nat)
    requires k.Valid() && e.On(k.nCpus) && Timed(k, s) && s.Allows(e, k.nCpus) && c < k.nCpus && !who.EndsWith(e)
    ensures Timed(Step(k, e), s.After(e, k.nCpus))
    ensures var slips := EventSlips(k, s, e, who, c);
      (if who.Is(s.running[c]) then Gained(k, e, c) else 0) + Pending(Step(k, e), s.After(e, k.nCpus), who, c)
      + slips.unseen + slips.dropped
      == Pending(k, s, who, c) + Ran(s, e, who, c) + slips.revived
  {
    hide Step, Gained;
    TimedStep(k, s, e);
    if HappensOn(e, c) {
      ChargedHere(k, s, e, c);
      RestartedHere(k, s, e, c);
    } else if s.running[c] != 0 {
      StartElsewhere(k, e, s.running[c], c);
    }
  }

  // ----- over whole runs

  // Over any run, however many CPUs a task is on and however full the maps are:
  // the time charged to a CPU, together with what is pending, is its real busy
  // time up to the slips.
  lemma {:induction false} ChargedIsBusy(k: Maps, s: Schedule, run: seq<Event>, c: nat)
    requires k.Valid() && RunsOn(run, k.nCpus) && Timed(k, s) && Legal(s, run, k.nCpus) && c < k.nCpus
    ensures Timed(Run(k, run), Now(s, run, k.nCpus))
    ensures var slips := AllSlips(k, s, run, Anyone, c);
      Gain(k, run, c) + Pending(Run(k, run), Now(s, run, k.nCpus), Anyone, c) + slips.unseen + slips.dropped
      == Pending(k, s, Anyone, c) + RealTime(s, run, k.nCpus, Anyone, c) + slips.revived
    decreases |run|
  {
    hide Step, Gained, Pending, EventSlips, Ran;
    if run != [] {
      var before, e := run[..|run| - 1], run[|run| - 1];
      ChargedIsBusy(k, s, before, c);
      PendingStep(Run(k, before), Now(s, before, k.nCpus), e, Anyone, c);
      NobodyGains(Run(k, before), Now(s, before, k.nCpus), e, c);
    }
  }

  lemma NobodyGains(k: Maps, s: Schedule, e: Event, c: nat)
    requires k.Valid() && e.On(k.nCpus) && s.Valid(k.nCpus) && s.Allows(e, k.nCpus) && c < k.nCpus
    ensures s.running[c] == 0 ==> Gained(k, e, c) == 0
  {
    hide Wrap;
  }

  lemma TracingBegins(nCpus: nat, socketOf: seq<u16>, s: Schedule, who: Who, c: nat)
    requires |socketOf| == MAX_CPU && s.Valid(nCpus) && c < nCpus
    ensures var k0 := Boot(nCpus, socketOf);
      Timed(k0, s) && Pending(k0, s, who, c) == 0 && (c < MAX_CPU ==> k0.cpuTime[c] == 0)
  {
  }

  // CPU_TIME since tracing began: modulo the width of the counter always, and
  // exactly while the time charged fits it.
  lemma CpuTimeBalance(nCpus: nat, socketOf: seq<u16>, s: Schedule, run: seq<Event>, c: nat)
    requires |socketOf| == 256 && RunsOn(run, nCpus) && c < nCpus && c < 256
    requires s.Valid(nCpus) && Legal(s, run, nCpus)
    ensures var k0 := Boot(nCpus, socketOf);
      var k, slips := Run(k0, run), AllSlips(k0, s, run, Anyone, c);
      var busy, pending := RealTime(s, run, nCpus, Anyone, c), Pending(k, Now(s, run, nCpus), Anyone, c);
      && k.cpuTime[c] == Wrap(busy + slips.revived - slips.unseen - slips.dropped - pending)
      && (Gain(k0, run, c) < TWO64 ==>
            k.cpuTime[c] + pending + slips.unseen + slips.dropped == busy + slips.revived)
  {
    hide Run, Gain, Wrap, RealTime, Now, Legal, Pending, AllSlips, Boot;
    var k0 := Boot(nCpus, socketOf);
    TracingBegins(nCpus, socketOf, s, Anyone, c);
    ChargedIsBusy(k0, s, run, c);
    CpuTimeIsGain(k0, run, c);
    WrapSmall(Gain(k0, run, c));
  }

  // ----- tasks whose start times are left alone

  // Another CPU takes away the start time of the task that c runs, or puts one
  // back.
  predicate Disturbs(k: Maps, s: Schedule, e: Event, c: nat)
    requires k.Valid() && e.On(k.nCpus) && s.Valid(k.nCpus) && c < k.nCpus
  {
    var q := s.running[c];
    && q != 0 && !HappensOn(e, c)
    && if q in k.pidLast then TakesAway(e, q) else q in Step(k, e).pidLast
  }

  ghost predicate Undisturbed(k: Maps, s: Schedule, run: seq<Event>, c: nat)
    requires k.Valid() && RunsOn(run, k.nCpus) && s.Valid(k.nCpus) && c < k.nCpus
    decreases |run|
  {
    run == []
    || (var before, e := run[..|run| - 1], run[|run| - 1];
        Undisturbed(k, s, before, c) && !Disturbs(Run(k, before), Now(s, before, k.nCpus), e, c))
  }

  lemma UndisturbedEvent(k: Maps, s: Schedule, e: Event, who: Who, c: nat)
    requires k.Valid() && e.On(k.nCpus) && s.Valid(k.nCpus) && c < k.nCpus && !Disturbs(k, s, e, c)
    ensures EventSlips(k, s, e, who, c).dropped == 0 == EventSlips(k, s, e, who, c).revived
    ensures s.running[c] != 0 && !HappensOn(e, c) ==>
      (s.running[c] in Step(k, e).pidLast <==> s.running[c] in k.pidLast)
  {
    hide Step, Refused, Pending;
    if s.running[c] != 0 && !HappensOn(e, c) { StartElsewhere(k, e, s.running[c], c); }
  }

  // Then no start time slips.
  lemma {:induction false} UndisturbedSlips(k: Maps, s: Schedule, run: seq<Event>, who: Who, c: nat)
    requires k.Valid() && RunsOn(run, k.nCpus) && s.Valid(k.nCpus) && c < k.nCpus && Undisturbed(k, s, run, c)
    ensures AllSlips(k, s, run, who, c).dropped == 0 == AllSlips(k, s, run, who, c).revived
    decreases |run|
  {
    hide Step, EventSlips, Disturbs;
    if run != [] {
      var before, e := run[..|run| - 1], run[|run| - 1];
      UndisturbedSlips(k, s, before, who, c);
      UndisturbedEvent(Run(k, before), Now(s, before, k.nCpus), e, who, c);
    }
  }

  predicate Apart(s: Schedule) {
    forall c, d :: 0 <= c < |s.running| && 0 <= d < |s.running| && c != d && s.running[c] != 0 ==>
      s.running[c] != s.running[d]
  }

  ghost predicate NeverShared(s: Schedule, run: seq<Event>, nCpus: nat)
    requires s.Valid(nCpus) && RunsOn(run, nCpus)
    decreases |run|
  {
    Apart(Now(s, run, nCpus)) && (run == [] || NeverShared(s, run[..|run| - 1], nCpus))
  }

  lemma ApartStep(k: Maps, s: Schedule, e: Event, c: nat)
    requires k.Valid() && e.On(k.nCpus) && s.Valid(k.nCpus) && s.Allows(e, k.nCpus) && c < k.nCpus
    requires Apart(s) && Apart(s.After(e, k.nCpus))
    ensures !Disturbs(k, s, e, c)
  {
    hide Accepts, Wrap, NextPidTimes, NextCpuTime, NextRing, ZeroSlots;
    assert Step(k, e).pidLast == NextPidLast(k, e);
    var q := s.running[c];
    if e.Switch? && q != 0 && e.cpu != c {
      assert s.After(e, k.nCpus).running[c] == q && s.After(e, k.nCpus).running[e.cpu] == e.nextTgid;
    }
  }

  // As long as no task is on two CPUs at once, none is disturbed.
  lemma {:induction false} NothingShared(k: Maps, s: Schedule, run: seq<Event>, c: nat)
    requires k.Valid() && RunsOn(run, k.nCpus) && s.Valid(k.nCpus) && Legal(s, run, k.nCpus) && c < k.nCpus
    requires NeverShared(s, run, k.nCpus)
    ensures Undisturbed(k, s, run, c)
    decreases |run|
  {
    hide Step, Disturbs, Apart;
    if run != [] {
      var before, e := run[..|run| - 1], run[|run| - 1];
      SharedBefore(s, run, k.nCpus);
      NothingShared(k, s, before, c);
      ApartStep(Run(k, before), Now(s, before, k.nCpus), e, c);
    }
  }

  lemma SharedBefore(s: Schedule, run: seq<Event>, nCpus: nat)
    requires s.Valid(nCpus) && RunsOn(run, nCpus) && NeverShared(s, run, nCpus) && run != []
    ensures NeverShared(s, run[..|run| - 1], nCpus)
    ensures Apart(Now(s, run[..|run| - 1], nCpus)) && Apart(Now(s, run, nCpus))
  {
    hide Apart;
  }

  // On a CPU whose tasks are undisturbed, CPU_TIME never exceeds the real busy
  // time, nor the time elapsed since tracing began; what it falls short by is
  // pending or was not seen.
  lemma WallClock(nCpus: nat, socketOf: seq<u16>, s: Schedule, run: seq<Event>, c: nat)
    requires |socketOf| == 256 && RunsOn(run, nCpus) && c < nCpus && c < 256
    requires s.Valid(nCpus) && Legal(s, run, nCpus) && Undisturbed(Boot(nCpus, socketOf), s, run, c)
    ensures var k0 := Boot(nCpus, socketOf);
      var k, busy := Run(k0, run), RealTime(s, run, nCpus, Anyone, c);
      && k.cpuTime[c] + Pending(k, Now(s, run, nCpus), Anyone, c) + AllSlips(k0, s, run, Anyone, c).unseen == busy
      && busy <= Now(s, run, nCpus).clock - s.clock
  {
    hide Run, Gain, Wrap, RealTime, Now, Legal, Pending, AllSlips, Boot, Undisturbed;
    var k0 := Boot(nCpus, socketOf);
    TracingBegins(nCpus, socketOf, s, Anyone, c);
    ChargedIsBusy(k0, s, run, c);
    UndisturbedSlips(k0, s, run, Anyone, c);
    BusyWithinElapsed(s, run, nCpus, Anyone, c);
    CpuTimeIsGain(k0, run, c);
    WrapSmall(Gain(k0, run, c));
  }

  // ----- time the handlers do not see

  // The start time an event takes on its CPU is not refused.
  predicate StartKept(k: Maps, e: Event)
    requires k.Valid() && e.On(k.nCpus)
  {
    match e
    case Switch(_, _, _, _, nextTgid) => nextTgid != 0 ==> nextTgid in Step(k, e).pidLast
    case Sample(_, _, pid, tid) => pid != 0 && tid != 0 ==> pid in Step(k, e).pidLast
    case _ => true
  }

  ghost predicate StartsKept(k: Maps, run: seq<Event>, c: nat)
    requires k.Valid() && RunsOn(run, k.nCpus)
    decreases |run|
  {
    run == []
    || (StartsKept(k, run[..|run| - 1], c)
        && (HappensOn(run[|run| - 1], c) ==> StartKept(Run(k, run[..|run| - 1]), run[|run| - 1])))
  }

  // Nothing has happened on the CPU yet, or a thread exited there last.
  predicate Dark(run: seq<Event>, c: nat) {
    run == [] || if HappensOn(run[|run| - 1], c) then run[|run| - 1].Exit? else Dark(run[..|run| - 1], c)
  }

  // Real time they run in the dark.
  function DarkTime(s: Schedule, run: seq<Event>, nCpus: nat, who: Who, c: nat): nat
    requires s.Valid(nCpus) && RunsOn(run, nCpus) && c < nCpus
    decreases |run|
  {
    if run == [] then 0
    else
      var before, e := run[..|run| - 1], run[|run| - 1];
      if who.EndsWith(e) then 0
      else DarkTime(s, before, nCpus, who, c)
           + if Dark(before, c) then Ran(Now(s, before, nCpus), e, who, c) else 0
  }

  // No time passes while they run in the dark.
  ghost predicate NeverDark(s: Schedule, run: seq<Event>, nCpus: nat, who: Who, c: nat)
    requires s.Valid(nCpus) && RunsOn(run, nCpus) && c < nCpus
    decreases |run|
  {
    run == [] || who.EndsWith(run[|run| - 1])
    || (var before, e := run[..|run| - 1], run[|run| - 1];
        && NeverDark(s, before, nCpus, who, c)
        && (Dark(before, c) && who.Is(Now(s, before, nCpus).running[c]) ==> Now(s, before, nCpus).Elapsed(e) == 0))
  }

  lemma {:induction false} NoDarkTime(s: Schedule, run: seq<Event>, nCpus: nat, who: Who, c: nat)
    requires s.Valid(nCpus) && RunsOn(run, nCpus) && c < nCpus
    ensures DarkTime(s, run, nCpus, who, c) == 0 <==> NeverDark(s, run, nCpus, who, c)
    decreases |run|
  {
    hide Now, Dark;
    if run != [] { NoDarkTime(s, run[..|run| - 1], nCpus, who, c); }
  }

  // Every charge for them is taken.
  ghost predicate AllTaken(k: Maps, s: Schedule, run: seq<Event>, who: Who, c: nat)
    requires k.Valid() && RunsOn(run, k.nCpus) && s.Valid(k.nCpus) && c < k.nCpus
    decreases |run|
  {
    run == [] || who.EndsWith(run[|run| - 1])
    || (var before, e := run[..|run| - 1], run[|run| - 1];
        && AllTaken(k, s, before, who, c)
        && (who.Is(Now(s, before, k.nCpus).running[c]) ==> Refused(Run(k, before), e, c) == 0))
  }

  lemma {:induction false} NothingRefused(k: Maps, s: Schedule, run: seq<Event>, who: Who, c: nat)
    requires k.Valid() && RunsOn(run, k.nCpus) && s.Valid(k.nCpus) && c < k.nCpus
    ensures AllSlips(k, s, run, who, c).refused == 0 <==> AllTaken(k, s, run, who, c)
    decreases |run|
  {
    hide Now, Step, Refused, EventSlips;
    if run != [] {
      var before := run[..|run| - 1];
      NothingRefused(k, s, before, who, c);
      RefusedSlip(Run(k, before), Now(s, before, k.nCpus), run[|run| - 1], who, c);
    }
  }

  lemma RefusedSlip(k: Maps, s: Schedule, e: Event, who: Who, c: nat)
    requires k.Valid() && e.On(k.nCpus) && s.Valid(k.nCpus) && c < k.nCpus
    ensures EventSlips(k, s, e, who, c).refused == if who.Is(s.running[c]) then Refused(k, e, c) else 0
  {
    hide Step, Refused, Pending;
  }

  // An undisturbed task has a start time exactly while its CPU is not in the dark.
  lemma {:induction false} SeenUnlessDark(k: Maps, s: Schedule, run: seq<Event>, c: nat)
    requires k.Valid() && RunsOn(run, k.nCpus) && s.Valid(k.nCpus) && Legal(s, run, k.nCpus) && c < k.nCpus
    requires Undisturbed(k, s, run, c) && k.pidLast == map[]
    ensures Started(Run(k, run), Now(s, run, k.nCpus), c) ==> !Dark(run, c)
    ensures StartsKept(k, run, c) && !Dark(run, c) && Now(s, run, k.nCpus).running[c] != 0 ==>
      Started(Run(k, run), Now(s, run, k.nCpus), c)
    decreases |run|
  {
    hide Step, Disturbs;
    if run != [] {
      var before, e := run[..|run| - 1], run[|run| - 1];
      var k1, s1 := Run(k, before), Now(s, before, k.nCpus);
      SeenUnlessDark(k, s, before, c);
      if HappensOn(e, c) {
        SeenHere(k1, s1, e, c);
      } else if s1.running[c] != 0 {
        UndisturbedEvent(k1, s1, e, Anyone, c);
      }
    }
  }

  lemma SeenHere(k: Maps, s: Schedule, e: Event, c: nat)
    requires k.Valid() && e.On(k.nCpus) && s.Valid(k.nCpus) && s.Allows(e, k.nCpus) && c < k.nCpus && HappensOn(e, c)
    ensures e.Exit? ==> !Started(Step(k, e), s.After(e, k.nCpus), c)
    ensures !e.Exit? && StartKept(k, e) && s.After(e, k.nCpus).running[c] != 0 ==>
      Started(Step(k, e), s.After(e, k.nCpus), c)
  {
    hide Accepts, Wrap, NextPidTimes, NextCpuTime, NextRing, ZeroSlots;
    assert Step(k, e).pidLast == NextPidLast(k, e);
  }

  // What is not seen is what runs in the dark, and what runs without a start
  // time because the map was full.
  lemma {:induction false} UnseenIsDark(k: Maps, s: Schedule, run: seq<Event>, who: Who, c: nat)
    requires k.Valid() && RunsOn(run, k.nCpus) && s.Valid(k.nCpus) && Legal(s, run, k.nCpus) && c < k.nCpus
    requires Undisturbed(k, s, run, c) && k.pidLast == map[]
    ensures DarkTime(s, run, k.nCpus, who, c) <= AllSlips(k, s, run, who, c).unseen
    ensures StartsKept(k, run, c) ==> AllSlips(k, s, run, who, c).unseen == DarkTime(s, run, k.nCpus, who, c)
    decreases |run|
  {
    hide Step, Refused, Disturbs, Pending, Dark, StartKept;
    if run != [] {
      var before := run[..|run| - 1];
      UnseenIsDark(k, s, before, who, c);
      SeenUnlessDark(k, s, before, c);
    }
  }

  // CPU_TIME is the CPU's real busy time, but for what is pending, up to what
  // runs in the dark. It is exactly that if and only if nothing runs there.
  lemma CpuTimeIsBusyTime(nCpus: nat, socketOf: seq<u16>, s: Schedule, run: seq<Event>, c: nat)
    requires |socketOf| == 256 && RunsOn(run, nCpus) && c < nCpus && c < 256
    requires s.Valid(nCpus) && Legal(s, run, nCpus)
    requires Undisturbed(Boot(nCpus, socketOf), s, run, c) && StartsKept(Boot(nCpus, socketOf), run, c)
    ensures var k, busy := Run(Boot(nCpus, socketOf), run), RealTime(s, run, nCpus, Anyone, c);
      var shown := k.cpuTime[c] + Pending(k, Now(s, run, nCpus), Anyone, c);
      && shown + DarkTime(s, run, nCpus, Anyone, c) == busy
      && (shown == busy <==> NeverDark(s, run, nCpus, Anyone, c))
  {
    hide Run, RealTime, Now, Legal, Pending, AllSlips, Undisturbed, StartsKept, DarkTime, NeverDark, ZeroSlots;
    WallClock(nCpus, socketOf, s, run, c);
    UnseenIsDark(Boot(nCpus, socketOf), s, run, Anyone, c);
    NoDarkTime(s, run, nCpus, Anyone, c);
  }

  // ----- one process on one CPU

  lemma AmountStep(l: Ledger, k: Maps, s: Schedule, e: Event, p: u32, c: nat)
    requires k.Valid() && e.On(k.nCpus) && c < k.nCpus && s.Valid(k.nCpus) && s.Allows(e, k.nCpus) && p != 0
    requires l.live.Keys == k.pidTimes.Keys
    ensures Only(p).EndsWith(e) ==> Amount(Booked(l, k, e, c), p) == 0
    ensures !Only(p).EndsWith(e) ==>
      Amount(Booked(l, k, e, c), p) + (if s.running[c] == p then Refused(k, e, c) else 0)
      == Amount(l, p) + if s.running[c] == p then Gained(k, e, c) else 0
  {
    hide Accepts, Wrap;
    var charge := ChargeOf(k, e);
    if charge.Some? {
      assert charge.value.tgid == s.running[charge.value.cpu];
      KnownKeyAccepted(k.pidTimes, charge.value.tgid);
    }
  }

  lemma NothingPending(k: Maps, s: Schedule, e: Event, p: u32, c: nat)
    requires k.Valid() && e.On(k.nCpus) && s.Valid(k.nCpus) && c < k.nCpus && Only(p).EndsWith(e)
    ensures Pending(Step(k, e), s.After(e, k.nCpus), Only(p), c) == 0
  {
    hide Accepts, Wrap, NextPidTimes, NextCpuTime, NextRing, ZeroSlots;
    assert Step(k, e).pidLast == NextPidLast(k, e);
  }

  // The time booked for a process on a CPU, together with what is pending, is
  // the time it has really run there since its number was last given up, up to
  // the slips: on any run, on however many CPUs it is.
  lemma {:induction false} BookedIsRunTime(
    nCpus: nat, socketOf: seq<u16>, s: Schedule, run: seq<Event>, p: u32, c: nat)
    requires |socketOf| == MAX_CPU && RunsOn(run, nCpus) && c < nCpus && p != 0
    requires s.Valid(nCpus) && Legal(s, run, nCpus)
    ensures var k0 := Boot(nCpus, socketOf);
      var slips := AllSlips(k0, s, run, Only(p), c);
      Amount(Books(k0, run, c), p) + Pending(Run(k0, run), Now(s, run, nCpus), Only(p), c)
      + slips.unseen + slips.dropped + slips.refused
      == RealTime(s, run, nCpus, Only(p), c) + slips.revived
    decreases |run|
  {
    hide Step, Booked, Pending, EventSlips, Mirrors, Ran, Boot;
    var k0 := Boot(nCpus, socketOf);
    TracingBegins(nCpus, socketOf, s, Only(p), c);
    if run == [] {
      NothingBooked(nCpus, socketOf, c, p);
    } else {
      var before, e := run[..|run| - 1], run[|run| - 1];
      var k1, s1 := Run(k0, before), Now(s, before, nCpus);
      BookedIsRunTime(nCpus, socketOf, s, before, p, c);
      ChargedIsBusy(k0, s, before, c);
      SameKeys(k0, before, c);
      AmountStep(Books(k0, before, c), k1, s1, e, p, c);
      if Only(p).EndsWith(e) {
        NothingPending(k1, s1, e, p, c);
      } else {
        PendingStep(k1, s1, e, Only(p), c);
        RefusedSlip(k1, s1, e, Only(p), c);
      }
    }
  }

  lemma NothingBooked(nCpus: nat, socketOf: seq<u16>, c: nat, p: u32)
    requires |socketOf| == MAX_CPU && c < nCpus
    ensures Amount(Books(Boot(nCpus, socketOf), [], c), p) == 0
  {
  }

  lemma SameKeys(k: Maps, run: seq<Event>, c: nat)
    requires k.Valid() && RunsOn(run, k.nCpus) && c < k.nCpus
    ensures Books(k, run, c).live.Keys == Run(k, run).pidTimes.Keys
  {
    hide Books, Run;
    BooksBalance(k, run, c);
  }

  // What PID_TIMES holds for a process on a CPU is the time it has really run
  // there since its number was last given up, but for what is pending, for what
  // was not seen and for what a full map refused. With its start times kept it
  // is exactly that if and only if it never ran in the dark and every charge was
  // taken.
  lemma PidTimesAreRunTimes(
    nCpus: nat, socketOf: seq<u16>, s: Schedule, run: seq<Event>, p: u32, c: nat)
    requires |socketOf| == MAX_CPU && RunsOn(run, nCpus) && c < nCpus && p != 0
    requires s.Valid(nCpus) && Legal(s, run, nCpus) && Undisturbed(Boot(nCpus, socketOf), s, run, c)
    ensures var k0 := Boot(nCpus, socketOf);
      var k, slips := Run(k0, run), AllSlips(k0, s, run, Only(p), c);
      var shown := Slot(k.pidTimes, p, c) + Pending(k, Now(s, run, nCpus), Only(p), c);
      && shown + slips.unseen + slips.refused == RealTime(s, run, nCpus, Only(p), c)
      && (StartsKept(k0, run, c) ==> slips.unseen == DarkTime(s, run, nCpus, Only(p), c))
      && (StartsKept(k0, run, c) ==>
            (shown == RealTime(s, run, nCpus, Only(p), c) <==>
              NeverDark(s, run, nCpus, Only(p), c) && AllTaken(k0, s, run, Only(p), c)))
  {
    hide Run, Books, Wrap, RealTime, Now, Legal, Pending, AllSlips, Undisturbed, StartsKept, DarkTime,
         NeverDark, AllTaken, ZeroSlots;
    var k0 := Boot(nCpus, socketOf);
    BookedIsRunTime(nCpus, socketOf, s, run, p, c);
    UndisturbedSlips(k0, s, run, Only(p), c);
    NoDarkTime(s, run, nCpus, Only(p), c);
    NothingRefused(k0, s, run, Only(p), c);
    UnseenIsDark(k0, s, run, Only(p), c);
    BusyWithinElapsed(s, run, nCpus, Only(p), c);
    SlotHoldsAmount(nCpus, socketOf, run, p, c);
    WrapSmall(Amount(Books(k0, run, c), p));
  }

  lemma SlotHoldsAmount(nCpus: nat, socketOf: seq<u16>, run: seq<Event>, p: u32, c: nat)
    requires |socketOf| == MAX_CPU && RunsOn(run, nCpus) && c < nCpus
    ensures var k0 := Boot(nCpus, socketOf);
      Slot(Run(k0, run).pidTimes, p, c) == Wrap(Amount(Books(k0, run, c), p))
  {
    hide Run, Books, Wrap;
    BooksBalance(Boot(nCpus, socketOf), run, c);
    WrapSmall(0);
  }

  // ----- a run with unseen time

  lemma OneMore(k: Maps, s: Schedule, run: seq<Event>, e: Event, who: Who, c: nat)
    requires k.Valid() && RunsOn(run, k.nCpus) && e.On(k.nCpus) && s.Valid(k.nCpus) && c < k.nCpus
    ensures RunsOn(run + [e], k.nCpus) && Run(k, run + [e]) == Step(Run(k, run), e)
    ensures Now(s, run + [e], k.nCpus) == Now(s, run, k.nCpus).After(e, k.nCpus)
    ensures Legal(s, run + [e], k.nCpus) <==> Legal(s, run, k.nCpus) && Now(s, run, k.nCpus).Allows(e, k.nCpus)
    ensures !who.EndsWith(e) ==>
      RealTime(s, run + [e], k.nCpus, who, c) == RealTime(s, run, k.nCpus, who, c) + Ran(Now(s, run, k.nCpus), e, who, c)
  {
    hide Step;
    assert (run + [e])[..|run|] == run;
  }

  // The time between a thread's exit and its final switch-off is never charged.
  lemma ExitTailUncharged(nCpus: nat, socketOf: seq<u16>, c: nat, p: u32, tid: u32, dead: bool, t0: u64, t1: u64, t2: u64)
    requires |socketOf| == MAX_CPU && c < nCpus && c < MAX_CPU && p != 0 && tid != 0 && t0 <= t1 <= t2
    ensures var s := Schedule(seq(nCpus, _ => 0), t0);
      var run := [Switch(c, t0, 0, 0, p)] + [Exit(c, t1, p, tid, dead)] + [Switch(c, t2, p, tid, 0)];
      && RunsOn(run, nCpus) && Legal(s, run, nCpus)
      && RealTime(s, run, nCpus, Anyone, c) == t2 - t0
      && Run(Boot(nCpus, socketOf), run).cpuTime[c] == t1 - t0
  {
    hide RealTime, Legal, Now, Run, Step, ZeroSlots;
    var s, k0 := Schedule(seq(nCpus, _ => 0), t0), Boot(nCpus, socketOf);
    var on, exit, off := Switch(c, t0, 0, 0, p), Exit(c, t1, p, tid, dead), Switch(c, t2, p, tid, 0);
    NothingYet(k0, s, c);
    assert [] + [on] == [on];
    OneMore(k0, s, [], on, Anyone, c);
    OneMore(k0, s, [on], exit, Anyone, c);
    OneMore(k0, s, [on] + [exit], off, Anyone, c);
    ThreeSteps(k0, on, exit, off, c);
  }

  lemma NothingYet(k: Maps, s: Schedule, c: nat)
    requires k.Valid() && s.Valid(k.nCpus) && c < k.nCpus
    ensures Run(k, []) == k && Now(s, [], k.nCpus) == s && Legal(s, [], k.nCpus)
    ensures RealTime(s, [], k.nCpus, Anyone, c) == 0
  {
  }

  lemma ThreeSteps(k0: Maps, on: Event, exit: Event, off: Event, c: nat)
    requires k0.Valid() && on.On(k0.nCpus) && exit.On(k0.nCpus) && off.On(k0.nCpus) && c < MAX_CPU
    requires k0.pidLast == map[] && k0.cpuTime[c] == 0
    requires on.Switch? && exit.Exit? && off.Switch? && on.cpu == exit.cpu == off.cpu == c && on.prevTgid == 0
    requires on.nextTgid == exit.tgid == off.prevTgid != 0 && exit.tid != 0 && on.now <= exit.now
    ensures Step(Step(Step(k0, on), exit), off).cpuTime[c] == exit.now - on.now
  {
    hide NextRing, ZeroSlots, Wrap;
    var k1 := Step(k0, on);
    var k2 := Step(k1, exit);
    assert k1.pidLast == NextPidLast(k0, on) && k1.cpuTime == k0.cpuTime by { assert ChargeOf(k0, on) == None; }
    WrapSmall(exit.now - on.now);
    assert ChargeOf(k1, exit) == Some(Charging(exit.tgid, c, exit.now - on.now));
    assert k2.pidLast == NextPidLast(k1, exit) && k2.cpuTime == NextCpuTime(k1, exit);
    assert ChargeOf(k2, off) == None;
    assert Step(k2, off).cpuTime == NextCpuTime(k2, off);
  }
}
