/**
 From the energy counters and the kernel's maps to the energy of processes.

 The two samples of a process are the two latest records of the tracker, and the
 power of a socket is what its energy counter gained, with the background taken
 off. Over an interval between two refreshes the processes together get at most
 the energy the counters measured, and at most the energy really consumed.
*/
module EndToEnd {
  import opened Machine
  import opened Kernel
  import opened Accounting
  import opened CorePower
  import opened ProcessHistory
  import opened Attribution
  import opened RaplCounter
  import opened SocketPower
  import opened RecordBuffer
  import opened Estimator

  // ----- samples through the tracker

  // Everything that has happened to the tracker, the two latest records of one
  // process told apart.
  datatype Samples = Samples(start: seq<Op>, r1: ProcessRecord, mid: seq<Op>, r2: ProcessRecord, end: seq<Op>) {
    function Ops(): seq<Op> { start + [Add(r1)] + mid + [Add(r2)] + end }
  }

  // The process was recorded with its times in the maps k1 and then k2.
  ghost predicate SampledTwice(ops: seq<Op>, p: u32, k1: Maps, k2: Maps) {
    exists s: Samples :: s.Ops() == ops
      && s.r1.pid == p == s.r2.pid && s.r1.comm == s.r2.comm && Untouched(s.mid, p) && Untouched(s.end, p)
      && s.r1.coreTimes == CoreTimes(k1, p) && s.r2.coreTimes == CoreTimes(k2, p)
  }

  lemma TrackedDelta(ops: seq<Op>, p: u32, k1: Maps, k2: Maps, max: nat)
    requires InTime(ops) && SampledTwice(ops, p, k1, k2) && max >= 2
    ensures LatestDelta(Replay([], ops, p, max)) == PerCoreDelta(CoreTimes(k1, p), CoreTimes(k2, p))
  {
    hide Replay, PerCoreDelta, LatestDelta;
    var s: Samples :| s.Ops() == ops
      && s.r1.pid == p == s.r2.pid && s.r1.comm == s.r2.comm && Untouched(s.mid, p) && Untouched(s.end, p)
      && s.r1.coreTimes == CoreTimes(k1, p) && s.r2.coreTimes == CoreTimes(k2, p);
    LatestTwo(s.start, s.r1, s.mid, s.r2, s.end, max);
  }

  predicate Paired(ops: seq<Op>, max: nat, pids: seq<u32>, ids: seq<u16>) {
    forall p :: p in pids ==>
      var delta := LatestDelta(Replay([], ops, p, max)); delta.Some? ==> IdsBelow(ids, |delta.value|)
  }

  // The powers attributed to a list of processes from their tracked records.
  function TrackedPower(
    powers: seq<real>, ids: seq<u16>, ops: seq<Op>, max: nat, pids: seq<u32>, diff: Option<seq<u64>>): real
    requires |powers| == |ids| && Paired(ops, max, pids, ids)
  {
    if pids == [] then 0.0
    else
      var p := pids[|pids| - 1];
      TrackedPower(powers, ids, ops, max, pids[..|pids| - 1], diff)
      + ProcessPower(powers, CoreProportions(ids, LatestDelta(Replay([], ops, p, max)), diff))
  }

  lemma {:induction false} TrackedIsAttributed(
    powers: seq<real>, ids: seq<u16>, ops: seq<Op>, max: nat, k1: Maps, k2: Maps, pids: seq<u32>, diff: Option<seq<u64>>)
    requires k1.Valid() && k2.Valid() && k1.nCpus == k2.nCpus && IdsBelow(ids, k1.nCpus) && |powers| == |ids|
    requires InTime(ops) && max >= 2 && forall p :: p in pids ==> SampledTwice(ops, p, k1, k2)
    ensures Paired(ops, max, pids, ids)
    ensures TrackedPower(powers, ids, ops, max, pids, diff) == Attributed(powers, ids, k1, k2, pids, diff)
    decreases |pids|
  {
    hide Replay, PerCoreDelta, LatestDelta, SampledTwice, InTime, CoreProportions, ProcessPower;
    forall p | p in pids
      ensures LatestDelta(Replay([], ops, p, max)) == PerCoreDelta(CoreTimes(k1, p), CoreTimes(k2, p))
      ensures var delta := LatestDelta(Replay([], ops, p, max)); delta.Some? ==> IdsBelow(ids, |delta.value|)
    {
      TrackedDelta(ops, p, k1, k2, max);
      DeltaSize(k1, k2, p);
    }
    if pids != [] {
      TrackedIsAttributed(powers, ids, ops, max, k1, k2, pids[..|pids| - 1], diff);
    }
  }

  lemma DeltaSize(k1: Maps, k2: Maps, p: u32)
    requires k1.Valid() && k2.Valid() && k1.nCpus == k2.nCpus
    ensures var delta := PerCoreDelta(CoreTimes(k1, p), CoreTimes(k2, p)); delta.Some? ==> |delta.value| == k1.nCpus
  {
  }

  // ----- power from energy counters

  // An energy counter and the background power taken off its readings.
  datatype Meter = Meter(records: seq<Record>, maxUj: u64, background: u64) {
    function NetPower(): Option<u64> { NetPowerOf(records, maxUj, background) }

    function Prev(): Record requires |records| >= 2 { records[|records| - 2] }

    function Last(): Record requires |records| >= 2 { records[|records| - 1] }

    // Microjoules measured over the last interval.
    function Energy(): u64 { if |records| < 2 then 0 else Difference(Prev().microjoules, Last().microjoules, maxUj) }

    predicate Spans(seconds: real) { |records| >= 2 && Last().stamp - Prev().stamp >= seconds }
  }

  // A socket's cores are powered by its CPU domain, or by the package if it has
  // none.
  datatype MeteredSocket = MeteredSocket(cores: seq<Core>, package: Meter, cpuDomain: Option<Meter>) {
    function Used(): Meter { if cpuDomain.Some? then cpuDomain.value else package }

    function Source(): Socket {
      Socket(cores, match Used().NetPower() case None => None case Some(power) => Some(power as real))
    }
  }

  function Sources(metered: seq<MeteredSocket>): (r: seq<Socket>)
    ensures |r| == |metered| && forall i :: 0 <= i < |r| ==> r[i] == metered[i].Source()
  {
    seq(|metered|, i requires 0 <= i < |metered| => metered[i].Source())
  }

  function EnergyOf(metered: seq<MeteredSocket>): nat {
    if metered == [] then 0 else EnergyOf(metered[..|metered| - 1]) + metered[|metered| - 1].Used().Energy()
  }

  lemma OverLonger(power: real, a: real, b: real)
    requires power >= 0.0 && a <= b
    ensures Over(power, a) <= Over(power, b)
  {
    assert (b - a) * power >= 0.0;
  }

  lemma OverAdds(a: real, b: real, seconds: real)
    ensures Over(a + b, seconds) == Over(a, seconds) + Over(b, seconds)
  {
  }

  lemma MicrowattsWithin(energy: u64, interval: real)
    requires interval > 0.0
    ensures Over(Microwatts(energy, interval) as real, interval) <= energy as real
  {
    hide Over;
    var x := energy as real / interval;
    QuotientNonNegative(energy as real, interval);
    OverWhole(energy as real, interval);
    assert Microwatts(energy, interval) as real <= x;
    OverGrows(Microwatts(energy, interval) as real, x, interval);
  }

  // Net power never makes more of an interval than the energy measured.
  lemma NetWithinEnergy(m: Meter, seconds: real)
    requires m.Spans(seconds) && seconds > 0.0
    ensures m.NetPower().Some? && Over(m.NetPower().value as real, seconds) <= m.Energy() as real
  {
    hide Over, Microwatts, Difference;
    var interval := m.Last().stamp - m.Prev().stamp;
    var raw := Microwatts(m.Energy(), interval);
    MicrowattsWithin(m.Energy(), interval);
    OverLonger(raw as real, seconds, interval);
    OverGrows(Net(raw, m.background) as real, raw as real, seconds);
  }

  // And never less than the energy by more than the background and a microwatt.
  lemma NetAlmostEnergy(m: Meter, seconds: real)
    requires m.Spans(seconds) && seconds == m.Last().stamp - m.Prev().stamp > 0.0
    requires m.Energy() as real < Over(TWO64 as real, seconds)
    ensures m.Energy() as real < Over(m.NetPower().value as real + m.background as real + 1.0, seconds)
  {
    hide Over, Microwatts, Difference;
    var raw := Microwatts(m.Energy(), seconds);
    MicrowattsAre(m.Energy(), seconds);
    NetPlusBackground(raw, m.background);
    OverGrows(raw as real + 1.0, Net(raw, m.background) as real + m.background as real + 1.0, seconds);
  }

  // A socket with a CPU domain is charged from its counter alone, even if it has
  // no power yet, and one without from that of the package.
  lemma ChargedFrom(m: MeteredSocket)
    ensures m.Source().cores == m.cores
    ensures var meter := match m.cpuDomain case Some(d) => d case None => m.package;
      && (m.Source().conso.Some? <==> |meter.records| >= 2)
      && (|meter.records| >= 2 ==>
            m.Source().conso.value == NetPowerOf(meter.records, meter.maxUj, meter.background).value as real)
  {
  }

  function ActiveSource(s: Socket): real
    requires s.Sane() && s.conso.Some?
  {
    if Sum(Coefs(s)) != 0.0 then s.conso.value else 0.0
  }

  lemma ActivePowerLast(sockets: seq<Socket>, before: seq<Socket>, s: Socket)
    requires AllSane(sockets) && AllRead(sockets) && sockets == before + [s]
    ensures AllSane(before) && AllRead(before) && s.Sane() && s.conso.Some?
    ensures ActivePower(sockets) == ActivePower(before) + ActiveSource(s)
  {
    hide Coefs, Sum;
    assert forall i :: 0 <= i < |before| ==> before[i] == sockets[i];
    assert s == sockets[|before|] && sockets[..|before|] == before;
  }

  lemma SourceWithinEnergy(m: MeteredSocket, seconds: real)
    requires seconds > 0.0 && m.Used().Spans(seconds) && m.Source().Sane()
    ensures m.Source().conso.Some? && Over(ActiveSource(m.Source()), seconds) <= m.Used().Energy() as real
  {
    hide Coefs, Sum;
    NetWithinEnergy(m.Used(), seconds);
  }

  lemma AllMetered(metered: seq<MeteredSocket>, seconds: real)
    requires seconds > 0.0 && forall i :: 0 <= i < |metered| ==> metered[i].Used().Spans(seconds)
    ensures AllRead(Sources(metered))
  {
    forall i | 0 <= i < |metered|
      ensures Sources(metered)[i].conso.Some?
    {
      NetWithinEnergy(metered[i].Used(), seconds);
    }
  }

  lemma {:induction false} ActivePowerWithinEnergy(metered: seq<MeteredSocket>, seconds: real)
    requires seconds > 0.0 && forall i :: 0 <= i < |metered| ==> metered[i].Used().Spans(seconds)
    requires AllSane(Sources(metered))
    ensures AllRead(Sources(metered))
    ensures Over(ActivePower(Sources(metered)), seconds) <= EnergyOf(metered) as real
    decreases |metered|
  {
    hide ActivePower, ActiveSource, Over;
    AllMetered(metered, seconds);
    if metered == [] {
      NothingMetered(seconds);
    } else {
      var n := |metered| - 1;
      var earlier, s := metered[..n], metered[n];
      var before := Sources(earlier);
      assert Sources(metered) == before + [s.Source()];
      ActivePowerLast(Sources(metered), before, s.Source());
      ActivePowerWithinEnergy(earlier, seconds);
      SourceWithinEnergy(s, seconds);
      OverAdds(ActivePower(before), ActiveSource(s.Source()), seconds);
    }
  }

  lemma NothingMetered(seconds: real)
    ensures AllSane(Sources([])) && AllRead(Sources([]))
    ensures Over(ActivePower(Sources([])), seconds) == 0.0
  {
    assert Sources([]) == [];
  }

  // ----- the energy of processes

  // The difference of the last two CPU_TIME records that the buffer holds.
  function BufferedDiff(buffer: seq<seq<u64>>): Option<seq<u64>> {
    if |buffer| < 2 then None else CpuTimeDiff(buffer[|buffer| - 2], buffer[|buffer| - 1])
  }

  lemma BufferedDiffIsLast(records: seq<seq<u64>>, recordSize: nat, limit: nat)
    requires limit > recordSize > 0 && |records| >= 2
    ensures BufferedDiff(AfterCpuTimes(records, recordSize, limit))
         == CpuTimeDiff(records[|records| - 2], records[|records| - 1])
  {
    hide AfterCpuTimes, CpuTimeDiff;
    CpuTimesEnd(records, recordSize, limit);
  }

  // What stays the same from refresh to refresh: the CPUs, and the bounds of the
  // tracker and of the buffer of CPU_TIME records.
  datatype Host = Host(nCpus: nat, socketOf: seq<u16>, nbCores: nat, maxRecords: nat, recordSize: nat, limit: nat) {
    function After(run: seq<Event>): Maps
      requires |socketOf| == MAX_CPU && RunsOn(run, nCpus)
    {
      Run(Boot(nCpus, socketOf), run)
    }
  }

  // From one refresh to the next: what the kernel did, the processes tracked
  // over both, the counters as read at the latter, a time that lies between the
  // readings, and all that happened so far to the tracker and to the buffer of
  // CPU_TIME records.
  datatype Interval = Interval(
    events: seq<Event>, pids: seq<u32>, metered: seq<MeteredSocket>, seconds: real, ops: seq<Op>, cpuTimes: seq<seq<u64>>)
  {
    function Cores(): seq<u16> { Keys(HostCores(Sources(metered))) }
  }

  // Both refreshes sample the maps at one instant each, no CPU_TIME counter
  // wraps in between, and the processes were in both samples and not given up.
  ghost predicate WellSampled(h: Host, pre: seq<Event>, i: Interval) {
    && |h.socketOf| == MAX_CPU && h.nbCores <= h.nCpus && h.maxRecords >= 2 && h.limit > h.recordSize > 0
    && RunsOn(pre, h.nCpus) && RunsOn(i.events, h.nCpus) && RunsOn(pre + i.events, h.nCpus)
    && (forall c :: 0 <= c < h.nCpus && c < MAX_CPU ==> Unwrapped(Boot(h.nCpus, h.socketOf), pre, i.events, c))
    && Distinct(i.pids) && Spares(i.events, i.pids) && InTime(i.ops)
    && Held(h.After(pre), i.pids) && Held(h.After(pre + i.events), i.pids)
    && (forall p :: p in i.pids ==> SampledTwice(i.ops, p, h.After(pre), h.After(pre + i.events)))
    && |i.cpuTimes| >= 2
    && i.cpuTimes[|i.cpuTimes| - 2] == CpuTimeRecord(h.After(pre), h.nbCores)
    && i.cpuTimes[|i.cpuTimes| - 1] == CpuTimeRecord(h.After(pre + i.events), h.nbCores)
    && i.seconds > 0.0 && (forall s :: 0 <= s < |i.metered| ==> i.metered[s].Used().Spans(i.seconds))
    && AllSane(Sources(i.metered)) && IdsBelow(i.Cores(), h.nCpus)
  }

  // The power of all those processes, as user space attributes it.
  predicate Attributable(h: Host, i: Interval) {
    && AllDefined(Sources(i.metered)) && HostPowers(Sources(i.metered)).Some?
    && |HostPowers(Sources(i.metered)).value| == |i.Cores()| && Paired(i.ops, h.maxRecords, i.pids, i.Cores())
    && h.recordSize > 0
  }

  function AttributedPower(h: Host, i: Interval): real
    requires Attributable(h, i)
  {
    TrackedPower(HostPowers(Sources(i.metered)).value, i.Cores(), i.ops, h.maxRecords, i.pids,
                 BufferedDiff(AfterCpuTimes(i.cpuTimes, h.recordSize, h.limit)))
  }

  // Between any two refreshes, for any run since boot: the power attributed to
  // the processes makes at most the energy the counters measured.
  lemma ProcessEnergyBound(h: Host, pre: seq<Event>, i: Interval)
    requires WellSampled(h, pre, i)
    ensures Attributable(h, i) && Over(AttributedPower(h, i), i.seconds) <= EnergyOf(i.metered) as real
  {
    hide Run, Gain, Unwrapped, Sum, ActivePower, HostPowers, HostCores, Attributed, TrackedPower, CpuTimeDiff, CpuTimeRecord,
         Paired, SampledTwice, InTime, EnergyOf, Over, AfterCpuTimes, AllSane, AllDefined, Keys;
    var k1, k2, sockets := h.After(pre), h.After(pre + i.events), Sources(i.metered);
    var diff := CpuTimeDiff(CpuTimeRecord(k1, h.nbCores), CpuTimeRecord(k2, h.nbCores));
    SaneIsDefined(sockets);
    BufferedDiffIsLast(i.cpuTimes, h.recordSize, h.limit);
    ActivePowerWithinEnergy(i.metered, i.seconds);
    EndToEndPowerBound(h.nCpus, h.socketOf, pre, i.events, i.pids, h.nbCores, sockets);
    var powers := HostPowers(sockets).value;
    SameSize(HostCores(sockets));
    TrackedIsAttributed(powers, i.Cores(), i.ops, h.maxRecords, k1, k2, i.pids, diff);
    OverGrows(AttributedPower(h, i), ActivePower(sockets), i.seconds);
  }

  // And exactly: each core's power, in proportion to what the processes gained of
  // the time the core was charged.
  lemma AttributedPowerExactly(h: Host, pre: seq<Event>, i: Interval)
    requires WellSampled(h, pre, i)
    ensures Attributable(h, i)
    ensures AttributedPower(h, i)
         == Dot(HostPowers(Sources(i.metered)).value,
                Uses(Boot(h.nCpus, h.socketOf), pre, i.events, i.pids, h.nbCores, i.Cores()))
  {
    ProcessEnergyBound(h, pre, i);
    hide Run, Gain, Unwrapped, Growth, HostPowers, HostCores, Attributed, TrackedPower, CpuTimeDiff, CpuTimeRecord,
         Paired, SampledTwice, InTime, AfterCpuTimes, AllSane, AllDefined, Keys, Dot, Use, EnergyOf;
    var k1, k2 := h.After(pre), h.After(pre + i.events);
    var powers := HostPowers(Sources(i.metered)).value;
    BufferedDiffIsLast(i.cpuTimes, h.recordSize, h.limit);
    TrackedIsAttributed(powers, i.Cores(), i.ops, h.maxRecords, k1, k2, i.pids,
                        CpuTimeDiff(CpuTimeRecord(k1, h.nbCores), CpuTimeRecord(k2, h.nbCores)));
    AttributedExactly(h.nCpus, h.socketOf, pre, i.events, i.pids, h.nbCores, powers, i.Cores());
  }

  lemma SameSize(cores: seq<Core>)
    ensures |Keys(cores)| == |cores|
  {
  }

  // Energies truly consumed when the counters were read.
  datatype Truth = Truth(before: nat, after: nat, width: nat)

  // The counters were read over less than one turn, and announce no more than
  // their width.
  ghost predicate ReadsTrue(metered: seq<MeteredSocket>, truths: seq<Truth>) {
    && |truths| == |metered|
    && forall i :: 0 <= i < |metered| ==>
         var m := metered[i].Used();
         && |m.records| >= 2 && m.maxUj <= truths[i].width
         && Observed([m.Prev().microjoules, m.Last().microjoules], [truths[i].before, truths[i].after],
                     truths[i].width, m.maxUj)
  }

  function Consumed(truths: seq<Truth>): int {
    if truths == [] then 0
    else Consumed(truths[..|truths| - 1]) + truths[|truths| - 1].after - truths[|truths| - 1].before
  }

  // What the counters measured is at most what was consumed.
  lemma {:induction false} MeasuredWithinConsumed(metered: seq<MeteredSocket>, truths: seq<Truth>)
    requires ReadsTrue(metered, truths)
    ensures EnergyOf(metered) <= Consumed(truths)
    decreases |metered|
  {
    hide Observed, Difference;
    if metered != [] {
      var n := |metered| - 1;
      var m := metered[n].Used();
      assert ReadsTrue(metered[..n], truths[..n]);
      MeasuredWithinConsumed(metered[..n], truths[..n]);
      TwoReadings(m.Prev().microjoules, m.Last().microjoules, truths[n].before, truths[n].after, truths[n].width, m.maxUj);
    }
  }

  lemma TwoReadings(prev: u64, last: u64, before: nat, after: nat, width: nat, max: u64)
    requires Observed([prev, last], [before, after], width, max) && max <= width
    ensures before + Difference(prev, last, max) <= after
  {
    hide Observed, Hidden, Laps;
    var readings: seq<u64> := [prev, last];
    HiddenSteps(Wraps(readings), width, max);
    MeasuredEnergy([before, after], readings, width, max);
    assert readings[..1] == [prev];
    assert Measured(readings, max) == Difference(prev, last, max);
  }

  // ----- over any series of refreshes

  // All events up to the last refresh.
  function EventsOf(start: seq<Event>, intervals: seq<Interval>): seq<Event> {
    if intervals == [] then start
    else EventsOf(start, intervals[..|intervals| - 1]) + intervals[|intervals| - 1].events
  }

  ghost predicate AllWellSampled(h: Host, start: seq<Event>, intervals: seq<Interval>) {
    intervals == []
    || (var before := intervals[..|intervals| - 1];
        AllWellSampled(h, start, before) && WellSampled(h, EventsOf(start, before), intervals[|intervals| - 1]))
  }

  // Everything ever attributed to a process.
  ghost function AttributedEnergy(h: Host, start: seq<Event>, intervals: seq<Interval>): real
    requires AllWellSampled(h, start, intervals)
  {
    if intervals == [] then 0.0
    else
      var before, i := intervals[..|intervals| - 1], intervals[|intervals| - 1];
      ProcessEnergyBound(h, EventsOf(start, before), i);
      AttributedEnergy(h, start, before) + Over(AttributedPower(h, i), i.seconds)
  }

  function TruthsOf(before: seq<nat>, after: seq<nat>, widths: seq<nat>): (r: seq<Truth>)
    requires |before| == |after| == |widths|
    ensures |r| == |before|
  {
    seq(|before|, s requires 0 <= s < |before| => Truth(before[s], after[s], widths[s]))
  }

  function AllOf(energies: seq<nat>): nat {
    if energies == [] then 0 else AllOf(energies[..|energies| - 1]) + energies[|energies| - 1]
  }

  // energies[j] are the energies the sockets had consumed by the j-th refresh,
  // and each interval's readings are what the counters showed of them.
  ghost predicate AllReadTrue(intervals: seq<Interval>, energies: seq<seq<nat>>, widths: seq<nat>) {
    && |energies| == |intervals| + 1
    && (forall j :: 0 <= j < |energies| ==> |energies[j]| == |widths|)
    && forall j :: 0 <= j < |intervals| ==>
         ReadsTrue(intervals[j].metered, TruthsOf(energies[j], energies[j + 1], widths))
  }

  lemma {:induction false} ConsumedIsGrowth(before: seq<nat>, after: seq<nat>, widths: seq<nat>)
    requires |before| == |after| == |widths|
    ensures Consumed(TruthsOf(before, after, widths)) == AllOf(after) - AllOf(before)
    decreases |before|
  {
    if before != [] {
      var n := |before| - 1;
      ConsumedIsGrowth(before[..n], after[..n], widths[..n]);
      assert TruthsOf(before, after, widths)[..n] == TruthsOf(before[..n], after[..n], widths[..n]);
    }
  }

  // Over any series of refreshes, all that is attributed to processes is at
  // most what the sockets have really consumed from the first to the last.
  lemma {:induction false} SeriesEnergyBound(
    h: Host, start: seq<Event>, intervals: seq<Interval>, energies: seq<seq<nat>>, widths: seq<nat>)
    requires AllWellSampled(h, start, intervals) && AllReadTrue(intervals, energies, widths)
    ensures AllOf(energies[0]) as real + AttributedEnergy(h, start, intervals) <= AllOf(energies[|intervals|]) as real
    decreases |intervals|
  {
    hide WellSampled, ReadsTrue, AllOf, AttributedPower, Attributable, Over, EventsOf, TruthsOf, EnergyOf;
    if intervals != [] {
      var n := |intervals| - 1;
      var before, i := intervals[..n], intervals[n];
      assert AllReadTrue(before, energies[..n + 1], widths) by {
        assert forall j :: 0 <= j <= n ==> energies[..n + 1][j] == energies[j];
        assert forall j :: 0 <= j < n ==> before[j] == intervals[j];
      }
      SeriesEnergyBound(h, start, before, energies[..n + 1], widths);
      ProcessEnergyBound(h, EventsOf(start, before), i);
      MeasuredWithinConsumed(i.metered, TruthsOf(energies[n], energies[n + 1], widths));
      ConsumedIsGrowth(energies[n], energies[n + 1], widths);
    }
  }
}
