/**
 The power of a socket and of its domains, with the background power taken off.
*/
module SocketPower {
  import opened Machine
  import opened Kernel
  import opened RaplCounter
  import opened RecordBuffer
  import opened Estimator
  import opened Distribution

  // A reading of an energy counter: seconds and microjoules.
  datatype Record = Record(stamp: real, microjoules: u64)

  // Division of floats before the cast: 0/0 is not a number and becomes 0.
  function Microwatts(microjoules: u64, seconds: real): u64 {
    if seconds == 0.0 then (if microjoules == 0 then 0 else U64_MAX)
    else Truncate(microjoules as real / seconds)
  }

  // Power between the last two records, before anything is subtracted.
  function RawPower(records: seq<Record>, maxUj: u64): Option<u64> {
    if |records| < 2 then None
    else
      var last, prev := records[|records| - 1], records[|records| - 2];
      Some(Microwatts(Difference(prev.microjoules, last.microjoules, maxUj), last.stamp - prev.stamp))
  }

  // What a power makes over some time.
  function Over(power: real, seconds: real): real { power * seconds }

  lemma OverGrows(a: real, b: real, seconds: real)
    requires a <= b && seconds >= 0.0
    ensures Over(a, seconds) <= Over(b, seconds)
  {
    assert (b - a) * seconds >= 0.0;
  }

  lemma OverGrowsStrictly(a: real, b: real, seconds: real)
    requires a < b && seconds > 0.0
    ensures Over(a, seconds) < Over(b, seconds)
  {
    assert (b - a) * seconds > 0.0;
  }

  lemma OverWhole(energy: real, interval: real)
    requires interval != 0.0
    ensures Over(energy / interval, interval) == energy
  {
  }

  // The power is the energy of the interval by its length, cut to whole
  // microwatts; one microwatt more would exceed the energy.
  lemma MicrowattsAre(microjoules: u64, seconds: real)
    requires seconds > 0.0
    ensures var power := Microwatts(microjoules, seconds) as real;
      if microjoules as real < Over(TWO64 as real, seconds)
      then Over(power, seconds) <= microjoules as real < Over(power + 1.0, seconds)
      else power == U64_MAX as real
  {
    hide Over, Truncate;
    var x := microjoules as real / seconds;
    OverWhole(microjoules as real, seconds);
    NotNegative(microjoules as real, seconds);
    TruncateFalls(x);
    if x < TWO64 as real {
      OverGrowsStrictly(x, TWO64 as real, seconds);
      OverGrows(Truncate(x) as real, x, seconds);
      OverGrowsStrictly(x, Truncate(x) as real + 1.0, seconds);
    } else {
      OverGrows(TWO64 as real, x, seconds);
    }
  }

  lemma NotNegative(e: real, t: real)
    requires e >= 0.0 && t > 0.0
    ensures e / t >= 0.0
  {
  }

  // Over no time or less there is no power, but for energy in no time at all.
  lemma NoMicrowatts(microjoules: u64, seconds: real)
    requires seconds <= 0.0
    ensures Microwatts(microjoules, seconds) == if seconds == 0.0 && microjoules > 0 then U64_MAX else 0
  {
    hide Truncate;
    if seconds < 0.0 {
      var x := microjoules as real / seconds;
      NotPositive(microjoules as real, seconds);
      TruncateFalls(x);
    }
  }

  lemma NotPositive(e: real, t: real)
    requires e >= 0.0 && t < 0.0
    ensures e / t <= 0.0
  {
    hide Over;
    var x := e / t;
    if x > 0.0 { Opposite(x, t); }
  }

  lemma Opposite(x: real, t: real)
    requires x > 0.0 && t < 0.0
    ensures x * t < 0.0
  {
    assert x * -t > 0.0;
  }

  function NetPowerOf(records: seq<Record>, maxUj: u64, background: u64): Option<u64> {
    match RawPower(records, maxUj)
    case None => None
    case Some(raw) => Some(Net(raw, background))
  }

  lemma SeenIsMembership(events: seq<CpuStateEvent>, t: CpuEventType)
    ensures Seen(events, t) <==> exists e :: e in events && e.eventType == t
  {
    if e :| e in events && e.eventType == t {
      var i :| 0 <= i < |events| && events[i] == e;
      assert events[i].eventType == t;
    }
  }

  // Net power and background make the power over the last interval, unless the
  // background exceeds it; there is none before the second record.
  lemma NetPowerIs(records: seq<Record>, maxUj: u64, background: u64)
    ensures NetPowerOf(records, maxUj, background).Some? <==> |records| >= 2
    ensures |records| >= 2 ==>
      var prev, last := records[|records| - 2], records[|records| - 1];
      var raw := Microwatts(Difference(prev.microjoules, last.microjoules, maxUj), last.stamp - prev.stamp);
      NetPowerOf(records, maxUj, background).value == if raw >= background then raw - background else 0
  {
  }

  predicate Seen(events: seq<CpuStateEvent>, t: CpuEventType) {
    exists i :: 0 <= i < |events| && events[i].eventType == t
  }

  // ----- domains

  datatype Domain = Domain(records: seq<Record>, maxUj: u64, maxKbytes: u16, background: real) {
    function NetPower(): Option<u64> { NetPowerOf(records, maxUj, Truncate(background)) }
  }

  function PowersOf(domains: seq<Domain>): (r: seq<u64>)
    ensures |r| == |domains|
  {
    seq(|domains|, i requires 0 <= i < |domains| => domains[i].NetPower().GetOr(0))
  }

  function StoredShares(domains: seq<Domain>): (r: seq<real>)
    ensures |r| == |domains|
  {
    seq(|domains|, i requires 0 <= i < |domains| => domains[i].background)
  }

  function WithShares(domains: seq<Domain>, shares: seq<real>): (r: seq<Domain>)
    requires |domains| == |shares|
    ensures |r| == |domains| && StoredShares(r) == shares
  {
    seq(|domains|, i requires 0 <= i < |domains| => domains[i].(background := shares[i]))
  }

  function WithReadings(domains: seq<Domain>, readings: seq<Option<Record>>, recordSize: nat): (r: seq<Domain>)
    requires |domains| == |readings| && recordSize > 0
    ensures |r| == |domains| && StoredShares(r) == StoredShares(domains)
  {
    seq(|domains|, i requires 0 <= i < |domains| =>
      domains[i].(records := Refreshed(domains[i].records, readings[i], recordSize, Limit(domains[i].maxKbytes))))
  }

  // Domain by domain: its own power, or 0 for want of records.
  lemma PowersAre(domains: seq<Domain>, i: nat)
    requires i < |domains|
    ensures var d := domains[i];
      PowersOf(domains)[i] == match NetPowerOf(d.records, d.maxUj, Truncate(d.background))
                              case None => 0
                              case Some(power) => power
  {
  }

  // What refreshes make of the domains: shares of any kind, and readings.
  function DomainsAfter(
    domains: seq<Domain>, shares: seq<seq<real>>, log: seq<seq<Option<Record>>>, recordSize: nat): (r: seq<Domain>)
    requires recordSize > 0 && |shares| == |log|
    requires forall j :: 0 <= j < |log| ==> |log[j]| == |shares[j]| == |domains|
    ensures |r| == |domains|
    decreases |log|
  {
    if log == [] then domains
    else
      var n := |log| - 1;
      WithReadings(WithShares(DomainsAfter(domains, shares[..n], log[..n], recordSize), shares[n]), log[n], recordSize)
  }

  function ReadingsOf(log: seq<seq<Option<Record>>>, i: nat): (r: seq<Option<Record>>)
    requires forall j :: 0 <= j < |log| ==> i < |log[j]|
    ensures |r| == |log| && forall j :: 0 <= j < |r| ==> r[j] == log[j][i]
  {
    seq(|log|, j requires 0 <= j < |log| => log[j][i])
  }

  // Over any number of refreshes, whatever shares are stored, each domain holds
  // the window of its own readings, and keeps its counter.
  lemma {:induction false} DomainsHoldTheirReadings(
    domains: seq<Domain>, shares: seq<seq<real>>, log: seq<seq<Option<Record>>>, recordSize: nat, i: nat)
    requires recordSize > 0 && |shares| == |log| && i < |domains| && domains[i].records == []
    requires forall j :: 0 <= j < |log| ==> |log[j]| == |shares[j]| == |domains|
    ensures var d, limit := DomainsAfter(domains, shares, log, recordSize)[i], Limit(domains[i].maxKbytes);
      && d.records == RecordBuffer.Last(Readings(ReadingsOf(log, i)), Window(recordSize, limit))
      && d.maxUj == domains[i].maxUj && d.maxKbytes == domains[i].maxKbytes
      && (log != [] ==> d.background == shares[|log| - 1][i])
    decreases |log|
  {
    DomainsRefreshed(domains, shares, log, recordSize, i);
    BufferIsWindow(ReadingsOf(log, i), recordSize, Limit(domains[i].maxKbytes));
  }

  lemma {:induction false} DomainsRefreshed(
    domains: seq<Domain>, shares: seq<seq<real>>, log: seq<seq<Option<Record>>>, recordSize: nat, i: nat)
    requires recordSize > 0 && |shares| == |log| && i < |domains| && domains[i].records == []
    requires forall j :: 0 <= j < |log| ==> |log[j]| == |shares[j]| == |domains|
    ensures var d, limit := DomainsAfter(domains, shares, log, recordSize)[i], Limit(domains[i].maxKbytes);
      && d.records == AfterRefreshes(ReadingsOf(log, i), recordSize, limit)
      && d.maxUj == domains[i].maxUj && d.maxKbytes == domains[i].maxKbytes
      && (log != [] ==> d.background == shares[|log| - 1][i])
    decreases |log|
  {
    hide Refreshed, Limit;
    if log != [] {
      var n := |log| - 1;
      DomainsRefreshed(domains, shares[..n], log[..n], recordSize, i);
      assert ReadingsOf(log, i)[..n] == ReadingsOf(log[..n], i);
    }
  }

  // ----- the socket in place

  // `cycles` is the history of the estimator, `powers` that of the domains'
  // powers, and `initial` what the domains subtracted at first.
  class CpuSocket {
    const raplMaxUj: u64
    const recordSize: nat
    const estimateSize: nat
    const maxKbytes: u16
    var recordBuffer: seq<Record>
    var activationIdleBuffer: seq<Estimate>
    var domains: seq<Domain>
    ghost const initial: seq<real>
    ghost var cycles: seq<Cycle>
    ghost var powers: seq<seq<u64>>

    // The estimate and the domains' shares are those of the history.
    ghost predicate Valid()
      reads this
    {
      && recordSize > 0 && estimateSize > 0 && |powers| == |cycles|
      && Estimated() == EstimateAfter(cycles)
      && StoredShares(domains) == Stored(initial, SpreadsOf(cycles, powers))
    }

    constructor (raplMaxUj: u64, recordSize: nat, estimateSize: nat, maxKbytes: u16, domains: seq<Domain>)
      requires recordSize > 0 && estimateSize > 0
      ensures Valid() && cycles == [] && initial == StoredShares(domains)
      ensures recordBuffer == [] && activationIdleBuffer == [] && this.domains == domains
      ensures this.raplMaxUj == raplMaxUj && this.recordSize == recordSize
      ensures this.estimateSize == estimateSize && this.maxKbytes == maxKbytes
    {
      this.raplMaxUj, this.recordSize := raplMaxUj, recordSize;
      this.estimateSize, this.maxKbytes := estimateSize, maxKbytes;
      recordBuffer, activationIdleBuffer := [], [];
      this.domains := domains;
      initial := StoredShares(domains);
      cycles, powers := [], [];
    }

    function Estimated(): Estimate
      reads this
    {
      Current(activationIdleBuffer)
    }

    function NetPower(): Option<u64>
      reads this
    {
      NetPowerOf(recordBuffer, raplMaxUj, Estimated().Background())
    }

    ghost function CycleWith(events: seq<CpuStateEvent>): Cycle
      reads this
    {
      Cycle(RawPower(recordBuffer, raplMaxUj), Seen(events, IdleEvent), Seen(events, ActivationEvent))
    }

    method ReadActivationIdleRecord(events: seq<CpuStateEvent>) returns (r: Option<Estimate>)
      ensures r == if (Seen(events, IdleEvent) || Seen(events, ActivationEvent)) && NetPower().Some?
        then Some(NextEstimate(Estimated(), RawPower(recordBuffer, raplMaxUj).value,
                               Seen(events, IdleEvent), Seen(events, ActivationEvent)))
        else None
    {
      var idleSeen := Seen(events, IdleEvent);
      var activationSeen := Seen(events, ActivationEvent);
      r := None;
      if idleSeen || activationSeen {
        var power := NetPower();
        if power.Some? {
          var current, idle := power.value, Estimated().idle;
          if idleSeen {
            if idle != 0 {
              idle := Min(current, idle);
            } else {
              idle := current;
            }
          }
          var activation := Estimated().activation;
          if activationSeen {
            if activation != 0 {
              activation := Min(current, activation);
            } else {
              activation := current;
            }
          }
          r := Some(Estimate(idle, activation));
        }
      }
    }

    method RefreshActivationIdleRecords(events: seq<CpuStateEvent>)
      modifies this`activationIdleBuffer
      ensures Estimated() == AfterCycle(old(Estimated()), old(CycleWith(events)))
      ensures old(activationIdleBuffer) <= activationIdleBuffer
    {
      hide RawPower, Seen;
      var r := ReadActivationIdleRecord(events);
      if r.Some? {
        activationIdleBuffer := activationIdleBuffer + [r.value];
      }
    }

    // Leaves the old shares in place when there is no background power.
    method DistributeBackgroundToDomains()
      modifies this`domains
      ensures var background, total := Estimated().Background(), NetPower().GetOr(0);
        domains == if background == 0 then old(domains)
                   else WithShares(old(domains), SharesOf(background, PowersOf(old(domains)), total))
    {
      hide BackgroundShare, RawPower;
      var background := Estimated().Background();
      if background == 0 {
        return;
      }
      var powers := PowersOf(domains);
      var total := NetPower().GetOr(0);
      ghost var before := domains;
      ghost var shares := SharesOf(background, powers, total);
      var i := 0;
      while i < |domains|
        invariant 0 <= i <= |domains| == |before|
        invariant forall j :: 0 <= j < i ==> domains[j] == before[j].(background := shares[j])
        invariant forall j :: i <= j < |before| ==> domains[j] == before[j]
        invariant Estimated() == old(Estimated()) && NetPower() == old(NetPower())
      {
        var share := BackgroundShare(background, powers[i], total, |powers|);
        domains := domains[i := domains[i].(background := share)];
        i := i + 1;
      }
      assert domains == WithShares(before, shares);
    }

    // Both buffers are cleaned once there is a record.
    method RefreshRecord(reading: Option<Record>)
      requires recordSize > 0 && estimateSize > 0
      modifies this`recordBuffer, this`activationIdleBuffer
      ensures recordBuffer == Refreshed(old(recordBuffer), reading, recordSize, Limit(maxKbytes))
      ensures Estimated() == old(Estimated())
    {
      if reading.Some? {
        recordBuffer := recordBuffer + [reading.value];
      }
      if recordBuffer != [] {
        recordBuffer := Cleaned(recordBuffer, recordSize, Limit(maxKbytes));
        if activationIdleBuffer != [] {
          CleanedKeepsLast(activationIdleBuffer, estimateSize, Limit(maxKbytes));
          activationIdleBuffer := Cleaned(activationIdleBuffer, estimateSize, Limit(maxKbytes));
        }
      }
    }

    method RefreshDomains(readings: seq<Option<Record>>)
      requires recordSize > 0 && |readings| == |domains|
      modifies this`domains
      ensures domains == WithReadings(old(domains), readings, recordSize)
    {
      hide Refreshed, Limit;
      ghost var before, after := domains, WithReadings(domains, readings, recordSize);
      var i := 0;
      while i < |domains|
        invariant 0 <= i <= |domains| == |before|
        invariant forall j :: 0 <= j < i ==> domains[j] == after[j]
        invariant forall j :: i <= j < |before| ==> domains[j] == before[j]
      {
        var d := domains[i];
        domains := domains[i := d.(records := Refreshed(d.records, readings[i], recordSize, Limit(d.maxKbytes)))];
        i := i + 1;
      }
      assert domains == after;
    }

    // The socket's part of a refresh: the events are judged by the power of
    // the cycle before, the estimate is spread, and then the counters are read.
    method Refresh(events: seq<CpuStateEvent>, reading: Option<Record>, readings: seq<Option<Record>>)
      requires Valid() && |readings| == |domains|
      modifies this
      ensures Valid() && |domains| == old(|domains|)
      ensures cycles == old(cycles) + [old(CycleWith(events))] && powers == old(powers) + [PowersOf(old(domains))]
      ensures var cycle := cycles[|cycles| - 1];
        && (cycle.idleSeen <==> exists e :: e in events && e.eventType.IdleEvent?)
        && (cycle.activationSeen <==> exists e :: e in events && e.eventType.ActivationEvent?)
      ensures recordBuffer == Refreshed(old(recordBuffer), reading, recordSize, Limit(maxKbytes))
      ensures domains == WithReadings(
        WithShares(old(domains), Stored(initial, SpreadsOf(cycles, powers))), readings, recordSize)
    {
      hide RawPower, Seen, PowersOf, Refreshed, EstimateAfter, Stored, SharesOf;
      ghost var cycle, before := CycleWith(events), PowersOf(domains);
      SeenIsMembership(events, IdleEvent);
      SeenIsMembership(events, ActivationEvent);
      ghost var spread := SpreadAt(AfterCycle(Estimated(), cycle), cycle, before);
      OneMoreSpread(cycles, powers, cycle, before);
      OneMoreCycle(cycles, cycle);
      RefreshActivationIdleRecords(events);
      DistributeBackgroundToDomains();
      OneMoreStored(initial, SpreadsOf(cycles, powers), spread);
      assert domains == WithShares(old(domains), Stored(initial, SpreadsOf(cycles, powers) + [spread]));
      RefreshRecord(reading);
      RefreshDomains(readings);
      cycles, powers := cycles + [cycle], powers + [before];
    }
  }

  lemma OneMoreStored(initial: seq<real>, spreads: seq<Spread>, s: Spread)
    ensures Stored(initial, spreads + [s]) == if s.background == 0 then Stored(initial, spreads) else s.Shares()
  {
    assert (spreads + [s])[..|spreads|] == spreads;
  }

  lemma CleanedKeepsLast<T>(s: seq<T>, r: nat, limit: nat)
    requires r > 0 && s != []
    ensures var s' := Cleaned(s, r, limit); s' != [] && s'[|s'| - 1] == s[|s| - 1]
  {
    SurplusLeaves(|s|, r, limit);
    if |s| >= 2 {
      KeepsLastTwo(s, r, limit);
      if limit == 0 { ZeroLimit(|s|, r); }
    } else {
      Scale(1, 1, r);
    }
  }
}
