/**
 The kernel half: the eBPF maps and the handlers that run over them.

 `Kernel` is the value of all maps at one instant, `Step` what one handler
 activation does to it, and class `Tracker` holds the maps as the mutable
 statics they are and runs the handlers in place.

 Per-CPU hash map semantics, provided by the kernel, are stated here once:
 a key owns one slot per CPU, a lookup or a write through its pointer touches
 the calling CPU's slot only, inserting a new key zeroes every other slot and
 is refused when the map is full, and removing a key drops all its slots.
*/
module Kernel {
  import opened Machine

  const MAX_KEYS := 32768
  const MAX_CPU := 256
  const MAX_SOCKET := 64

  datatype CpuEventType = ActivationEvent | IdleEvent

  datatype CpuStateEvent = CpuStateEvent(socketId: u16, eventType: CpuEventType)

  // ----- per-CPU hash maps

  type PerCpuHash = map<u32, seq<u64>>

  predicate Sized(m: PerCpuHash, n: nat) {
    forall k :: k in m ==> |m[k]| == n
  }

  function ZeroSlots(n: nat): (z: seq<u64>)
    ensures |z| == n && forall i :: 0 <= i < n ==> z[i] == 0
  {
    seq(n, _ => 0)
  }

  // Write through the pointer that a successful lookup returned.
  function Store(m: PerCpuHash, key: u32, cpu: nat, v: u64): PerCpuHash
    requires key in m && cpu < |m[key]|
  {
    var slots: seq<u64> := m[key][cpu := v];
    m[key := slots]
  }

  predicate Accepts(m: PerCpuHash, key: u32) {
    key in m || |m| < MAX_KEYS
  }

  function Insert(m: PerCpuHash, n: nat, key: u32, cpu: nat, v: u64): PerCpuHash
    requires Sized(m, n) && cpu < n
  {
    if key in m then Store(m, key, cpu, v)
    else if Accepts(m, key) then
      var slots: seq<u64> := ZeroSlots(n)[cpu := v];
      m[key := slots]
    else m
  }

  // The value a key has on a CPU, 0 when the key is absent.
  function Slot(m: PerCpuHash, key: u32, cpu: nat): u64
    requires key in m ==> cpu < |m[key]|
  {
    if key in m then m[key][cpu] else 0
  }

  // ----- the maps, and what the handlers do to them

  datatype Maps = Maps(
    nCpus: nat,
    pidTimes: PerCpuHash,
    pidLast: PerCpuHash,
    cpuTime: seq<u64>,
    snapshot: seq<u64>,
    socketOf: seq<u16>,
    ring: seq<CpuStateEvent>)
  {
    predicate Valid() {
      && Sized(pidTimes, nCpus)
      && Sized(pidLast, nCpus)
      && |cpuTime| == |snapshot| == |socketOf| == MAX_CPU
    }
  }

  function Boot(nCpus: nat, socketOf: seq<u16>): (k: Maps)
    requires |socketOf| == MAX_CPU
    ensures k.Valid()
  {
    Maps(nCpus, map[], map[], ZeroSlots(MAX_CPU), ZeroSlots(MAX_CPU), socketOf, [])
  }

  // One handler activation. `Aborted` is a context switch or an exit whose
  // kernel reads failed, `reserved[s]` says whether the ring buffer had room
  // for socket s, and `Drain` is the user-space reader emptying the ring.
  datatype Event =
    | Switch(cpu: nat, now: u64, prevTgid: u32, prevTid: u32, nextTgid: u32)
    | Sample(cpu: nat, now: u64, pid: u32, tid: u32)
    | Exit(cpu: nat, now: u64, tgid: u32, tid: u32, groupDead: bool)
    | StateTick(reserved: seq<bool>)
    | Drain
    | Aborted
  {
    predicate On(nCpus: nat) {
      match this
      case Switch(cpu, _, _, _, _) => cpu < nCpus
      case Sample(cpu, _, _, _) => cpu < nCpus
      case Exit(cpu, _, _, _, _) => cpu < nCpus
      case StateTick(reserved) => |reserved| == MAX_SOCKET
      case Drain => true
      case Aborted => true
    }
  }

  datatype Charging = Charging(tgid: u32, cpu: nat, delta: u64)

  // The charge an event makes, if any: time is charged to a task that is not
  // the idle task and whose start time is known, when it leaves its CPU, when
  // a sample tick hits it and when it exits.
  function ChargeOf(k: Maps, e: Event): (charge: Option<Charging>)
    requires k.Valid() && e.On(k.nCpus)
    ensures charge.Some? ==> charge.value.cpu < k.nCpus && charge.value.tgid != 0
  {
    match e
    case Switch(cpu, now, tgid, tid, _) => OpenInterval(k, cpu, now, tgid, tid)
    case Sample(cpu, now, tgid, tid) => OpenInterval(k, cpu, now, tgid, tid)
    case Exit(cpu, now, tgid, tid, _) => OpenInterval(k, cpu, now, tgid, tid)
    case StateTick(_) => None
    case Drain => None
    case Aborted => None
  }

  function OpenInterval(k: Maps, cpu: nat, now: u64, tgid: u32, tid: u32): Option<Charging>
    requires k.Valid() && cpu < k.nCpus
  {
    if tgid != 0 && tid != 0 && tgid in k.pidLast
    then Some(Charging(tgid, cpu, WrapSub(now, k.pidLast[tgid][cpu])))
    else None
  }

  // What is left of a map once an event has buried the last thread of a task.
  function Buried(m: PerCpuHash, e: Event): PerCpuHash {
    if e.Exit? && e.groupDead then m - {e.tgid} else m
  }

  function Credited(m: PerCpuHash, n: nat, charge: Charging): (m': PerCpuHash)
    requires Sized(m, n) && charge.cpu < n
    ensures Sized(m', n)
  {
    if charge.tgid in m
    then Store(m, charge.tgid, charge.cpu, WrapAdd(m[charge.tgid][charge.cpu], charge.delta))
    else Insert(m, n, charge.tgid, charge.cpu, charge.delta)
  }

  function Paid(k: Maps, e: Event): (m: PerCpuHash)
    requires k.Valid() && e.On(k.nCpus)
    ensures Sized(m, k.nCpus)
  {
    match ChargeOf(k, e)
    case Some(charge) => Credited(k.pidTimes, k.nCpus, charge)
    case None => k.pidTimes
  }

  function NextPidTimes(k: Maps, e: Event): (m: PerCpuHash)
    requires k.Valid() && e.On(k.nCpus)
    ensures Sized(m, k.nCpus)
  {
    Buried(Paid(k, e), e)
  }

  // CPU_TIME has room for MAX_CPU processors; the others are not counted.
  function Advanced(t: seq<u64>, cpu: nat, delta: u64): (t': seq<u64>)
    ensures |t'| == |t|
  {
    if cpu < |t| then t[cpu := WrapAdd(t[cpu], delta)] else t
  }

  function NextCpuTime(k: Maps, e: Event): (t: seq<u64>)
    requires k.Valid() && e.On(k.nCpus)
    ensures |t| == MAX_CPU
  {
    match ChargeOf(k, e)
    case Some(Charging(_, cpu, delta)) => Advanced(k.cpuTime, cpu, delta)
    case None => k.cpuTime
  }

  function NextPidLast(k: Maps, e: Event): (m: PerCpuHash)
    requires k.Valid() && e.On(k.nCpus)
    ensures Sized(m, k.nCpus)
  {
    match e
    case Switch(cpu, now, prevTgid, prevTid, nextTgid) =>
      var left := if prevTgid != 0 && prevTid != 0 && prevTgid in k.pidLast then k.pidLast - {prevTgid} else k.pidLast;
      Insert(left, k.nCpus, nextTgid, cpu, now)
    case Sample(cpu, now, pid, tid) =>
      if pid != 0 && tid != 0 then Insert(k.pidLast, k.nCpus, pid, cpu, now) else k.pidLast
    case Exit(cpu, now, tgid, tid, groupDead) =>
      if tgid in k.pidLast && (groupDead || (tgid != 0 && tid != 0)) then k.pidLast - {tgid} else k.pidLast
    case StateTick(_) => k.pidLast
    case Drain => k.pidLast
    case Aborted => k.pidLast
  }

  function NextRing(k: Maps, e: Event): seq<CpuStateEvent>
    requires k.Valid() && e.On(k.nCpus)
  {
    match e
    case StateTick(reserved) => k.ring + TickEvents(k, reserved, 0)
    case Drain => []
    case _ => k.ring
  }

  function Step(k: Maps, e: Event): (k': Maps)
    requires k.Valid() && e.On(k.nCpus)
    ensures k'.Valid() && k'.nCpus == k.nCpus && k'.socketOf == k.socketOf
  {
    Maps(k.nCpus, NextPidTimes(k, e), NextPidLast(k, e), NextCpuTime(k, e),
         if e.StateTick? then k.cpuTime else k.snapshot, k.socketOf, NextRing(k, e))
  }

  predicate RunsOn(run: seq<Event>, nCpus: nat) {
    forall i :: 0 <= i < |run| ==> run[i].On(nCpus)
  }

  function Run(k: Maps, run: seq<Event>): (k': Maps)
    requires k.Valid() && RunsOn(run, k.nCpus)
    ensures k'.Valid() && k'.nCpus == k.nCpus && k'.socketOf == k.socketOf
    decreases |run|
  {
    if run == [] then k else Step(Run(k, run[..|run| - 1]), run[|run| - 1])
  }

  // ----- what a state tick reports

  // The CPUs a state tick looks at: those before the first one with no socket.
  function FirstUnmapped(socketOf: seq<u16>): (n: nat)
    ensures n <= |socketOf| && (n < |socketOf| ==> socketOf[n] == 0)
    ensures forall c :: 0 <= c < n ==> socketOf[c] != 0
  {
    if socketOf == [] || socketOf[0] == 0 then 0 else 1 + FirstUnmapped(socketOf[1..])
  }

  ghost function CpusOf(k: Maps, socket: nat): set<nat>
    requires k.Valid()
  {
    set c: nat | c < FirstUnmapped(k.socketOf) && k.socketOf[c] == socket + 1
  }

  ghost function ActiveCpus(k: Maps, socket: nat): set<nat>
    requires k.Valid()
  {
    set c: nat | c in CpusOf(k, socket) && c < MAX_CPU && k.cpuTime[c] != k.snapshot[c]
  }

  // How many of the first n CPUs belong to the socket, and how many of those
  // gained time since the snapshot.
  function CountCpus(k: Maps, socket: nat, n: nat): (r: nat)
    requires k.Valid() && n <= MAX_CPU
    ensures r <= n
  {
    if n == 0 then 0
    else CountCpus(k, socket, n - 1) + if k.socketOf[n - 1] == socket + 1 then 1 else 0
  }

  function CountActive(k: Maps, socket: nat, n: nat): (r: nat)
    requires k.Valid() && n <= MAX_CPU
    ensures r <= n
  {
    if n == 0 then 0
    else CountActive(k, socket, n - 1)
         + if k.socketOf[n - 1] == socket + 1 && k.cpuTime[n - 1] != k.snapshot[n - 1] then 1 else 0
  }

  function SocketReport(k: Maps, reserved: seq<bool>, socket: nat): seq<CpuStateEvent>
    requires k.Valid() && |reserved| == MAX_SOCKET && socket < MAX_SOCKET
  {
    var active := CountActive(k, socket, FirstUnmapped(k.socketOf));
    if !reserved[socket] then []
    else if active == 0 then [CpuStateEvent(socket, IdleEvent)]
    else if active == 1 then [CpuStateEvent(socket, ActivationEvent)]
    else []
  }

  // The reports of sockets `from`, `from` + 1, ... up to the first without CPUs.
  function TickEvents(k: Maps, reserved: seq<bool>, from: nat): seq<CpuStateEvent>
    requires k.Valid() && |reserved| == MAX_SOCKET && from <= MAX_SOCKET
    decreases |reserved| - from
  {
    if from == MAX_SOCKET || CountCpus(k, from, FirstUnmapped(k.socketOf)) == 0 then []
    else SocketReport(k, reserved, from) + TickEvents(k, reserved, from + 1)
  }

  // ----- what a charge does to PID_TIMES

  // The slot charged advances, unless the map is full and the task is new; all
  // other slots stay, and a new task has none elsewhere.
  lemma CreditedSlot(m: PerCpuHash, n: nat, charge: Charging, t: u32, c: nat)
    requires Sized(m, n) && charge.cpu < n && c < n
    ensures Slot(Credited(m, n, charge), t, c) ==
      if charge.tgid == t && charge.cpu == c && Accepts(m, t) then WrapAdd(Slot(m, t, c), charge.delta) else Slot(m, t, c)
  {
    hide Wrap;
    WrapSmall(charge.delta);
  }

  lemma CreditedKeys(m: PerCpuHash, n: nat, charge: Charging)
    requires Sized(m, n) && charge.cpu < n
    ensures Credited(m, n, charge).Keys == m.Keys + if Accepts(m, charge.tgid) then {charge.tgid} else {}
  {
    hide Wrap, ZeroSlots;
  }

  // ----- the handlers themselves

  class Tracker {
    const nCpus: nat
    var pidTimes: PerCpuHash
    var pidLast: PerCpuHash
    var cpuTime: seq<u64>
    var snapshot: seq<u64>
    var socketOf: seq<u16>
    var ring: seq<CpuStateEvent>

    function State(): Maps
      reads this
    {
      Maps(nCpus, pidTimes, pidLast, cpuTime, snapshot, socketOf, ring)
    }

    constructor (nCpus: nat, socketOf: seq<u16>)
      requires |socketOf| == MAX_CPU
      ensures State() == Boot(nCpus, socketOf)
    {
      this.nCpus := nCpus;
      pidTimes, pidLast := map[], map[];
      cpuTime, snapshot := ZeroSlots(MAX_CPU), ZeroSlots(MAX_CPU);
      this.socketOf := socketOf;
      ring := [];
    }

    // The accumulation that all three charging handlers spell out.
    method Charge(tgid: u32, cpu: nat, delta: u64)
      requires Sized(pidTimes, nCpus) && cpu < nCpus && |cpuTime| == MAX_CPU
      modifies this`pidTimes, this`cpuTime
      ensures pidTimes == Credited(old(pidTimes), nCpus, Charging(tgid, cpu, delta))
      ensures cpuTime == Advanced(old(cpuTime), cpu, delta)
      ensures Sized(pidTimes, nCpus)
      ensures forall t, c {:trigger Slot(pidTimes, t, c)} :: 0 <= c < nCpus ==>
        Slot(pidTimes, t, c) ==
          if t == tgid && c == cpu && old(Accepts(pidTimes, tgid))
          then WrapAdd(old(Slot(pidTimes, tgid, cpu)), delta)
          else old(Slot(pidTimes, t, c))
      ensures pidTimes.Keys == old(pidTimes.Keys) + if old(Accepts(pidTimes, tgid)) then {tgid} else {}
      ensures forall c :: 0 <= c < MAX_CPU && c != cpu ==> cpuTime[c] == old(cpuTime[c])
      ensures cpu < MAX_CPU ==> cpuTime[cpu] == WrapAdd(old(cpuTime[cpu]), delta)
    {
      hide Accepts, Wrap, Insert, Store, ZeroSlots;
      ghost var before := pidTimes;
      CreditedKeys(before, nCpus, Charging(tgid, cpu, delta));
      forall t: u32, c: nat | c < nCpus {
        CreditedSlot(before, nCpus, Charging(tgid, cpu, delta), t, c);
      }
      if tgid in pidTimes {
        pidTimes := Store(pidTimes, tgid, cpu, WrapAdd(pidTimes[tgid][cpu], delta));
      } else {
        pidTimes := Insert(pidTimes, nCpus, tgid, cpu, delta);
      }
      if cpu < MAX_CPU {
        cpuTime := cpuTime[cpu := WrapAdd(cpuTime[cpu], delta)];
      }
    }

    // Each read of a task_struct field may fail, which ends the handler.
    method TrySchedSwitch(cpu: nat, now: u64, prevTgid: Option<u32>, nextTgid: Option<u32>, prevTid: Option<u32>)
      returns (ok: bool)
      requires State().Valid() && cpu < nCpus
      modifies this
      ensures ok == (prevTgid.Some? && nextTgid.Some? && prevTid.Some?)
      ensures ok ==> State() == Step(old(State()), Switch(cpu, now, prevTgid.value, prevTid.value, nextTgid.value))
      ensures !ok ==> State() == Step(old(State()), Aborted)
    {
      hide Credited, Advanced, Insert, TickEvents, Wrap;
      if prevTgid == None || nextTgid == None || prevTid == None {
        return false;
      }
      if prevTgid.value != 0 && prevTid.value != 0 {
        if prevTgid.value in pidLast {
          Charge(prevTgid.value, cpu, WrapSub(now, pidLast[prevTgid.value][cpu]));
          pidLast := pidLast - {prevTgid.value};
        }
      }
      pidLast := Insert(pidLast, nCpus, nextTgid.value, cpu, now);
      ok := true;
    }

    method SampleTick(cpu: nat, now: u64, pid: u32, tid: u32)
      requires State().Valid() && cpu < nCpus
      modifies this
      ensures State() == Step(old(State()), Sample(cpu, now, pid, tid))
    {
      hide Accepts, Credited, Advanced, TickEvents, Wrap;
      if pid == 0 || tid == 0 {
        return;
      }
      if pid in pidLast {
        Charge(pid, cpu, WrapSub(now, pidLast[pid][cpu]));
        pidLast := Store(pidLast, pid, cpu, now);
      } else {
        pidLast := Insert(pidLast, nCpus, pid, cpu, now);
      }
    }

    method TryProcessExit(cpu: nat, now: u64, tgid: u32, args: Option<(u32, bool)>)
      returns (ok: bool)
      requires State().Valid() && cpu < nCpus
      modifies this
      ensures ok == args.Some?
      ensures ok ==> State() == Step(old(State()), Exit(cpu, now, tgid, args.value.0, args.value.1))
      ensures !ok ==> State() == Step(old(State()), Aborted)
    {
      hide Accepts, Credited, Advanced, TickEvents, Wrap;
      if args == None {
        return false;
      }
      var (tid, groupDead) := args.value;
      if tgid != 0 && tid != 0 {
        if tgid in pidLast {
          Charge(tgid, cpu, WrapSub(now, pidLast[tgid][cpu]));
          pidLast := pidLast - {tgid};
        }
      }
      if groupDead {
        assert tgid !in pidLast ==> pidLast - {tgid} == pidLast;
        pidTimes := pidTimes - {tgid};
        pidLast := pidLast - {tgid};
      }
      ok := true;
    }

    // u32::MAX marks a socket none of whose CPUs has been seen.
    method CpuStateTick(reserved: seq<bool>)
      requires State().Valid() && |reserved| == MAX_SOCKET
      modifies this
      ensures State() == Step(old(State()), StateTick(reserved))
    {
      hide TickEvents, FirstUnmapped, CountCpus, CountActive, Wrap;
      ghost var k := State();
      var active := CountActivePerSocket();
      EmitReports(active, reserved);
      assert State() == k.(ring := k.ring + TickEvents(k, reserved, 0));
      var cpu := 0;
      while cpu < MAX_CPU
        invariant 0 <= cpu <= MAX_CPU
        invariant State() == k.(ring := k.ring + TickEvents(k, reserved, 0), snapshot := k.cpuTime[..cpu] + k.snapshot[cpu..])
      {
        snapshot := snapshot[cpu := cpuTime[cpu]];
        cpu := cpu + 1;
      }
      assert k.cpuTime[..MAX_CPU] + k.snapshot[MAX_CPU..] == k.cpuTime;
    }

    method CountActivePerSocket() returns (active: array<u32>)
      requires State().Valid()
      ensures fresh(active) && active.Length == MAX_SOCKET
      ensures var n := FirstUnmapped(socketOf);
        forall s :: 0 <= s < MAX_SOCKET ==>
          active[s] == if CountCpus(State(), s, n) == 0 then 0xFFFF_FFFF else CountActive(State(), s, n)
    {
      hide FirstUnmapped, Wrap;
      active := new u32[MAX_SOCKET](_ => 0xFFFF_FFFF);
      var cpu := 0;
      while cpu < MAX_CPU
        invariant 0 <= cpu <= FirstUnmapped(socketOf)
        invariant forall s :: 0 <= s < MAX_SOCKET ==>
          active[s] == if CountCpus(State(), s, cpu) == 0 then 0xFFFF_FFFF else CountActive(State(), s, cpu)
      {
        if socketOf[cpu] == 0 {
          break;
        }
        WrapDifference(cpuTime[cpu], snapshot[cpu]);
        WrapSmall(cpuTime[cpu]);
        WrapSmall(snapshot[cpu]);
        var slot := socketOf[cpu] - 1;
        if slot < MAX_SOCKET {
          ActiveAtMostCpus(State(), slot, cpu);
          if active[slot] == 0xFFFF_FFFF {
            active[slot] := 0;
          }
          if WrapSub(cpuTime[cpu], snapshot[cpu]) != 0 {
            active[slot] := active[slot] + 1;
          }
        }
        cpu := cpu + 1;
      }
    }

    method EmitReports(active: array<u32>, reserved: seq<bool>)
      requires State().Valid() && |reserved| == MAX_SOCKET && active.Length == MAX_SOCKET
      requires var n := FirstUnmapped(socketOf);
        forall s :: 0 <= s < MAX_SOCKET ==>
          active[s] == if CountCpus(State(), s, n) == 0 then 0xFFFF_FFFF else CountActive(State(), s, n)
      modifies this`ring
      ensures ring == old(ring) + TickEvents(old(State()), reserved, 0)
    {
      hide CountCpus, CountActive, FirstUnmapped, TickEvents, SocketReport, Wrap;
      ghost var k := State();
      var socket := 0;
      while socket < MAX_SOCKET
        invariant 0 <= socket <= MAX_SOCKET
        invariant ring + TickEvents(k, reserved, socket) == old(ring) + TickEvents(k, reserved, 0)
      {
        NextReport(k, reserved, socket);
        var count := active[socket];
        if count == 0xFFFF_FFFF {
          break;
        }
        if count == 0 {
          if reserved[socket] {
            ring := ring + [CpuStateEvent(socket, IdleEvent)];
          }
        } else {
          if count == 1 {
            if reserved[socket] {
              ring := ring + [CpuStateEvent(socket, ActivationEvent)];
            }
          }
        }
        socket := socket + 1;
      }
      if socket == MAX_SOCKET { LastReport(k, reserved, socket); }
    }
  }

  lemma NextReport(k: Maps, reserved: seq<bool>, socket: nat)
    requires k.Valid() && |reserved| == MAX_SOCKET && socket < MAX_SOCKET
    ensures var n := FirstUnmapped(k.socketOf);
      var active := CountActive(k, socket, n);
      TickEvents(k, reserved, socket) ==
        if CountCpus(k, socket, n) == 0 then []
        else (if reserved[socket] && active == 0 then [CpuStateEvent(socket, IdleEvent)]
              else if reserved[socket] && active == 1 then [CpuStateEvent(socket, ActivationEvent)]
              else [])
             + TickEvents(k, reserved, socket + 1)
  {
    hide CountCpus, CountActive, FirstUnmapped;
  }

  lemma LastReport(k: Maps, reserved: seq<bool>, socket: nat)
    requires k.Valid() && |reserved| == MAX_SOCKET == socket
    ensures TickEvents(k, reserved, socket) == []
  {
  }

  lemma {:induction false} ActiveAtMostCpus(k: Maps, socket: nat, n: nat)
    requires k.Valid() && n <= MAX_CPU
    ensures CountActive(k, socket, n) <= CountCpus(k, socket, n)
  {
    if n > 0 { ActiveAtMostCpus(k, socket, n - 1); }
  }
}
