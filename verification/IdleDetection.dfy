/**
 What the idle and activation events of a state tick mean.

 A tick compares CPU_TIME with the snapshot the previous tick left, walks the
 CPUs up to the first that has no socket, and reports on sockets 1, 2, ... up
 to the first that has no such CPU.
*/
module IdleDetection {
  import opened Machine
  import opened Kernel
  import opened Accounting

  // The tick gets as far as this socket.
  ghost predicate Reported(k: Maps, socket: nat)
    requires k.Valid()
  {
    socket < 64 && forall s: nat :: s <= socket ==> CpusOf(k, s) != {}
  }

  // ----- the counting loops count

  ghost function Members(k: Maps, socket: nat, n: nat): set<nat>
    requires k.Valid() && n <= MAX_CPU
  {
    set c: nat | c < n && k.socketOf[c] == socket + 1
  }

  ghost function ActiveMembers(k: Maps, socket: nat, n: nat): set<nat>
    requires k.Valid() && n <= MAX_CPU
  {
    set c: nat | c < n && k.socketOf[c] == socket + 1 && k.cpuTime[c] != k.snapshot[c]
  }

  lemma {:induction false} CountsMembers(k: Maps, socket: nat, n: nat)
    requires k.Valid() && n <= MAX_CPU
    ensures CountCpus(k, socket, n) == |Members(k, socket, n)|
  {
    hide Sized, FirstUnmapped, CountActive;
    if n > 0 {
      CountsMembers(k, socket, n - 1);
      var all, before := Members(k, socket, n), Members(k, socket, n - 1);
      assert k.socketOf[n - 1] == socket + 1 ==> all == before + {n - 1};
      assert k.socketOf[n - 1] != socket + 1 ==> all == before;
    }
  }

  lemma {:induction false} CountsActive(k: Maps, socket: nat, n: nat)
    requires k.Valid() && n <= MAX_CPU
    ensures CountActive(k, socket, n) == |ActiveMembers(k, socket, n)|
  {
    hide Sized, FirstUnmapped, CountCpus;
    if n > 0 {
      CountsActive(k, socket, n - 1);
      var all, before := ActiveMembers(k, socket, n), ActiveMembers(k, socket, n - 1);
      var last := k.socketOf[n - 1] == socket + 1 && k.cpuTime[n - 1] != k.snapshot[n - 1];
      assert last ==> all == before + {n - 1};
      assert !last ==> all == before;
    }
  }

  lemma CountsSockets(k: Maps, socket: nat)
    requires k.Valid()
    ensures CountCpus(k, socket, FirstUnmapped(k.socketOf)) == |CpusOf(k, socket)|
    ensures CountActive(k, socket, FirstUnmapped(k.socketOf)) == |ActiveCpus(k, socket)|
  {
    hide CountCpus, CountActive;
    var n := FirstUnmapped(k.socketOf);
    CountsMembers(k, socket, n);
    CountsActive(k, socket, n);
    assert CpusOf(k, socket) == Members(k, socket, n);
    assert ActiveCpus(k, socket) == ActiveMembers(k, socket, n);
  }

  // ----- one tick

  ghost predicate Increasing(events: seq<CpuStateEvent>) {
    forall i, j :: 0 <= i < j < |events| ==> events[i].socketId < events[j].socketId
  }

  lemma {:induction false} TickEventsFrom(k: Maps, reserved: seq<bool>, from: nat)
    requires k.Valid() && |reserved| == MAX_SOCKET && from <= MAX_SOCKET
    ensures Increasing(TickEvents(k, reserved, from))
    ensures forall e :: e in TickEvents(k, reserved, from) <==>
      && from <= e.socketId < MAX_SOCKET
      && (forall s: nat :: from <= s <= e.socketId ==> CpusOf(k, s) != {})
      && e in SocketReport(k, reserved, e.socketId)
    decreases MAX_SOCKET - from
  {
    hide SocketReport, FirstUnmapped, CountCpus;
    if from < MAX_SOCKET {
      CountsSockets(k, from);
      ReportsItself(k, reserved, from);
      if CpusOf(k, from) != {} {
        TickEventsFrom(k, reserved, from + 1);
      }
    }
  }

  lemma ReportsItself(k: Maps, reserved: seq<bool>, socket: nat)
    requires k.Valid() && |reserved| == MAX_SOCKET && socket < MAX_SOCKET
    ensures |SocketReport(k, reserved, socket)| <= 1
    ensures forall e :: e in SocketReport(k, reserved, socket) <==>
      e.socketId == socket && reserved[socket] && |ActiveCpus(k, socket)| == if e.eventType.IdleEvent? then 0 else 1
  {
    CountsSockets(k, socket);
  }

  // A tick reports each socket at most once, in order; it reports the sockets
  // it reaches, as idle when no CPU is active and as activated when one is.
  lemma TickMeaning(k: Maps, reserved: seq<bool>, socket: u16)
    requires k.Valid() && |reserved| == MAX_SOCKET
    ensures var events := TickEvents(k, reserved, 0);
      && Increasing(events)
      && (CpuStateEvent(socket, IdleEvent) in events <==>
            Reported(k, socket) && reserved[socket] && ActiveCpus(k, socket) == {})
      && (CpuStateEvent(socket, ActivationEvent) in events <==>
            Reported(k, socket) && reserved[socket] && |ActiveCpus(k, socket)| == 1)
  {
    hide TickEvents, SocketReport, ActiveCpus, CpusOf;
    TickEventsFrom(k, reserved, 0);
    if socket < MAX_SOCKET {
      ReportsItself(k, reserved, socket);
    }
  }

  // ----- from one tick to the next

  predicate NoTick(run: seq<Event>) {
    forall i :: 0 <= i < |run| ==> !run[i].StateTick?
  }

  lemma {:induction false} SnapshotHolds(k: Maps, run: seq<Event>)
    requires k.Valid() && RunsOn(run, k.nCpus) && NoTick(run)
    ensures Run(k, run).snapshot == k.snapshot
    decreases |run|
  {
    hide NextPidTimes, NextPidLast, NextCpuTime, NextRing;
    if run != [] { SnapshotHolds(k, run[..|run| - 1]); }
  }

  // The CPUs of a socket that were charged any time during a run (modulo the
  // width of the counter, which takes 584 years to come round).
  ghost function Gainers(k: Maps, run: seq<Event>, socket: nat): set<nat>
    requires k.Valid() && RunsOn(run, k.nCpus)
  {
    set c: nat | c in CpusOf(k, socket) && Wrap(Gain(k, run, c)) != 0
  }

  lemma ActiveAreGainers(k: Maps, run: seq<Event>, socket: nat)
    requires k.Valid() && RunsOn(run, k.nCpus) && NoTick(run) && k.snapshot == k.cpuTime
    ensures ActiveCpus(Run(k, run), socket) == Gainers(k, run, socket)
  {
    hide Run, Gain, Wrap, FirstUnmapped;
    var k' := Run(k, run);
    SnapshotHolds(k, run);
    forall c: nat | c in CpusOf(k, socket) && c < MAX_CPU
      ensures k'.cpuTime[c] != k'.snapshot[c] <==> Wrap(Gain(k, run, c)) != 0
    {
      CpuTimeIsGain(k, run, c);
      WrapDifference(k.cpuTime[c] + Gain(k, run, c), k.cpuTime[c]);
      WrapSmall(k.cpuTime[c]);
    }
  }

  // Between any two consecutive ticks of any run: the second tick emits for a
  // socket it reaches one idle event iff no CPU of the socket gained time since
  // the first, one activation event iff exactly one did, and nothing otherwise.
  lemma EventMeaning(k0: Maps, reserved0: seq<bool>, mid: seq<Event>, reserved: seq<bool>, socket: u16)
    requires k0.Valid() && |reserved0| == |reserved| == MAX_SOCKET && RunsOn(mid, k0.nCpus) && NoTick(mid)
    ensures var k1 := Step(k0, StateTick(reserved0));
      var k2 := Run(k1, mid);
      var events := TickEvents(k2, reserved, 0);
      && Step(k2, StateTick(reserved)).ring == k2.ring + events
      && Increasing(events)
      && (CpuStateEvent(socket, IdleEvent) in events <==>
            Reported(k0, socket) && reserved[socket] && Gainers(k1, mid, socket) == {})
      && (CpuStateEvent(socket, ActivationEvent) in events <==>
            Reported(k0, socket) && reserved[socket] && |Gainers(k1, mid, socket)| == 1)
  {
    hide Run, Gain, Wrap, FirstUnmapped, TickEvents, NextPidTimes, NextPidLast, NextCpuTime, Gainers;
    var k1 := Step(k0, StateTick(reserved0));
    var k2 := Run(k1, mid);
    assert k1.snapshot == k0.cpuTime == k1.cpuTime by { TickKeepsTime(k0, reserved0); }
    ActiveAreGainers(k1, mid, socket);
    TickMeaning(k2, reserved, socket);
    assert forall s: nat :: CpusOf(k2, s) == CpusOf(k0, s);
  }

  lemma TickKeepsTime(k: Maps, reserved: seq<bool>)
    requires k.Valid() && |reserved| == MAX_SOCKET
    ensures Step(k, StateTick(reserved)).cpuTime == k.cpuTime
  {
  }

  // ----- the table of sockets, as user space fills it in

  // Returns the table and whether every package id could be read; at the
  // first that cannot, the table stays as far as it got.
  method PopulateCpuToSocketMap(online: seq<nat>, packageOf: map<nat, u16>) returns (socketOf: seq<u16>, ok: bool)
    ensures |socketOf| == MAX_CPU
    ensures ok <==> forall i :: 0 <= i < |online| && online[i] < MAX_CPU ==> online[i] in packageOf
    ensures ok ==> socketOf == SocketTable(online, packageOf)
    ensures ok ==> forall c :: 0 <= c < 256 ==>
      socketOf[c] == if c in online && c in packageOf then (packageOf[c] as int + 1) % 0x1_0000 else 0
  {
    socketOf := ZeroSlots16();
    var i := 0;
    while i < |online|
      invariant 0 <= i <= |online| && |socketOf| == MAX_CPU
      invariant forall j :: 0 <= j < i && online[j] < MAX_CPU ==> online[j] in packageOf
      invariant forall c: nat :: c < MAX_CPU && c in online[..i] ==> c in packageOf && socketOf[c] == Tag(packageOf[c])
      invariant forall c: nat :: c < MAX_CPU && c !in online[..i] ==> socketOf[c] == 0
    {
      var cpu := online[i];
      assert online[..i + 1] == online[..i] + [cpu];
      if cpu < MAX_CPU {
        if cpu !in packageOf {
          return socketOf, false;
        }
        socketOf := socketOf[cpu := Tag(packageOf[cpu])];
      }
      i := i + 1;
    }
    assert online[..i] == online;
    assert forall c: nat :: c < MAX_CPU && c in online && c in packageOf ==> socketOf[c] == SocketTable(online, packageOf)[c];
    ok := true;
  }

  // Socket ids start from 1 in the table, so that 0 can mean no socket.
  function Tag(package: u16): u16 {
    if package == 0xFFFF then 0 else package + 1
  }

  function ZeroSlots16(): (z: seq<u16>)
    ensures |z| == MAX_CPU && forall i :: 0 <= i < MAX_CPU ==> z[i] == 0
  {
    seq(MAX_CPU, _ => 0)
  }

  function SocketTable(online: seq<nat>, packageOf: map<nat, u16>): (t: seq<u16>)
    ensures |t| == MAX_CPU
  {
    seq(MAX_CPU, c => if 0 <= c && c in online && c in packageOf then Tag(packageOf[c]) else 0)
  }

  // CPU numbers below the first one that is offline.
  ghost predicate OnlineUpTo(online: seq<nat>, n: nat) {
    && n <= MAX_CPU
    && (forall c: nat :: c < n ==> c in online)
    && (n < MAX_CPU ==> n !in online)
  }

  ghost predicate HasCpuBelow(packageOf: map<nat, u16>, n: nat, package: nat) {
    exists c: nat :: c < n && c in packageOf && packageOf[c] == package
  }

  // On a real host the package ids are the socket ids of the events: the +1
  // that user space adds and the -1 of the handler cancel. A package is
  // reached by the tick iff it and every package numbered below it has a CPU
  // numbered below the first offline CPU.
  lemma ReportedOnHost(k: Maps, online: seq<nat>, packageOf: map<nat, u16>, n: nat, socket: nat)
    requires k.Valid() && k.socketOf == SocketTable(online, packageOf) && OnlineUpTo(online, n)
    requires forall c: nat :: c < MAX_CPU && c in online ==> c in packageOf && packageOf[c] < 0xFFFF
    ensures CpusOf(k, socket) == set c: nat | c < n && packageOf[c] == socket
    ensures Reported(k, socket) <==>
      socket < 64 && forall s: nat :: s <= socket ==> HasCpuBelow(packageOf, n, s)
  {
    hide FirstUnmapped;
    FirstUnmappedIs(k.socketOf, n);
    forall s: nat
      ensures CpusOf(k, s) == set c: nat | c < n && packageOf[c] == s
      ensures CpusOf(k, s) != {} <==> HasCpuBelow(packageOf, n, s)
    {
      assert forall c: nat :: c in CpusOf(k, s) <==> c < n && packageOf[c] == s;
      if HasCpuBelow(packageOf, n, s) {
        var c: nat :| c < n && c in packageOf && packageOf[c] == s;
        assert c in CpusOf(k, s);
      }
      if c :| c in CpusOf(k, s) {
        assert c < n && packageOf[c] == s;
      }
    }
  }

  lemma FirstUnmappedIs(socketOf: seq<u16>, n: nat)
    requires n <= |socketOf| && (n < |socketOf| ==> socketOf[n] == 0)
    requires forall c :: 0 <= c < n ==> socketOf[c] != 0
    ensures FirstUnmapped(socketOf) == n
  {
    var m := FirstUnmapped(socketOf);
    assert !(m < n) && !(n < m);
  }
}
