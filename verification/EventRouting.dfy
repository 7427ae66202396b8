/**
 The way of a CPU state event from the ring buffer to its socket.

 Each refresh drains the ring, files the events by socket id, and hands every
 socket what is filed under its id. Over any number of refreshes every socket
 gets every event of its id exactly once and in order.
*/
module EventRouting {
  import opened Machine
  import opened Kernel

  type Filed = map<u16, seq<CpuStateEvent>>

  function Waiting(m: Filed, id: u16): seq<CpuStateEvent> {
    if id in m then m[id] else []
  }

  // The events of one socket, in order.
  function For(events: seq<CpuStateEvent>, id: u16): seq<CpuStateEvent> {
    if events == [] then []
    else For(events[..|events| - 1], id)
         + if events[|events| - 1].socketId == id then [events[|events| - 1]] else []
  }

  lemma {:induction false} ForSplits(a: seq<CpuStateEvent>, b: seq<CpuStateEvent>, id: u16)
    ensures For(a + b, id) == For(a, id) + For(b, id)
    decreases |b|
  {
    if b == [] {
      assert a + b == a;
    } else {
      var b' := b[..|b| - 1];
      ForSplits(a, b', id);
      assert (a + b)[..|a + b| - 1] == a + b';
    }
  }

  // Every event of the id, as often as it occurs, and no other.
  lemma {:induction false} ForCounts(events: seq<CpuStateEvent>, id: u16, e: CpuStateEvent)
    ensures multiset(For(events, id))[e] == if e.socketId == id then multiset(events)[e] else 0
    decreases |events|
  {
    if events != [] {
      var n := |events| - 1;
      ForCounts(events[..n], id, e);
      assert events == events[..n] + [events[n]];
    }
  }

  // The events of s are found at increasing positions of t.
  ghost predicate InOrder(s: seq<CpuStateEvent>, t: seq<CpuStateEvent>) {
    exists at: seq<nat> :: Places(at, s, t)
  }

  ghost predicate Places(at: seq<nat>, s: seq<CpuStateEvent>, t: seq<CpuStateEvent>) {
    && |at| == |s|
    && (forall i, j :: 0 <= i < j < |at| ==> at[i] < at[j])
    && forall i :: 0 <= i < |at| ==> at[i] < |t| && t[at[i]] == s[i]
  }

  lemma {:induction false} ForInOrder(events: seq<CpuStateEvent>, id: u16) returns (at: seq<nat>)
    ensures Places(at, For(events, id), events)
    decreases |events|
  {
    at := [];
    if events != [] {
      var n := |events| - 1;
      at := ForInOrder(events[..n], id);
      if events[n].socketId == id { at := at + [n]; }
    }
  }

  lemma AppendInOrder(a: seq<CpuStateEvent>, s: seq<CpuStateEvent>, t: seq<CpuStateEvent>, at: seq<nat>)
    requires Places(at, s, t)
    ensures InOrder(a + s, a + t)
  {
    var there := seq(|a| + |s|, i requires 0 <= i < |a| + |s| => if i < |a| then i else |a| + at[i - |a|]);
    assert Places(there, a + s, a + t);
  }

  // From what waited and what was drained, r has everything that waited and every
  // drained event of the id, as often as it occurs, in order, and nothing else.
  ghost predicate DeliversTo(r: seq<CpuStateEvent>, waiting: seq<CpuStateEvent>, id: u16, drained: seq<CpuStateEvent>) {
    && InOrder(r, waiting + drained)
    && forall e: CpuStateEvent ::
         multiset(r)[e] == multiset(waiting)[e] + if e.socketId == id then multiset(drained)[e] else 0
  }

  lemma ForDelivers(waiting: seq<CpuStateEvent>, id: u16, drained: seq<CpuStateEvent>)
    ensures DeliversTo(waiting + For(drained, id), waiting, id, drained)
  {
    var at := ForInOrder(drained, id);
    AppendInOrder(waiting, For(drained, id), drained, at);
    hide For, InOrder;
    forall e: CpuStateEvent
      ensures multiset(waiting + For(drained, id))[e]
           == multiset(waiting)[e] + if e.socketId == id then multiset(drained)[e] else 0
    {
      ForCounts(drained, id, e);
    }
  }

  // What a refresh does with every single event: the first socket of an id is
  // delivered it, and what no socket is for goes on waiting.
  ghost predicate Delivers(
    records: seq<seq<CpuStateEvent>>, after: Filed, ids: seq<u16>, before: Filed, drained: seq<CpuStateEvent>)
  {
    && |records| == |ids|
    && (forall i :: 0 <= i < |ids| ==>
          if ids[i] in ids[..i] then records[i] == []
          else DeliversTo(records[i], Waiting(before, ids[i]), ids[i], drained))
    && forall id: u16 ::
         if id in ids then Waiting(after, id) == [] else DeliversTo(Waiting(after, id), Waiting(before, id), id, drained)
  }

  lemma HandedIsDelivered(
    records: seq<seq<CpuStateEvent>>, after: Filed, ids: seq<u16>, before: Filed, drained: seq<CpuStateEvent>)
    requires Hands(records, ids, before, drained) && Keeps(after, ids, before, drained)
    ensures Delivers(records, after, ids, before, drained)
  {
    hide For, Waiting, DeliversTo;
    forall id: u16
      ensures DeliversTo(Waiting(before, id) + For(drained, id), Waiting(before, id), id, drained)
    {
      ForDelivers(Waiting(before, id), id, drained);
    }
  }

  // What a refresh hands to the sockets: the first socket of an id gets all
  // that is filed under it.
  ghost predicate Hands(records: seq<seq<CpuStateEvent>>, ids: seq<u16>, before: Filed, drained: seq<CpuStateEvent>) {
    && |records| == |ids|
    && forall i :: 0 <= i < |ids| ==>
         records[i] == if ids[i] in ids[..i] then [] else Waiting(before, ids[i]) + For(drained, ids[i])
  }

  // What stays behind: nothing for the known sockets, everything for the rest.
  ghost predicate Keeps(after: Filed, ids: seq<u16>, before: Filed, drained: seq<CpuStateEvent>) {
    forall id: u16 :: Waiting(after, id) == if id in ids then [] else Waiting(before, id) + For(drained, id)
  }

  lemma HandsMore(records: seq<seq<CpuStateEvent>>, ids: seq<u16>, before: Filed, drained: seq<CpuStateEvent>,
                  id: u16, r: seq<CpuStateEvent>)
    requires Hands(records, ids, before, drained)
    requires r == if id in ids then [] else Waiting(before, id) + For(drained, id)
    ensures Hands(records + [r], ids + [id], before, drained)
  {
    hide For, Waiting;
    forall i | 0 <= i <= |ids|
      ensures (ids + [id])[..i] == ids[..i]
    {
    }
  }

  // All events are filed behind what waited before, each under its own id.
  ghost predicate Files(after: Filed, before: Filed, events: seq<CpuStateEvent>) {
    forall id: u16 :: Waiting(after, id) == Waiting(before, id) + For(events, id)
  }

  lemma FilesNone(m: Filed)
    ensures Files(m, m, [])
  {
  }

  lemma FilesOne(m: Filed, before: Filed, events: seq<CpuStateEvent>, e: CpuStateEvent)
    requires Files(m, before, events)
    ensures var m1 := if e.socketId in m then m else m[e.socketId := []];
      Files(m1[e.socketId := m1[e.socketId] + [e]], before, events + [e])
  {
    var m1 := if e.socketId in m then m else m[e.socketId := []];
    var m2 := m1[e.socketId := m1[e.socketId] + [e]];
    assert (events + [e])[..|events|] == events;
    forall id: u16
      ensures Waiting(m2, id) == Waiting(before, id) + For(events + [e], id)
    {
      assert Waiting(m2, id) == Waiting(m, id) + if e.socketId == id then [e] else [];
    }
  }

  lemma FilesDelivers(after: Filed, before: Filed, drained: seq<CpuStateEvent>)
    requires Files(after, before, drained)
    ensures forall id: u16 :: Waiting(after, id) == Waiting(before, id) + For(drained, id)
    ensures forall id: u16 :: DeliversTo(Waiting(after, id), Waiting(before, id), id, drained)
  {
    hide For, Waiting, DeliversTo;
    forall id: u16
      ensures DeliversTo(Waiting(after, id), Waiting(before, id), id, drained)
    {
      ForDelivers(Waiting(before, id), id, drained);
    }
  }

  class Topology {
    const sockets: seq<u16>
    var activationIdleBuffer: Filed

    constructor (sockets: seq<u16>)
      ensures this.sockets == sockets && activationIdleBuffer == map[]
    {
      this.sockets := sockets;
      activationIdleBuffer := map[];
    }

    method RefreshActivationIdleRecords(drained: seq<CpuStateEvent>)
      modifies this
      ensures forall id: u16 ::
        Waiting(activationIdleBuffer, id) == Waiting(old(activationIdleBuffer), id) + For(drained, id)
      ensures forall id: u16 ::
        DeliversTo(Waiting(activationIdleBuffer, id), Waiting(old(activationIdleBuffer), id), id, drained)
    {
      hide For, Waiting, DeliversTo, Files;
      ghost var before := activationIdleBuffer;
      FilesNone(before);
      var i := 0;
      while i < |drained|
        invariant 0 <= i <= |drained|
        invariant Files(activationIdleBuffer, before, drained[..i])
      {
        var e := drained[i];
        assert drained[..i + 1] == drained[..i] + [e];
        FilesOne(activationIdleBuffer, before, drained[..i], e);
        if e.socketId !in activationIdleBuffer {
          activationIdleBuffer := activationIdleBuffer[e.socketId := []];
        }
        activationIdleBuffer := activationIdleBuffer[e.socketId := activationIdleBuffer[e.socketId] + [e]];
        i := i + 1;
      }
      assert drained[..i] == drained;
      FilesDelivers(activationIdleBuffer, before, drained);
    }

    method GetActivationIdleRecords(socket: u16) returns (records: seq<CpuStateEvent>)
      modifies this
      ensures records == Waiting(old(activationIdleBuffer), socket)
      ensures forall id: u16 ::
        Waiting(activationIdleBuffer, id) == if id == socket then [] else Waiting(old(activationIdleBuffer), id)
    {
      records := if socket in activationIdleBuffer then activationIdleBuffer[socket] else [];
      activationIdleBuffer := activationIdleBuffer - {socket};
    }

    // The first part of `refresh`, up to the hand-over to the sockets.
    method RouteEvents(drained: seq<CpuStateEvent>) returns (records: seq<seq<CpuStateEvent>>)
      modifies this
      ensures Hands(records, sockets, old(activationIdleBuffer), drained)
      ensures Keeps(activationIdleBuffer, sockets, old(activationIdleBuffer), drained)
      ensures Delivers(records, activationIdleBuffer, sockets, old(activationIdleBuffer), drained)
    {
      hide For, Waiting, Delivers, DeliversTo, Files;
      ghost var before := activationIdleBuffer;
      RefreshActivationIdleRecords(drained);
      records := [];
      var i := 0;
      while i < |sockets|
        invariant 0 <= i <= |sockets|
        invariant Hands(records, sockets[..i], before, drained)
        invariant Keeps(activationIdleBuffer, sockets[..i], before, drained)
      {
        assert sockets[..i + 1] == sockets[..i] + [sockets[i]];
        var r := GetActivationIdleRecords(sockets[i]);
        HandsMore(records, sockets[..i], before, drained, sockets[i], r);
        records := records + [r];
        i := i + 1;
      }
      assert sockets[..i] == sockets;
      HandedIsDelivered(records, activationIdleBuffer, sockets, before, drained);
    }
  }

  // ----- over any number of refreshes

  // One refresh: what it drained, what it handed over, what it left behind.
  datatype Refresh = Refresh(drained: seq<CpuStateEvent>, handed: seq<seq<CpuStateEvent>>, left: Filed)

  function FiledBefore(refreshes: seq<Refresh>, i: nat): Filed
    requires i <= |refreshes|
  {
    if i == 0 then map[] else refreshes[i - 1].left
  }

  ghost predicate Follows(ids: seq<u16>, before: Filed, r: Refresh) {
    Hands(r.handed, ids, before, r.drained) && Keeps(r.left, ids, before, r.drained)
  }

  ghost predicate History(ids: seq<u16>, refreshes: seq<Refresh>) {
    forall i :: 0 <= i < |refreshes| ==> Follows(ids, FiledBefore(refreshes, i), refreshes[i])
  }

  lemma HistoryPrefix(ids: seq<u16>, refreshes: seq<Refresh>)
    requires History(ids, refreshes) && refreshes != []
    ensures History(ids, refreshes[..|refreshes| - 1])
    ensures var n := |refreshes| - 1;
      && FiledBefore(refreshes[..n], n) == FiledBefore(refreshes, n)
      && Follows(ids, FiledBefore(refreshes, n), refreshes[n])
  {
    hide Hands, Keeps;
    var r := refreshes[..|refreshes| - 1];
    forall i | 0 <= i < |r|
      ensures Follows(ids, FiledBefore(r, i), r[i])
    {
      assert FiledBefore(r, i) == FiledBefore(refreshes, i);
    }
  }

  function AllDrained(refreshes: seq<Refresh>): seq<CpuStateEvent> {
    if refreshes == [] then [] else AllDrained(refreshes[..|refreshes| - 1]) + refreshes[|refreshes| - 1].drained
  }

  // Everything handed to the i-th socket.
  function AllHanded(refreshes: seq<Refresh>, i: nat): seq<CpuStateEvent> {
    if refreshes == [] then []
    else
      var n := |refreshes| - 1;
      AllHanded(refreshes[..n], i) + if i < |refreshes[n].handed| then refreshes[n].handed[i] else []
  }

  predicate Unique(ids: seq<u16>) {
    forall i, j :: 0 <= i < j < |ids| ==> ids[i] != ids[j]
  }

  // Every socket is handed the drained events of its id, each exactly once
  // and in order, and none of them is left behind.
  lemma {:induction false} ExactlyOnce(ids: seq<u16>, refreshes: seq<Refresh>, i: nat)
    requires Unique(ids) && i < |ids| && History(ids, refreshes)
    ensures AllHanded(refreshes, i) == For(AllDrained(refreshes), ids[i])
    ensures Waiting(FiledBefore(refreshes, |refreshes|), ids[i]) == []
    decreases |refreshes|
  {
    hide For, History;
    if refreshes == [] {
      assert For([], ids[i]) == [] by { NoneFor(ids[i]); }
    } else {
      var n := |refreshes| - 1;
      HistoryPrefix(ids, refreshes);
      ExactlyOnce(ids, refreshes[..n], i);
      ForSplits(AllDrained(refreshes[..n]), refreshes[n].drained, ids[i]);
      assert ids[i] !in ids[..i];
      assert refreshes[n].handed[i] == For(refreshes[n].drained, ids[i]);
    }
  }

  // Counted event by event: over any number of refreshes a socket is handed every
  // drained event of its id as often as it was drained, in order, and no other;
  // of an id without a socket every one waits.
  lemma EveryEventOnce(ids: seq<u16>, refreshes: seq<Refresh>, e: CpuStateEvent)
    requires Unique(ids) && History(ids, refreshes)
    ensures forall i :: 0 <= i < |ids| ==>
      && multiset(AllHanded(refreshes, i))[e] == (if e.socketId == ids[i] then multiset(AllDrained(refreshes))[e] else 0)
      && InOrder(AllHanded(refreshes, i), AllDrained(refreshes))
    ensures e.socketId !in ids ==>
      var waiting := Waiting(FiledBefore(refreshes, |refreshes|), e.socketId);
      multiset(waiting)[e] == multiset(AllDrained(refreshes))[e] && InOrder(waiting, AllDrained(refreshes))
  {
    hide For, History;
    forall i | 0 <= i < |ids|
      ensures multiset(AllHanded(refreshes, i))[e] == if e.socketId == ids[i] then multiset(AllDrained(refreshes))[e] else 0
      ensures InOrder(AllHanded(refreshes, i), AllDrained(refreshes))
    {
      ExactlyOnce(ids, refreshes, i);
      ForCounts(AllDrained(refreshes), ids[i], e);
      var at := ForInOrder(AllDrained(refreshes), ids[i]);
    }
    if e.socketId !in ids {
      UnknownIdsWait(ids, refreshes, e.socketId);
      ForCounts(AllDrained(refreshes), e.socketId, e);
      var at := ForInOrder(AllDrained(refreshes), e.socketId);
    }
  }

  lemma NoneFor(id: u16)
    ensures For([], id) == [] == Waiting(map[], id)
  {
  }

  // Events of ids no socket has are kept, all of them, in order.
  lemma {:induction false} UnknownIdsWait(ids: seq<u16>, refreshes: seq<Refresh>, id: u16)
    requires id !in ids && History(ids, refreshes)
    ensures Waiting(FiledBefore(refreshes, |refreshes|), id) == For(AllDrained(refreshes), id)
    decreases |refreshes|
  {
    hide For, Waiting, Hands, History;
    if refreshes == [] {
      NoneFor(id);
    } else {
      var n := |refreshes| - 1;
      HistoryPrefix(ids, refreshes);
      UnknownIdsWait(ids, refreshes[..n], id);
      ForSplits(AllDrained(refreshes[..n]), refreshes[n].drained, id);
    }
  }

  // ----- the ring buffer between the two sides

  function Emitted(k: Maps, run: seq<Event>): seq<CpuStateEvent>
    requires k.Valid() && RunsOn(run, k.nCpus)
    decreases |run|
  {
    if run == [] then []
    else
      var before, e := run[..|run| - 1], run[|run| - 1];
      Emitted(k, before) + if e.StateTick? then TickEvents(Run(k, before), e.reserved, 0) else []
  }

  function Read(k: Maps, run: seq<Event>): seq<CpuStateEvent>
    requires k.Valid() && RunsOn(run, k.nCpus)
    decreases |run|
  {
    if run == [] then []
    else
      var before, e := run[..|run| - 1], run[|run| - 1];
      Read(k, before) + if e.Drain? then Run(k, before).ring else []
  }

  // Nothing emitted is lost or read twice: what was read and what is still in
  // the ring is what was there and what the ticks emitted, in order.
  lemma {:induction false} RingConserves(k: Maps, run: seq<Event>)
    requires k.Valid() && RunsOn(run, k.nCpus)
    ensures Read(k, run) + Run(k, run).ring == k.ring + Emitted(k, run)
    decreases |run|
  {
    hide Step, TickEvents;
    if run != [] {
      var before := run[..|run| - 1];
      RingConserves(k, before);
      RingStep(k.ring, Emitted(k, before), Read(k, before), Run(k, before), run[|run| - 1]);
    }
  }

  lemma RingStep(start: seq<CpuStateEvent>, emitted: seq<CpuStateEvent>, read: seq<CpuStateEvent>, k: Maps, e: Event)
    requires k.Valid() && e.On(k.nCpus) && read + k.ring == start + emitted
    ensures read + (if e.Drain? then k.ring else []) + Step(k, e).ring
         == start + (emitted + if e.StateTick? then TickEvents(k, e.reserved, 0) else [])
  {
    hide TickEvents, NextPidTimes, NextPidLast, NextCpuTime;
    if e.StateTick? {
      assert read + [] + (k.ring + TickEvents(k, e.reserved, 0)) == (read + k.ring) + TickEvents(k, e.reserved, 0);
    } else if e.Drain? {
      assert read + k.ring + [] == read + k.ring && emitted + [] == emitted;
    } else {
      assert read + [] == read && emitted + [] == emitted;
    }
  }

  // From the handlers to a socket: when the drains of a kernel run are the
  // drains of a series of refreshes, the socket has been handed its events of
  // all ticks, in order, but for those still in the ring.
  lemma TickToSocket(k: Maps, run: seq<Event>, ids: seq<u16>, refreshes: seq<Refresh>, i: nat)
    requires k.Valid() && RunsOn(run, k.nCpus) && k.ring == []
    requires Unique(ids) && i < |ids| && History(ids, refreshes)
    requires AllDrained(refreshes) == Read(k, run)
    ensures AllHanded(refreshes, i) + For(Run(k, run).ring, ids[i]) == For(Emitted(k, run), ids[i])
    ensures forall e: CpuStateEvent :: e.socketId == ids[i] ==>
      multiset(AllHanded(refreshes, i))[e] + multiset(Run(k, run).ring)[e] == multiset(Emitted(k, run))[e]
  {
    hide Run, Emitted, Read, For;
    RingConserves(k, run);
    ExactlyOnce(ids, refreshes, i);
    ForSplits(Read(k, run), Run(k, run).ring, ids[i]);
    assert k.ring + Emitted(k, run) == Emitted(k, run);
    forall e: CpuStateEvent | e.socketId == ids[i]
      ensures multiset(AllHanded(refreshes, i))[e] + multiset(Run(k, run).ring)[e] == multiset(Emitted(k, run))[e]
    {
      ForCounts(Run(k, run).ring, ids[i], e);
      ForCounts(Emitted(k, run), ids[i], e);
      assert multiset(AllHanded(refreshes, i) + For(Run(k, run).ring, ids[i]))[e] == multiset(For(Emitted(k, run), ids[i]))[e];
    }
  }
}
