/**
 The process tracker: a vector of vectors of records, one per process.

 Although the vectors are searched, cleared, sorted and dropped in place, the
 tracker is a map from a process id to its most recent records, newest first.
*/
module ProcessHistory {
  import opened Machine
  import opened Sorting

  // `comm` names the executable, `stamp` is the time of the record.
  datatype ProcessRecord = ProcessRecord(pid: nat, comm: string, stamp: nat, coreTimes: Option<seq<u64>>)

  type Vector = seq<ProcessRecord>

  // What the operating system says about a process; one it does not know has
  // no status.
  datatype ProcessStatus = Stop | Alive

  // ----- the stable sort by descending time

  function Age(r: ProcessRecord): int { -(r.stamp as int) }

  function SortDesc(s: Vector): Vector { Sort(s, Age) }

  ghost predicate Descending(s: Vector) {
    forall i, j :: 0 <= i < j < |s| ==> s[i].stamp >= s[j].stamp
  }

  // A permutation, newest first, that leaves what is in order as it is.
  lemma SortDescends(s: Vector)
    ensures Descending(SortDesc(s)) && |SortDesc(s)| == |s|
    ensures forall x :: x in SortDesc(s) ==> x in s
    ensures Descending(s) ==> SortDesc(s) == s
  {
    hide Sort;
    SortSorts(s, Age);
    SortPermutes(s, Age);
    SortMembers(s, Age);
    var r := SortDesc(s);
    forall i, j | 0 <= i < j < |r|
      ensures r[i].stamp >= r[j].stamp
    {
      assert Age(r[i]) <= Age(r[j]);
    }
    if Descending(s) {
      assert Sorted(s, Age) by {
        assert forall i, j :: 0 <= i < j < |s| ==> Age(s[i]) <= Age(s[j]);
      }
      SortOfSorted(s, Age);
    }
  }

  // ----- the tracker as a map

  function First(s: Vector, max: nat): Vector {
    if |s| <= max then s else s[..max]
  }

  // The vector of a process: the non-empty one whose records carry its id.
  function HistoryOf(procs: seq<Vector>, pid: nat): Vector {
    if procs == [] then []
    else if procs[0] != [] && procs[0][0].pid == pid then procs[0]
    else HistoryOf(procs[1..], pid)
  }

  // Each vector is about one process, and no process has two.
  ghost predicate Indexed(procs: seq<Vector>) {
    && (forall v, i :: 0 <= v < |procs| && 0 <= i < |procs[v]| ==> procs[v][i].pid == procs[v][0].pid)
    && (forall v, w :: 0 <= v < w < |procs| && procs[v] != [] && procs[w] != [] ==> procs[v][0].pid != procs[w][0].pid)
  }

  predicate IsFor(v: Vector, pid: nat) {
    v != [] && v[0].pid == pid
  }

  lemma {:induction false} HistoryIsIn(procs: seq<Vector>, pid: nat)
    ensures HistoryOf(procs, pid) == [] <==> forall v :: 0 <= v < |procs| ==> !IsFor(procs[v], pid)
    ensures HistoryOf(procs, pid) != [] ==> IsFor(HistoryOf(procs, pid), pid) && HistoryOf(procs, pid) in procs
  {
    if procs != [] && !IsFor(procs[0], pid) {
      HistoryIsIn(procs[1..], pid);
      assert forall v :: 1 <= v < |procs| ==> procs[v] == procs[1..][v - 1];
    }
  }

  lemma {:induction false} HistoryIs(procs: seq<Vector>, pid: nat, v: nat)
    requires Indexed(procs) && v < |procs| && IsFor(procs[v], pid)
    ensures HistoryOf(procs, pid) == procs[v]
  {
    if v > 0 {
      assert !IsFor(procs[0], pid);
      assert forall w :: 0 <= w < |procs[1..]| ==> procs[1..][w] == procs[w + 1];
      HistoryIs(procs[1..], pid, v - 1);
    }
  }

  lemma {:induction false} HistoryAppend(procs: seq<Vector>, v: Vector, pid: nat)
    ensures HistoryOf(procs + [v], pid) ==
      if HistoryOf(procs, pid) != [] then HistoryOf(procs, pid) else if IsFor(v, pid) then v else []
  {
    if procs != [] {
      assert (procs + [v])[1..] == procs[1..] + [v];
      HistoryAppend(procs[1..], v, pid);
    }
  }

  // Putting back a vector of the same process changes that history only.
  lemma {:induction false} HistoryUpdate(procs: seq<Vector>, v: nat, vector: Vector, pid: nat)
    requires Indexed(procs) && v < |procs| && procs[v] != [] && (vector == [] || vector[0].pid == procs[v][0].pid)
    ensures HistoryOf(procs[v := vector], pid) == if procs[v][0].pid == pid then vector else HistoryOf(procs, pid)
  {
    if v > 0 {
      assert procs[v := vector][1..] == procs[1..][v - 1 := vector];
      IndexedTail(procs);
      HistoryUpdate(procs[1..], v - 1, vector, pid);
      if procs[v][0].pid == pid { assert !IsFor(procs[0], pid); }
    } else if procs[0][0].pid == pid {
      HistoryIsIn(procs[1..], pid);
      assert forall w :: 1 <= w < |procs| ==> procs[1..][w - 1] == procs[w];
    }
  }

  lemma IndexedTail(procs: seq<Vector>)
    requires Indexed(procs) && procs != []
    ensures Indexed(procs[1..])
  {
    assert forall w :: 0 <= w < |procs[1..]| ==> procs[1..][w] == procs[w + 1];
  }

  // What one record does to the history of its process.
  function Extended(history: Vector, r: ProcessRecord, max: nat): Vector {
    if history == [] then [r]
    else
      var kept := if r.comm != history[0].comm then [] else history;
      Trimmed([r] + kept, max)
  }

  function Trimmed(s: Vector, max: nat): Vector {
    if |s| > max then First(SortDesc(s), max) else s
  }

  lemma TrimmedMembers(s: Vector, max: nat)
    ensures forall x :: x in Trimmed(s, max) ==> x in s
  {
    hide SortDesc;
    SortDescends(s);
  }

  lemma UpdateKeepsIndex(procs: seq<Vector>, v: nat, vector: Vector)
    requires Indexed(procs) && v < |procs| && procs[v] != []
    requires forall x :: x in vector ==> x.pid == procs[v][0].pid
    ensures Indexed(procs[v := vector])
  {
    var q := procs[v := vector];
    assert forall i :: 0 <= i < |vector| ==> vector[i] in vector;
    assert vector != [] ==> vector[0] in vector;
  }

  // ----- dropping empty vectors

  // What one pass over n positions makes of a list: the vector after a
  // removed one moves up and is not looked at.
  function Dropped(s: seq<Vector>, n: nat): seq<Vector> {
    if n == 0 || s == [] then s
    else if s[0] != [] then [s[0]] + Dropped(s[1..], n - 1)
    else if |s| == 1 then []
    else [s[1]] + Dropped(s[2..], n - 1)
  }

  function NonEmpty(procs: seq<Vector>): seq<Vector> {
    if procs == [] then []
    else if procs[0] == [] then NonEmpty(procs[1..]) else [procs[0]] + NonEmpty(procs[1..])
  }

  // What a pass that has reached position i with n turns left will end with.
  function Pass(procs: seq<Vector>, i: nat, n: nat): seq<Vector> {
    if i <= |procs| then procs[..i] + Dropped(procs[i..], n) else procs
  }

  lemma PassStarts(procs: seq<Vector>, n: nat)
    ensures Pass(procs, 0, n) == Dropped(procs, n)
  {
    assert procs[0..] == procs && procs[..0] == [];
  }

  lemma PassEnds(procs: seq<Vector>, i: nat)
    ensures Pass(procs, i, 0) == procs
  {
  }

  // One turn of the loop that makes the pass in place.
  lemma PassTurns(procs: seq<Vector>, i: nat, n: nat)
    requires n > 0
    ensures Pass(procs, i, n)
         == Pass(if i < |procs| && procs[i] == [] then procs[..i] + procs[i + 1..] else procs, i + 1, n - 1)
  {
    if i < |procs| {
      var s := procs[i..];
      var procs' := if procs[i] == [] then procs[..i] + procs[i + 1..] else procs;
      if procs[i] == [] && i < |procs'| {
        assert procs'[..i + 1] == procs[..i] + [s[1]] && procs'[i + 1..] == s[2..];
      } else if procs[i] != [] {
        assert procs'[..i + 1] == procs[..i] + [s[0]] && procs'[i + 1..] == s[1..];
      }
    } else if i == |procs| {
      assert procs[..i] + Dropped(procs[i..], n) == procs;
    }
  }

  // No process is lost or moved past another.
  lemma {:induction false} DroppedKeeps(s: seq<Vector>, n: nat)
    ensures NonEmpty(Dropped(s, n)) == NonEmpty(s)
    decreases n
  {
    if n == 0 || s == [] {
    } else if s[0] != [] {
      DroppedKeeps(s[1..], n - 1);
    } else if |s| > 1 {
      DroppedKeeps(s[2..], n - 1);
      assert s[1..][1..] == s[2..];
    }
  }

  predicate NoneEmpty(s: seq<Vector>) {
    forall i :: 0 <= i < |s| ==> s[i] != []
  }

  predicate Apart(s: seq<Vector>) {
    forall i :: 0 <= i < |s| - 1 ==> s[i] != [] || s[i + 1] != []
  }

  lemma ApartTail(s: seq<Vector>, k: nat)
    requires k <= |s|
    ensures Apart(s[k..]) <==> forall i :: k <= i < |s| - 1 ==> s[i] != [] || s[i + 1] != []
  {
    if Apart(s[k..]) {
      forall i | k <= i < |s| - 1
        ensures s[i] != [] || s[i + 1] != []
      {
        assert s[k..][i - k] == s[i] && s[k..][i - k + 1] == s[i + 1];
      }
    }
  }

  lemma {:induction false} LongPass(s: seq<Vector>, n: nat)
    requires n >= |s|
    ensures NoneEmpty(Dropped(s, n)) <==> Apart(s)
    decreases n
  {
    if s == [] {
    } else if s[0] != [] {
      LongPass(s[1..], n - 1);
      ApartTail(s, 1);
      HeadNonEmpty(s[0], Dropped(s[1..], n - 1));
    } else if |s| > 1 {
      LongPass(s[2..], n - 1);
      ApartTail(s, 2);
      HeadNonEmpty(s[1], Dropped(s[2..], n - 1));
    }
  }

  lemma HeadNonEmpty(v: Vector, s: seq<Vector>)
    ensures NoneEmpty([v] + s) <==> v != [] && NoneEmpty(s)
  {
    if NoneEmpty([v] + s) {
      assert ([v] + s)[0] == v;
      assert forall i :: 0 <= i < |s| ==> s[i] == ([v] + s)[i + 1];
    }
  }

  // Despite its name the pass does not drop every empty vector. It does so if
  // and only if no two are adjacent and the last vector is not the only empty
  // one.
  lemma {:induction false} DropsAll(s: seq<Vector>)
    requires s != []
    ensures NoneEmpty(Dropped(s, |s| - 1)) <==>
      Apart(s) && (s[|s| - 1] != [] || exists i :: 0 <= i < |s| - 1 && s[i] == [])
    decreases |s|
  {
    if |s| == 1 {
    } else if s[0] == [] {
      DropsAllAfterEmpty(s);
    } else {
      DropsAll(s[1..]);
      ApartTail(s, 1);
      HeadNonEmpty(s[0], Dropped(s[1..], |s| - 2));
      assert forall i :: 1 <= i < |s| ==> s[1..][i - 1] == s[i];
    }
  }

  lemma DropsAllAfterEmpty(s: seq<Vector>)
    requires |s| > 1 && s[0] == []
    ensures NoneEmpty(Dropped(s, |s| - 1)) <==> Apart(s)
  {
    LongPass(s[2..], |s| - 2);
    ApartTail(s, 2);
    HeadNonEmpty(s[1], Dropped(s[2..], |s| - 2));
  }

  lemma {:induction false} HistoryOfNonEmpty(procs: seq<Vector>, pid: nat)
    ensures HistoryOf(procs, pid) == HistoryOf(NonEmpty(procs), pid)
  {
    if procs != [] {
      HistoryOfNonEmpty(procs[1..], pid);
      assert procs[0] != [] ==> ([procs[0]] + NonEmpty(procs[1..]))[1..] == NonEmpty(procs[1..]);
    }
  }

  lemma {:induction false} DroppedIndexed(s: seq<Vector>, n: nat)
    requires Indexed(s)
    ensures Indexed(Dropped(s, n))
    ensures forall v :: v in Dropped(s, n) ==> v in s
    decreases n
  {
    if n == 0 || s == [] {
    } else {
      IndexedTail(s);
      if s[0] != [] {
        DroppedIndexed(s[1..], n - 1);
        IndexedCons(s, 0, Dropped(s[1..], n - 1));
      } else if |s| > 1 {
        IndexedTail(s[1..]);
        assert s[1..][1..] == s[2..];
        DroppedIndexed(s[2..], n - 1);
        IndexedCons(s, 1, Dropped(s[2..], n - 1));
      }
    }
  }

  lemma IndexedCons(s: seq<Vector>, k: nat, rest: seq<Vector>)
    requires Indexed(s) && k < |s| && Indexed(rest) && forall v :: v in rest ==> v in s[k + 1..]
    ensures Indexed([s[k]] + rest)
  {
    var q := [s[k]] + rest;
    forall w | 0 <= w < |rest| && s[k] != [] && rest[w] != []
      ensures s[k][0].pid != rest[w][0].pid
    {
      assert rest[w] in rest && rest[w] in s[k + 1..];
      var u :| 0 <= u < |s[k + 1..]| && s[k + 1..][u] == rest[w];
      assert s[k + 1 + u] == rest[w];
    }
  }

  // ----- the tracker in place

  class ProcessTracker {
    var procs: seq<Vector>
    const maxRecordsPerProcess: nat

    constructor (maxRecordsPerProcess: nat)
      ensures procs == [] && this.maxRecordsPerProcess == maxRecordsPerProcess
    {
      procs := [];
      this.maxRecordsPerProcess := maxRecordsPerProcess;
    }

    // The vector is sorted again before each removal.
    static method CleanOldProcessRecords(records: Vector, max: nat) returns (r: Vector)
      ensures r == Trimmed(records, max)
    {
      r := records;
      if |r| > max {
        var diff := |r| - max;
        var i := 0;
        SortDescends(records);
        while i < diff
          invariant 0 <= i <= diff
          invariant r == if i == 0 then records else SortDesc(records)[..|records| - i]
        {
          SortDescends(r);
          r := SortDesc(r);
          r := r[..|r| - 1];
          i := i + 1;
        }
      }
    }

    method AddProcessRecord(r: ProcessRecord)
      requires Indexed(procs)
      modifies this
      ensures Indexed(procs)
      ensures forall pid :: HistoryOf(procs, pid) == Next(HistoryOf(old(procs), pid), Add(r), pid, maxRecordsPerProcess)
      ensures forall pid :: pid != r.pid ==> HistoryOf(procs, pid) == HistoryOf(old(procs), pid)
    {
      ghost var before := procs;
      var v := 0;
      while v < |procs| && !(procs[v] != [] && procs[v][0].pid == r.pid)
        invariant 0 <= v <= |procs|
        invariant forall w :: 0 <= w < v ==> !IsFor(procs[w], r.pid)
      {
        v := v + 1;
      }
      if v < |procs| {
        var vector := procs[v];
        HistoryIs(procs, r.pid, v);
        if r.comm != vector[0].comm {
          vector := [];
        }
        vector := [r] + vector;
        TrimmedMembers(vector, maxRecordsPerProcess);
        vector := CleanOldProcessRecords(vector, maxRecordsPerProcess);
        UpdateKeepsIndex(procs, v, vector) by { assert forall x: ProcessRecord :: x in before[v] ==> x.pid == r.pid; }
        assert vector != [] ==> vector[0] in vector;
        forall pid: nat {
          HistoryUpdate(procs, v, vector, pid);
        }
        procs := procs[v := vector];
      } else {
        HistoryIsIn(procs, r.pid);
        forall pid: nat {
          HistoryAppend(procs, [r], pid);
        }
        procs := procs + [[r]];
      }
    }

    // All the processes of one refresh.
    method RefreshProcs(current: seq<ProcessRecord>)
      requires Indexed(procs)
      modifies this
      ensures Indexed(procs)
      ensures forall pid ::
        HistoryOf(procs, pid) == Replay(HistoryOf(old(procs), pid), Adds(current), pid, maxRecordsPerProcess)
    {
      var i := 0;
      while i < |current|
        invariant 0 <= i <= |current| && Indexed(procs)
        invariant forall pid ::
          HistoryOf(procs, pid) == Replay(HistoryOf(old(procs), pid), Adds(current[..i]), pid, maxRecordsPerProcess)
      {
        assert Adds(current[..i + 1])[..i] == Adds(current[..i]) && Adds(current[..i + 1])[i] == Add(current[i]);
        AddProcessRecord(current[i]);
        i := i + 1;
      }
      assert current[..i] == current;
    }

    method FindRecords(pid: nat) returns (refer: Option<Vector>)
      requires Indexed(procs)
      ensures refer == if HistoryOf(procs, pid) == [] then None else Some(HistoryOf(procs, pid))
    {
      refer := None;
      var v := 0;
      while v < |procs|
        invariant 0 <= v <= |procs|
        invariant refer == None ==> forall w :: 0 <= w < v ==> !IsFor(procs[w], pid)
        invariant refer.Some? ==> refer.value != [] && refer.value == HistoryOf(procs, pid)
      {
        if procs[v] != [] && procs[v][0].pid == pid {
          HistoryIs(procs, pid, v);
          refer := Some(procs[v]);
        }
        v := v + 1;
      }
      HistoryIsIn(procs, pid);
    }

    method GetPerCoreCpuTimeDelta(pid: nat) returns (delta: Option<seq<u64>>)
      requires Indexed(procs)
      ensures delta == LatestDelta(HistoryOf(procs, pid))
      ensures var h := HistoryOf(procs, pid);
        && (delta.Some? <==>
              && |h| >= 2 && h[0].coreTimes.Some? && h[1].coreTimes.Some?
              && |h[0].coreTimes.value| == |h[1].coreTimes.value|)
        && (delta.Some? ==>
              var last, prev := h[0].coreTimes.value, h[1].coreTimes.value;
              |delta.value| == |last| && forall i :: 0 <= i < |last| ==>
                delta.value[i] == if last[i] >= prev[i] then last[i] - prev[i] else last[i] + TWO64 - prev[i])
    {
      hide HistoryOf;
      var records := FindRecords(pid);
      if records == None || |records.value| < 2 {
        return None;
      }
      var last, prev := records.value[0].coreTimes, records.value[1].coreTimes;
      forall a: u64, b: u64
        ensures WrapSub(a, b) == if a >= b then a - b else a + TWO64 - b
      {
        WrapSubIs(a, b);
      }
      if last.Some? && prev.Some? && |prev.value| == |last.value| {
        var n := |prev.value|;
        delta := Some(seq(n, i requires 0 <= i < n => WrapSub(last.value[i], prev.value[i])));
      } else {
        delta := None;
      }
    }

    // The source panics when no vector matches, and when two do.
    method GetProcessName(pid: nat) returns (name: NameLookup)
      requires Indexed(procs)
      ensures name == if HistoryOf(procs, pid) == [] then NoVector else Name(HistoryOf(procs, pid)[0].comm)
    {
      var v := 0;
      while v < |procs| && !IsFor(procs[v], pid)
        invariant 0 <= v <= |procs| && forall w :: 0 <= w < v ==> !IsFor(procs[w], pid)
      {
        v := v + 1;
      }
      if v == |procs| {
        HistoryIsIn(procs, pid);
        return NoVector;
      }
      HistoryIs(procs, pid, v);
      var process := procs[v];
      v := v + 1;
      while v < |procs|
        invariant 0 < v <= |procs| && exists w :: 0 <= w < v && procs[w] == process
      {
        if IsFor(procs[v], pid) {
          return TwoVectors;
        }
        v := v + 1;
      }
      name := Name(process[0].comm);
    }

    method CleanTerminatedProcessRecordsVectors(statuses: map<nat, ProcessStatus>)
      requires Indexed(procs)
      modifies this
      ensures Indexed(procs)
      ensures forall pid :: HistoryOf(procs, pid) == Next(HistoryOf(old(procs), pid), Clean(statuses), pid, maxRecordsPerProcess)
      ensures forall pid ::
        HistoryOf(procs, pid) == (if pid in statuses && statuses[pid] != Stop then HistoryOf(old(procs), pid) else [])
    {
      hide Dropped, NonEmpty, HistoryOf;
      ghost var before := procs;
      var v := 0;
      while v < |procs|
        invariant 0 <= v <= |procs| == |before| && Indexed(procs)
        invariant forall w :: v <= w < |procs| ==> procs[w] == before[w]
        invariant forall w :: 0 <= w < v ==> procs[w] == Cleared(before[w], statuses)
      {
        if procs[v] != [] {
          var pid := procs[v][0].pid;
          if pid in statuses {
            if statuses[pid] == Stop {
              procs := procs[v := []];
            }
          } else {
            procs := procs[v := []];
          }
        }
        v := v + 1;
      }
      ghost var cleared := procs;
      forall pid: nat
        ensures HistoryOf(cleared, pid) == Next(HistoryOf(before, pid), Clean(statuses), pid, maxRecordsPerProcess)
      {
        ClearedHistory(before, cleared, statuses, pid);
      }
      DropEmptyProcessRecordsVectors();
      if cleared != [] {
        DroppedIndexed(cleared, |cleared| - 1);
        DroppedKeeps(cleared, |cleared| - 1);
        forall pid: nat
          ensures HistoryOf(procs, pid) == HistoryOf(cleared, pid)
        {
          HistoryOfNonEmpty(procs, pid);
          HistoryOfNonEmpty(cleared, pid);
        }
      }
    }

    method DropEmptyProcessRecordsVectors()
      modifies this
      ensures procs == if old(procs) == [] then [] else Dropped(old(procs), |old(procs)| - 1)
    {
      if procs != [] {
        hide Dropped, Pass;
        var end := |procs| - 1;
        var i := 0;
        PassStarts(procs, end);
        while i < end
          invariant 0 <= i <= end
          invariant Pass(procs, i, end - i) == Dropped(old(procs), end)
        {
          PassTurns(procs, i, end - i);
          if i < |procs| {
            if procs[i] == [] {
              procs := procs[..i] + procs[i + 1..];
            }
          }
          i := i + 1;
        }
        PassEnds(procs, i);
      }
    }
  }

  datatype NameLookup = Name(comm: string) | NoVector | TwoVectors

  // ----- over whole runs

  datatype Op = Add(r: ProcessRecord) | Clean(statuses: map<nat, ProcessStatus>)

  function Adds(current: seq<ProcessRecord>): (ops: seq<Op>)
    ensures |ops| == |current| && forall i :: 0 <= i < |ops| ==> ops[i] == Add(current[i])
  {
    seq(|current|, i requires 0 <= i < |current| => Add(current[i]))
  }

  predicate Lives(statuses: map<nat, ProcessStatus>, pid: nat) {
    pid in statuses && statuses[pid] != Stop
  }

  function Cleared(v: Vector, statuses: map<nat, ProcessStatus>): Vector {
    if v != [] && !Lives(statuses, v[0].pid) then [] else v
  }

  lemma {:induction false} ClearedHistory(
    procs: seq<Vector>, cleared: seq<Vector>, statuses: map<nat, ProcessStatus>, pid: nat)
    requires |cleared| == |procs| && forall w :: 0 <= w < |procs| ==> cleared[w] == Cleared(procs[w], statuses)
    ensures HistoryOf(cleared, pid) == if Lives(statuses, pid) then HistoryOf(procs, pid) else []
    decreases |procs|
  {
    if procs != [] {
      ClearedHistory(procs[1..], cleared[1..], statuses, pid);
    }
  }

  // What an operation does to the history of one process.
  function Next(history: Vector, op: Op, pid: nat, max: nat): Vector {
    match op
    case Add(r) => if r.pid == pid then Extended(history, r, max) else history
    case Clean(statuses) => if Lives(statuses, pid) then history else []
  }

  function Replay(history: Vector, ops: seq<Op>, pid: nat, max: nat): Vector {
    if ops == [] then history
    else Next(Replay(history, ops[..|ops| - 1], pid, max), ops[|ops| - 1], pid, max)
  }

  // The reference: all records of a process since it was last cleared or last
  // changed its executable, newest first.
  function Log(ops: seq<Op>, pid: nat): Vector {
    if ops == [] then []
    else
      var log := Log(ops[..|ops| - 1], pid);
      match ops[|ops| - 1]
      case Add(r) => if r.pid != pid then log else if log != [] && log[0].comm != r.comm then [r] else [r] + log
      case Clean(statuses) => if Lives(statuses, pid) then log else []
  }

  // The clock does not go back.
  predicate InTime(ops: seq<Op>) {
    forall i, j :: 0 <= i < j < |ops| && ops[i].Add? && ops[j].Add? ==> ops[i].r.stamp <= ops[j].r.stamp
  }

  lemma {:induction false} LogDescends(ops: seq<Op>, pid: nat)
    requires InTime(ops)
    ensures Descending(Log(ops, pid))
    ensures forall x :: x in Log(ops, pid) ==> Add(x) in ops
    decreases |ops|
  {
    if ops != [] {
      var before, op := ops[..|ops| - 1], ops[|ops| - 1];
      LogDescends(before, pid);
      var log := Log(before, pid);
      if op.Add? && op.r.pid == pid {
        forall i | 0 <= i < |log|
          ensures log[i].stamp <= op.r.stamp
        {
          assert Add(log[i]) in before;
        }
        assert op in ops;
      }
    }
  }

  lemma DescendingFirst(s: Vector, n: nat)
    requires Descending(s)
    ensures Descending(First(s, n))
  {
  }

  // Every vector is exactly the last records of its process, at most `max` of
  // them, newest first, since the process was last cleared or last changed.
  lemma {:induction false} HistoryIsWindow(ops: seq<Op>, pid: nat, max: nat)
    requires InTime(ops) && max >= 1
    ensures Replay([], ops, pid, max) == First(Log(ops, pid), max)
    decreases |ops|
  {
    hide Extended, Descending, First;
    if ops == [] {
      NothingFirst(max);
    } else {
      var before, op := ops[..|ops| - 1], ops[|ops| - 1];
      HistoryIsWindow(before, pid, max);
      LogDescends(ops, pid);
      if op.Add? && op.r.pid == pid {
        WindowSlides(Log(before, pid), op.r, max);
      } else if op.Clean? {
        NothingFirst(max);
      }
    }
  }

  lemma NothingFirst(max: nat)
    ensures First([], max) == []
  {
  }

  // One record more: the window slides over the log.
  lemma WindowSlides(log: Vector, r: ProcessRecord, max: nat)
    requires max >= 1
    requires log == [] || log[0].comm != r.comm || Descending([r] + log)
    ensures var log1 := if log != [] && log[0].comm != r.comm then [r] else [r] + log;
      Extended(First(log, max), r, max) == First(log1, max)
  {
    hide SortDesc, Descending;
    if log != [] && log[0].comm == r.comm {
      var s := [r] + First(log, max);
      assert s == First([r] + log, max + 1);
      DescendingFirst([r] + log, max + 1);
      SortDescends(s);
      assert |s| > max ==> First(s, max) == First([r] + log, max);
    }
  }

  // A bound of 0 is not kept: the first record of a process is stored anyway.
  // The histories are those windows on every run if and only if the bound is at
  // least 1.
  lemma HistoryWindowExactly(max: nat)
    ensures (forall ops, pid :: InTime(ops) ==> Replay([], ops, pid, max) == First(Log(ops, pid), max)) <==> max >= 1
  {
    hide Replay, Log;
    if max >= 1 {
      forall ops, pid | InTime(ops)
        ensures Replay([], ops, pid, max) == First(Log(ops, pid), max)
      {
        HistoryIsWindow(ops, pid, max);
      }
    } else {
      var r := ProcessRecord(0, "", 0, None);
      ZeroKeepsOne(r);
      assert InTime([Add(r)]);
    }
  }

  lemma ZeroKeepsOne(r: ProcessRecord)
    ensures Replay([], [Add(r)], r.pid, 0) == [r] != First(Log([Add(r)], r.pid), 0)
  {
    assert [Add(r)][..0] == [];
  }

  lemma {:induction false} LogAfter(start: seq<Op>, ops: seq<Op>, pid: nat)
    requires Log(start, pid) == []
    ensures Log(start + ops, pid) == Log(ops, pid)
    decreases |ops|
  {
    if ops == [] {
      assert start + ops == start;
    } else {
      LogAfter(start, ops[..|ops| - 1], pid);
      assert (start + ops)[..|start + ops| - 1] == start + ops[..|ops| - 1];
    }
  }

  // A process that is stopped or unknown at a cleanup has nothing but the
  // records added since, whatever there was before.
  lemma ClearedAtCleanup(before: seq<Op>, statuses: map<nat, ProcessStatus>, since: seq<Op>, pid: nat, max: nat)
    requires pid !in statuses || statuses[pid] == Stop
    requires InTime(before + [Clean(statuses)] + since) && max >= 1
    ensures Replay([], before + [Clean(statuses)] + since, pid, max) == Replay([], since, pid, max)
  {
    hide Replay;
    var start := before + [Clean(statuses)];
    assert start[..|before|] == before;
    LogAfter(start, since, pid);
    HistoryIsWindow(start + since, pid, max);
    assert InTime(since) by {
      assert forall i :: 0 <= i < |since| ==> since[i] == (start + since)[|start| + i];
    }
    HistoryIsWindow(since, pid, max);
  }

  // Records of one process under one executable, added one after another, are
  // its log in the reverse order; one under another executable starts it anew.
  lemma {:induction false} LogOfAdds(rs: seq<ProcessRecord>, pid: nat)
    requires forall i :: 0 <= i < |rs| ==> rs[i].pid == pid && rs[i].comm == rs[0].comm
    ensures |Log(Adds(rs), pid)| == |rs|
    ensures forall i :: 0 <= i < |rs| ==> Log(Adds(rs), pid)[i] == rs[|rs| - 1 - i]
    decreases |rs|
  {
    if rs != [] {
      var n := |rs| - 1;
      assert Adds(rs)[..n] == Adds(rs[..n]);
      LogOfAdds(rs[..n], pid);
    }
  }

  lemma LogRestarts(before: seq<Op>, r: ProcessRecord)
    requires Log(before, r.pid) != [] && Log(before, r.pid)[0].comm != r.comm
    ensures Log(before + [Add(r)], r.pid) == [r]
  {
    assert (before + [Add(r)])[..|before|] == before;
  }

  // ----- the two latest samples of a process

  // How much a process advanced on each CPU between two records; none if one of
  // them has no times, or they are of different numbers of CPUs.
  function PerCoreDelta(prev: Option<seq<u64>>, last: Option<seq<u64>>): (r: Option<seq<u64>>) {
    if prev == None || last == None || |prev.value| != |last.value| then None
    else Some(seq(|prev.value|, i requires 0 <= i < |prev.value| => WrapSub(last.value[i], prev.value[i])))
  }

  lemma WrapSubIs(a: u64, b: u64)
    ensures WrapSub(a, b) == if a >= b then a - b else a + TWO64 - b
  {
  }

  function LatestDelta(history: Vector): Option<seq<u64>> {
    if |history| < 2 then None else PerCoreDelta(history[1].coreTimes, history[0].coreTimes)
  }

  // Operations that are not about the process.
  predicate Untouched(ops: seq<Op>, pid: nat) {
    forall i :: 0 <= i < |ops| ==>
      match ops[i] case Add(r) => r.pid != pid case Clean(statuses) => Lives(statuses, pid)
  }

  lemma {:induction false} LogUntouched(before: seq<Op>, ops: seq<Op>, pid: nat)
    requires Untouched(ops, pid)
    ensures Log(before + ops, pid) == Log(before, pid)
    decreases |ops|
  {
    if ops == [] {
      assert before + ops == before;
    } else {
      LogUntouched(before, ops[..|ops| - 1], pid);
      assert (before + ops)[..|before + ops| - 1] == before + ops[..|ops| - 1];
    }
  }

  lemma LogAdd(before: seq<Op>, r: ProcessRecord)
    ensures Log(before + [Add(r)], r.pid) != [] && Log(before + [Add(r)], r.pid)[0] == r
    ensures var log := Log(before, r.pid);
      log != [] && log[0].comm == r.comm ==> Log(before + [Add(r)], r.pid) == [r] + log
  {
    assert (before + [Add(r)])[..|before|] == before;
  }

  // When two records of a running process are the latest two added for it, then
  // whatever else has happened to the tracker, it is by them that the process
  // advanced.
  lemma LatestTwo(start: seq<Op>, r1: ProcessRecord, mid: seq<Op>, r2: ProcessRecord, end: seq<Op>, max: nat)
    requires r1.pid == r2.pid && r1.comm == r2.comm && Untouched(mid, r1.pid) && Untouched(end, r1.pid) && max >= 2
    requires InTime(start + [Add(r1)] + mid + [Add(r2)] + end)
    ensures var h := Replay([], start + [Add(r1)] + mid + [Add(r2)] + end, r1.pid, max);
      |h| >= 2 && h[0] == r2 && h[1] == r1 && LatestDelta(h) == PerCoreDelta(r1.coreTimes, r2.coreTimes)
  {
    hide Log, Replay, PerCoreDelta;
    LogAdd(start, r1);
    LogUntouched(start + [Add(r1)], mid, r1.pid);
    LogAdd(start + [Add(r1)] + mid, r2);
    LogUntouched(start + [Add(r1)] + mid + [Add(r2)], end, r1.pid);
    HistoryIsWindow(start + [Add(r1)] + mid + [Add(r2)] + end, r1.pid, max);
  }
}
