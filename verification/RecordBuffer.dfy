/**
 The record buffers of the topology, its sockets, cores and domains.

 Every refresh appends a record and then removes records from the front. The
 removal loop runs from 1, so it removes one record less than it counted, yet
 over any number of refreshes the buffer is exactly a sliding window.
*/
module RecordBuffer {
  import opened Machine

  // `buffer_max_kbytes * 1000` in 16 bits.
  function Limit(kbytes: u16): u16 { (kbytes * 1000) % 0x1_0000 }

  // A kilobyte is 1000 bytes, as long as 16 bits hold them.
  lemma LimitInBytes(kbytes: u16)
    ensures Limit(kbytes) == kbytes * 1000 <==> kbytes <= 65
  {
  }

  // How many records a cleanup removes from a buffer of n records of r bytes.
  function Surplus(n: nat, r: nat, limit: nat): nat
    requires r > 0
  {
    if n * r > limit && n * r - limit > r then (n * r - limit) / r - 1 else 0
  }

  // The number of records that just fit: the largest w with w * r < limit + 2 * r.
  function Window(r: nat, limit: nat): nat
    requires r > 0
  {
    (limit + 2 * r - 1) / r
  }

  function Last<T>(s: seq<T>, n: nat): seq<T> {
    if |s| <= n then s else s[|s| - n..]
  }

  lemma LastIsAll<T>(s: seq<T>, n: nat)
    requires |s| <= n
    ensures Last(s, n) == s
  {
  }

  lemma LastSlides<T>(s: seq<T>, x: T, n: nat)
    requires n > 0
    ensures |Last(s, n)| == Min(|s|, n)
    ensures Last(s + [x], n) == if |s| < n then Last(s, n) + [x] else (Last(s, n) + [x])[1..]
  {
  }

  lemma DivisionBounds(d: nat, r: nat)
    requires r > 0
    ensures (d / r) * r <= d < (d / r + 1) * r
  {
    assert d == r * (d / r) + d % r;
  }

  lemma AtLeastOne(d: nat, r: nat)
    requires d > r > 0
    ensures d / r >= 1
  {
    DivisionBounds(d, r);
    Scale(d / r, 1, r);
  }

  lemma Scale(a: int, b: int, r: nat)
    requires r > 0
    ensures a < b <==> a * r < b * r
    ensures a <= b <==> a * r <= b * r
  {
    if a < b { ScaleUp(a, b, r); }
    if b < a { ScaleUp(b, a, r); }
  }

  lemma ScaleUp(a: int, b: int, r: nat)
    requires r > 0 && a < b
    ensures a * r < b * r
  {
    assert b * r - a * r == (b - a) * r;
    assert (b - a) * r >= 1 * r by { Grows(b - a, r); }
  }

  lemma Grows(k: int, r: nat)
    requires k >= 1
    ensures k * r >= r
  {
  }

  lemma WindowFits(r: nat, limit: nat, n: nat)
    requires r > 0
    ensures n <= Window(r, limit) <==> n * r < limit + 2 * r
  {
    var d, w := limit + 2 * r - 1, Window(r, limit);
    DivisionBounds(d, r);
    Scale(n, w, r);
    Scale(w + 1, n, r);
  }

  // A cleanup always leaves less than the limit and two records more, and one
  // that removes anything leaves at least the limit and one record.
  lemma SurplusLeaves(n: nat, r: nat, limit: nat)
    requires r > 0
    ensures Surplus(n, r, limit) <= n
    ensures (n - Surplus(n, r, limit)) * r < limit + 2 * r
    ensures Surplus(n, r, limit) > 0 ==> (n - Surplus(n, r, limit)) * r >= limit + r
  {
    if n * r > limit && n * r - limit > r {
      var d := n * r - limit;
      var q := d / r;
      DivisionBounds(d, r);
      Scale(q, n, r);
      assert (n - (q - 1)) * r == n * r - (q - 1) * r;
      assert (q + 1) * r == (q - 1) * r + 2 * r;
      assert q * r == (q - 1) * r + r;
      Scale(1, q + 1, r);
    }
  }

  function Cleaned<T>(s: seq<T>, r: nat, limit: nat): seq<T>
    requires r > 0
  {
    SurplusLeaves(|s|, r, limit);
    s[Surplus(|s|, r, limit)..]
  }

  // Whatever its length, a cleanup leaves the last two records alone, and with
  // them every power difference, if and only if the limit is not 0.
  lemma KeepsLastTwo<T>(s: seq<T>, r: nat, limit: nat)
    requires r > 0 && |s| >= 2
    ensures |Cleaned(s, r, limit)| >= 2 <==> limit > 0
    ensures limit > 0 ==> Last(Cleaned(s, r, limit), 2) == Last(s, 2)
  {
    var n := |Cleaned(s, r, limit)|;
    SurplusLeaves(|s|, r, limit);
    Scale(n, 1, r);
    if limit == 0 {
      ZeroLimit(|s|, r);
    }
  }

  lemma ZeroLimit(n: nat, r: nat)
    requires r > 0 && n >= 2
    ensures Surplus(n, r, 0) == n - 1
  {
    Scale(1, n, r);
    DivisionBounds(n * r, r);
    Scale(n * r / r, n, r);
    Scale(n, n * r / r + 1, r);
  }

  function Refreshed<T>(s: seq<T>, reading: Option<T>, r: nat, limit: nat): seq<T>
    requires r > 0
  {
    var s1 := if reading.Some? then s + [reading.value] else s;
    if s1 == [] then s1 else Cleaned(s1, r, limit)
  }

  class Buffer<T> {
    var records: seq<T>
    const recordSize: nat
    const maxKbytes: u16

    constructor (recordSize: nat, maxKbytes: u16)
      ensures records == [] && this.recordSize == recordSize && this.maxKbytes == maxKbytes
    {
      records := [];
      this.recordSize := recordSize;
      this.maxKbytes := maxKbytes;
    }

    // A reading that failed is only reported.
    method RefreshRecord(reading: Option<T>)
      requires recordSize > 0
      modifies this
      ensures records == Refreshed(old(records), reading, recordSize, Limit(maxKbytes))
    {
      if reading.Some? {
        records := records + [reading.value];
      }
      if records != [] {
        CleanOldRecords();
      }
    }

    method CleanOldRecords()
      requires recordSize > 0 && records != []
      modifies this
      ensures records == Cleaned(old(records), recordSize, Limit(maxKbytes))
    {
      var currSize := recordSize * |records|;
      var max := (maxKbytes * 1000) % 0x1_0000;
      SurplusLeaves(|records|, recordSize, max);
      if currSize > max {
        var sizeDiff := currSize - max;
        if sizeDiff > recordSize {
          var toDelete := sizeDiff / recordSize;
          AtLeastOne(sizeDiff, recordSize);
          RemoveOldest(1, toDelete);
        }
      }
    }

    method RemoveOldest(from: nat, to: nat)
      requires from <= to && to - from <= |records|
      modifies this`records
      ensures records == old(records)[to - from..]
    {
      var i := from;
      while i < to
        invariant from <= i <= to && records == old(records)[i - from..]
      {
        if records != [] {
          records := records[1..];
        }
        i := i + 1;
      }
    }

    // The topology compares the low 16 bits of the size.
    method TopologyCleanOldRecords()
      requires recordSize > 0 && records != []
      modifies this
      ensures records == TopologyCleaned(old(records), recordSize, Limit(maxKbytes))
    {
      var currSize := recordSize * |records|;
      var max := (maxKbytes * 1000) % 0x1_0000;
      SurplusLeaves(|records|, recordSize, max);
      if currSize % 0x1_0000 > max {
        var sizeDiff := currSize - max;
        if sizeDiff > recordSize {
          var toDelete := sizeDiff / recordSize;
          AtLeastOne(sizeDiff, recordSize);
          RemoveOldest(1, toDelete);
        }
      }
    }

    method TopologyRefreshRecord(reading: Option<T>)
      requires recordSize > 0
      modifies this
      ensures records == TopologyRefreshed(old(records), reading, recordSize, Limit(maxKbytes))
    {
      if reading.Some? {
        records := records + [reading.value];
      }
      if records != [] {
        TopologyCleanOldRecords();
      }
    }

    method RefreshCpuTimeRecord(x: T)
      requires recordSize > 0
      modifies this
      ensures records == CpuTimeRefreshed(old(records), x, recordSize, Limit(maxKbytes))
    {
      records := records + [x];
      var currSize := recordSize * |records|;
      var max := (maxKbytes * 1000) % 0x1_0000;
      CpuTimeSurplusLeaves(|records|, recordSize, max);
      if currSize > max {
        var sizeDiff := currSize - max;
        if sizeDiff > recordSize {
          RemoveOldest(0, sizeDiff / recordSize);
        }
      }
    }
  }

  // ----- over any number of refreshes

  function Readings<T>(log: seq<Option<T>>): seq<T> {
    if log == [] then []
    else Readings(log[..|log| - 1]) + if log[|log| - 1].Some? then [log[|log| - 1].value] else []
  }

  // Exactly what could be read, in order.
  lemma {:induction false} ReadingsAre<T>(a: seq<Option<T>>, x: T, b: seq<Option<T>>)
    ensures Readings<T>([]) == [] == Readings<T>([None]) && Readings([Some(x)]) == [x]
    ensures Readings(a + b) == Readings(a) + Readings(b)
    decreases |b|
  {
    OneReading(x);
    if b == [] {
      assert a + b == a;
    } else {
      var n := |b| - 1;
      ReadingsAre(a, x, b[..n]);
      assert (a + b)[..|a + b| - 1] == a + b[..n];
    }
  }

  lemma OneReading<T>(x: T)
    ensures Readings<T>([]) == [] == Readings<T>([None]) && Readings([Some(x)]) == [x]
  {
    var one: seq<Option<T>> := [Some(x)];
    var none: seq<Option<T>> := [None];
    assert one[..0] == [] && none[..0] == [];
  }

  function AfterRefreshes<T>(log: seq<Option<T>>, r: nat, limit: nat): seq<T>
    requires r > 0
  {
    if log == [] then [] else Refreshed(AfterRefreshes(log[..|log| - 1], r, limit), log[|log| - 1], r, limit)
  }

  lemma WindowNeedsNoCleanup(n: nat, r: nat, limit: nat)
    requires r > 0 && n <= Window(r, limit)
    ensures Surplus(n, r, limit) == 0
  {
    WindowFits(r, limit, n);
    if n * r > limit && n * r - limit > r {
      var d := n * r - limit;
      DivisionBounds(d, r);
      Scale(d / r, 2, r);
    }
  }

  lemma OneTooMany(r: nat, limit: nat)
    requires r > 0
    ensures Surplus(Window(r, limit) + 1, r, limit) == 1
    ensures limit + 2 * r <= (Window(r, limit) + 1) * r < limit + 3 * r
  {
    var n := Window(r, limit) + 1;
    WindowFits(r, limit, n);
    WindowFits(r, limit, n - 1);
    assert n * r == (n - 1) * r + r;
    var d := n * r - limit;
    DivisionBounds(d, r);
    Scale(d / r, 3, r);
    Scale(2, d / r + 1, r);
  }

  // The buffer is exactly the last records read, as many as the window holds.
  lemma {:induction false} BufferIsWindow<T>(log: seq<Option<T>>, r: nat, limit: nat)
    requires r > 0
    ensures AfterRefreshes(log, r, limit) == Last(Readings(log), Window(r, limit))
    decreases |log|
  {
    hide Window, Surplus;
    if log != [] {
      var before, reading := log[..|log| - 1], log[|log| - 1];
      BufferIsWindow(before, r, limit);
      var w, s := Window(r, limit), AfterRefreshes(before, r, limit);
      var s1 := if reading.Some? then s + [reading.value] else s;
      if |s1| <= w {
        WindowNeedsNoCleanup(|s1|, r, limit);
        assert s1 == Last(Readings(log), w);
      } else {
        OneTooMany(r, limit);
        assert s1[1..] == Last(Readings(log), w);
      }
    }
  }

  // The buffer keeps within its limit if and only if all records ever read
  // would: a cleanup never brings it back there.
  lemma BufferWithinLimit<T>(log: seq<Option<T>>, r: nat, limit: nat)
    requires r > 0
    ensures |AfterRefreshes(log, r, limit)| * r <= limit <==> |Readings(log)| * r <= limit
  {
    hide AfterRefreshes, Readings, Window;
    BufferIsWindow(log, r, limit);
    var w, n := Window(r, limit), |Readings(log)|;
    if n > w {
      OneTooMany(r, limit);
      assert w * r == (w + 1) * r - r;
      Scale(w, n, r);
    }
  }

  // ----- the topology's own buffer

  function TopologyCleaned<T>(s: seq<T>, r: nat, limit: nat): seq<T>
    requires r > 0
  {
    if (|s| * r) % 0x1_0000 > limit then Cleaned(s, r, limit) else s
  }

  function TopologyRefreshed<T>(s: seq<T>, reading: Option<T>, r: nat, limit: nat): seq<T>
    requires r > 0
  {
    var s1 := if reading.Some? then s + [reading.value] else s;
    if s1 == [] then s1 else TopologyCleaned(s1, r, limit)
  }

  function AfterTopologyRefreshes<T>(log: seq<Option<T>>, r: nat, limit: nat): seq<T>
    requires r > 0
  {
    if log == [] then []
    else TopologyRefreshed(AfterTopologyRefreshes(log[..|log| - 1], r, limit), log[|log| - 1], r, limit)
  }

  // The cleanup is triggered at the size where it is due.
  predicate Triggered(r: nat, limit: nat)
    requires r > 0
  {
    ((Window(r, limit) + 1) * r) % 0x1_0000 > limit
  }

  lemma TopologyCleansAlike<T>(s: seq<T>, r: nat, limit: nat)
    requires r > 0 && Triggered(r, limit) && |s| <= Window(r, limit) + 1
    ensures TopologyCleaned(s, r, limit) == Cleaned(s, r, limit)
  {
    hide Window, Surplus;
    if |s| <= Window(r, limit) {
      WindowNeedsNoCleanup(|s|, r, limit);
    }
  }

  // As long as the low 16 bits of the size of one record more than the window
  // still exceed the limit, cutting the size to 16 bits changes nothing.
  lemma {:induction false} TopologyIsWindow<T>(log: seq<Option<T>>, r: nat, limit: nat)
    requires r > 0 && Triggered(r, limit)
    ensures AfterTopologyRefreshes(log, r, limit) == AfterRefreshes(log, r, limit) == Last(Readings(log), Window(r, limit))
    decreases |log|
  {
    hide Window, Cleaned, Readings, TopologyCleaned, Triggered;
    BufferIsWindow(log, r, limit);
    if log != [] {
      var before, reading := log[..|log| - 1], log[|log| - 1];
      TopologyIsWindow(before, r, limit);
      var s := AfterRefreshes(before, r, limit);
      var s1 := if reading.Some? then s + [reading.value] else s;
      TopologyCleansAlike(s1, r, limit);
    }
  }

  function Repeat<T>(x: T, n: nat): (log: seq<Option<T>>)
    ensures |log| == n && forall i :: 0 <= i < n ==> log[i] == Some(x)
  {
    seq(n, _ => Some(x))
  }

  lemma {:induction false} TopologyFills<T>(x: T, n: nat, r: nat, limit: nat)
    requires r > 0 && n <= Window(r, limit)
    ensures |AfterTopologyRefreshes(Repeat(x, n), r, limit)| == n == |Readings(Repeat(x, n))|
  {
    hide Window, Surplus;
    if n > 0 {
      assert Repeat(x, n)[..n - 1] == Repeat(x, n - 1);
      TopologyFills(x, n - 1, r, limit);
      WindowNeedsNoCleanup(n, r, limit);
    }
  }

  lemma TopologyOverflows<T>(x: T, r: nat, limit: nat)
    requires r > 0 && !Triggered(r, limit)
    ensures var log := Repeat(x, Window(r, limit) + 1);
      AfterTopologyRefreshes(log, r, limit) != Last(Readings(log), Window(r, limit))
  {
    hide Window, Surplus;
    var w := Window(r, limit);
    var log := Repeat(x, w + 1);
    assert log[..w] == Repeat(x, w);
    TopologyFills(x, w, r, limit);
    assert |AfterTopologyRefreshes(log, r, limit)| == w + 1;
  }

  // The topology's buffer is the same window on every run if and only if that
  // is so.
  lemma TopologyWindowExactly(r: nat, limit: nat)
    requires r > 0
    ensures (forall log: seq<Option<nat>> ::
               AfterTopologyRefreshes(log, r, limit) == Last(Readings(log), Window(r, limit)))
            <==> Triggered(r, limit)
  {
    hide Window, AfterTopologyRefreshes, Readings, Triggered;
    if Triggered(r, limit) {
      forall log: seq<Option<nat>>
        ensures AfterTopologyRefreshes(log, r, limit) == Last(Readings(log), Window(r, limit))
      {
        TopologyIsWindow(log, r, limit);
      }
    } else {
      TopologyOverflows<nat>(0, r, limit);
      var log: seq<Option<nat>> := Repeat(0, Window(r, limit) + 1);
      assert AfterTopologyRefreshes(log, r, limit) != Last(Readings(log), Window(r, limit));
    }
  }

  // A topology is created with a limit of one kilobyte, which is far enough
  // away from 64 KiB for any realistic record: the size is never cut at all.
  lemma TopologyLossless<T>(log: seq<Option<T>>, r: nat)
    requires 0 < r <= 21512
    ensures AfterTopologyRefreshes(log, r, Limit(1)) == Last(Readings(log), Window(r, Limit(1)))
    ensures (|AfterTopologyRefreshes(log, r, Limit(1))| + 1) * r < 0x1_0000
  {
    hide Window, AfterTopologyRefreshes, Readings, Limit, Last, Triggered;
    OneKilobyte();
    OneTooMany(r, Limit(1));
    TriggeredBelow(r, Limit(1));
    TopologyIsWindow(log, r, Limit(1));
    LastFits(Readings(log), Window(r, Limit(1)));
    Scale(|AfterTopologyRefreshes(log, r, Limit(1))| + 1, Window(r, Limit(1)) + 1, r);
  }

  lemma OneKilobyte()
    ensures Limit(1) == 1000
  {
  }

  lemma LastFits<T>(s: seq<T>, n: nat)
    ensures |Last(s, n)| <= n
  {
  }

  lemma TriggeredBelow(r: nat, limit: nat)
    requires r > 0 && (Window(r, limit) + 1) * r < 0x1_0000
    ensures Triggered(r, limit)
  {
    hide Window;
    OneTooMany(r, limit);
  }

  // ----- the buffer of CPU_TIME records

  // Its removal loop starts from 0.
  function CpuTimeSurplus(n: nat, r: nat, limit: nat): nat
    requires r > 0
  {
    if n * r > limit && n * r - limit > r then (n * r - limit) / r else 0
  }

  function CpuTimeWindow(r: nat, limit: nat): nat
    requires r > 0
  {
    limit / r + 1
  }

  lemma CpuTimeSurplusLeaves(n: nat, r: nat, limit: nat)
    requires r > 0
    ensures CpuTimeSurplus(n, r, limit) <= n
  {
    if n * r > limit && n * r - limit > r {
      var q := (n * r - limit) / r;
      DivisionBounds(n * r - limit, r);
      Scale(q, n, r);
    }
  }

  // Nothing goes while the window holds; one record more costs one record, or
  // two if the limit is a whole number of records.
  lemma CpuTimeSurplusNear(n: nat, r: nat, limit: nat)
    requires r > 0
    ensures n <= CpuTimeWindow(r, limit) ==> CpuTimeSurplus(n, r, limit) == 0
    ensures n == CpuTimeWindow(r, limit) + 1 ==> CpuTimeSurplus(n, r, limit) == if limit % r == 0 then 2 else 1
  {
    var q := limit / r;
    DivisionBounds(limit, r);
    assert limit == q * r + limit % r;
    assert (q + 1) * r == q * r + r && (q + 2) * r == q * r + 2 * r;
    Scale(n, q + 1, r);
    if n == q + 2 {
      var d := n * r - limit;
      DivisionBounds(d, r);
      Scale(d / r, 3, r);
      Scale(2, d / r, r);
      Scale(1, d / r, r);
      Scale(d / r, 2, r);
    }
  }

  function CpuTimeRefreshed<T>(s: seq<T>, x: T, r: nat, limit: nat): seq<T>
    requires r > 0
  {
    CpuTimeSurplusLeaves(|s| + 1, r, limit);
    (s + [x])[CpuTimeSurplus(|s| + 1, r, limit)..]
  }

  function AfterCpuTimes<T>(log: seq<T>, r: nat, limit: nat): seq<T>
    requires r > 0
  {
    if log == [] then [] else CpuTimeRefreshed(AfterCpuTimes(log[..|log| - 1], r, limit), log[|log| - 1], r, limit)
  }

  lemma CpuTimeStep<T>(s: seq<T>, x: T, r: nat, limit: nat)
    requires r > 0 && |s| <= CpuTimeWindow(r, limit)
    ensures CpuTimeRefreshed(s, x, r, limit) ==
            if |s| < CpuTimeWindow(r, limit) then s + [x] else if limit % r == 0 then (s + [x])[2..] else (s + [x])[1..]
  {
    hide CpuTimeSurplus;
    CpuTimeSurplusNear(|s| + 1, r, limit);
  }

  lemma {:induction false} CpuTimesAreWindow<T>(log: seq<T>, r: nat, limit: nat)
    requires r > 0
    requires limit % r != 0 || |log| <= CpuTimeWindow(r, limit)
    ensures AfterCpuTimes(log, r, limit) == Last(log, CpuTimeWindow(r, limit))
    decreases |log|
  {
    hide CpuTimeRefreshed, Last;
    if log != [] {
      var before, x, w := log[..|log| - 1], log[|log| - 1], CpuTimeWindow(r, limit);
      CpuTimesAreWindow(before, r, limit);
      LastSlides(before, x, w);
      CpuTimeStep(Last(before, w), x, r, limit);
      assert before + [x] == log;
    } else {
      LastIsAll(log, CpuTimeWindow(r, limit));
    }
  }

  // This buffer is a sliding window on every run if and only if its limit is
  // not a whole number of records.
  lemma CpuTimeWindowExactly(r: nat, limit: nat)
    requires r > 0
    ensures (forall log: seq<nat> :: AfterCpuTimes(log, r, limit) == Last(log, CpuTimeWindow(r, limit)))
            <==> limit % r != 0
  {
    hide CpuTimeRefreshed, Last;
    var w := CpuTimeWindow(r, limit);
    if limit % r != 0 {
      forall log: seq<nat>
        ensures AfterCpuTimes(log, r, limit) == Last(log, w)
      {
        CpuTimesAreWindow(log, r, limit);
      }
    } else {
      var log := seq(w + 1, _ => 0);
      CpuTimeSkips(log, w, r, limit);
    }
  }

  lemma CpuTimeSkips(log: seq<nat>, w: nat, r: nat, limit: nat)
    requires r > 0 && limit % r == 0 && w == CpuTimeWindow(r, limit) && |log| == w + 1
    ensures |AfterCpuTimes(log, r, limit)| == w - 1 < |Last(log, w)|
  {
    hide CpuTimeRefreshed;
    CpuTimesAreWindow(log[..w], r, limit);
    CpuTimeStep(log[..w], log[w], r, limit);
  }

  lemma CpuTimeKeeps(n: nat, r: nat, limit: nat)
    requires limit > r > 0 && n >= 2
    ensures CpuTimeSurplus(n, r, limit) <= n - 2
  {
    if n * r > limit && n * r - limit > r {
      var q := (n * r - limit) / r;
      DivisionBounds(n * r - limit, r);
      assert (n - q) * r == n * r - q * r;
      Scale(1, n - q, r);
    }
  }

  // What stays is the end of what was read, with the last two records.
  lemma {:induction false} CpuTimesEnd<T>(log: seq<T>, r: nat, limit: nat)
    requires limit > r > 0
    ensures var s := AfterCpuTimes(log, r, limit);
      Min(2, |log|) <= |s| <= |log| && s == log[|log| - |s|..]
    decreases |log|
  {
    hide CpuTimeSurplus;
    if log != [] {
      var before := log[..|log| - 1];
      CpuTimesEnd(before, r, limit);
      var n := |AfterCpuTimes(before, r, limit)| + 1;
      CpuTimeSurplusLeaves(n, r, limit);
      if n >= 2 {
        CpuTimeKeeps(n, r, limit);
      } else {
        AloneStays(r, limit);
      }
    }
  }

  lemma AloneStays(r: nat, limit: nat)
    requires limit > r > 0
    ensures CpuTimeSurplus(1, r, limit) == 0
  {
  }

  ghost predicate KeepsTwo<T>(s: seq<T>, log: seq<T>) {
    |log| >= 2 ==> |s| >= 2 && Last(s, 2) == Last(log, 2)
  }

  // The CPU_TIME buffer keeps its last two records, and with them every
  // difference, on every run if and only if its limit is above one record.
  lemma CpuTimesKeepTwo(r: nat, limit: nat)
    requires r > 0
    ensures (forall log: seq<nat> :: KeepsTwo(AfterCpuTimes(log, r, limit), log)) <==> limit > r
  {
    hide AfterCpuTimes;
    if limit > r {
      forall log: seq<nat>
        ensures KeepsTwo(AfterCpuTimes(log, r, limit), log)
      {
        CpuTimesEnd(log, r, limit);
      }
    } else {
      var w := CpuTimeWindow(r, limit);
      var log := seq(w + 1, _ => 0);
      NarrowWindow(r, limit);
      if limit % r == 0 {
        CpuTimeSkips(log, w, r, limit);
      } else {
        CpuTimesAreWindow(log, r, limit);
      }
      assert !KeepsTwo(AfterCpuTimes(log, r, limit), log);
    }
  }

  lemma NarrowWindow(r: nat, limit: nat)
    requires limit <= r && r > 0
    ensures 1 <= CpuTimeWindow(r, limit) <= if limit % r == 0 then 2 else 1
  {
    DivisionBounds(limit, r);
    Scale(limit / r, 2, r);
    if limit == r { assert limit % r == 0; } else { Scale(limit / r, 1, r); }
  }
}
