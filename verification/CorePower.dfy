/**
 From the power of a socket's CPU domain to the power of each core.

 A core's coefficient is (1 + IPC) * APERF * APERF / MPERF; a socket's power
 is split over its cores in proportion, and the lists of all sockets are merged
 and sorted by core id, apart from the list of the cores themselves.
*/
module CorePower {
  import opened Machine
  import opened Sorting

  // Counter differences of a core over the last interval.
  datatype CoreMetrics = CoreMetrics(ipc: real, aperf: u64, mperf: u64, tsc: u64) {
    // MPERF runs whenever the time stamp counter does; otherwise the source
    // divides by 0.
    predicate Defined() { tsc > 0 ==> mperf > 0 }

    // The instructions per cycle, which multiplexed counters can turn negative,
    // stay above -1 on a core that has worked.
    predicate Sane() { Defined() && (tsc > 0 && aperf > 0 ==> ipc >= -1.0) }
  }

  // A core and its metrics; a core read fewer than twice has none.
  type Keyed<T> = (u16, T)
  type Core = Keyed<Option<CoreMetrics>>

  // `conso` is the power of the CPU domain, or of the package without one.
  datatype Socket = Socket(cores: seq<Core>, conso: Option<real>) {
    predicate Defined() {
      forall i :: 0 <= i < |cores| && cores[i].1.Some? ==> cores[i].1.value.Defined()
    }

    predicate Sane() {
      && (forall i :: 0 <= i < |cores| && cores[i].1.Some? ==> cores[i].1.value.Sane())
      && (conso.Some? ==> conso.value >= 0.0)
    }
  }

  // ----- sorting by id

  function ById<T>(x: Keyed<T>): int { x.0 }

  function SortById<T>(s: seq<Keyed<T>>): seq<Keyed<T>> { Sort(s, ById<T>) }

  ghost predicate UniqueIds<T>(s: seq<Keyed<T>>) {
    forall i, j :: 0 <= i < j < |s| ==> s[i].0 != s[j].0
  }

  // A permutation in the order of the ids, and of distinct ids the i-th smallest
  // at position i.
  lemma SortRanks<T>(s: seq<Keyed<T>>)
    ensures multiset(SortById(s)) == multiset(s) && |SortById(s)| == |s|
    ensures forall i :: 0 <= i < |SortById(s)| ==> SortById(s)[i] in s
    ensures forall i, j :: 0 <= i < j < |SortById(s)| ==> SortById(s)[i].0 <= SortById(s)[j].0
    ensures UniqueIds(s) ==> forall i, j :: 0 <= i < j < |SortById(s)| ==> SortById(s)[i].0 < SortById(s)[j].0
  {
    hide Sort;
    var r := SortById(s);
    SortSorts(s, ById<T>);
    SortPermutes(s, ById<T>);
    SortMembers(s, ById<T>);
    forall i, j | 0 <= i < j < |r|
      ensures r[i].0 <= r[j].0
    {
      assert ById(r[i]) <= ById(r[j]);
    }
    if UniqueIds(s) {
      assert UniqueKeys(s, ById<T>) by {
        assert forall i, j :: 0 <= i < j < |s| ==> ById(s[i]) != ById(s[j]);
      }
      Sorting.SortRanks(s, ById<T>);
      forall i, j | 0 <= i < j < |r|
        ensures r[i].0 < r[j].0
      {
        assert ById(r[i]) < ById(r[j]);
      }
    }
  }

  // ----- payloads travel with their keys

  function Pair<A, B>(a: seq<Keyed<A>>, b: seq<B>): seq<Keyed<(A, B)>>
    requires |a| == |b|
  {
    seq(|a|, i requires 0 <= i < |a| => (a[i].0, (a[i].1, b[i])))
  }

  function Firsts<A, B>(s: seq<Keyed<(A, B)>>): (r: seq<Keyed<A>>)
    ensures |r| == |s| && forall i :: 0 <= i < |s| ==> r[i] == (s[i].0, s[i].1.0)
  {
    seq(|s|, i requires 0 <= i < |s| => (s[i].0, s[i].1.0))
  }

  function Seconds<A, B>(s: seq<Keyed<(A, B)>>): (r: seq<Keyed<B>>)
    ensures |r| == |s| && forall i :: 0 <= i < |s| ==> r[i] == (s[i].0, s[i].1.1)
  {
    seq(|s|, i requires 0 <= i < |s| => (s[i].0, s[i].1.1))
  }

  function Keys<T>(s: seq<Keyed<T>>): (r: seq<u16>)
    ensures |r| == |s| && forall i :: 0 <= i < |s| ==> r[i] == s[i].0
  {
    seq(|s|, i requires 0 <= i < |s| => s[i].0)
  }

  function Values<T>(s: seq<Keyed<T>>): (r: seq<T>)
    ensures |r| == |s| && forall i :: 0 <= i < |s| ==> r[i] == s[i].1
  {
    seq(|s|, i requires 0 <= i < |s| => s[i].1)
  }

  function ToFirst<A, B>(x: Keyed<(A, B)>): Keyed<A> { (x.0, x.1.0) }

  function ToSecond<A, B>(x: Keyed<(A, B)>): Keyed<B> { (x.0, x.1.1) }

  // Sorting two lists that hang on the same keys keeps them aligned.
  lemma SortProjects<A, B>(s: seq<Keyed<(A, B)>>)
    ensures Firsts(SortById(s)) == SortById(Firsts(s))
    ensures Seconds(SortById(s)) == SortById(Seconds(s))
  {
    hide Sort;
    SortMaps(s, ToFirst<A, B>, ById<(A, B)>, ById<A>);
    SortMaps(s, ToSecond<A, B>, ById<(A, B)>, ById<B>);
    assert Mapped(s, ToFirst<A, B>) == Firsts(s) && Mapped(SortById(s), ToFirst<A, B>) == Firsts(SortById(s));
    assert Mapped(s, ToSecond<A, B>) == Seconds(s) && Mapped(SortById(s), ToSecond<A, B>) == Seconds(SortById(s));
  }

  // ----- one socket

  function Coef(c: Core): real
    requires c.1.Some? ==> c.1.value.Defined()
  {
    match c.1
    case None => 0.0
    case Some(m) =>
      if m.tsc > 0 then (1.0 + m.ipc) * (m.aperf as real) * (m.aperf as real / m.mperf as real) else 0.0
  }

  function Cores(s: Socket): seq<Core> { SortById(s.cores) }

  function Coefs(s: Socket): (r: seq<real>)
    requires s.Defined()
    ensures |r| == |s.cores|
  {
    SortRanks(s.cores);
    var cores := Cores(s);
    MetricsAfterSort(s);
    seq(|cores|, i requires 0 <= i < |cores| => Coef(cores[i]))
  }

  lemma MetricsAfterSort(s: Socket)
    ensures s.Defined() ==>
      forall i :: 0 <= i < |Cores(s)| && Cores(s)[i].1.Some? ==> Cores(s)[i].1.value.Defined()
    ensures s.Sane() ==> forall i :: 0 <= i < |Cores(s)| && Cores(s)[i].1.Some? ==> Cores(s)[i].1.value.Sane()
    ensures s.Sane() ==> s.Defined()
  {
    SortRanks(s.cores);
    assert forall i :: 0 <= i < |Cores(s)| ==> Cores(s)[i] in s.cores;
  }

  function Proportions(coefs: seq<real>): (r: seq<real>)
    ensures |r| == |coefs|
  {
    var total := Sum(coefs);
    seq(|coefs|, i requires 0 <= i < |coefs| => if total != 0.0 then coefs[i] / total else 0.0)
  }

  // Power of each core, in the order of `Cores`.
  function Powers(s: Socket): (r: Option<seq<real>>)
    requires s.Defined()
    ensures r.Some? <==> s.conso.Some?
    ensures r.Some? ==> |r.value| == |s.cores|
  {
    match s.conso
    case None => None
    case Some(conso) =>
      var ps := Proportions(Coefs(s));
      Some(seq(|ps|, i requires 0 <= i < |ps| => ps[i] * conso))
  }

  lemma CoefsNonNegative(s: Socket)
    requires s.Defined()
    ensures s.Sane() ==> forall i :: 0 <= i < |Coefs(s)| ==> Coefs(s)[i] >= 0.0
  {
    SortRanks(s.cores);
    MetricsAfterSort(s);
    if s.Sane() {
      forall i | 0 <= i < |Coefs(s)|
        ensures Coefs(s)[i] >= 0.0
      {
        CoefNonNegative(Cores(s)[i]);
      }
    }
  }

  // A coefficient is non-negative exactly for sane metrics.
  lemma CoefNonNegative(c: Core)
    requires c.1.Some? ==> c.1.value.Defined()
    ensures Coef(c) >= 0.0 <==> c.1.None? || c.1.value.Sane()
  {
    if c.1.Some? && c.1.value.tsc > 0 {
      var m := c.1.value;
      var a, b := m.aperf as real, m.mperf as real;
      Ratio(a, b);
      assert Coef(c) == ((1.0 + m.ipc) * a) * (a / b);
      CoefSign(1.0 + m.ipc, a, a / b);
    }
  }

  lemma Ratio(a: real, b: real)
    requires a >= 0.0 && b > 0.0
    ensures a / b >= 0.0 && (a > 0.0 ==> a / b > 0.0)
  {
  }

  lemma CoefSign(i: real, a: real, q: real)
    requires a >= 0.0 && q >= 0.0 && (a > 0.0 ==> q > 0.0)
    ensures (i * a) * q >= 0.0 <==> a == 0.0 || i >= 0.0
  {
    if a > 0.0 {
      if i >= 0.0 {
        ProductNonNegative(i, a);
        ProductNonNegative(i * a, q);
      } else {
        ProductNegative(i, a);
        ProductNegative(i * a, q);
      }
    }
  }

  lemma ProductNegative(a: real, b: real)
    requires a < 0.0 && b > 0.0
    ensures a * b < 0.0
  {
  }

  // The value of a coefficient: the square of APERF by MPERF, and as much again
  // for every instruction per cycle. It is 0 without metrics and for a core that
  // did not run.
  lemma CoefIs(c: Core)
    requires c.1.Some? ==> c.1.value.Defined()
    ensures c.1 == None ==> Coef(c) == 0.0
    ensures c.1.Some? ==>
      var m := c.1.value;
      if m.tsc == 0 then Coef(c) == 0.0
      else Coef(c) * m.mperf as real == m.aperf as real * m.aperf as real * (1.0 + m.ipc)
  {
    if c.1.Some? && c.1.value.tsc > 0 {
      var m := c.1.value;
      CoefTimes(1.0 + m.ipc, m.aperf as real, m.mperf as real);
    }
  }

  lemma CoefTimes(i: real, a: real, b: real)
    requires b > 0.0
    ensures (i * a * (a / b)) * b == a * a * i
  {
    var q := a / b;
    assert q * b == a;
    assert (i * a * q) * b == i * a * (q * b);
  }

  // For example, at one instruction per cycle.
  lemma CoefAtOnePoint()
    ensures Coef((0, Some(CoreMetrics(1.0, 6, 4, 1)))) == 18.0
  {
    assert 6.0 / 4.0 == 1.5;
  }

  lemma ProductNonNegative(a: real, b: real)
    requires a >= 0.0 && b >= 0.0
    ensures a * b >= 0.0
  {
  }

  lemma QuotientNonNegative(a: real, b: real)
    requires a >= 0.0 && b > 0.0
    ensures a / b >= 0.0
  {
  }

  lemma ShareOf(c: real, total: real)
    requires total != 0.0
    ensures c / total == (1.0 / total) * c
    ensures 0.0 <= c <= total ==> 0.0 <= c / total <= 1.0
    ensures total / total == 1.0 && (c / total) * total == c
  {
  }

  // Each share is in proportion to its own coefficient, so that they sum to 1, or
  // all are 0, whatever the coefficients; those of non-negative coefficients lie
  // between 0 and 1.
  lemma ProportionsSumToOne(coefs: seq<real>)
    ensures Sum(Proportions(coefs)) == if Sum(coefs) != 0.0 then 1.0 else 0.0
    ensures Sum(coefs) == 0.0 ==> forall i :: 0 <= i < |coefs| ==> Proportions(coefs)[i] == 0.0
    ensures Sum(coefs) != 0.0 ==> forall i :: 0 <= i < |coefs| ==> Proportions(coefs)[i] * Sum(coefs) == coefs[i]
    ensures (forall i :: 0 <= i < |coefs| ==> coefs[i] >= 0.0) ==>
      forall i :: 0 <= i < |coefs| ==> 0.0 <= Proportions(coefs)[i] <= 1.0
  {
    hide Sum, Proportions;
    var total, ps := Sum(coefs), Proportions(coefs);
    var inverse := if total != 0.0 then 1.0 / total else 0.0;
    forall i | 0 <= i < |coefs|
      ensures ps[i] == inverse * coefs[i] && (total == 0.0 ==> ps[i] == 0.0)
      ensures total != 0.0 ==> ps[i] * total == coefs[i]
      ensures 0.0 <= coefs[i] <= total ==> 0.0 <= ps[i] <= 1.0
    {
      ShareAt(coefs, i);
    }
    SumScale(coefs, ps, inverse);
    if total != 0.0 { ShareOf(total, total); }
    if forall i :: 0 <= i < |coefs| ==> coefs[i] >= 0.0 { SumNonNegative(coefs); }
  }

  lemma ShareAt(coefs: seq<real>, i: nat)
    requires i < |coefs|
    ensures var total, p := Sum(coefs), Proportions(coefs)[i];
      && p == (if total != 0.0 then 1.0 / total else 0.0) * coefs[i] && (total == 0.0 ==> p == 0.0)
      && (total != 0.0 ==> p * total == coefs[i])
      && (0.0 <= coefs[i] <= total ==> 0.0 <= p <= 1.0)
  {
    hide Sum;
    if Sum(coefs) != 0.0 { ShareOf(coefs[i], Sum(coefs)); }
  }

  // Core powers add up to the power of the domain, unless no core did any work,
  // when they are all 0; on a sane socket none is negative.
  lemma CorePowersConserve(s: Socket)
    requires s.Defined() && s.conso.Some?
    ensures Sum(Powers(s).value) == if Sum(Coefs(s)) != 0.0 then s.conso.value else 0.0
    ensures s.Sane() ==> forall i :: 0 <= i < |Powers(s).value| ==> Powers(s).value[i] >= 0.0
  {
    hide Sum, Coefs, Proportions;
    CoefsNonNegative(s);
    ProportionsSumToOne(Coefs(s));
    var ps, conso := Proportions(Coefs(s)), s.conso.value;
    SumScale(ps, Powers(s).value, conso);
    if s.Sane() {
      forall i | 0 <= i < |ps|
        ensures Powers(s).value[i] >= 0.0
      {
        ProductNonNegative(ps[i], conso);
      }
    }
  }

  // ----- all sockets

  predicate AllDefined(sockets: seq<Socket>) {
    forall i :: 0 <= i < |sockets| ==> sockets[i].Defined()
  }

  predicate AllSane(sockets: seq<Socket>) {
    forall i :: 0 <= i < |sockets| ==> sockets[i].Sane()
  }

  lemma SaneIsDefined(sockets: seq<Socket>)
    ensures AllSane(sockets) ==> AllDefined(sockets)
  {
  }

  predicate AllRead(sockets: seq<Socket>) {
    forall i :: 0 <= i < |sockets| ==> sockets[i].conso.Some?
  }

  // Every core with its power, socket by socket.
  function Merged(sockets: seq<Socket>): seq<Keyed<(Option<CoreMetrics>, real)>>
    requires AllDefined(sockets) && AllRead(sockets)
  {
    if sockets == [] then []
    else
      var s := sockets[|sockets| - 1];
      SortRanks(s.cores);
      Merged(sockets[..|sockets| - 1]) + Pair(Cores(s), Powers(s).value)
  }

  function MergedCores(sockets: seq<Socket>): seq<Core> {
    if sockets == [] then [] else MergedCores(sockets[..|sockets| - 1]) + Cores(sockets[|sockets| - 1])
  }

  // The cores of the host, and their powers, each list sorted on its own.
  function HostCores(sockets: seq<Socket>): seq<Core> { SortById(MergedCores(sockets)) }

  function HostPowers(sockets: seq<Socket>): (r: Option<seq<real>>)
    requires AllDefined(sockets)
    ensures r.Some? <==> AllRead(sockets)
  {
    if AllRead(sockets) then Some(Values(SortById(Seconds(Merged(sockets))))) else None
  }

  lemma MergedExtends(sockets: seq<Socket>, s: Socket)
    requires AllDefined(sockets + [s]) && AllRead(sockets + [s]) && AllDefined(sockets) && AllRead(sockets)
    requires s.Defined() && s.conso.Some?
    ensures |Cores(s)| == |s.cores| == |Powers(s).value|
    ensures Merged(sockets + [s]) == Merged(sockets) + Pair(Cores(s), Powers(s).value)
  {
    hide Cores;
    SizeOfCores(s);
    assert (sockets + [s])[..|sockets|] == sockets && (sockets + [s])[|sockets|] == s;
  }

  lemma NothingMerged()
    ensures Merged([]) == []
  {
  }

  lemma SizeOfCores(s: Socket)
    ensures |Cores(s)| == |s.cores|
  {
    SortRanks(s.cores);
  }

  lemma SecondsSplit<A, B>(a: seq<Keyed<(A, B)>>, b: seq<Keyed<(A, B)>>)
    ensures Seconds(a + b) == Seconds(a) + Seconds(b)
    ensures Values(Seconds(a + b)) == Values(Seconds(a)) + Values(Seconds(b))
  {
  }

  lemma FirstsSplit<A, B>(a: seq<Keyed<(A, B)>>, b: seq<Keyed<(A, B)>>)
    ensures Firsts(a + b) == Firsts(a) + Firsts(b)
  {
  }

  lemma FirstsOfPair<A, B>(a: seq<Keyed<A>>, b: seq<B>)
    requires |a| == |b|
    ensures Firsts(Pair(a, b)) == a
  {
  }

  method GetProportionalCoreDiffPower(sockets: seq<Socket>) returns (r: Option<seq<real>>)
    requires AllDefined(sockets)
    ensures r == HostPowers(sockets)
  {
    hide Powers, SortById, Merged;
    NothingMerged();
    var v: seq<Keyed<real>> := [];
    var i := 0;
    while i < |sockets|
      invariant 0 <= i <= |sockets| && AllRead(sockets[..i])
      invariant v == Seconds(Merged(sockets[..i]))
    {
      var s := sockets[i];
      var powers := Powers(s);
      if powers == None {
        return None;
      }
      SortRanks(s.cores);
      var ids := Keys(Cores(s));
      var tmp := seq(|ids|, j requires 0 <= j < |ids| => (ids[j], powers.value[j]));
      v := v + tmp;
      assert sockets[..i + 1] == sockets[..i] + [s];
      MergedExtends(sockets[..i], s);
      SecondsSplit(Merged(sockets[..i]), Pair(Cores(s), powers.value));
      assert tmp == Seconds(Pair(Cores(s), powers.value));
      i := i + 1;
    }
    assert sockets[..i] == sockets;
    r := Some(Values(SortById(v)));
  }

  lemma {:induction false} MergedIsBoth(sockets: seq<Socket>)
    requires AllDefined(sockets) && AllRead(sockets)
    ensures Firsts(Merged(sockets)) == MergedCores(sockets)
    decreases |sockets|
  {
    if sockets == [] {
    } else {
      hide Powers, Cores, Merged, Pair, Firsts;
      var before, s := sockets[..|sockets| - 1], sockets[|sockets| - 1];
      assert sockets == before + [s];
      MergedIsBoth(before);
      MergedExtends(before, s);
      FirstsSplit(Merged(before), Pair(Cores(s), Powers(s).value));
      FirstsOfPair(Cores(s), Powers(s).value);
    }
  }

  // Position i of the host's power list is the power that position i of the
  // host's core list was given in its own socket, although the two lists are
  // built and sorted independently; with unique ids both are about the core
  // with the i-th smallest id.
  lemma HostListsAlign(sockets: seq<Socket>)
    requires AllDefined(sockets) && AllRead(sockets)
    ensures var both := SortById(Merged(sockets));
      && HostCores(sockets) == Firsts(both)
      && HostPowers(sockets).value == Values(Seconds(both))
      && multiset(both) == multiset(Merged(sockets)) && (forall i, j :: 0 <= i < j < |both| ==> both[i].0 <= both[j].0)
      && (UniqueIds(MergedCores(sockets)) ==> forall i, j :: 0 <= i < j < |both| ==> both[i].0 < both[j].0)
  {
    MergedIsBoth(sockets);
    if UniqueIds(MergedCores(sockets)) {
      SortRanks(MergedCores(sockets));
    }
    SortProjects(Merged(sockets));
    SortRanks(Merged(sockets));
  }

  lemma {:induction false} InsertSums(x: Keyed<real>, s: seq<Keyed<real>>)
    ensures Sum(Values(Insert(x, s, ById<real>))) == x.1 + Sum(Values(s))
  {
    hide Sum;
    if s == [] || x.0 <= s[0].0 {
      HeadSums(x, s);
    } else {
      InsertSums(x, s[1..]);
      HeadSums(s[0], Insert(x, s[1..], ById<real>));
      HeadSums(s[0], s[1..]);
      assert s == [s[0]] + s[1..];
    }
  }

  lemma HeadSums(x: Keyed<real>, s: seq<Keyed<real>>)
    ensures Sum(Values([x] + s)) == x.1 + Sum(Values(s))
  {
    assert Values([x] + s) == [x.1] + Values(s);
    SumSplit([x.1], Values(s));
    assert [x.1][..0] == [];
  }

  lemma {:induction false} SortSums(s: seq<Keyed<real>>)
    ensures Sum(Values(SortById(s))) == Sum(Values(s))
  {
    hide Sum, Insert;
    if s != [] {
      SortSums(s[1..]);
      InsertSums(s[0], SortById(s[1..]));
      HeadSums(s[0], s[1..]);
      assert s == [s[0]] + s[1..];
    }
  }

  // A core of the socket has its own coefficient's part of the socket's power.
  ghost predicate Powered(s: Socket, core: Core, power: real) {
    && s.Defined() && s.conso.Some? && core in s.cores
    && if Sum(Coefs(s)) == 0.0 then power == 0.0 else power * Sum(Coefs(s)) == Coef(core) * s.conso.value
  }

  ghost predicate PoweredByOne(sockets: seq<Socket>, core: Core, power: real) {
    exists j :: 0 <= j < |sockets| && Powered(sockets[j], core, power)
  }

  lemma OwnPower(s: Socket, i: nat)
    requires s.Defined() && s.conso.Some? && i < |s.cores|
    ensures |Cores(s)| == |s.cores| == |Powers(s).value| && Powered(s, Cores(s)[i], Powers(s).value[i])
  {
    SortRanks(s.cores);
    MetricsAfterSort(s);
    hide Sum, Coef;
    ProportionsSumToOne(Coefs(s));
    var p, total := Proportions(Coefs(s))[i], Sum(Coefs(s));
    if total != 0.0 { Regroup(p, s.conso.value, total); }
  }

  lemma Regroup(p: real, conso: real, total: real)
    ensures (p * conso) * total == (p * total) * conso
  {
  }

  lemma {:induction false} MergedPowered(sockets: seq<Socket>)
    requires AllDefined(sockets) && AllRead(sockets)
    ensures forall x :: x in Merged(sockets) ==> PoweredByOne(sockets, (x.0, x.1.0), x.1.1)
    decreases |sockets|
  {
    if sockets != [] {
      hide Powers, Powered, Cores, Merged;
      var n := |sockets| - 1;
      var before, s := sockets[..n], sockets[n];
      assert sockets == before + [s];
      MergedPowered(before);
      MergedExtends(before, s);
      var own := Pair(Cores(s), Powers(s).value);
      forall x | x in Merged(sockets)
        ensures PoweredByOne(sockets, (x.0, x.1.0), x.1.1)
      {
        if x in own {
          var i :| 0 <= i < |own| && own[i] == x;
          OwnPower(s, i);
          assert Powered(sockets[n], (x.0, x.1.0), x.1.1);
        } else {
          assert x in Merged(before);
          var j :| 0 <= j < n && Powered(before[j], (x.0, x.1.0), x.1.1);
          assert Powered(sockets[j], (x.0, x.1.0), x.1.1);
        }
      }
    }
  }

  // Every core of the host's list has, at its position of the power list, the
  // part of its own socket's power that its own coefficient is of the socket's.
  lemma HostPowersProportional(sockets: seq<Socket>)
    requires AllDefined(sockets) && AllRead(sockets)
    ensures |HostPowers(sockets).value| == |HostCores(sockets)|
    ensures forall i :: 0 <= i < |HostCores(sockets)| ==>
      PoweredByOne(sockets, HostCores(sockets)[i], HostPowers(sockets).value[i])
  {
    hide Merged, PoweredByOne, SortById, HostCores, HostPowers;
    HostListsAlign(sockets);
    MergedPowered(sockets);
    var both := SortById(Merged(sockets));
    SortRanks(Merged(sockets));
    forall i | 0 <= i < |both|
      ensures PoweredByOne(sockets, HostCores(sockets)[i], HostPowers(sockets).value[i])
    {
      assert both[i] in Merged(sockets);
    }
  }

  // The host's list has every core of every socket, as often as it is there.
  lemma HostCoresAll(sockets: seq<Socket>, s: Socket)
    ensures HostCores([]) == []
    ensures multiset(HostCores(sockets + [s])) == multiset(HostCores(sockets)) + multiset(s.cores)
  {
    hide SortById;
    NoCores();
    assert (sockets + [s])[..|sockets|] == sockets;
    SortRanks(MergedCores(sockets + [s]));
    SortRanks(MergedCores(sockets));
    SortRanks(s.cores);
  }

  lemma NoCores()
    ensures HostCores([]) == []
  {
  }

  // What the sockets whose cores did some work consumed.
  function ActivePower(sockets: seq<Socket>): real
    requires AllDefined(sockets) && AllRead(sockets)
  {
    if sockets == [] then 0.0
    else
      var s := sockets[|sockets| - 1];
      ActivePower(sockets[..|sockets| - 1]) + if Sum(Coefs(s)) != 0.0 then s.conso.value else 0.0
  }

  lemma {:induction false} MergedSums(sockets: seq<Socket>)
    requires AllDefined(sockets) && AllRead(sockets)
    ensures Sum(Values(Seconds(Merged(sockets)))) == ActivePower(sockets)
    ensures AllSane(sockets) ==> forall i :: 0 <= i < |Merged(sockets)| ==> Merged(sockets)[i].1.1 >= 0.0
    decreases |sockets|
  {
    hide Coefs, Powers, SortById, Sum;
    if sockets == [] {
      assert Sum([]) == 0.0 by { SumScale([], [], 0.0); }
    } else {
      var before, s := sockets[..|sockets| - 1], sockets[|sockets| - 1];
      assert sockets == before + [s];
      MergedSums(before);
      CorePowersConserve(s);
      SortRanks(s.cores);
      MergedExtends(before, s);
      SecondsSplit(Merged(before), Pair(Cores(s), Powers(s).value));
      assert Values(Seconds(Pair(Cores(s), Powers(s).value))) == Powers(s).value;
      SumSplit(Values(Seconds(Merged(before))), Powers(s).value);
    }
  }

  // The host's core powers add up to the power of the sockets that worked.
  lemma HostPowersConserve(sockets: seq<Socket>)
    requires AllDefined(sockets) && AllRead(sockets)
    ensures Sum(HostPowers(sockets).value) == ActivePower(sockets)
    ensures AllSane(sockets) ==> forall i :: 0 <= i < |HostPowers(sockets).value| ==> HostPowers(sockets).value[i] >= 0.0
  {
    MergedSums(sockets);
    SortSums(Seconds(Merged(sockets)));
    HostListsAlign(sockets);
    var both := SortById(Merged(sockets));
    if AllSane(sockets) {
      forall i | 0 <= i < |both|
        ensures both[i].1.1 >= 0.0
      {
        assert both[i] in multiset(both);
        assert both[i] in Merged(sockets);
      }
    }
  }
}
