/**
 How background power is spread over the domains of a socket.

 The shares of a cycle are in proportion to the socket's power, or even if it
 has none left. They stay where they are over cycles without background power.
*/
module Distribution {
  import opened Machine
  import opened Estimator

  // The cast of a float to u64: cut off, and saturating at both ends.
  function Truncate(x: real): u64 {
    if x < 0.0 then 0 else if x >= 0x1_0000_0000_0000_0000 as real then U64_MAX else x.Floor
  }

  // The share of the background that goes to a domain of the given power.
  function BackgroundShare(background: u64, power: u64, total: u64, n: nat): real
    requires n > 0
  {
    if total > 0 then Part(background as real, power as real, total as real) else Even(background as real, n as real)
  }

  function Part(b: real, p: real, t: real): real
    requires t != 0.0
  {
    b * (p / t)
  }

  function Even(b: real, n: real): real
    requires n != 0.0
  {
    b / n
  }

  function SharesOf(background: u64, powers: seq<u64>, total: u64): (r: seq<real>)
    ensures |r| == |powers|
  {
    seq(|powers|, i requires 0 <= i < |powers| => BackgroundShare(background, powers[i], total, |powers|))
  }

  // ----- the shares of one cycle

  function TotalPower(powers: seq<u64>): nat {
    if powers == [] then 0 else TotalPower(powers[..|powers| - 1]) + powers[|powers| - 1]
  }

  function AsReals(powers: seq<u64>): (r: seq<real>)
    ensures |r| == |powers| && forall i :: 0 <= i < |r| ==> r[i] == powers[i] as real
  {
    seq(|powers|, i requires 0 <= i < |powers| => powers[i] as real)
  }

  lemma {:induction false} TotalIsSum(powers: seq<u64>)
    ensures Sum(AsReals(powers)) == TotalPower(powers) as real
    decreases |powers|
  {
    if powers != [] {
      TotalIsSum(powers[..|powers| - 1]);
      assert AsReals(powers)[..|powers| - 1] == AsReals(powers[..|powers| - 1]);
    }
  }

  lemma ShareScales(background: real, power: real, total: real)
    requires total > 0.0
    ensures background * (power / total) == (background / total) * power
  {
  }

  lemma Compares(b: real, p: real, t: real)
    requires b > 0.0 && t > 0.0
    ensures (b / t) * p <= b <==> p <= t
    ensures (b / t) * p == b <==> p == t
  {
    var q := b / t;
    assert q > 0.0 && q * t == b;
    if p <= t { Monotone(q, p, t); }
    if p >= t { Monotone(q, t, p); }
    if p < t { assert q * (t - p) > 0.0; }
    if p > t { assert q * (p - t) > 0.0; }
  }

  lemma Monotone(q: real, a: real, b: real)
    requires q > 0.0 && a <= b
    ensures q * a <= q * b
  {
  }

  // With power left at the socket, the shares are in proportion to it, and not
  // to the sum of the domains as documented: they exhaust the background if and
  // only if the domains' powers add up to the socket's, and exceed it if and
  // only if they add up to more.
  lemma SharesSum(background: u64, powers: seq<u64>, total: u64)
    requires background > 0 && total > 0
    ensures var sum := Sum(SharesOf(background, powers, total));
      && sum == (background as real / total as real) * TotalPower(powers) as real
      && (sum <= background as real <==> TotalPower(powers) <= total)
      && (sum == background as real <==> TotalPower(powers) == total)
  {
    hide Sum, SharesOf, TotalPower;
    SharesProportional(background, powers, total);
    Compares(background as real, TotalPower(powers) as real, total as real);
  }

  lemma SharesProportional(background: u64, powers: seq<u64>, total: u64)
    requires total > 0
    ensures Sum(SharesOf(background, powers, total)) == (background as real / total as real) * TotalPower(powers) as real
  {
    hide Sum, TotalPower;
    var shares := SharesOf(background, powers, total);
    forall i | 0 <= i < |powers|
      ensures shares[i] == (background as real / total as real) * AsReals(powers)[i]
    {
      ShareScales(background as real, powers[i] as real, total as real);
    }
    SumScale(AsReals(powers), shares, background as real / total as real);
    TotalIsSum(powers);
  }

  // With none left, it is split evenly; what the domains then subtract falls
  // short of it by less than one microwatt each.
  lemma EvenSplit(background: u64, powers: seq<u64>)
    requires powers != []
    ensures var shares := SharesOf(background, powers, 0);
      && Sum(shares) == background as real
      && background as real - |powers| as real < Sum(AsReals(Truncated(shares))) <= background as real
  {
    hide Sum, BackgroundShare, Times, Truncate;
    var shares := SharesOf(background, powers, 0);
    EvenShare(background, |powers|, powers);
    SumOfEqual(shares, shares[0]);
    TruncationLoss(shares);
  }

  function Times(x: real, n: nat): real { x * n as real }

  lemma EvenShare(background: u64, n: nat, powers: seq<u64>)
    requires n == |powers| > 0
    ensures var share := SharesOf(background, powers, 0)[0];
      && (forall i :: 0 <= i < n ==> SharesOf(background, powers, 0)[i] == share)
      && Times(share, n) == background as real && 0.0 <= share <= background as real
  {
    Splits(background as real, n as real);
  }

  lemma Splits(b: real, n: real)
    requires b >= 0.0 && n >= 1.0
    ensures (b / n) * n == b && 0.0 <= b / n <= b
  {
    var share := b / n;
    assert share * n == b;
    assert share >= 0.0;
    assert share * (n - 1.0) >= 0.0;
  }

  lemma {:induction false} SumOfEqual(s: seq<real>, x: real)
    requires forall i :: 0 <= i < |s| ==> s[i] == x
    ensures Sum(s) == Times(x, |s|)
    decreases |s|
  {
    if s != [] {
      SumOfEqual(s[..|s| - 1], x);
      assert x * (|s| - 1) as real + x == x * |s| as real;
    }
  }

  // Each share in proportion: to the domain's own power while the socket has
  // power left, and even otherwise.
  lemma SharesInProportion(background: u64, powers: seq<u64>, total: u64, i: nat)
    requires i < |powers|
    ensures var share := SharesOf(background, powers, total)[i];
      if total > 0 then share * total as real == background as real * powers[i] as real
      else share * |powers| as real == background as real
  {
    if total > 0 {
      PartTimes(background as real, powers[i] as real, total as real);
    } else {
      Splits(background as real, |powers| as real);
    }
  }

  lemma PartTimes(b: real, p: real, t: real)
    requires t > 0.0
    ensures Part(b, p, t) * t == b * p
  {
    var q := p / t;
    assert q * t == p;
    assert (b * q) * t == b * (q * t);
  }

  // ----- what the domains then subtract

  function Truncated(shares: seq<real>): (r: seq<u64>)
    ensures |r| == |shares| && forall i :: 0 <= i < |r| ==> r[i] == Truncate(shares[i])
  {
    seq(|shares|, i requires 0 <= i < |shares| => Truncate(shares[i]))
  }

  lemma TruncateFalls(x: real)
    ensures 0.0 <= x < TWO64 as real ==> x - 1.0 < Truncate(x) as real <= x
    ensures x < 0.0 ==> Truncate(x) == 0
    ensures x >= TWO64 as real ==> Truncate(x) == U64_MAX
  {
  }

  // Cut to whole microwatts, shares of any kind fall short of their sum by less
  // than one each, as long as none reaches 2^64, where the cast saturates.
  lemma {:induction false} TruncationLoss(shares: seq<real>)
    requires forall i :: 0 <= i < |shares| ==> 0.0 <= shares[i] < TWO64 as real
    ensures Sum(AsReals(Truncated(shares))) <= Sum(shares)
    ensures shares != [] ==> Sum(shares) - |shares| as real < Sum(AsReals(Truncated(shares)))
    decreases |shares|
  {
    hide Truncate;
    if shares != [] {
      var n := |shares| - 1;
      TruncationLoss(shares[..n]);
      TruncateFalls(shares[n]);
      assert AsReals(Truncated(shares))[..n] == AsReals(Truncated(shares[..n]));
    }
  }

  // No share does while no domain has more power than its socket.
  lemma SharesFit(background: u64, powers: seq<u64>, total: u64)
    requires powers != [] && (total > 0 ==> forall i :: 0 <= i < |powers| ==> powers[i] <= total)
    ensures forall i :: 0 <= i < |powers| ==> 0.0 <= SharesOf(background, powers, total)[i] <= background as real
  {
    hide Part, Even;
    forall i | 0 <= i < |powers|
      ensures 0.0 <= SharesOf(background, powers, total)[i] <= background as real
    {
      if total > 0 {
        PartOf(background as real, powers[i] as real, total as real);
      } else {
        EvenOf(background as real, |powers| as real);
      }
    }
  }

  lemma EvenOf(b: real, n: real)
    requires b >= 0.0 && n >= 1.0
    ensures 0.0 <= Even(b, n) <= b
  {
    Splits(b, n);
  }

  lemma PartOf(b: real, p: real, t: real)
    requires b >= 0.0 && 0.0 <= p <= t && t > 0.0
    ensures 0.0 <= Part(b, p, t) <= b
  {
    var q := p / t;
    assert q * t == p;
    assert 0.0 <= q <= 1.0;
    assert b * (1.0 - q) >= 0.0;
  }

  // ----- what the documentation promises

  // A domain's part of the sum of the domains' powers, or an even part.
  function DocumentedShare(background: u64, powers: seq<u64>, i: nat): real
    requires i < |powers|
  {
    var sum := TotalPower(powers);
    if sum > 0 then Part(background as real, powers[i] as real, sum as real)
    else Even(background as real, |powers| as real)
  }

  // The share of one domain is the documented one if and only if
  // - while the socket has power left: the domains have some, and this one has
  //   none or all of them have the socket's;
  // - otherwise: the domains have none, or this one has exactly the average.
  lemma ShareAsDocumented(background: u64, powers: seq<u64>, total: u64, i: nat)
    requires background > 0 && i < |powers|
    ensures SharesOf(background, powers, total)[i] == DocumentedShare(background, powers, i) <==>
      var sum := TotalPower(powers);
      if total > 0 then sum > 0 && (powers[i] == 0 || sum == total) else sum == 0 || |powers| * powers[i] == sum
  {
    hide TotalPower, Part, Even;
    var b, p, n, sum := background as real, powers[i] as real, |powers| as real, TotalPower(powers);
    OneOfTotal(powers, i);
    if total > 0 && sum > 0 {
      SameRatio(b, p, total as real, sum as real);
    } else if total > 0 {
      NoRatio(b, total as real, n);
    } else if sum > 0 {
      EvenRatio(b, p, sum as real, n);
      AsRealTimes(|powers|, powers[i]);
    }
  }

  lemma AsRealTimes(a: int, b: int)
    ensures (a * b) as real == a as real * b as real
  {
  }

  lemma {:induction false} OneOfTotal(powers: seq<u64>, i: nat)
    requires i < |powers|
    ensures powers[i] <= TotalPower(powers)
    decreases |powers|
  {
    if i < |powers| - 1 { OneOfTotal(powers[..|powers| - 1], i); }
  }

  lemma SameRatio(b: real, p: real, t: real, u: real)
    requires b > 0.0 && p >= 0.0 && t > 0.0 && u > 0.0
    ensures Part(b, p, t) == Part(b, p, u) <==> p == 0.0 || t == u
  {
    var x, y := p / t, p / u;
    assert x * t == p && y * u == p;
    if b * x == b * y {
      Cancel(b, x, y);
      if p > 0.0 { Cancel(x, t, u); }
    }
  }

  lemma Cancel(b: real, x: real, y: real)
    requires b != 0.0 && b * x == b * y
    ensures x == y
  {
    assert b * (x - y) == 0.0;
  }

  lemma NoRatio(b: real, t: real, n: real)
    requires b > 0.0 && t > 0.0 && n > 0.0
    ensures Part(b, 0.0, t) != Even(b, n)
  {
    Positive(b, n);
    assert 0.0 / t == 0.0;
  }

  lemma EvenRatio(b: real, p: real, u: real, n: real)
    requires b > 0.0 && u > 0.0 && n > 0.0
    ensures Even(b, n) == Part(b, p, u) <==> n * p == u
  {
    var x, y := b / n, p / u;
    assert x * n == b && y * u == p;
    if x == b * y {
      Reorder(b, y, n);
      Cancel(b, y * n, 1.0);
      Reorder(n, y, u);
      assert n * y == 1.0;
    }
    if n * p == u {
      Reorder(n, y, u);
      Cancel(u, n * y, 1.0);
      Reorder(b, y, n);
      Cancel(n, b * y, x);
    }
  }

  lemma Reorder(a: real, b: real, c: real)
    ensures (a * b) * c == a * (b * c)
  {
  }

  // All shares of a cycle are as documented if and only if the domains' powers
  // add up to what the socket has left, or it has nothing left and they are all
  // equal.
  lemma SharesAsDocumented(background: u64, powers: seq<u64>, total: u64)
    requires background > 0 && powers != []
    ensures (forall i :: 0 <= i < |powers| ==>
               SharesOf(background, powers, total)[i] == DocumentedShare(background, powers, i))
       <==> if total > 0 then TotalPower(powers) == total
            else forall i :: 0 <= i < |powers| ==> powers[i] == powers[0]
  {
    hide SharesOf, DocumentedShare, TotalPower;
    var sum := TotalPower(powers);
    forall i | 0 <= i < |powers|
      ensures SharesOf(background, powers, total)[i] == DocumentedShare(background, powers, i) <==>
        if total > 0 then sum > 0 && (powers[i] == 0 || sum == total) else sum == 0 || |powers| * powers[i] == sum
    {
      ShareAsDocumented(background, powers, total, i);
    }
    SomeHasPower(powers);
    Averages(powers);
  }

  lemma {:induction false} SomeHasPower(powers: seq<u64>)
    ensures TotalPower(powers) > 0 <==> exists i :: 0 <= i < |powers| && powers[i] > 0
    decreases |powers|
  {
    if powers != [] {
      var n := |powers| - 1;
      SomeHasPower(powers[..n]);
      if i :| 0 <= i < |powers| && powers[i] > 0 {
        assert i < n ==> powers[..n][i] > 0;
      }
      if TotalPower(powers[..n]) > 0 {
        var i :| 0 <= i < n && powers[..n][i] > 0;
        assert powers[i] > 0;
      }
    }
  }

  // All powers are equal if and only if each is the average.
  lemma Averages(powers: seq<u64>)
    requires powers != []
    ensures (forall i :: 0 <= i < |powers| ==> powers[i] == powers[0])
       <==> forall i :: 0 <= i < |powers| ==> |powers| * powers[i] == TotalPower(powers)
  {
    hide TotalPower;
    if forall i :: 0 <= i < |powers| ==> powers[i] == powers[0] {
      EqualTotal(powers, powers[0]);
    }
    if forall i :: 0 <= i < |powers| ==> |powers| * powers[i] == TotalPower(powers) {
      forall i | 0 <= i < |powers|
        ensures powers[i] == powers[0]
      {
        CancelInt(|powers|, powers[i], powers[0]);
      }
    }
  }

  lemma CancelInt(n: int, a: int, b: int)
    requires n > 0 && n * a == n * b
    ensures a == b
  {
    assert n * (a - b) == 0;
  }

  lemma {:induction false} EqualTotal(powers: seq<u64>, p: u64)
    requires forall i :: 0 <= i < |powers| ==> powers[i] == p
    ensures TotalPower(powers) == |powers| * p
    decreases |powers|
  {
    if powers != [] { EqualTotal(powers[..|powers| - 1], p); }
  }

  // Two failing inputs: an idle socket with unequal domains, and a busy one with
  // idle domains.
  lemma SharesNotAsDocumented(background: u64, total: u64)
    requires background > 0
    ensures SharesOf(background, [1, 3], 0)[0] != DocumentedShare(background, [1, 3], 0)
    ensures total > 0 ==> SharesOf(background, [0, 0], total)[0] != DocumentedShare(background, [0, 0], 0)
  {
    hide SharesOf, DocumentedShare;
    TotalOfTwo(1, 3);
    TotalOfTwo(0, 0);
    ShareAsDocumented(background, [1, 3], 0, 0);
    ShareAsDocumented(background, [0, 0], total, 0);
  }

  lemma TotalOfTwo(a: u64, b: u64)
    ensures TotalPower([a, b]) == a + b
  {
    var s: seq<u64> := [a, b];
    var one: seq<u64> := [a];
    var none: seq<u64> := [];
    assert s[..1] == one && one[..0] == none;
    assert TotalPower(none) == 0 && TotalPower(one) == a && TotalPower(s) == TotalPower(one) + b;
  }

  // ----- the shares over many cycles

  // What one cycle has to spread: the background, over domains of these powers,
  // at a socket with so much power left.
  datatype Spread = Spread(background: u64, powers: seq<u64>, total: u64) {
    function Shares(): seq<real> { SharesOf(background, powers, total) }

    function Given(): real {
      if total > 0 then (background as real / total as real) * TotalPower(powers) as real else background as real
    }
  }

  // The shares the domains have stored after some cycles.
  function Stored(initial: seq<real>, spreads: seq<Spread>): seq<real> {
    if spreads == [] then initial
    else
      var last := spreads[|spreads| - 1];
      if last.background == 0 then Stored(initial, spreads[..|spreads| - 1]) else last.Shares()
  }

  // The last cycle with background power.
  function LastSpread(spreads: seq<Spread>): Option<Spread> {
    if spreads == [] then None
    else
      var last := spreads[|spreads| - 1];
      if last.background == 0 then LastSpread(spreads[..|spreads| - 1]) else Some(last)
  }

  lemma GivenIsSum(s: Spread)
    requires s.background > 0 && s.powers != []
    ensures Sum(s.Shares()) == s.Given()
  {
    hide Sum, TotalPower, SharesOf;
    if s.total > 0 {
      SharesProportional(s.background, s.powers, s.total);
    } else {
      EvenSplit(s.background, s.powers);
    }
  }

  // The stored shares are those of the last cycle with background power, however
  // long ago that was.
  lemma {:induction false} StoredSum(initial: seq<real>, spreads: seq<Spread>)
    requires forall i :: 0 <= i < |spreads| ==> spreads[i].powers != []
    ensures match LastSpread(spreads)
            case None => Stored(initial, spreads) == initial
            case Some(s) => Stored(initial, spreads) == s.Shares() && Sum(Stored(initial, spreads)) == s.Given()
    ensures LastSpread(spreads).Some? ==> LastSpread(spreads).value.background > 0 && LastSpread(spreads).value in spreads
    decreases |spreads|
  {
    hide Sum, SharesOf;
    if spreads != [] {
      var last := spreads[|spreads| - 1];
      if last.background == 0 {
        StoredSum(initial, spreads[..|spreads| - 1]);
      } else {
        GivenIsSum(last);
      }
    }
  }

  // The stored shares of domains that start with none sum to the present
  // background if and only if
  // - with background power, the domains' powers add up to the socket's, or the
  //   socket has none left;
  // - without, there has never been any, or no domain had power when there last
  //   was.
  lemma StoredMeetsBackground(initial: seq<real>, spreads: seq<Spread>)
    requires spreads != [] && forall i :: 0 <= i < |spreads| ==> spreads[i].powers != []
    requires forall i :: 0 <= i < |initial| ==> initial[i] == 0.0
    ensures var now := spreads[|spreads| - 1];
      Sum(Stored(initial, spreads)) == now.background as real <==>
        if now.background > 0 then now.total == 0 || TotalPower(now.powers) == now.total
        else match LastSpread(spreads)
             case None => true
             case Some(s) => s.total > 0 && TotalPower(s.powers) == 0
  {
    hide Sum, SharesOf, TotalPower, Stored, Spread.Given;
    StoredSum(initial, spreads);
    match LastSpread(spreads)
    case None => SumOfEqual(initial, 0.0);
    case Some(s) => GivenMeets(s);
  }

  lemma GivenMeets(s: Spread)
    requires s.background > 0
    ensures s.Given() == s.background as real <==> s.total == 0 || TotalPower(s.powers) == s.total
    ensures s.Given() == 0.0 <==> s.total > 0 && TotalPower(s.powers) == 0
  {
    hide TotalPower;
    if s.total > 0 {
      Compares(s.background as real, TotalPower(s.powers) as real, s.total as real);
      Positive(s.background as real, s.total as real);
      Vanishes(s.background as real / s.total as real, TotalPower(s.powers) as real);
    }
  }

  lemma Positive(b: real, t: real)
    requires b > 0.0 && t > 0.0
    ensures b / t > 0.0
  {
  }

  lemma Vanishes(q: real, p: real)
    requires q > 0.0
    ensures q * p == 0.0 <==> p == 0.0
  {
    if p > 0.0 { assert q * p > 0.0; }
    if p < 0.0 { assert q * -p > 0.0; assert q * p == -(q * -p); }
  }

  // ----- along the runs of the estimator

  // What each cycle of a run has to spread over domains of the given powers.
  function SpreadsOf(cycles: seq<Cycle>, powers: seq<seq<u64>>): (r: seq<Spread>)
    requires |powers| == |cycles|
    ensures |r| == |cycles|
  {
    seq(|cycles|, i requires 0 <= i < |cycles| => SpreadAt(EstimateAfter(cycles[..i + 1]), cycles[i], powers[i]))
  }

  function SpreadAt(e: Estimate, c: Cycle, powers: seq<u64>): Spread {
    Spread(e.Background(), powers, match c.raw case None => 0 case Some(raw) => Net(raw, e.Background()))
  }

  lemma OneMoreSpread(cycles: seq<Cycle>, powers: seq<seq<u64>>, c: Cycle, p: seq<u64>)
    requires |powers| == |cycles|
    ensures SpreadsOf(cycles + [c], powers + [p])
         == SpreadsOf(cycles, powers) + [SpreadAt(AfterCycle(EstimateAfter(cycles), c), c, p)]
  {
    hide EstimateAfter, SpreadAt, AfterCycle, SpreadsOf;
    var longer, shorter := SpreadsOf(cycles + [c], powers + [p]), SpreadsOf(cycles, powers);
    forall i | 0 <= i < |cycles|
      ensures longer[i] == shorter[i]
    {
      EarlierSpread(cycles, powers, c, p, i);
    }
    LatestSpread(cycles, powers, c, p);
    Extends(shorter, longer);
  }

  lemma Extends<T>(shorter: seq<T>, longer: seq<T>)
    requires |longer| == |shorter| + 1 && forall i :: 0 <= i < |shorter| ==> longer[i] == shorter[i]
    ensures longer == shorter + [longer[|shorter|]]
  {
  }

  lemma EarlierSpread(cycles: seq<Cycle>, powers: seq<seq<u64>>, c: Cycle, p: seq<u64>, i: nat)
    requires |powers| == |cycles| && i < |cycles|
    ensures SpreadsOf(cycles + [c], powers + [p])[i] == SpreadsOf(cycles, powers)[i]
  {
    hide EstimateAfter, SpreadAt;
    assert (cycles + [c])[..i + 1] == cycles[..i + 1];
  }

  lemma LatestSpread(cycles: seq<Cycle>, powers: seq<seq<u64>>, c: Cycle, p: seq<u64>)
    requires |powers| == |cycles|
    ensures SpreadsOf(cycles + [c], powers + [p])[|cycles|] == SpreadAt(AfterCycle(EstimateAfter(cycles), c), c, p)
  {
    hide EstimateAfter, SpreadAt, AfterCycle;
    OneMoreCycle(cycles, c);
    assert (cycles + [c])[..|cycles| + 1] == cycles + [c];
  }

  // A machine that idles at constant power: its domains always have that power
  // taken off, although every second cycle the socket has no background at all.
  lemma SharesOutlive(power: u64, n: nat, powers: seq<seq<u64>>, initial: seq<real>)
    requires power > 0 && n > 0 && |powers| == n && forall i :: 0 <= i < n ==> powers[i] != []
    ensures Sum(Stored(initial, SpreadsOf(IdleCycles(power, n), powers))) == power as real
    ensures EstimateAfter(IdleCycles(power, n)).Background() == if n % 2 == 1 then power else 0
  {
    hide EstimateAfter, Sum, SharesOf, Stored, SpreadsOf;
    var spreads := SpreadsOf(IdleCycles(power, n), powers);
    IdleOscillates(power, n);
    IdleSpread(power, n, powers, n - 1);
    StoredLast(initial, spreads);
    if n % 2 == 1 {
      GivenIsSum(spreads[n - 1]);
    } else {
      IdleSpread(power, n, powers, n - 2);
      StoredLast(initial, spreads[..n - 1]);
      GivenIsSum(spreads[n - 2]);
    }
  }

  lemma IdleSpread(power: u64, n: nat, powers: seq<seq<u64>>, i: nat)
    requires |powers| == n && i < n
    ensures SpreadsOf(IdleCycles(power, n), powers)[i]
         == Spread(if i % 2 == 0 then power else 0, powers[i], if i % 2 == 0 then 0 else power)
  {
    hide EstimateAfter;
    assert IdleCycles(power, n)[..i + 1] == IdleCycles(power, i + 1);
    IdleOscillates(power, i + 1);
  }

  lemma StoredLast(initial: seq<real>, spreads: seq<Spread>)
    requires spreads != []
    ensures var last := spreads[|spreads| - 1];
      Stored(initial, spreads) == if last.background == 0 then Stored(initial, spreads[..|spreads| - 1]) else last.Shares()
  {
  }
}
