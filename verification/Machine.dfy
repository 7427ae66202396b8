/**
 Machine integers and small helpers shared by every other module.
 The Rust sources are built in release mode, where u64 arithmetic wraps.
*/
module Machine {
  const TWO64: nat := 0x1_0000_0000_0000_0000
  const U64_MAX: nat := 0xFFFF_FFFF_FFFF_FFFF

  type u64 = x: int | 0 <= x < 0x1_0000_0000_0000_0000
  type u32 = x: int | 0 <= x < 0x1_0000_0000
  type u16 = x: int | 0 <= x < 0x1_0000

  datatype Option<+T> = None | Some(value: T) {
    function GetOr(default: T): T {
      match this
      case Some(v) => v
      case None => default
    }
  }

  // What is left of an integer in a 64-bit register.
  function Wrap(x: int): u64 { x % 0x1_0000_0000_0000_0000 }

  function WrapAdd(a: u64, b: u64): u64 { Wrap(a + b) }

  function WrapSub(a: u64, b: u64): u64 { Wrap(a - b) }

  lemma WrapCarries(a: int, d: int)
    ensures Wrap(Wrap(a) + d) == Wrap(a + d)
  {
  }

  lemma WrapSmall(a: int)
    ensures 0 <= a < TWO64 <==> Wrap(a) == a
  {
  }

  lemma WrapRemainder(a: int)
    ensures Wrap(a - Wrap(a)) == 0
  {
  }

  lemma WrapZeros(a: int, b: int)
    requires Wrap(a) == 0 && Wrap(b) == 0
    ensures Wrap(a + b) == 0
  {
  }

  lemma WrapDifference(a: int, b: int)
    ensures Wrap(a - b) == 0 <==> Wrap(a) == Wrap(b)
  {
  }

  function SaturatingSub(a: nat, b: nat): nat { if a >= b then a - b else 0 }

  function Min(a: int, b: int): int { if a <= b then a else b }

  function Max(a: int, b: int): int { if a >= b then a else b }

  function Sum(s: seq<real>): real
  {
    if s == [] then 0.0 else Sum(s[..|s| - 1]) + s[|s| - 1]
  }

  lemma Distributes(a: real, b: real, t: real)
    ensures (a + b) * t == a * t + b * t
  {
  }

  lemma {:induction false} SumSplit(a: seq<real>, b: seq<real>)
    ensures Sum(a + b) == Sum(a) + Sum(b)
    decreases |b|
  {
    if b == [] {
      assert a + b == a;
    } else {
      var b' := b[..|b| - 1];
      assert (a + b)[..|a + b| - 1] == a + b';
      SumSplit(a, b');
    }
  }

  lemma {:induction false} SumScale(s: seq<real>, t: seq<real>, k: real)
    requires |s| == |t| && forall i :: 0 <= i < |s| ==> t[i] == k * s[i]
    ensures Sum(t) == k * Sum(s)
    decreases |s|
  {
    if s == [] {
    } else {
      SumScale(s[..|s| - 1], t[..|t| - 1], k);
    }
  }

  lemma {:induction false} SumNonNegative(s: seq<real>)
    requires forall i :: 0 <= i < |s| ==> s[i] >= 0.0
    ensures Sum(s) >= 0.0
    ensures forall i :: 0 <= i < |s| ==> s[i] <= Sum(s)
    decreases |s|
  {
    if s == [] {
    } else {
      SumNonNegative(s[..|s| - 1]);
    }
  }
}
