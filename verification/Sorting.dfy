/**
 The stable sort of a vector by a numeric key.
*/
module Sorting {
  function Insert<T>(x: T, s: seq<T>, key: T -> int): seq<T> {
    if s == [] || key(x) <= key(s[0]) then [x] + s else [s[0]] + Insert(x, s[1..], key)
  }

  function Sort<T>(s: seq<T>, key: T -> int): seq<T> {
    if s == [] then [] else Insert(s[0], Sort(s[1..], key), key)
  }

  ghost predicate Sorted<T>(s: seq<T>, key: T -> int) {
    forall i, j :: 0 <= i < j < |s| ==> key(s[i]) <= key(s[j])
  }

  lemma {:induction false} InsertPermutes<T>(x: T, s: seq<T>, key: T -> int)
    ensures multiset(Insert(x, s, key)) == multiset{x} + multiset(s)
    ensures |Insert(x, s, key)| == |s| + 1
  {
    if s == [] || key(x) <= key(s[0]) {
    } else {
      InsertPermutes(x, s[1..], key);
      assert s == [s[0]] + s[1..];
    }
  }

  lemma InsertMembers<T>(x: T, s: seq<T>, key: T -> int, i: nat)
    requires i < |Insert(x, s, key)|
    ensures Insert(x, s, key)[i] == x || Insert(x, s, key)[i] in s
  {
    InsertPermutes(x, s, key);
    assert Insert(x, s, key)[i] in multiset(Insert(x, s, key));
    assert Insert(x, s, key)[i] == x || Insert(x, s, key)[i] in multiset(s);
  }

  lemma {:induction false} InsertSorts<T>(x: T, s: seq<T>, key: T -> int)
    requires Sorted(s, key)
    ensures Sorted(Insert(x, s, key), key)
  {
    if s == [] || key(x) <= key(s[0]) {
    } else {
      var r := Insert(x, s[1..], key);
      InsertSorts(x, s[1..], key);
      forall i | 0 <= i < |r|
        ensures key(s[0]) <= key(r[i])
      {
        InsertMembers(x, s[1..], key, i);
      }
    }
  }

  lemma {:induction false} SortSorts<T>(s: seq<T>, key: T -> int)
    ensures Sorted(Sort(s, key), key)
  {
    hide Insert, Sorted;
    if s != [] {
      SortSorts(s[1..], key);
      InsertSorts(s[0], Sort(s[1..], key), key);
    } else {
      assert Sorted([], key) by { NothingSorted(key); }
    }
  }

  lemma NothingSorted<T>(key: T -> int)
    ensures Sorted([], key)
  {
  }

  lemma {:induction false} SortPermutes<T>(s: seq<T>, key: T -> int)
    ensures multiset(Sort(s, key)) == multiset(s) && |Sort(s, key)| == |s|
  {
    hide Insert;
    if s != [] {
      SortPermutes(s[1..], key);
      InsertPermutes(s[0], Sort(s[1..], key), key);
      assert s == [s[0]] + s[1..];
    }
  }

  lemma SortMembers<T>(s: seq<T>, key: T -> int)
    ensures forall i :: 0 <= i < |Sort(s, key)| ==> Sort(s, key)[i] in s
  {
    hide Sort;
    SortPermutes(s, key);
    forall i | 0 <= i < |Sort(s, key)|
      ensures Sort(s, key)[i] in s
    {
      assert Sort(s, key)[i] in multiset(Sort(s, key));
    }
  }

  // Being stable, the sort leaves what is in order as it is.
  lemma {:induction false} SortOfSorted<T>(s: seq<T>, key: T -> int)
    requires Sorted(s, key)
    ensures Sort(s, key) == s
  {
    if s != [] {
      SortOfSorted(s[1..], key);
      assert s == [s[0]] + s[1..];
    }
  }

  // Sorting by keys commutes with a mapping that keeps the keys: payloads
  // travel with their keys, whatever they are.
  lemma {:induction false} InsertMaps<T, U>(x: T, s: seq<T>, f: T -> U, key: T -> int, key': U -> int)
    requires forall y :: key'(f(y)) == key(y)
    ensures Mapped(Insert(x, s, key), f) == Insert(f(x), Mapped(s, f), key')
  {
    if s == [] || key(x) <= key(s[0]) {
      assert Mapped([x] + s, f) == [f(x)] + Mapped(s, f);
    } else {
      InsertMaps(x, s[1..], f, key, key');
      assert Mapped(s, f)[1..] == Mapped(s[1..], f);
      assert Mapped([s[0]] + Insert(x, s[1..], key), f) == [f(s[0])] + Mapped(Insert(x, s[1..], key), f);
    }
  }

  lemma {:induction false} SortMaps<T, U>(s: seq<T>, f: T -> U, key: T -> int, key': U -> int)
    requires forall y :: key'(f(y)) == key(y)
    ensures Mapped(Sort(s, key), f) == Sort(Mapped(s, f), key')
  {
    if s != [] {
      SortMaps(s[1..], f, key, key');
      InsertMaps(s[0], Sort(s[1..], key), f, key, key');
      assert Mapped(s, f)[1..] == Mapped(s[1..], f);
    }
  }

  function Mapped<T, U>(s: seq<T>, f: T -> U): (r: seq<U>)
    ensures |r| == |s| && forall i :: 0 <= i < |s| ==> r[i] == f(s[i])
  {
    seq(|s|, i requires 0 <= i < |s| => f(s[i]))
  }

  ghost predicate UniqueKeys<T>(s: seq<T>, key: T -> int) {
    forall i, j :: 0 <= i < j < |s| ==> key(s[i]) != key(s[j])
  }

  lemma {:induction false} InsertKeepsUnique<T>(x: T, s: seq<T>, key: T -> int)
    requires UniqueKeys(s, key) && forall i :: 0 <= i < |s| ==> key(s[i]) != key(x)
    ensures UniqueKeys(Insert(x, s, key), key)
  {
    if s == [] || key(x) <= key(s[0]) {
    } else {
      var r := Insert(x, s[1..], key);
      InsertKeepsUnique(x, s[1..], key);
      forall i | 0 <= i < |r|
        ensures key(r[i]) != key(s[0])
      {
        InsertMembers(x, s[1..], key, i);
      }
    }
  }

  // Sorting items of distinct keys leaves the i-th smallest key at position i.
  lemma {:induction false} SortRanks<T>(s: seq<T>, key: T -> int)
    requires UniqueKeys(s, key)
    ensures UniqueKeys(Sort(s, key), key)
    ensures forall i, j :: 0 <= i < j < |Sort(s, key)| ==> key(Sort(s, key)[i]) < key(Sort(s, key)[j])
  {
    if s != [] {
      var r := Sort(s[1..], key);
      SortRanks(s[1..], key);
      SortMembers(s[1..], key);
      forall i | 0 <= i < |r|
        ensures key(r[i]) != key(s[0])
      {
        assert r[i] in s[1..];
      }
      InsertKeepsUnique(s[0], r, key);
    }
    SortSorts(s, key);
  }
}
