// The library sort the program relies on: Python's list.sort(key=...), which is stable.
//
// SortBy is an insertion sort. SortSpec, SortStable and SortStrict say what any caller may
// rely on: the result is ordered, holds the same elements, keeps equal elements in their
// order, and is strictly ordered when no two keys are equal. SortedSet lists a set of
// numbers in ascending order, as sorted() does.
module Sorting {

  ghost predicate Sorted<T(!new)>(key: T -> int, s: seq<T>) {
    forall i, j :: 0 <= i < j < |s| ==> key(s[i]) <= key(s[j])
  }

  // The elements of s whose key is k, in the order of s.
  function Where<T>(key: T -> int, s: seq<T>, k: int): seq<T> {
    if s == [] then []
    else Where(key, s[..|s| - 1], k) + if key(s[|s| - 1]) == k then [s[|s| - 1]] else []
  }

  // Puts x after every element whose key does not exceed its own.
  function Insert<T>(key: T -> int, x: T, s: seq<T>): (r: seq<T>)
    ensures |r| == |s| + 1
  {
    if s == [] then [x]
    else if key(s[|s| - 1]) <= key(x) then s + [x]
    else Insert(key, x, s[..|s| - 1]) + [s[|s| - 1]]
  }

  function SortBy<T>(key: T -> int, s: seq<T>): (r: seq<T>)
    ensures |r| == |s|
  {
    if s == [] then [] else Insert(key, s[|s| - 1], SortBy(key, s[..|s| - 1]))
  }

  lemma {:induction false} InsertMultiset<T>(key: T -> int, x: T, s: seq<T>)
    ensures multiset(Insert(key, x, s)) == multiset(s) + multiset{x}
  {
    if s != [] && key(s[|s| - 1]) > key(x) {
      InsertMultiset(key, x, s[..|s| - 1]);
      assert s == s[..|s| - 1] + [s[|s| - 1]];
    }
  }

  lemma {:induction false} InsertSorted<T(!new)>(key: T -> int, x: T, s: seq<T>)
    requires Sorted(key, s)
    ensures Sorted(key, Insert(key, x, s))
  {
    if s != [] && key(s[|s| - 1]) > key(x) {
      var init, last := s[..|s| - 1], s[|s| - 1];
      InsertSorted(key, x, init);
      var r := Insert(key, x, init);
      forall i | 0 <= i < |r| ensures key(r[i]) <= key(last) {
        InsertMultiset(key, x, init);
        assert r[i] in multiset(r);
      }
    }
  }

  lemma {:induction false} InsertWhere<T(!new)>(key: T -> int, x: T, s: seq<T>, k: int)
    requires Sorted(key, s)
    ensures Where(key, Insert(key, x, s), k) == Where(key, s, k) + if key(x) == k then [x] else []
  {
    if s == [] {
      assert [x][..0] == [];
    } else if key(s[|s| - 1]) <= key(x) {
      assert (s + [x])[..|s|] == s;
    } else {
      var init, last := s[..|s| - 1], s[|s| - 1];
      var r := Insert(key, x, init);
      InsertWhere(key, x, init, k);
      assert (r + [last])[..|r|] == r;
    }
  }

  // Sorting orders, keeps every element, and is stable: elements of equal key keep their order.
  lemma {:induction false} SortOrders<T(!new)>(key: T -> int, s: seq<T>)
    ensures Sorted(key, SortBy(key, s))
  {
    if s == [] {
    } else {
      SortOrders(key, s[..|s| - 1]);
      InsertSorted(key, s[|s| - 1], SortBy(key, s[..|s| - 1]));
    }
  }

  lemma {:induction false} SortKeeps<T>(key: T -> int, s: seq<T>)
    ensures multiset(SortBy(key, s)) == multiset(s)
  {
    if s == [] {
    } else {
      var init, last := s[..|s| - 1], s[|s| - 1];
      SortKeeps(key, init);
      InsertMultiset(key, last, SortBy(key, init));
      assert s == init + [last];
    }
  }

  lemma SortSpec<T(!new)>(key: T -> int, s: seq<T>)
    ensures Sorted(key, SortBy(key, s))
    ensures multiset(SortBy(key, s)) == multiset(s)
  {
    SortOrders(key, s);
    SortKeeps(key, s);
  }

  lemma {:induction false} SortStable<T(!new)>(key: T -> int, s: seq<T>, k: int)
    ensures Where(key, SortBy(key, s), k) == Where(key, s, k)
  {
    if s == [] {
    } else {
      SortSpec(key, s[..|s| - 1]);
      SortStable(key, s[..|s| - 1], k);
      InsertWhere(key, s[|s| - 1], SortBy(key, s[..|s| - 1]), k);
    }
  }

  lemma SortMembers<T(!new)>(key: T -> int, s: seq<T>, x: T)
    ensures x in SortBy(key, s) <==> x in s
  {
    SortSpec(key, s);
    assert x in SortBy(key, s) <==> x in multiset(SortBy(key, s));
    assert x in s <==> x in multiset(s);
  }

  ghost predicate StrictlySorted<T(!new)>(key: T -> int, s: seq<T>) {
    forall i, j :: 0 <= i < j < |s| ==> key(s[i]) < key(s[j])
  }

  ghost predicate DistinctKeys<T(!new)>(key: T -> int, s: seq<T>) {
    forall i, j :: 0 <= i < j < |s| ==> key(s[i]) != key(s[j])
  }

  // Elements of distinct keys end up strictly ordered.
  lemma {:induction false} SortStrict<T(!new)>(key: T -> int, s: seq<T>)
    requires DistinctKeys(key, s)
    ensures StrictlySorted(key, SortBy(key, s))
  {
    SortSpec(key, s);
    var r := SortBy(key, s);
    forall i, j | 0 <= i < j < |r| ensures key(r[i]) < key(r[j]) {
      var k := key(r[i]);
      if key(r[j]) == k {
        SortStable(key, s, k);
        WhereTwice(key, r, k, i, j);
        WhereOnce(key, s, k);
      }
    }
  }

  lemma {:induction false} WhereTwice<T>(key: T -> int, s: seq<T>, k: int, i: nat, j: nat)
    requires i < j < |s| && key(s[i]) == k && key(s[j]) == k
    ensures |Where(key, s, k)| >= 2
  {
    if j < |s| - 1 {
      WhereTwice(key, s[..|s| - 1], k, i, j);
    } else {
      WhereSome(key, s[..|s| - 1], k, i);
    }
  }

  lemma {:induction false} WhereSome<T>(key: T -> int, s: seq<T>, k: int, i: nat)
    requires i < |s| && key(s[i]) == k
    ensures |Where(key, s, k)| >= 1
  {
    if i < |s| - 1 { WhereSome(key, s[..|s| - 1], k, i); }
  }

  lemma {:induction false} WhereNone<T(!new)>(key: T -> int, s: seq<T>, k: int)
    requires forall i :: 0 <= i < |s| ==> key(s[i]) != k
    ensures Where(key, s, k) == []
  {
    if s == [] {
    } else {
      WhereNone(key, s[..|s| - 1], k);
    }
  }

  lemma {:induction false} WhereOnce<T(!new)>(key: T -> int, s: seq<T>, k: int)
    requires DistinctKeys(key, s)
    ensures |Where(key, s, k)| <= 1
  {
    if s == [] {
    } else {
      if key(s[|s| - 1]) == k {
        WhereNone(key, s[..|s| - 1], k);
      } else {
        WhereOnce(key, s[..|s| - 1], k);
      }
    }
  }

  // A rearrangement of distinct elements has distinct elements.
  lemma DistinctCarriesOver<T>(s: seq<T>, r: seq<T>)
    requires multiset(s) == multiset(r)
    requires forall p, q :: 0 <= p < q < |s| ==> s[p] != s[q]
    ensures forall p, q :: 0 <= p < q < |r| ==> r[p] != r[q]
  {
    forall p, q | 0 <= p < q < |r| ensures r[p] != r[q] {
      if r[p] == r[q] {
        TwiceInMultiset(r, p, q);
        OnceInMultiset(s, r[p]);
      }
    }
  }

  lemma TwiceInMultiset<T>(r: seq<T>, p: nat, q: nat)
    requires p < q < |r| && r[p] == r[q]
    ensures multiset(r)[r[p]] >= 2
  {
    assert r == r[..q] + ([r[q]] + r[q + 1..]);
    assert r[p] in r[..q];
  }

  lemma {:induction false} OnceInMultiset<T>(s: seq<T>, x: T)
    requires forall p, q :: 0 <= p < q < |s| ==> s[p] != x || s[q] != x
    ensures multiset(s)[x] <= 1
  {
    if s == [] {
    } else {
      var init, last := s[..|s| - 1], s[|s| - 1];
      assert s == init + [last];
      if x == last {
        assert x !in init;
      } else {
        OnceInMultiset(init, x);
      }
    }
  }

  predicate IsLeast(m: nat, s: set<nat>) {
    m in s && forall x :: x in s ==> m <= x
  }

  lemma {:induction false} LeastExists(s: set<nat>)
    requires s != {}
    ensures exists m: nat :: IsLeast(m, s)
    decreases |s|
  {
    var a :| a in s;
    var rest := s - {a};
    if rest != {} {
      LeastExists(rest);
      var m :| IsLeast(m, rest);
      var least := if a < m then a else m;
      assert IsLeast(least, s) by {
        forall x | x in s ensures least <= x { assert x == a || x in rest; }
      }
    } else {
      assert IsLeast(a, s) by {
        forall x | x in s ensures a <= x { assert x == a || x in rest; }
      }
    }
  }

  // A set of numbers in ascending order.
  function SortedSet(s: set<nat>): (r: seq<nat>)
    ensures forall i, j :: 0 <= i < j < |r| ==> r[i] < r[j]
    ensures forall x :: x in r <==> x in s
    decreases |s|
  {
    if s == {} then []
    else
      LeastExists(s);
      var m :| m in s && IsLeast(m, s);
      [m] + SortedSet(s - {m})
  }

  // The distinct elements of s, in the order they first appear.
  function FirstSeen<T(==,!new)>(s: seq<T>): (r: seq<T>)
    ensures forall x :: x in r <==> x in s
  {
    if s == [] then []
    else
      var init, last := s[..|s| - 1], s[|s| - 1];
      if last in init then FirstSeen(init) else FirstSeen(init) + [last]
  }

  ghost predicate FirstAt<T>(s: seq<T>, x: T, i: nat) {
    i < |s| && s[i] == x && x !in s[..i]
  }

  // Elements are listed in the order of their first places.
  ghost predicate ByFirstPlace<T(!new)>(s: seq<T>, r: seq<T>) {
    forall p, q, i: nat, j: nat ::
      0 <= p < q < |r| && FirstAt(s, r[p], i) && FirstAt(s, r[q], j) ==> i < j
  }

  lemma {:induction false} FirstSeenInOrder<T(!new)>(s: seq<T>)
    ensures ByFirstPlace(s, FirstSeen(s))
  {
    if s == [] {
    } else {
      var init, last := s[..|s| - 1], s[|s| - 1];
      FirstSeenInOrder(init);
      FirstPlacesKept(init, last, FirstSeen(init));
      assert s == init + [last];
    }
  }

  lemma FirstPlacesKept<T(!new)>(s: seq<T>, x: T, r: seq<T>)
    requires ByFirstPlace(s, r) && forall y :: y in r <==> y in s
    ensures ByFirstPlace(s + [x], if x in s then r else r + [x])
  {
    var more, listed := s + [x], if x in s then r else r + [x];
    forall y, i: nat | y in s ensures FirstAt(more, y, i) <==> FirstAt(s, y, i) {
      if i < |s| {
        assert more[..i] == s[..i];
      } else if i == |s| {
        assert more[..i] == s;
      }
    }
    forall p, q, i: nat, j: nat | 0 <= p < q < |listed| && FirstAt(more, listed[p], i) && FirstAt(more, listed[q], j)
      ensures i < j
    {
      assert listed[p] == r[p] && r[p] in r;
      if q < |r| {
        assert r[q] in r;
      } else {
        assert forall k :: 0 <= k < |s| ==> more[k] in s;
      }
    }
  }

  lemma {:induction false} FirstPlace<T>(s: seq<T>, x: T) returns (i: nat)
    requires x in s
    ensures FirstAt(s, x, i)
  {
    if s[0] == x {
      i := 0;
    } else {
      var rest := FirstPlace(s[1..], x);
      i := rest + 1;
      assert s[..i] == [s[0]] + s[1..][..rest];
    }
  }

  lemma FirstSeenDistinct<T(!new)>(s: seq<T>)
    ensures forall p, q :: 0 <= p < q < |FirstSeen(s)| ==> FirstSeen(s)[p] != FirstSeen(s)[q]
  {
    FirstSeenInOrder(s);
    var r := FirstSeen(s);
    forall p, q | 0 <= p < q < |r| ensures r[p] != r[q] {
      assert r[p] in r;
      var i := FirstPlace(s, r[p]);
    }
  }
}
