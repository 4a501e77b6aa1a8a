/** Python's `sorted`, as the modules here use it: a stable sort by a key, given as the order of
    the keys. What is proved of it: the result is sorted, a permutation and stable, and under an
    order without ties it is the only sorted permutation. Also sequences without repeats. */
module Ordering {

  ghost predicate Ascending(s: seq<nat>) {
    forall i, j :: 0 <= i < j < |s| ==> s[i] < s[j]
  }

  ghost predicate IsLeast(x: nat, s: set<nat>) {
    x in s && forall y :: y in s ==> x <= y
  }

  lemma {:induction false} Least(s: set<nat>) returns (x: nat)
    requires s != {}
    ensures IsLeast(x, s)
  {
    var a :| a in s;
    x := a;
    if s != {a} {
      var b := Least(s - {a});
      x := if b < a then b else a;
    }
    forall y | y in s ensures x <= y {
      assert y == a || y in s - {a};
    }
  }

  /** `sorted` over a set of ids */
  method SortedSet(s: set<nat>) returns (r: seq<nat>)
    ensures forall x :: x in r <==> x in s
    ensures Ascending(r)
  {
    r := [];
    var rest := s;
    while rest != {}
      invariant forall x :: x in s <==> x in r || x in rest
      invariant Ascending(r)
      invariant forall i, x :: 0 <= i < |r| && x in rest ==> r[i] < x
      decreases rest
    {
      ghost var least := Least(rest);
      var x :| x in rest && forall y :: y in rest ==> x <= y;
      r, rest := r + [x], rest - {x};
    }
  }

  lemma InTail(s: seq<nat>, x: nat)
    requires Ascending(s) && s != []
    ensures x in s[1..] <==> x in s && x != s[0]
  {
    assert s == [s[0]] + s[1..];
  }

  /** An ascending sequence is determined by its elements. */
  lemma {:induction false} AscendingUnique(a: seq<nat>, b: seq<nat>)
    requires Ascending(a) && Ascending(b)
    requires forall x :: x in a <==> x in b
    ensures a == b
  {
    assert a != [] ==> a[0] in b;
    assert b != [] ==> b[0] in a;
    if a != [] {
      var i :| 0 <= i < |b| && b[i] == a[0];
      var j :| 0 <= j < |a| && a[j] == b[0];
      assert a[0] == b[0];
      forall x ensures x in a[1..] <==> x in b[1..] {
        InTail(a, x);
        InTail(b, x);
      }
      AscendingUnique(a[1..], b[1..]);
      assert a == [a[0]] + a[1..] && b == [b[0]] + b[1..];
    }
  }

  // ------------------------------------------------------ sorting by a key

  ghost predicate Total<T(!new)>(le: (T, T) -> bool) {
    && (forall a, b :: le(a, b) || le(b, a))
    && (forall a, b, c :: le(a, b) && le(b, c) ==> le(a, c))
  }

  ghost predicate SortedBy<T>(le: (T, T) -> bool, s: seq<T>) {
    forall i, j :: 0 <= i < j < |s| ==> le(s[i], s[j])
  }

  function Insert<T>(le: (T, T) -> bool, x: T, s: seq<T>): seq<T> {
    if |s| == 0 then [x]
    else if le(x, s[0]) then [x] + s
    else [s[0]] + Insert(le, x, s[1..])
  }

  /** Python's stable `sorted(s, key=...)`; le compares keys. */
  function StableSort<T>(le: (T, T) -> bool, s: seq<T>): seq<T> {
    if |s| == 0 then [] else Insert(le, s[0], StableSort(le, s[1..]))
  }

  lemma {:induction false} InsertKeeps<T>(le: (T, T) -> bool, x: T, s: seq<T>)
    ensures multiset(Insert(le, x, s)) == multiset(s) + multiset{x}
  {
    if |s| > 0 {
      assert s == [s[0]] + s[1..];
      if !le(x, s[0]) {
        InsertKeeps(le, x, s[1..]);
      }
    }
  }

  lemma {:induction false} InsertSorts<T(!new)>(le: (T, T) -> bool, x: T, s: seq<T>)
    requires Total(le) && SortedBy(le, s)
    ensures SortedBy(le, Insert(le, x, s))
  {
    if |s| > 0 {
      if le(x, s[0]) {
        var r := [x] + s;
        forall i, j | 0 <= i < j < |r| ensures le(r[i], r[j]) {
          if i == 0 && j > 1 { assert le(s[0], s[j - 1]); }
        }
      } else {
        InsertSorts(le, x, s[1..]);
        var r := Insert(le, x, s[1..]);
        forall j | 0 <= j < |r| ensures le(s[0], r[j]) {
          InsertedFrom(le, x, s[1..], j);
        }
        var t := [s[0]] + r;
        forall i, j | 0 <= i < j < |t| ensures le(t[i], t[j]) {
          if i > 0 { assert le(r[i - 1], r[j - 1]); }
        }
      }
    }
  }

  lemma {:induction false} InsertedFrom<T>(le: (T, T) -> bool, x: T, s: seq<T>, j: nat)
    requires j < |Insert(le, x, s)|
    ensures Insert(le, x, s)[j] == x || Insert(le, x, s)[j] in s
  {
    if |s| > 0 && !le(x, s[0]) && j > 0 {
      InsertedFrom(le, x, s[1..], j - 1);
    }
  }

  lemma {:induction false} StableSortSorts<T(!new)>(le: (T, T) -> bool, s: seq<T>)
    requires Total(le)
    ensures SortedBy(le, StableSort(le, s))
    ensures multiset(StableSort(le, s)) == multiset(s)
  {
    if |s| > 0 {
      assert s == [s[0]] + s[1..];
      StableSortSorts(le, s[1..]);
      InsertSorts(le, s[0], StableSort(le, s[1..]));
      InsertKeeps(le, s[0], StableSort(le, s[1..]));
    }
  }

  lemma SameElements<T>(a: seq<T>, b: seq<T>)
    requires multiset(a) == multiset(b)
    ensures |a| == |b| && forall x :: x in a <==> x in b
  {
    assert |a| == |multiset(a)| && |b| == |multiset(b)|;
    forall x ensures x in a <==> x in b {
      assert x in a <==> x in multiset(a);
    }
  }

  // ------------------------------------------------- sequences without repeats

  ghost predicate Distinct<T>(s: seq<T>) {
    forall i, j :: 0 <= i < j < |s| ==> s[i] != s[j]
  }

  function Elements<T>(s: seq<T>): set<T> {
    set x | x in s
  }

  lemma {:induction false} DistinctSize<T>(s: seq<T>)
    requires Distinct(s)
    ensures |Elements(s)| == |s|
  {
    if s != [] {
      var init, last := s[..|s| - 1], s[|s| - 1];
      DistinctSize(init);
      assert Elements(s) == Elements(init) + {last};
      assert last !in Elements(init);
    }
  }

  lemma DistinctByMultiset<T>(a: seq<T>, b: seq<T>)
    requires multiset(a) == multiset(b) && Distinct(a)
    ensures Distinct(b)
  {
    forall i, j | 0 <= i < j < |b| ensures b[i] != b[j] {
      if b[i] == b[j] {
        assert b == b[..i] + [b[i]] + b[i + 1..j] + [b[j]] + b[j + 1..];
        assert multiset(b)[b[i]] >= 2;
        DistinctCount(a, b[i]);
      }
    }
  }

  lemma {:induction false} DistinctCount<T>(s: seq<T>, x: T)
    requires Distinct(s)
    ensures multiset(s)[x] <= 1
  {
    if s != [] {
      assert s == s[..|s| - 1] + [s[|s| - 1]];
      DistinctCount(s[..|s| - 1], x);
      if s[|s| - 1] == x {
        assert x !in s[..|s| - 1];
        assert x !in multiset(s[..|s| - 1]);
      }
    }
  }

  lemma DistinctSame<T>(a: seq<T>, b: seq<T>)
    requires Distinct(a) && Distinct(b) && forall x :: x in a <==> x in b
    ensures multiset(a) == multiset(b)
  {
    forall x ensures multiset(a)[x] == multiset(b)[x] {
      DistinctCount(a, x);
      DistinctCount(b, x);
      assert x in multiset(a) <==> x in a;
      assert x in multiset(b) <==> x in b;
    }
  }

  // ---------------------------------------------------- uniqueness and stability

  ghost predicate NoTies<T>(le: (T, T) -> bool, s: seq<T>) {
    forall i, j :: 0 <= i < |s| && 0 <= j < |s| && le(s[i], s[j]) && le(s[j], s[i]) ==> s[i] == s[j]
  }

  lemma HeadIsLeast<T(!new)>(le: (T, T) -> bool, s: seq<T>, x: T)
    requires SortedBy(le, s) && x in s && x != s[0]
    ensures le(s[0], x)
  {
    var i :| 0 <= i < |s| && s[i] == x;
  }

  /** Under an order without ties there is only one way to sort. */
  lemma {:induction false} SortedUnique<T(!new)>(le: (T, T) -> bool, a: seq<T>, b: seq<T>)
    requires NoTies(le, a) && SortedBy(le, a) && SortedBy(le, b) && multiset(a) == multiset(b)
    ensures a == b
  {
    SameElements(a, b);
    if |a| > 0 {
      assert a[0] in b && b[0] in a;
      if a[0] != b[0] {
        HeadIsLeast(le, b, a[0]);
        HeadIsLeast(le, a, b[0]);
      }
      TailsSame(a, b);
      SortedUnique(le, a[1..], b[1..]);
      assert a == [a[0]] + a[1..] && b == [b[0]] + b[1..];
    }
  }

  lemma TailsSame<T>(a: seq<T>, b: seq<T>)
    requires |a| > 0 && |b| > 0 && a[0] == b[0] && multiset(a) == multiset(b)
    ensures multiset(a[1..]) == multiset(b[1..])
  {
    assert a == [a[0]] + a[1..] && b == [b[0]] + b[1..];
    assert multiset(a[1..]) == multiset(a) - multiset{a[0]};
    assert multiset(b[1..]) == multiset(b) - multiset{b[0]};
  }

  /** Sorted by le, and by the order of arrival le2 where le does not decide. */
  ghost predicate LexSorted<T>(le: (T, T) -> bool, le2: (T, T) -> bool, s: seq<T>) {
    forall i, j :: 0 <= i < j < |s| ==> le(s[i], s[j]) && (le(s[j], s[i]) ==> le2(s[i], s[j]))
  }

  lemma {:induction false} InsertStable<T(!new)>(le: (T, T) -> bool, le2: (T, T) -> bool, x: T, s: seq<T>)
    requires Total(le) && LexSorted(le, le2, s)
    requires forall y :: y in s ==> le2(x, y)
    ensures LexSorted(le, le2, Insert(le, x, s))
  {
    if |s| > 0 {
      if le(x, s[0]) {
        var r := [x] + s;
        forall i, j | 0 <= i < j < |r| ensures le(r[i], r[j]) && (le(r[j], r[i]) ==> le2(r[i], r[j])) {
          if i == 0 {
            assert r[j] == s[j - 1] && s[j - 1] in s;
            assert j > 1 ==> le(s[0], s[j - 1]);
          } else {
            assert r[i] == s[i - 1] && r[j] == s[j - 1];
          }
        }
      } else {
        assert forall y :: y in s[1..] ==> y in s;
        InsertStable(le, le2, x, s[1..]);
        var r := Insert(le, x, s[1..]);
        forall j | 0 <= j < |r| ensures le(s[0], r[j]) && (le(r[j], s[0]) ==> le2(s[0], r[j])) {
          InsertedFrom(le, x, s[1..], j);
          if r[j] in s[1..] {
            var k :| 0 <= k < |s[1..]| && s[1..][k] == r[j];
            assert le(s[0], s[k + 1]);
          }
        }
        var t := [s[0]] + r;
        forall i, j | 0 <= i < j < |t| ensures le(t[i], t[j]) && (le(t[j], t[i]) ==> le2(t[i], t[j])) {
          assert t[j] == r[j - 1] && (i > 0 ==> t[i] == r[i - 1]);
        }
      }
    }
  }

  /** The sort is stable: ties stay in arrival order. */
  lemma {:induction false} StableSortStable<T(!new)>(le: (T, T) -> bool, le2: (T, T) -> bool, s: seq<T>)
    requires Total(le) && SortedBy(le2, s)
    ensures LexSorted(le, le2, StableSort(le, s))
  {
    if |s| > 0 {
      StableSortStable(le, le2, s[1..]);
      StableSortSorts(le, s[1..]);
      SameElements(StableSort(le, s[1..]), s[1..]);
      forall y | y in s[1..] ensures le2(s[0], y) {
        var k :| 0 <= k < |s[1..]| && s[1..][k] == y;
        assert le2(s[0], s[k + 1]);
      }
      InsertStable(le, le2, s[0], StableSort(le, s[1..]));
    }
  }

  // ------------------------------------------------------------- the first few

  function Take<T>(s: seq<T>, n: nat): seq<T> {
    if |s| <= n then s else s[..n]
  }
}
