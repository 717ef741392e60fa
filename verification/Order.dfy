/** Orders and sorted sequences, shared by every component that sorts its output. */
module Order {

  ghost predicate TotalOrder<T(!new)>(le: (T, T) -> bool) {
    && (forall x, y :: le(x, y) || le(y, x))
    && (forall x, y :: le(x, y) && le(y, x) ==> x == y)
    && (forall x, y, z :: le(x, y) && le(y, z) ==> le(x, z))
  }

  ghost predicate Sorted<T>(le: (T, T) -> bool, s: seq<T>) {
    forall i, j :: 0 <= i < j < |s| ==> le(s[i], s[j])
  }

  /** Sorting leaves no choice: two sorted arrangements of the same elements coincide. */
  lemma {:induction false} SortedUnique<T(!new)>(le: (T, T) -> bool, a: seq<T>, b: seq<T>)
    requires TotalOrder(le) && Sorted(le, a) && Sorted(le, b) && multiset(a) == multiset(b)
    ensures a == b
  {
    hide TotalOrder;
    hide Sorted;
    assert |a| == |multiset(a)| == |multiset(b)| == |b|;
    if a != [] {
      SameFirst(le, a, b);
      SortedTail(le, a);
      SortedTail(le, b);
      assert a == [a[0]] + a[1..] && b == [b[0]] + b[1..];
      assert multiset(a[1..]) == multiset(a) - multiset{a[0]};
      SortedUnique(le, a[1..], b[1..]);
    }
  }

  lemma SortedTail<T>(le: (T, T) -> bool, s: seq<T>)
    requires Sorted(le, s) && s != []
    ensures Sorted(le, s[1..])
  {
  }

  lemma SameFirst<T(!new)>(le: (T, T) -> bool, a: seq<T>, b: seq<T>)
    requires TotalOrder(le) && Sorted(le, a) && Sorted(le, b) && multiset(a) == multiset(b) && a != [] && b != []
    ensures a[0] == b[0]
  {
    assert a[0] in multiset(b) && b[0] in multiset(a);
    var i :| 0 <= i < |b| && b[i] == a[0];
    var j :| 0 <= j < |a| && a[j] == b[0];
    assert le(b[0], b[i]) && le(a[0], a[j]);
  }

  /** An order in which different values may tie. */
  ghost predicate Preorder<T(!new)>(le: (T, T) -> bool) {
    && (forall x, y :: le(x, y) || le(y, x))
    && (forall x, y, z :: le(x, y) && le(y, z) ==> le(x, z))
  }

  /** A finite set has a least element. */
  lemma {:induction false} LeastExists<T(!new)>(le: (T, T) -> bool, s: set<T>) returns (x: T)
    requires s != {} && Preorder(le)
    ensures x in s && forall y :: y in s ==> le(x, y)
    decreases |s|
  {
    x :| x in s;
    var rest := s - {x};
    if rest == {} {
      assert s == {x};
    } else {
      var least := LeastExists(le, rest);
      assert s == rest + {x};
      x := if le(x, least) then x else least;
    }
  }

  ghost predicate Distinct<T>(s: seq<T>) {
    forall i, j :: 0 <= i < j < |s| ==> s[i] != s[j]
  }

  /** The elements of a set in order, as `[...set].sort()` lists them. */
  method SortedSet<T(==, !new)>(s: set<T>, le: (T, T) -> bool) returns (t: seq<T>)
    requires Preorder(le)
    ensures Sorted(le, t) && Distinct(t) && forall x :: x in t <==> x in s
  {
    hide Preorder;
    t := [];
    var todo := s;
    while todo != {}
      invariant todo <= s && Sorted(le, t) && Distinct(t)
      invariant forall x :: x in t <==> x in s && x !in todo
      invariant forall x, y :: x in t && y in todo ==> le(x, y)
      decreases todo
    {
      ghost var least := LeastExists(le, todo);
      var k :| k in todo && forall y :: y in todo ==> le(k, y);
      SortedAppend(le, t, k);
      t, todo := t + [k], todo - {k};
    }
  }

  lemma SortedAppend<T(!new)>(le: (T, T) -> bool, t: seq<T>, k: T)
    requires Sorted(le, t) && Distinct(t) && k !in t && forall x :: x in t ==> le(x, k)
    ensures Sorted(le, t + [k]) && Distinct(t + [k])
  {
    forall i, j | 0 <= i < j < |t + [k]|
      ensures le((t + [k])[i], (t + [k])[j]) && (t + [k])[i] != (t + [k])[j]
    {
      assert t[i] in t;
    }
  }

  lemma {:induction false} SortedExists<T(!new)>(le: (T, T) -> bool, s: seq<T>) returns (t: seq<T>)
    requires TotalOrder(le)
    ensures Sorted(le, t) && multiset(t) == multiset(s)
  {
    t := [];
    if s != [] {
      t := SortedExists(le, s[1..]);
      t := Inserted(le, s[0], t);
      assert s == [s[0]] + s[1..];
    }
  }

  lemma {:induction false} Inserted<T(!new)>(le: (T, T) -> bool, x: T, s: seq<T>) returns (t: seq<T>)
    requires TotalOrder(le) && Sorted(le, s)
    ensures Sorted(le, t) && multiset(t) == multiset(s) + multiset{x}
  {
    hide TotalOrder;
    if s == [] || le(x, s[0]) {
      t := [x] + s;
      LeastFirst(le, x, s);
    } else {
      TotalFacts(le, x, s[0]);
      SortedTail(le, s);
      var rest := Inserted(le, x, s[1..]);
      t := [s[0]] + rest;
      assert s == [s[0]] + s[1..];
      forall j | 0 <= j < |rest|
        ensures le(s[0], rest[j])
      {
        assert rest[j] in multiset(rest);
        assert rest[j] == x || rest[j] in s[1..];
      }
    }
  }

  lemma LeastFirst<T(!new)>(le: (T, T) -> bool, x: T, s: seq<T>)
    requires TotalOrder(le) && Sorted(le, s) && (s == [] || le(x, s[0]))
    ensures Sorted(le, [x] + s)
  {
  }

  lemma TotalFacts<T(!new)>(le: (T, T) -> bool, x: T, y: T)
    requires TotalOrder(le)
    ensures le(x, y) || le(y, x)
  {
  }

  /** Comparison item by item, a proper prefix first. */
  predicate LexLe<T>(rank: T -> int, a: seq<T>, b: seq<T>) {
    a == [] || (b != [] && (rank(a[0]) < rank(b[0]) || (rank(a[0]) == rank(b[0]) && LexLe(rank, a[1..], b[1..]))))
  }

  ghost predicate Injective<T(!new)>(rank: T -> int) {
    forall x, y :: rank(x) == rank(y) ==> x == y
  }

  lemma {:induction false} LexTotal<T(!new)>(rank: T -> int, a: seq<T>, b: seq<T>)
    requires Injective(rank)
    ensures LexLe(rank, a, b) || LexLe(rank, b, a)
    ensures LexLe(rank, a, b) && LexLe(rank, b, a) ==> a == b
  {
    if a != [] && b != [] && rank(a[0]) == rank(b[0]) {
      LexTotal(rank, a[1..], b[1..]);
      assert a == [a[0]] + a[1..] && b == [b[0]] + b[1..];
    }
  }

  lemma {:induction false} LexTransitive<T>(rank: T -> int, a: seq<T>, b: seq<T>, c: seq<T>)
    requires LexLe(rank, a, b) && LexLe(rank, b, c)
    ensures LexLe(rank, a, c)
  {
    if a != [] && rank(a[0]) == rank(b[0]) == rank(c[0]) {
      LexTransitive(rank, a[1..], b[1..], c[1..]);
    }
  }

  function CharRank(c: char): int { c as int }

  /** Strings by their units. */
  predicate StringLe(a: string, b: string) {
    LexLe(CharRank, a, b)
  }

  function UnitRank(u: int): int { u }

  /** Sequences of code units. */
  predicate UnitsLe(a: seq<int>, b: seq<int>) {
    LexLe(UnitRank, a, b)
  }

  lemma UnitsOrdered(a: seq<int>, b: seq<int>, c: seq<int>)
    ensures UnitsLe(a, b) || UnitsLe(b, a)
    ensures UnitsLe(a, b) && UnitsLe(b, c) ==> UnitsLe(a, c)
  {
    LexTotal(UnitRank, a, b);
    if UnitsLe(a, b) && UnitsLe(b, c) {
      LexTransitive(UnitRank, a, b, c);
    }
  }

  lemma StringOrder()
    ensures TotalOrder(StringLe)
  {
    forall a, b
      ensures StringLe(a, b) || StringLe(b, a)
      ensures StringLe(a, b) && StringLe(b, a) ==> a == b
    {
      LexTotal(CharRank, a, b);
    }
    forall a, b, c | StringLe(a, b) && StringLe(b, c)
      ensures StringLe(a, c)
    {
      LexTransitive(CharRank, a, b, c);
    }
  }

  /** One sequence comes before another when it is the beginning of it, or has the smaller unit
      at the first place where they differ. */
  lemma {:induction false} UnitsLeMeans(a: seq<int>, b: seq<int>)
    ensures UnitsLe(a, b) <==> a <= b || exists k :: 0 <= k < |a| && k < |b| && a[..k] == b[..k] && a[k] < b[k]
  {
    if a != [] && b != [] && a[0] == b[0] {
      UnitsLeMeans(a[1..], b[1..]);
      assert a == [a[0]] + a[1..] && b == [b[0]] + b[1..];
      if k :| 0 <= k < |a| && k < |b| && a[..k] == b[..k] && a[k] < b[k] {
        assert k > 0 && a[1..][..k - 1] == a[..k][1..] && b[1..][..k - 1] == b[..k][1..];
      }
      if k :| 0 <= k < |a[1..]| && k < |b[1..]| && a[1..][..k] == b[1..][..k] && a[1..][k] < b[1..][k] {
        assert a[..k + 1] == [a[0]] + a[1..][..k] && b[..k + 1] == [b[0]] + b[1..][..k];
      }
    } else if a != [] && b != [] && a[0] < b[0] {
      assert a[..0] == b[..0];
    }
  }

  lemma {:induction false} StringLeMeans(a: string, b: string)
    ensures StringLe(a, b) <==> a <= b || exists k :: 0 <= k < |a| && k < |b| && a[..k] == b[..k] && a[k] < b[k]
  {
    if a != [] && b != [] && a[0] == b[0] {
      StringLeMeans(a[1..], b[1..]);
      assert a == [a[0]] + a[1..] && b == [b[0]] + b[1..];
      if k :| 0 <= k < |a| && k < |b| && a[..k] == b[..k] && a[k] < b[k] {
        assert k > 0 && a[1..][..k - 1] == a[..k][1..] && b[1..][..k - 1] == b[..k][1..];
      }
      if k :| 0 <= k < |a[1..]| && k < |b[1..]| && a[1..][..k] == b[1..][..k] && a[1..][k] < b[1..][k] {
        assert a[..k + 1] == [a[0]] + a[1..][..k] && b[..k + 1] == [b[0]] + b[1..][..k];
      }
    } else if a != [] && b != [] && a[0] < b[0] {
      assert a[..0] == b[..0];
    }
  }
}
