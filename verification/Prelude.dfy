/** Result types and multiset facts shared by the components. */
module Prelude {

  datatype Option<+T> = None | Some(value: T)

  datatype Result<+T, +E> = Ok(value: T) | Err(error: E)

  /** The character codes that JavaScript's `\s` matches. */
  predicate IsSpace(u: int) {
    || 9 <= u <= 13 || u == 0x20 || u == 0xA0 || u == 0x1680 || 0x2000 <= u <= 0x200A
    || u == 0x2028 || u == 0x2029 || u == 0x202F || u == 0x205F || u == 0x3000 || u == 0xFEFF
  }

  function Map<A, B>(f: A -> B, s: seq<A>): seq<B> {
    seq(|s|, i requires 0 <= i < |s| => f(s[i]))
  }

  lemma TakeNext<A>(s: seq<A>, i: nat)
    requires i < |s|
    ensures s[..i + 1] == s[..i] + [s[i]]
  {
  }

  lemma TakeAll<A>(s: seq<A>)
    ensures s[..|s|] == s
  {
  }

  lemma MapAppend<A, B>(f: A -> B, s: seq<A>, a: A)
    ensures Map(f, s + [a]) == Map(f, s) + [f(a)]
  {
  }

  lemma MapCons<A, B>(f: A -> B, a: A, s: seq<A>)
    ensures Map(f, [a] + s) == [f(a)] + Map(f, s)
  {
  }

  lemma MultisetRemoveAt<A>(s: seq<A>, i: nat)
    requires i < |s|
    ensures multiset(s) == multiset(s[..i] + s[i + 1..]) + multiset{s[i]}
  {
    assert s == s[..i] + [s[i]] + s[i + 1..];
  }

  lemma MapRemoveAt<A, B>(f: A -> B, s: seq<A>, i: nat)
    requires i < |s|
    ensures multiset(Map(f, s)) == multiset(Map(f, s[..i] + s[i + 1..])) + multiset{f(s[i])}
  {
    MultisetRemoveAt(Map(f, s), i);
    assert Map(f, s)[..i] + Map(f, s)[i + 1..] == Map(f, s[..i] + s[i + 1..]);
  }

  lemma SameRest<A>(a: multiset<A>, b: multiset<A>, x: A)
    requires a + multiset{x} == b + multiset{x}
    ensures a == b
  {
    assert a == a + multiset{x} - multiset{x};
    assert b == b + multiset{x} - multiset{x};
  }

  /** Mapping respects rearrangement. */
  lemma {:induction false} MapPermutes<A, B>(f: A -> B, s: seq<A>, t: seq<A>)
    requires multiset(s) == multiset(t)
    ensures multiset(Map(f, s)) == multiset(Map(f, t))
  {
    assert |s| == |multiset(s)| == |multiset(t)| == |t|;
    if s != [] {
      assert s[0] in multiset(t);
      var j :| 0 <= j < |t| && t[j] == s[0];
      var front, rest := s[..0] + s[1..], t[..j] + t[j + 1..];
      MultisetRemoveAt(s, 0);
      MultisetRemoveAt(t, j);
      SameRest(multiset(front), multiset(rest), s[0]);
      MapPermutes(f, front, rest);
      MapRemoveAt(f, s, 0);
      MapRemoveAt(f, t, j);
    }
  }

  /** A function that tells all the elements apart keeps apart what lists hold of them. */
  lemma {:induction false} MapTellsApart<A, B>(f: A -> B, s: seq<A>, t: seq<A>)
    requires multiset(Map(f, s)) == multiset(Map(f, t))
    requires forall x, y :: x in s && y in t && f(x) == f(y) ==> x == y
    ensures multiset(s) == multiset(t)
  {
    assert |s| == |multiset(Map(f, s))| == |multiset(Map(f, t))| == |t|;
    if s != [] {
      MapContains(f, s, s[0]);
      assert f(s[0]) in Map(f, t);
      var j :| 0 <= j < |t| && Map(f, t)[j] == f(s[0]);
      var front, rest := s[..0] + s[1..], t[..j] + t[j + 1..];
      MapRemoveAt(f, s, 0);
      MapRemoveAt(f, t, j);
      SameRest(multiset(Map(f, front)), multiset(Map(f, rest)), f(s[0]));
      assert forall x :: x in front ==> x in s;
      assert forall y :: y in rest ==> y in t;
      MapTellsApart(f, front, rest);
      MultisetRemoveAt(s, 0);
      MultisetRemoveAt(t, j);
    }
  }

  lemma SameMembers<A>(s: seq<A>, t: seq<A>)
    requires multiset(s) == multiset(t)
    ensures forall a :: a in s <==> a in t
  {
    forall a
      ensures a in s <==> a in t
    {
      assert a in s <==> a in multiset(s);
      assert a in t <==> a in multiset(t);
    }
  }

  lemma MapMember<A, B>(f: A -> B, s: seq<A>, b: B) returns (a: A)
    requires b in multiset(Map(f, s))
    ensures a in s && f(a) == b
  {
    var i :| 0 <= i < |s| && Map(f, s)[i] == b;
    a := s[i];
  }

  lemma MapContains<A, B>(f: A -> B, s: seq<A>, a: A)
    requires a in s
    ensures f(a) in multiset(Map(f, s))
  {
    var i :| 0 <= i < |s| && s[i] == a;
    assert Map(f, s)[i] == f(a);
  }

  lemma SubsetSize<T>(a: set<T>, b: set<T>)
    requires a <= b
    ensures |a| <= |b| && (|a| == |b| <==> a == b)
  {
    assert b == a + (b - a);
  }

  lemma SubMultisetSize<T>(a: multiset<T>, b: multiset<T>)
    requires a <= b
    ensures |a| <= |b|
  {
    assert b == a + (b - a);
  }
}
