/** Splitting a sequence at a separator, as JavaScript's `split` does. */
module Splitting {

  /** The parts between the separators. */
  function Split<T(==)>(sep: T, s: seq<T>): (r: seq<seq<T>>)
    ensures r != []
  {
    if s == [] then [[]]
    else
      var rest := Split(sep, s[1..]);
      if s[0] == sep then [[]] + rest else [[s[0]] + rest[0]] + rest[1..]
  }

  predicate Separate<T(==)>(sep: T, parts: seq<seq<T>>) {
    forall p :: p in parts ==> sep !in p
  }

  function Joined<T>(sep: T, parts: seq<seq<T>>): seq<T>
    requires parts != []
  {
    if |parts| == 1 then parts[0] else parts[0] + [sep] + Joined(sep, parts[1..])
  }

  lemma JoinedLonger<T>(sep: T, c: T, first: seq<T>, rest: seq<seq<T>>)
    requires c != sep
    ensures Joined(sep, [[c] + first] + rest) == [c] + Joined(sep, [first] + rest)
    ensures Separate(sep, [[c] + first] + rest) <==> Separate(sep, [first] + rest)
  {
    var short, long := [first] + rest, [[c] + first] + rest;
    assert short[1..] == rest && long[1..] == rest;
    assert long[0] in long && short[0] in short;
    assert forall p :: p in rest ==> p in short && p in long;
    assert forall u :: u in [c] + first <==> u == c || u in first;
  }

  lemma JoinedBar<T>(sep: T, rest: seq<seq<T>>)
    requires rest != []
    ensures Joined(sep, [[]] + rest) == [sep] + Joined(sep, rest) && (Separate(sep, [[]] + rest) <==> Separate(sep, rest))
  {
    var long := [[]] + rest;
    assert long[1..] == rest && forall p :: p in rest ==> p in long;
  }

  /** The split of a text joins to it, and its parts have no separator. */
  lemma {:induction false} SplitJoins<T>(sep: T, s: seq<T>)
    ensures Separate(sep, Split(sep, s)) && Joined(sep, Split(sep, s)) == s
  {
    if s != [] {
      var rest := Split(sep, s[1..]);
      SplitJoins(sep, s[1..]);
      assert s == [s[0]] + s[1..];
      if s[0] == sep {
        JoinedBar(sep, rest);
      } else {
        JoinedLonger(sep, s[0], rest[0], rest[1..]);
        assert rest == [rest[0]] + rest[1..];
      }
    }
  }

  /** Parts without a separator come back from their join. */
  lemma {:induction false} JoinSplits<T>(sep: T, parts: seq<seq<T>>)
    requires parts != [] && Separate(sep, parts)
    ensures Split(sep, Joined(sep, parts)) == parts
    decreases |Joined(sep, parts)|
  {
    var first, rest := parts[0], parts[1..];
    assert parts == [first] + rest && first in parts;
    if first != [] {
      var shorter := [first[1..]] + rest;
      JoinedLonger(sep, first[0], first[1..], rest);
      assert first == [first[0]] + first[1..];
      JoinSplits(sep, shorter);
      assert Joined(sep, parts)[1..] == Joined(sep, shorter);
    } else if rest != [] {
      JoinedBar(sep, rest);
      JoinSplits(sep, rest);
      assert Joined(sep, parts)[1..] == Joined(sep, rest);
    }
  }

  /** The first part, when there are more. */
  lemma {:induction false} SplitFirst<T>(sep: T, s: seq<T>, p: seq<T>)
    requires sep !in p
    ensures |Split(sep, s)| > 1 && Split(sep, s)[0] == p <==> p + [sep] <= s
  {
    if s != [] && s[0] == sep {
      assert p != [] ==> p[0] in p && (p + [sep])[0] == p[0];
    } else if s != [] {
      if p != [] {
        SplitFirst(sep, s[1..], p[1..]);
        assert p + [sep] == [p[0]] + (p[1..] + [sep]) && s == [s[0]] + s[1..];
        assert p + [sep] <= s <==> p[0] == s[0] && p[1..] + [sep] <= s[1..];
      }
    }
  }
}
