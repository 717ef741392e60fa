/** Choosing elements of a list by distinct indices. */
module Picking {
  import opened Prelude

  predicate Distinct(idx: seq<nat>) {
    forall i, j :: 0 <= i < j < |idx| ==> idx[i] != idx[j]
  }

  predicate Within(idx: seq<nat>, n: nat) {
    forall i :: 0 <= i < |idx| ==> idx[i] < n
  }

  function At<A>(s: seq<A>, idx: seq<nat>): (r: seq<A>)
    requires Within(idx, |s|)
    ensures |r| == |idx| && forall i :: 0 <= i < |idx| ==> r[i] == s[idx[i]]
  {
    seq(|idx|, i requires 0 <= i < |idx| => s[idx[i]])
  }

  function Without(idx: seq<nat>, k: nat): seq<nat>
    requires k < |idx|
  {
    idx[..k] + idx[k + 1..]
  }

  lemma WithoutOne(idx: seq<nat>, k: nat)
    requires Distinct(idx) && k < |idx|
    ensures Distinct(Without(idx, k)) && idx[k] !in Without(idx, k)
    ensures forall j :: j in idx <==> j in Without(idx, k) || j == idx[k]
  {
    var short := Without(idx, k);
    assert forall i :: 0 <= i < |short| ==> short[i] == if i < k then idx[i] else idx[i + 1];
    forall j | j in idx && j != idx[k]
      ensures j in short
    {
      var i :| 0 <= i < |idx| && idx[i] == j;
      assert short[if i < k then i else i - 1] == j;
    }
  }

  /** Dropping the last element of the list, and the index that points at it if there is one. */
  lemma AtShorter<A>(s: seq<A>, idx: seq<nat>, k: nat)
    requires s != [] && Distinct(idx) && Within(idx, |s|) && k < |idx| && idx[k] == |s| - 1
    ensures var short := Without(idx, k);
            && Distinct(short) && Within(short, |s| - 1)
            && multiset(At(s, idx)) == multiset(At(s[..|s| - 1], short)) + multiset{s[|s| - 1]}
    ensures forall j :: j in idx <==> j in Without(idx, k) || j == |s| - 1
  {
    WithoutOne(idx, k);
    WithoutLast(idx, k, |s| - 1);
    hide Distinct;
    MultisetRemoveAt(At(s, idx), k);
    AtWithout(s, idx, k);
  }

  lemma WithoutLast(idx: seq<nat>, k: nat, n: nat)
    requires k < |idx| && Within(idx, n + 1) && n !in Without(idx, k)
    ensures Within(Without(idx, k), n)
  {
    var short := Without(idx, k);
    forall i | 0 <= i < |short|
      ensures short[i] < n
    {
      assert short[i] in short && short[i] == if i < k then idx[i] else idx[i + 1];
    }
  }

  lemma AtWithout<A>(s: seq<A>, idx: seq<nat>, k: nat)
    requires s != [] && k < |idx| && Within(idx, |s|) && Within(Without(idx, k), |s| - 1)
    ensures At(s[..|s| - 1], Without(idx, k)) == At(s, idx)[..k] + At(s, idx)[k + 1..]
  {
  }

  lemma AtPrefix<A>(s: seq<A>, idx: seq<nat>)
    requires s != [] && Within(idx, |s|) && |s| - 1 !in idx
    ensures Within(idx, |s| - 1) && At(s, idx) == At(s[..|s| - 1], idx)
  {
    forall i | 0 <= i < |idx|
      ensures idx[i] < |s| - 1
    {
      assert idx[i] in idx;
    }
  }

  /** Distinct indices pick each copy at most once. */
  lemma {:induction false} AtIncluded<A>(s: seq<A>, idx: seq<nat>)
    requires Distinct(idx) && Within(idx, |s|)
    ensures multiset(At(s, idx)) <= multiset(s)
    decreases |s|
  {
    if idx != [] {
      assert idx[0] < |s|;
      var n := |s| - 1;
      assert s == s[..n] + [s[n]];
      if n in idx {
        var k :| 0 <= k < |idx| && idx[k] == n;
        AtShorter(s, idx, k);
        AtIncluded(s[..n], Without(idx, k));
      } else {
        AtPrefix(s, idx);
        AtIncluded(s[..n], idx);
      }
    }
  }

  /** A value with a copy left over has an index left over. */
  lemma {:induction false} FreeIndex<A>(s: seq<A>, idx: seq<nat>, v: A) returns (j: nat)
    requires Distinct(idx) && Within(idx, |s|)
    requires multiset(At(s, idx))[v] < multiset(s)[v]
    ensures j < |s| && j !in idx && s[j] == v
    decreases |s|
  {
    assert s != [];
    var n := |s| - 1;
    assert s == s[..n] + [s[n]];
    if n in idx {
      var k :| 0 <= k < |idx| && idx[k] == n;
      AtShorter(s, idx, k);
      j := FreeIndex(s[..n], Without(idx, k), v);
    } else if s[n] == v {
      j := n;
    } else {
      AtPrefix(s, idx);
      j := FreeIndex(s[..n], idx, v);
    }
  }

  /** Distinct indices that leave none out pick every copy. */
  lemma {:induction false} AtAll<A>(s: seq<A>, idx: seq<nat>)
    requires Distinct(idx) && Within(idx, |s|)
    requires forall j: nat :: j < |s| ==> j in idx
    ensures multiset(At(s, idx)) == multiset(s)
  {
    AtIncluded(s, idx);
    forall v
      ensures multiset(At(s, idx))[v] == multiset(s)[v]
    {
      if multiset(At(s, idx))[v] < multiset(s)[v] {
        var j := FreeIndex(s, idx, v);
      }
    }
  }

  lemma AtAppend<A>(s: seq<A>, idx: seq<nat>, more: seq<nat>)
    requires Within(idx, |s|) && Within(more, |s|)
    ensures Within(idx + more, |s|) && At(s, idx + more) == At(s, idx) + At(s, more)
  {
  }

  lemma DistinctAppend(idx: seq<nat>, more: seq<nat>)
    requires Distinct(idx) && Distinct(more) && forall j :: j in idx ==> j !in more
    ensures Distinct(idx + more)
  {
    forall i, j | 0 <= i < j < |idx + more|
      ensures (idx + more)[i] != (idx + more)[j]
    {
      if i < |idx| <= j {
        assert idx[i] in idx && more[j - |idx|] in more;
      }
    }
  }

  lemma PrefixLeaves<A>(all: multiset<A>, s: seq<A>, k: nat)
    requires k < |s| && multiset(s) <= all
    ensures multiset(s[..k])[s[k]] < all[s[k]]
  {
    assert s == s[..k] + [s[k]] + s[k + 1..];
    assert multiset(s)[s[k]] <= all[s[k]];
  }

  lemma OneMorePick<A>(s: seq<A>, taken: seq<nat>, rest: seq<nat>, j: nat)
    requires Distinct(taken) && Within(taken, |s|) && Within(rest, |s|) && j < |s|
    requires Distinct(rest + [j]) && forall m :: m in rest + [j] ==> m !in taken
    ensures multiset(At(s, taken))[s[j]] + multiset(At(s, rest))[s[j]] < multiset(s)[s[j]]
  {
    DistinctAppend(taken, rest + [j]);
    AtAppend(s, taken, rest + [j]);
    AtAppend(s, rest, [j]);
    AtIncluded(s, taken + (rest + [j]));
    assert At(s, [j]) == [s[j]];
    var picked := multiset(At(s, taken)) + multiset(At(s, rest)) + multiset{s[j]};
    assert multiset(At(s, taken + (rest + [j]))) == picked;
    assert picked[s[j]] <= multiset(s)[s[j]];
  }

  lemma FewIndices(idx: seq<nat>, n: nat)
    requires Distinct(idx) && Within(idx, n)
    ensures |idx| <= n
  {
    var numbers := seq(n, (i: nat) => i);
    AtIncluded(numbers, idx);
    assert |multiset(At(numbers, idx))| == |idx|;
    SubMultisetSize(multiset(At(numbers, idx)), multiset(numbers));
  }

  /** As many distinct indices as there are miss none. */
  lemma AllIndices(idx: seq<nat>, n: nat)
    requires Distinct(idx) && Within(idx, n) && |idx| == n
    ensures forall j: nat :: j < n ==> j in idx
  {
    forall j: nat | j < n
      ensures j in idx
    {
      if j !in idx {
        DistinctAppend(idx, [j]);
        FewIndices(idx + [j], n);
      }
    }
  }

  lemma CountSame<A>(s: seq<A>, v: A)
    requires forall k :: 0 <= k < |s| ==> s[k] == v
    ensures multiset(s)[v] == |s|
  {
    if s != [] {
      CountSame(s[1..], v);
      assert s == [s[0]] + s[1..];
    }
  }

  /** Distinct indices of a value: they are all of them exactly when they are as many. */
  lemma PickedAll<A>(s: seq<A>, idx: seq<nat>, v: A)
    requires Distinct(idx) && Within(idx, |s|)
    ensures (forall j: nat :: j < |s| && s[j] == v ==> j in idx) <==> multiset(At(s, idx))[v] == multiset(s)[v]
  {
    AtIncluded(s, idx);
    if multiset(At(s, idx))[v] < multiset(s)[v] {
      var j := FreeIndex(s, idx, v);
    } else {
      forall j: nat | j < |s| && s[j] == v
        ensures j in idx
      {
        if j !in idx {
          DistinctAppend(idx, [j]);
          AtAppend(s, idx, [j]);
          AtIncluded(s, idx + [j]);
        }
      }
    }
  }

  lemma CountFirst<A>(s: seq<A>, v: A)
    requires s != []
    ensures multiset(s)[v] == multiset(s[1..])[v] + (if s[0] == v then 1 else 0)
  {
    assert s == [s[0]] + s[1..];
  }

  /** Where each value of one list stands in exactly one of two others, the counts add up. */
  lemma {:induction false} SplitCount<A(!new)>(all: seq<Option<A>>, left: seq<Option<A>>, right: seq<Option<A>>, v: A)
    requires |all| == |left| == |right|
    requires forall k :: 0 <= k < |all| ==> (left[k].None? && right[k] == all[k]) || (right[k].None? && left[k] == all[k])
    ensures multiset(all)[Some(v)] == multiset(left)[Some(v)] + multiset(right)[Some(v)]
  {
    if all != [] {
      SplitCount(all[1..], left[1..], right[1..], v);
      CountFirst(all, Some(v));
      CountFirst(left, Some(v));
      CountFirst(right, Some(v));
    }
  }

  /** A list whose copies another list has can be picked from it. */
  lemma Chosen<A>(s: seq<A>, t: seq<A>) returns (idx: seq<nat>)
    requires multiset(t) <= multiset(s)
    ensures Distinct(idx) && Within(idx, |s|) && At(s, idx) == t
  {
    idx := [];
    for k := 0 to |t|
      invariant Distinct(idx) && Within(idx, |s|) && At(s, idx) == t[..k]
    {
      PrefixLeaves(multiset(s), t, k);
      var j := FreeIndex(s, idx, t[k]);
      DistinctAppend(idx, [j]);
      AtAppend(s, idx, [j]);
      idx := idx + [j];
    }
  }

  /** Lists with equal multisets are rearrangements of each other. */
  lemma Rearranged<A>(s: seq<A>, t: seq<A>) returns (idx: seq<nat>)
    requires multiset(s) == multiset(t)
    ensures |s| == |t| && Distinct(idx) && Within(idx, |s|) && At(s, idx) == t
    ensures forall j: nat :: j < |s| ==> j in idx
  {
    assert |multiset(s)| == |s| && |multiset(t)| == |t|;
    idx := Chosen(s, t);
    AllIndices(idx, |s|);
  }

  /** Mapping respects inclusion. */
  lemma MapIncluded<A, B>(f: A -> B, s: seq<A>, t: seq<A>)
    requires multiset(s) <= multiset(t)
    ensures multiset(Map(f, s)) <= multiset(Map(f, t))
  {
    var idx := Chosen(t, s);
    assert Map(f, s) == At(Map(f, t), idx);
    AtIncluded(Map(f, t), idx);
  }
}
