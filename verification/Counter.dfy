/** Counting maps: how the JavaScript comparators keep multisets. */
module Counter {
  import opened Prelude

  function Count<K>(m: map<K, nat>, k: K): nat {
    if k in m then m[k] else 0
  }

  /** The map counts exactly what the multiset holds. */
  ghost predicate Counts<K(!new)>(m: map<K, nat>, s: multiset<K>) {
    forall k :: Count(m, k) == s[k]
  }

  /** Keys come in order of first occurrence, as a JavaScript Map iterates them. */
  method Counted<K(!new, ==)>(items: seq<K>) returns (keys: seq<K>, m: map<K, nat>)
    ensures Counts(m, multiset(items))
    ensures forall k :: k in m <==> k in keys
    ensures forall k :: k in m <==> k in items
    ensures forall i, j :: 0 <= i < j < |keys| ==> keys[i] != keys[j]
  {
    keys, m := [], map[];
    for i := 0 to |items|
      invariant Counts(m, multiset(items[..i]))
      invariant forall k :: k in m <==> k in keys
      invariant forall k :: k in m <==> k in items[..i]
      invariant forall i, j :: 0 <= i < j < |keys| ==> keys[i] != keys[j]
    {
      TakeNext(items, i);
      if items[i] !in m {
        keys := keys + [items[i]];
      }
      m := m[items[i] := Count(m, items[i]) + 1];
    }
    TakeAll(items);
  }

  /** Take one copy out of a counter that has one. */
  method Consume<K(!new, ==)>(m: map<K, nat>, k: K, ghost left: multiset<K>) returns (m': map<K, nat>)
    requires Counts(m, left) && Count(m, k) > 0
    ensures Counts(m', left - multiset{k})
    ensures m'.Keys == m.Keys
  {
    m' := m[k := m[k] - 1];
  }

  lemma CountGrows<K(!new)>(m: map<K, nat>, s: multiset<K>, k: K)
    requires Counts(m, s)
    ensures Counts(m[k := Count(m, k) + 1], s + multiset{k})
  {
  }

  lemma CountShrinks<K(!new)>(m: map<K, nat>, s: multiset<K>, k: K)
    requires Counts(m, s) && Count(m, k) > 0
    ensures Counts(m[k := m[k] - 1], s - multiset{k})
  {
  }

  lemma TakeOne<K>(all: multiset<K>, used: multiset<K>, k: K)
    requires used <= all && (all - used)[k] > 0
    ensures used + multiset{k} <= all
    ensures all - used - multiset{k} == all - (used + multiset{k})
  {
  }

  lemma OneMoreIncluded<K>(all: multiset<K>, used: multiset<K>, k: K)
    ensures used + multiset{k} <= all <==> used <= all && (all - used)[k] > 0
  {
    if used + multiset{k} <= all {
      assert (used + multiset{k})[k] <= all[k];
      assert used <= used + multiset{k};
    }
  }

  method PushCopies<K(!new, ==)>(out0: seq<K>, k: K, n0: int) returns (out: seq<K>)
    ensures multiset(out)[k] == multiset(out0)[k] + (if n0 > 0 then n0 else 0)
    ensures forall j :: j != k ==> multiset(out)[j] == multiset(out0)[j]
    ensures |out0| <= |out| && out[..|out0|] == out0 && forall i :: |out0| <= i < |out| ==> out[i] == k
  {
    out := out0;
    var n := n0;
    while n > 0
      invariant multiset(out)[k] + (if n > 0 then n else 0) == multiset(out0)[k] + (if n0 > 0 then n0 else 0)
      invariant forall j :: j != k ==> multiset(out)[j] == multiset(out0)[j]
      invariant |out0| <= |out| && out[..|out0|] == out0 && forall i :: |out0| <= i < |out| ==> out[i] == k
    {
      out := out + [k];
      n := n - 1;
    }
  }

  /** The copies of a value stand together. */
  ghost predicate Grouped<K>(s: seq<K>) {
    forall i, j, k :: 0 <= i < j < k < |s| && s[i] == s[k] ==> s[j] == s[i]
  }

  lemma GroupedMore<K>(s: seq<K>, k: K, t: seq<K>)
    requires Grouped(s) && multiset(s)[k] == 0
    requires |s| <= |t| && t[..|s|] == s && forall i :: |s| <= i < |t| ==> t[i] == k
    ensures Grouped(t)
  {
    assert k !in s by {
      assert k !in multiset(s);
    }
    forall h, i, j | 0 <= h < i < j < |t| && t[h] == t[j]
      ensures t[i] == t[h]
    {
      assert h < |s| ==> t[h] == s[h] && s[h] in s;
      assert j < |s| ==> t[j] == s[j] && t[i] == s[i];
    }
  }

  /** What `subtract` can yield: nothing is both removed and added, and copies stand together. */
  ghost predicate Subtracted<K(!new)>(removed: seq<K>, added: seq<K>) {
    Grouped(removed) && Grouped(added) && forall x :: x in removed ==> x !in added
  }

  /** One direction of `subtract`: every item as often as `minuend` exceeds `subtrahend`. */
  method Excess<K(!new, ==)>(keys: seq<K>, minuend: map<K, nat>, subtrahend: map<K, nat>,
                             ghost a: multiset<K>, ghost b: multiset<K>) returns (out: seq<K>)
    requires Counts(minuend, a) && Counts(subtrahend, b)
    requires forall k :: k in minuend <==> k in keys
    requires forall i, j :: 0 <= i < j < |keys| ==> keys[i] != keys[j]
    ensures multiset(out) == a - b && Grouped(out)
  {
    out := [];
    for i := 0 to |keys|
      invariant Grouped(out)
      invariant forall k :: multiset(out)[k] == if k in keys[..i] then (a - b)[k] else 0
    {
      TakeNext(keys, i);
      assert keys[i] !in keys[..i];
      assert Count(minuend, keys[i]) == a[keys[i]] && Count(subtrahend, keys[i]) == b[keys[i]];
      ghost var before := out;
      out := PushCopies(out, keys[i], minuend[keys[i]] - Count(subtrahend, keys[i]));
      GroupedMore(before, keys[i], out);
    }
    TakeAll(keys);
    forall k
      ensures multiset(out)[k] == (a - b)[k]
    {
      assert Count(minuend, k) == a[k];
    }
  }

  /** The multiset differences of two lists, both ways. */
  method Subtract<K(!new, ==)>(before: seq<K>, after: seq<K>) returns (removed: seq<K>, added: seq<K>)
    ensures multiset(removed) == multiset(before) - multiset(after)
    ensures multiset(added) == multiset(after) - multiset(before)
    ensures Subtracted(removed, added)
  {
    var oldKeys, oldMap := Counted(before);
    var newKeys, newMap := Counted(after);
    removed := Excess(oldKeys, oldMap, newMap, multiset(before), multiset(after));
    added := Excess(newKeys, newMap, oldMap, multiset(after), multiset(before));
    forall x | x in removed
      ensures x !in added
    {
      assert x in multiset(removed) && (x in added ==> x in multiset(added));
    }
  }
}
