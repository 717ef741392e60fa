/** Emitting the first record of every key: the deduplication in front of the output of
    both the Go and the Rust producer. */
module Dedup {
  import opened Prelude

  /** The first record of every key, in order. */
  ghost function FirstPerKey<R(!new), K(!new)>(key: R -> K, rs: seq<R>): seq<R> {
    if rs == [] then []
    else
      var last := rs[|rs| - 1];
      FirstPerKey(key, rs[..|rs| - 1]) + (if KeySeen(key, rs[..|rs| - 1], key(last)) then [] else [last])
  }

  ghost predicate KeySeen<R(!new), K(!new)>(key: R -> K, rs: seq<R>, k: K) {
    exists i :: 0 <= i < |rs| && key(rs[i]) == k
  }

  /** What one more offered record changes. */
  lemma OfferOne<R(!new), K(!new)>(key: R -> K, rs: seq<R>, r: R)
    ensures FirstPerKey(key, rs + [r]) == FirstPerKey(key, rs) + (if KeySeen(key, rs, key(r)) then [] else [r])
    ensures forall k :: KeySeen(key, rs + [r], k) <==> KeySeen(key, rs, k) || k == key(r)
  {
    var all := rs + [r];
    assert all[..|all| - 1] == rs;
    forall k
      ensures KeySeen(key, all, k) <==> KeySeen(key, rs, k) || k == key(r)
    {
      assert key(all[|rs|]) == key(r);
      if i :| 0 <= i < |rs| && key(rs[i]) == k {
        assert key(all[i]) == k;
      }
    }
  }

  /** Position `i` holds `r` and no earlier record has its key. */
  ghost predicate FirstAt<R(!new), K(!new)>(key: R -> K, rs: seq<R>, i: nat, r: R) {
    i < |rs| && rs[i] == r && !KeySeen(key, rs[..i], key(r))
  }

  lemma FirstAtSplit<R(!new), K(!new)>(key: R -> K, rs: seq<R>, i: nat, r: R)
    requires i < |rs| - 1
    ensures FirstAt(key, rs, i, r) <==> FirstAt(key, rs[..|rs| - 1], i, r)
  {
    assert rs[..|rs| - 1][..i] == rs[..i];
  }

  /** Deduplication keeps exactly the first record of each key, once. */
  lemma {:induction false} KeptIsFirst<R(!new), K(!new)>(key: R -> K, rs: seq<R>, r: R)
    ensures r in FirstPerKey(key, rs) <==> exists i :: FirstAt(key, rs, i, r)
    ensures multiset(FirstPerKey(key, rs))[r] <= 1
  {
    if rs != [] {
      var n := |rs| - 1;
      var front := rs[..n];
      KeptIsFirst(key, front, r);
      if i: nat :| FirstAt(key, rs, i, r) {
        if i < n {
          FirstAtSplit(key, rs, i, r);
        }
      }
      if i: nat :| FirstAt(key, front, i, r) {
        FirstAtSplit(key, rs, i, r);
        assert key(front[i]) == key(r);
      }
      if !KeySeen(key, front, key(rs[n])) {
        assert FirstAt(key, rs, n, rs[n]);
      }
    }
  }

  /** Nothing is dropped: every offered edge is in the output under its own caller, callee
      and site, and no key comes out twice. */
  lemma {:induction false} NothingDropped<R(!new), K(!new)>(key: R -> K, rs: seq<R>)
    ensures forall r :: r in rs ==> KeySeen(key, FirstPerKey(key, rs), key(r))
    ensures forall i, j :: 0 <= i < j < |FirstPerKey(key, rs)| ==> key(FirstPerKey(key, rs)[i]) != key(FirstPerKey(key, rs)[j])
  {
    if rs != [] {
      var n := |rs| - 1;
      var front, out := rs[..n], FirstPerKey(key, rs);
      var kept := FirstPerKey(key, front);
      NothingDropped(key, front);
      forall r | r in rs
        ensures KeySeen(key, out, key(r))
      {
        if KeySeen(key, front, key(r)) {
          var h :| 0 <= h < |front| && key(front[h]) == key(r);
          assert front[h] in front;
          var i :| 0 <= i < |kept| && key(kept[i]) == key(r);
          assert out[i] == kept[i];
        } else {
          assert rs == front + [rs[n]] && r !in front;
          assert out[|kept|] == r;
        }
      }
      if !KeySeen(key, front, key(rs[n])) {
        forall i | 0 <= i < |kept|
          ensures key(kept[i]) != key(rs[n])
        {
          assert kept[i] in kept;
          KeptIsFirst(key, front, kept[i]);
          var h: nat :| FirstAt(key, front, h, kept[i]);
          assert key(front[h]) == key(kept[i]);
        }
      }
    }
  }

  lemma MoveToFront<R>(rs: seq<R>, r: R) returns (b: seq<R>)
    requires r in rs
    ensures b != [] && b[0] == r && multiset(b) == multiset(rs)
  {
    var i :| 0 <= i < |rs| && rs[i] == r;
    b := [r] + (rs[..i] + rs[i + 1..]);
    assert rs == rs[..i] + [r] + rs[i + 1..];
  }

  lemma OnePerKey<R(!new), K(!new)>(key: R -> K, rs: seq<R>, r: R, r': R)
    requires r in FirstPerKey(key, rs) && key(r) == key(r') && r != r'
    ensures r' !in FirstPerKey(key, rs)
  {
    NothingDropped(key, rs);
    var out := FirstPerKey(key, rs);
    var i :| 0 <= i < |out| && out[i] == r;
    forall j | 0 <= j < |out|
      ensures out[j] != r'
    {
      assert i < j ==> key(out[i]) != key(out[j]);
      assert j < i ==> key(out[j]) != key(out[i]);
    }
  }

  lemma KeptUnique<R(!new), K(!new)>(key: R -> K, rs: seq<R>, a: R, b: R)
    requires a in FirstPerKey(key, rs) && b in FirstPerKey(key, rs) && key(a) == key(b)
    ensures a == b
  {
    if a != b {
      OnePerKey(key, rs, a, b);
    }
  }

  /** The record that came out under the key of an offered one. */
  lemma KeptOfKey<R(!new), K(!new)>(key: R -> K, rs: seq<R>, r: R) returns (i: nat)
    requires r in rs
    ensures i < |rs| && FirstAt(key, rs, i, rs[i]) && key(rs[i]) == key(r)
    ensures rs[i] in FirstPerKey(key, rs)
  {
    var out := FirstPerKey(key, rs);
    NothingDropped(key, rs);
    var h :| 0 <= h < |out| && key(out[h]) == key(r);
    assert out[h] in out;
    KeptIsFirst(key, rs, out[h]);
    i :| FirstAt(key, rs, i, out[h]);
  }

  lemma SeenMember<R(!new), K(!new)>(key: R -> K, rs: seq<R>, k: K)
    ensures KeySeen(key, rs, k) <==> exists r :: r in rs && key(r) == k
  {
    if KeySeen(key, rs, k) {
      var i :| 0 <= i < |rs| && key(rs[i]) == k;
      assert rs[i] in rs;
    }
  }

  lemma KeptMember<R(!new), K(!new)>(key: R -> K, rs: seq<R>, r: R)
    requires r in FirstPerKey(key, rs)
    ensures r in rs
  {
    KeptIsFirst(key, rs, r);
  }

  /** What comes first in two lists, one after the other. */
  lemma AppendKept<R(!new), K(!new)>(key: R -> K, a: seq<R>, b: seq<R>, r: R)
    ensures r in FirstPerKey(key, a + b) <==> r in FirstPerKey(key, a) || (r in FirstPerKey(key, b) && !KeySeen(key, a, key(r)))
  {
    hide FirstPerKey;
    KeptIsFirst(key, a + b, r);
    KeptIsFirst(key, a, r);
    KeptIsFirst(key, b, r);
    forall i: nat
      ensures i < |a| ==> (FirstAt(key, a + b, i, r) <==> FirstAt(key, a, i, r))
      ensures |a| <= i ==> (FirstAt(key, a + b, i, r) <==> FirstAt(key, b, i - |a|, r) && !KeySeen(key, a, key(r)))
    {
      if i < |a| {
        assert (a + b)[..i] == a[..i];
      } else if i < |a + b| {
        assert (a + b)[..i] == a + b[..i - |a|];
        SeenInEither(key, a, b[..i - |a|], key(r));
      }
    }
    if i: nat :| FirstAt(key, b, i, r) {
      assert |a| + i - |a| == i;
      assert !KeySeen(key, a, key(r)) ==> FirstAt(key, a + b, |a| + i, r);
    }
  }

  lemma SeenInEither<R(!new), K(!new)>(key: R -> K, a: seq<R>, b: seq<R>, k: K)
    ensures KeySeen(key, a + b, k) <==> KeySeen(key, a, k) || KeySeen(key, b, k)
  {
    if i :| 0 <= i < |a| && key(a[i]) == k {
      assert key((a + b)[i]) == k;
    }
    if i :| 0 <= i < |b| && key(b[i]) == k {
      assert key((a + b)[|a| + i]) == k;
    }
  }

  // ---------------------------------------------------------------- the order of visits

  /** The lists one after the other. */
  function Flat<R>(ls: seq<seq<R>>): seq<R> {
    if ls == [] then [] else Flat(ls[..|ls| - 1]) + ls[|ls| - 1]
  }

  lemma {:induction false} FlatFirst<R>(l: seq<R>, rest: seq<seq<R>>)
    ensures Flat([l] + rest) == l + Flat(rest)
  {
    if rest == [] {
      assert [l] + rest == [l] && [l][..0] == [];
      assert Flat([l]) == Flat([]) + l;
    } else {
      var n := |rest| - 1;
      var all := [l] + rest;
      FlatFirst(l, rest[..n]);
      assert all[..|all| - 1] == [l] + rest[..n] && all[|all| - 1] == rest[n];
      assert Flat(all) == Flat([l] + rest[..n]) + rest[n];
      Associates(l, Flat(rest[..n]), rest[n]);
    }
  }

  lemma Associates<R>(a: seq<R>, b: seq<R>, c: seq<R>)
    ensures a + b + c == a + (b + c)
  {
  }

  /** The offers `w` are those of the lists, and what is kept of them is kept of some list. */
  ghost predicate LedBy<R(!new), K(!new)>(key: R -> K, ls: seq<seq<R>>, w: seq<R>) {
    && (forall r :: r in w <==> exists l :: l in ls && r in l)
    && forall r :: r in FirstPerKey(key, w) ==> exists l :: l in ls && r in FirstPerKey(key, l)
  }

  lemma {:induction false} FlatLedBy<R(!new), K(!new)>(key: R -> K, ls: seq<seq<R>>)
    ensures LedBy(key, ls, Flat(ls))
  {
    if ls != [] {
      var front, last := ls[..|ls| - 1], ls[|ls| - 1];
      FlatLedBy(key, front);
      assert ls == front + [last];
      forall r | r in FirstPerKey(key, Flat(ls))
        ensures exists l :: l in ls && r in FirstPerKey(key, l)
      {
        AppendKept(key, Flat(front), last, r);
      }
    }
  }

  /** Wherever two lists offer something of one key, they first offer the same. */
  ghost predicate LeadersAgree<R(!new), K(!new)>(key: R -> K, ls: seq<seq<R>>) {
    forall l, l', r, r' :: l in ls && l' in ls && r in FirstPerKey(key, l) && r' in FirstPerKey(key, l') && key(r) == key(r') ==> r == r'
  }

  ghost predicate Leader<R(!new), K(!new)>(key: R -> K, ls: seq<seq<R>>, r: R) {
    exists l :: l in ls && r in FirstPerKey(key, l)
  }

  /** A key that is offered has a leader, and it is offered. */
  lemma LeaderOfKey<R(!new), K(!new)>(key: R -> K, w: seq<R>, k: K) returns (r: R)
    requires KeySeen(key, w, k)
    ensures r in FirstPerKey(key, w) && key(r) == k
  {
    SeenMember(key, w, k);
    var s :| s in w && key(s) == k;
    var i := KeptOfKey(key, w, s);
    r := w[i];
  }

  /** Agreeing leaders, and nothing else, are kept: each once. */
  lemma LeadersKept<R(!new), K(!new)>(key: R -> K, ls: seq<seq<R>>, w: seq<R>, r: R)
    requires LedBy(key, ls, w) && LeadersAgree(key, ls)
    ensures multiset(FirstPerKey(key, w))[r] == if Leader(key, ls, r) then 1 else 0
  {
    KeptIsFirst(key, w, r);
    if Leader(key, ls, r) {
      var l :| l in ls && r in FirstPerKey(key, l);
      KeptMember(key, l, r);
      SeenMember(key, w, key(r));
      var kept := LeaderOfKey(key, w, key(r));
      assert r in multiset(FirstPerKey(key, w));
    } else {
      assert r !in multiset(FirstPerKey(key, w));
    }
  }

  lemma SameLeaders<R(!new), K(!new)>(key: R -> K, ls: seq<seq<R>>, w: seq<R>, w': seq<R>)
    requires LedBy(key, ls, w) && LedBy(key, ls, w') && LeadersAgree(key, ls)
    ensures multiset(FirstPerKey(key, w)) == multiset(FirstPerKey(key, w'))
  {
    forall r
      ensures multiset(FirstPerKey(key, w))[r] == multiset(FirstPerKey(key, w'))[r]
    {
      LeadersKept(key, ls, w, r);
      LeadersKept(key, ls, w', r);
    }
  }

  /** The list of a leader, visited first: the leader is kept. */
  lemma MovedFirst<R(!new), K(!new)>(key: R -> K, ls: seq<seq<R>>, l: seq<R>, r: R) returns (ls': seq<seq<R>>)
    requires l in ls && r in FirstPerKey(key, l)
    ensures multiset(ls') == multiset(ls) && r in FirstPerKey(key, Flat(ls'))
  {
    ls' := MoveToFront(ls, l);
    var rest := ls'[1..];
    assert ls' == [l] + rest;
    FlatFirst(l, rest);
    AppendKept(key, l, Flat(rest), r);
  }

  /** The producer visits functions in random order, and each function in its own. */
  ghost predicate SameForEveryOrder<R(!new), K(!new)>(key: R -> K, ls: seq<seq<R>>) {
    forall ls' :: multiset(ls') == multiset(ls) ==> multiset(FirstPerKey(key, Flat(ls'))) == multiset(FirstPerKey(key, Flat(ls)))
  }

  /** What is kept is the same for every order of the lists exactly when the leaders agree. */
  lemma OutputOrderIndependent<R(!new), K(!new)>(key: R -> K, ls: seq<seq<R>>)
    ensures SameForEveryOrder(key, ls) <==> LeadersAgree(key, ls)
  {
    if LeadersAgree(key, ls) {
      forall ls' | multiset(ls') == multiset(ls)
        ensures multiset(FirstPerKey(key, Flat(ls'))) == multiset(FirstPerKey(key, Flat(ls)))
      {
        SameMembers(ls, ls');
        FlatLedBy(key, ls);
        FlatLedBy(key, ls');
        SameLeaders(key, ls, Flat(ls), Flat(ls'));
      }
    }
    if SameForEveryOrder(key, ls) {
      forall l, l', r, r' | l in ls && l' in ls && r in FirstPerKey(key, l) && r' in FirstPerKey(key, l') && key(r) == key(r')
        ensures r == r'
      {
        var a := MovedFirst(key, ls, l, r);
        var b := MovedFirst(key, ls, l', r');
        var kept, kept' := FirstPerKey(key, Flat(a)), FirstPerKey(key, Flat(b));
        assert multiset(kept) == multiset(kept');
        assert r' in multiset(kept') && r' in multiset(kept);
        KeptUnique(key, Flat(a), r, r');
      }
    }
  }

  // ---------------------------------------------------------------- interleaved visits

  /** What `w` took from list `i`. */
  ghost function Own<R>(w: seq<R>, owner: seq<nat>, i: nat): seq<R>
    requires |owner| == |w|
  {
    if w == [] then []
    else Own(w[..|w| - 1], owner[..|w| - 1], i) + (if owner[|w| - 1] == i then [w[|w| - 1]] else [])
  }

  /** `w` takes the elements of the lists in turns, each list in its own order. */
  ghost predicate Interleaved<R(!new)>(ls: seq<seq<R>>, w: seq<R>, owner: seq<nat>) {
    && |owner| == |w| && (forall k :: 0 <= k < |w| ==> owner[k] < |ls|)
    && forall i: nat :: i < |ls| ==> Own(w, owner, i) == ls[i]
  }

  ghost predicate Interleaving<R(!new)>(ls: seq<seq<R>>, w: seq<R>) {
    exists owner :: Interleaved(ls, w, owner)
  }

  lemma {:induction false} OwnPrefix<R>(w: seq<R>, owner: seq<nat>, i: nat, p: nat)
    requires |owner| == |w| && p <= |w|
    ensures Own(w[..p], owner[..p], i) <= Own(w, owner, i)
    decreases |w|
  {
    if p == |w| {
      assert w[..p] == w && owner[..p] == owner;
    } else {
      var n := |w| - 1;
      OwnPrefix(w[..n], owner[..n], i, p);
      assert w[..n][..p] == w[..p] && owner[..n][..p] == owner[..p];
    }
  }

  lemma {:induction false} OwnMembers<R(!new)>(w: seq<R>, owner: seq<nat>, i: nat, r: R)
    requires |owner| == |w|
    ensures r in Own(w, owner, i) <==> exists k :: 0 <= k < |w| && w[k] == r && owner[k] == i
  {
    if w != [] {
      var n := |w| - 1;
      OwnMembers(w[..n], owner[..n], i, r);
      assert forall k :: 0 <= k < n ==> w[..n][k] == w[k] && owner[..n][k] == owner[k];
    }
  }

  /** What comes first of its key in an interleaving comes first of it in its own list. */
  lemma OwnLeader<R(!new), K(!new)>(key: R -> K, w: seq<R>, owner: seq<nat>, p: nat, r: R)
    requires |owner| == |w| && FirstAt(key, w, p, r)
    ensures r in FirstPerKey(key, Own(w, owner, owner[p]))
  {
    var i := owner[p];
    var before, own := Own(w[..p], owner[..p], i), Own(w, owner, i);
    OwnPrefix(w, owner, i, p + 1);
    assert w[..p + 1][..p] == w[..p] && owner[..p + 1][..p] == owner[..p];
    assert before + [r] <= own;
    var q := |before|;
    assert own[..q] == before && own[q] == r;
    forall h | 0 <= h < q
      ensures key(before[h]) != key(r)
    {
      OwnMembers(w[..p], owner[..p], i, before[h]);
      var k :| 0 <= k < p && w[..p][k] == before[h];
    }
    assert FirstAt(key, own, q, r);
    KeptIsFirst(key, own, r);
  }

  lemma InterleavingLedBy<R(!new), K(!new)>(key: R -> K, ls: seq<seq<R>>, w: seq<R>)
    requires Interleaving(ls, w)
    ensures LedBy(key, ls, w)
  {
    var owner :| Interleaved(ls, w, owner);
    forall r
      ensures r in w <==> exists l :: l in ls && r in l
    {
      if k :| 0 <= k < |w| && w[k] == r {
        OwnMembers(w, owner, owner[k], r);
        assert ls[owner[k]] in ls;
      }
      if l :| l in ls && r in l {
        var i: nat :| i < |ls| && ls[i] == l;
        OwnMembers(w, owner, i, r);
      }
    }
    forall r | r in FirstPerKey(key, w)
      ensures exists l :: l in ls && r in FirstPerKey(key, l)
    {
      KeptIsFirst(key, w, r);
      var p: nat :| FirstAt(key, w, p, r);
      OwnLeader(key, w, owner, p, r);
      assert ls[owner[p]] in ls;
    }
  }

  /** The leaders of the later lists agree on the keys that the earlier lists leave. */
  ghost predicate LaterAgree<R(!new), K(!new)>(key: R -> K, ls: seq<seq<R>>, ms: seq<seq<R>>) {
    forall m, m', r, r' ::
      (m in ms && m' in ms && r in FirstPerKey(key, m) && r' in FirstPerKey(key, m') && key(r) == key(r') && !KeySeen(key, Flat(ls), key(r))) ==>
        r == r'
  }

  lemma SameKeys<R(!new), K(!new)>(key: R -> K, ls: seq<seq<R>>, w: seq<R>, k: K)
    requires LedBy(key, ls, w)
    ensures KeySeen(key, w, k) <==> KeySeen(key, Flat(ls), k)
  {
    hide FirstPerKey;
    FlatLedBy(key, ls);
    SeenMember(key, w, k);
    SeenMember(key, Flat(ls), k);
    assert forall r :: r in w <==> r in Flat(ls);
  }

  /** Two rounds of visits, each round in two orders: what is kept is the same. */
  lemma SameInTwoRounds<R(!new), K(!new)>(key: R -> K, ls: seq<seq<R>>, w: seq<R>, w': seq<R>, ms: seq<seq<R>>, v: seq<R>, v': seq<R>)
    requires LedBy(key, ls, w) && LedBy(key, ls, w') && LeadersAgree(key, ls)
    requires LedBy(key, ms, v) && LedBy(key, ms, v') && LaterAgree(key, ls, ms)
    ensures multiset(FirstPerKey(key, w + v)) == multiset(FirstPerKey(key, w' + v'))
  {
    forall r
      ensures multiset(FirstPerKey(key, w + v))[r] == multiset(FirstPerKey(key, w' + v'))[r]
    {
      KeptOnce(key, w + v, r);
      KeptOnce(key, w' + v', r);
      if r in FirstPerKey(key, w + v) {
        KeptInTwoRounds(key, ls, w, w', ms, v, v', r);
      }
      if r in FirstPerKey(key, w' + v') {
        KeptInTwoRounds(key, ls, w', w, ms, v', v, r);
      }
    }
  }

  lemma KeptOnce<R(!new), K(!new)>(key: R -> K, w: seq<R>, r: R)
    ensures multiset(FirstPerKey(key, w))[r] == if r in FirstPerKey(key, w) then 1 else 0
  {
    KeptIsFirst(key, w, r);
    assert r in FirstPerKey(key, w) <==> r in multiset(FirstPerKey(key, w));
  }

  lemma KeptInTwoRounds<R(!new), K(!new)>(key: R -> K, ls: seq<seq<R>>, w: seq<R>, w': seq<R>, ms: seq<seq<R>>, v: seq<R>, v': seq<R>, r: R)
    requires LedBy(key, ls, w) && LedBy(key, ls, w') && LeadersAgree(key, ls)
    requires LedBy(key, ms, v) && LedBy(key, ms, v') && LaterAgree(key, ls, ms)
    requires r in FirstPerKey(key, w + v)
    ensures r in FirstPerKey(key, w' + v')
  {
    hide FirstPerKey;
    hide KeySeen;
    AppendKept(key, w, v, r);
    AppendKept(key, w', v', r);
    SameKeys(key, ls, w, key(r));
    SameKeys(key, ls, w', key(r));
    if r in FirstPerKey(key, w) {
      SameLeaders(key, ls, w, w');
      assert r in multiset(FirstPerKey(key, w'));
    } else {
      KeptMember(key, v, r);
      SeenMember(key, v', key(r));
      var kept := LeaderOfKey(key, v', key(r));
      assert kept == r;
    }
  }

  // ---------------------------------------------------------------- one kind of record

  /** Every offered record of a kind leaves one of its kind under its key. */
  ghost predicate Survives<R(!new), K(!new)>(key: R -> K, kind: R -> bool, rs: seq<R>) {
    forall r :: r in rs && kind(r) ==> exists e :: e in FirstPerKey(key, rs) && key(e) == key(r) && kind(e)
  }

  /** No key that has a record of the kind is led by another. */
  ghost predicate LedAlike<R(!new), K(!new)>(key: R -> K, kind: R -> bool, rs: seq<R>) {
    forall e, r :: e in FirstPerKey(key, rs) && r in rs && kind(r) && key(e) == key(r) ==> kind(e)
  }

  /** Deduplication looks at keys only, so a kind can be lost behind another. */
  lemma SurvivesExact<R(!new), K(!new)>(key: R -> K, kind: R -> bool, rs: seq<R>)
    ensures Survives(key, kind, rs) <==> LedAlike(key, kind, rs)
  {
    hide FirstPerKey;
    if LedAlike(key, kind, rs) {
      forall r | r in rs && kind(r)
        ensures exists e :: e in FirstPerKey(key, rs) && key(e) == key(r) && kind(e)
      {
        var i := KeptOfKey(key, rs, r);
      }
    }
    if Survives(key, kind, rs) {
      forall e, r | e in FirstPerKey(key, rs) && r in rs && kind(r) && key(e) == key(r)
        ensures kind(e)
      {
        var kept :| kept in FirstPerKey(key, rs) && key(kept) == key(r) && kind(kept);
        KeptUnique(key, rs, kept, e);
      }
    }
  }

  ghost predicate SurvivesInEveryOrder<R(!new), K(!new)>(key: R -> K, kind: R -> bool, ls: seq<seq<R>>) {
    forall ls' :: multiset(ls') == multiset(ls) ==> Survives(key, kind, Flat(ls'))
  }

  ghost predicate ListsLedAlike<R(!new), K(!new)>(key: R -> K, kind: R -> bool, ls: seq<seq<R>>) {
    forall l, m, e, r :: l in ls && m in ls && e in FirstPerKey(key, l) && r in m && kind(r) && key(e) == key(r) ==> kind(e)
  }

  /** In every order of the lists: exactly when no list leads a key with another kind. */
  lemma SurvivesInEveryOrderExact<R(!new), K(!new)>(key: R -> K, kind: R -> bool, ls: seq<seq<R>>)
    ensures SurvivesInEveryOrder(key, kind, ls) <==> ListsLedAlike(key, kind, ls)
  {
    hide FirstPerKey;
    if ListsLedAlike(key, kind, ls) {
      forall ls' | multiset(ls') == multiset(ls)
        ensures Survives(key, kind, Flat(ls'))
      {
        SameMembers(ls, ls');
        FlatLedBy(key, ls');
        SurvivesExact(key, kind, Flat(ls'));
      }
    }
    if SurvivesInEveryOrder(key, kind, ls) {
      forall l, m, e, r | l in ls && m in ls && e in FirstPerKey(key, l) && r in m && kind(r) && key(e) == key(r)
        ensures kind(e)
      {
        var ls' := MovedFirst(key, ls, l, e);
        SameMembers(ls, ls');
        FlatLedBy(key, ls');
        SurvivesExact(key, kind, Flat(ls'));
      }
    }
  }
}
