/** The always-executed analysis of the Go call-graph producer: which blocks lie on
    every path from a function's entry to its end (callgraph-go/main.go). */
module PostDominance {

  /** Successor indices of each block. A block without successors returns or panics. */
  type Cfg = seq<seq<nat>>

  /** A matrix row: which nodes 0..n post-dominate the block the row belongs to. */
  type Row = seq<bool>

  predicate WellFormed(g: Cfg) {
    forall i, s :: 0 <= i < |g| && s in g[i] ==> s < |g|
  }

  /** Edges of the graph in which every terminal block flows to the virtual exit |g|. */
  function Successors(g: Cfg, i: nat): seq<nat>
    requires i < |g|
  {
    if g[i] == [] then [|g|] else g[i]
  }

  predicate HasTerminal(g: Cfg) {
    exists i :: 0 <= i < |g| && g[i] == []
  }

  // ---------------------------------------------------------------- paths

  ghost predicate IsPath(g: Cfg, p: seq<nat>) {
    && p != []
    && forall j :: 0 <= j < |p| - 1 ==> p[j] < |g| && p[j + 1] in Successors(g, p[j])
  }

  /** A finite walk from `i` to the virtual exit. */
  ghost predicate ExitPath(g: Cfg, p: seq<nat>, i: nat) {
    IsPath(g, p) && p[0] == i && p[|p| - 1] == |g|
  }

  ghost predicate ReachesExit(g: Cfg, i: nat) {
    exists p :: ExitPath(g, p, i)
  }

  /** `k` lies on every finite walk from `i` to the exit. */
  ghost predicate PostDominates(g: Cfg, k: nat, i: nat) {
    forall p :: ExitPath(g, p, i) ==> k in p
  }

  lemma PathTail(g: Cfg, p: seq<nat>, t: nat)
    requires IsPath(g, p) && t < |p|
    ensures IsPath(g, p[t..])
  {
    var q := p[t..];
    forall j | 0 <= j < |q| - 1
      ensures q[j] < |g| && q[j + 1] in Successors(g, q[j])
    {
      assert q[j] == p[t + j] && q[j + 1] == p[t + j + 1];
    }
  }

  /** A walk may be cut at `t` and continued by any walk leaving the node found there. */
  lemma PathSplice(g: Cfg, p: seq<nat>, t: nat, r: seq<nat>, i: nat)
    requires IsPath(g, p) && p[0] == i && t < |p| && ExitPath(g, r, p[t])
    ensures ExitPath(g, p[..t] + r, i)
  {
    var q := p[..t] + r;
    forall j | 0 <= j < |q| - 1
      ensures q[j] < |g| && q[j + 1] in Successors(g, q[j])
    {
      if j + 1 < t {
        assert q[j] == p[j] && q[j + 1] == p[j + 1];
      } else if j + 1 == t {
        assert q[j] == p[j] && q[j + 1] == r[0] == p[t];
      } else {
        assert q[j] == r[j - t] && q[j + 1] == r[j + 1 - t];
      }
    }
  }

  /** Post-dominance passes to successors, except for the block itself. */
  lemma PostDominatesStep(g: Cfg, k: nat, i: nat, s: nat)
    requires i < |g| && s in Successors(g, i) && k != i && PostDominates(g, k, i)
    ensures PostDominates(g, k, s)
  {
    forall p | ExitPath(g, p, s)
      ensures k in p
    {
      var q := [i] + p;
      forall j | 0 <= j < |q| - 1
        ensures q[j] < |g| && q[j + 1] in Successors(g, q[j])
      {
        if j > 0 {
          assert q[j] == p[j - 1] && q[j + 1] == p[j];
        }
      }
      assert ExitPath(g, q, i);
      assert k in q;
    }
  }

  // ---------------------------------------------------------------- matrix

  ghost predicate Shape(g: Cfg, rows: seq<Row>) {
    |rows| == |g| + 1 && forall i :: 0 <= i < |rows| ==> |rows[i]| == |g| + 1
  }

  ghost predicate RowAtMost(a: Row, b: Row) {
    |a| == |b| && forall k :: 0 <= k < |a| && a[k] ==> b[k]
  }

  /** Bit `k` of the one-step recomputation of row `i`. */
  ghost predicate StepBit(g: Cfg, rows: seq<Row>, i: nat, k: nat)
    requires WellFormed(g) && Shape(g, rows) && i < |g| && k <= |g|
  {
    k == i || forall s :: s in Successors(g, i) ==> rows[s][k]
  }

  ghost predicate IsStep(g: Cfg, rows: seq<Row>, i: nat, row: Row)
    requires WellFormed(g) && Shape(g, rows) && i < |g|
  {
    |row| == |g| + 1 && forall k :: 0 <= k <= |g| ==> row[k] == StepBit(g, rows, i, k)
  }

  /** What every sweep keeps: the exit row, each row above its own recomputation and
      above the true post-dominators. */
  ghost predicate SweepInvariant(g: Cfg, rows: seq<Row>) {
    && WellFormed(g)
    && Shape(g, rows)
    && (forall k :: 0 <= k <= |g| ==> rows[|g|][k] == (k == |g|))
    && (forall i, k :: 0 <= i < |g| && 0 <= k <= |g| && StepBit(g, rows, i, k) ==> rows[i][k])
    && (forall i, k :: 0 <= i < |g| && 0 <= k <= |g| && PostDominates(g, k, i) ==> rows[i][k])
  }

  ghost predicate IsFixpoint(g: Cfg, rows: seq<Row>) {
    && WellFormed(g)
    && Shape(g, rows)
    && (forall k :: 0 <= k <= |g| ==> rows[|g|][k] == (k == |g|))
    && (forall i, k :: 0 <= i < |g| && 0 <= k <= |g| ==> rows[i][k] == StepBit(g, rows, i, k))
  }

  /** The dataflow exactness argument, first half: along any walk a fixpoint bit is
      pushed forward until the walk meets the node it names. */
  lemma {:induction false} FixpointSound(g: Cfg, rows: seq<Row>, i: nat, k: nat, p: seq<nat>)
    requires IsFixpoint(g, rows) && i <= |g| && k <= |g| && rows[i][k] && ExitPath(g, p, i)
    ensures k in p
    decreases |p|
  {
    if i == |g| {
      assert p[0] == k;
    } else if k == i {
      assert p[0] == k;
    } else {
      assert |p| > 1;
      PathTail(g, p, 1);
      assert p[0] < |g| && p[1] in Successors(g, p[0]);
      FixpointSound(g, rows, p[1], k, p[1..]);
    }
  }

  /** Both halves: a fixpoint the sweeps can reach is exactly post-dominance. */
  lemma FixpointExact(g: Cfg, rows: seq<Row>)
    requires IsFixpoint(g, rows) && SweepInvariant(g, rows)
    ensures forall i, k :: 0 <= i < |g| && 0 <= k <= |g| ==> (rows[i][k] <==> PostDominates(g, k, i))
  {
    forall i, k | 0 <= i < |g| && 0 <= k <= |g| && rows[i][k]
      ensures PostDominates(g, k, i)
    {
      forall p | ExitPath(g, p, i)
        ensures k in p
      {
        FixpointSound(g, rows, i, k, p);
      }
    }
  }

  /** Replacing a row by its recomputation keeps the invariant and only loses bits. */
  lemma StepKeepsInvariant(g: Cfg, rows: seq<Row>, i: nat, row: Row)
    requires SweepInvariant(g, rows) && i < |g| && IsStep(g, rows, i, row)
    ensures SweepInvariant(g, rows[i := row])
    ensures RowAtMost(row, rows[i])
  {
    var after := rows[i := row];
    forall k | 0 <= k <= |g| && PostDominates(g, k, i)
      ensures row[k]
    {
      if k != i {
        forall s | s in Successors(g, i)
          ensures rows[s][k]
        {
          PostDominatesStep(g, k, i, s);
          if s == |g| {
            assert ExitPath(g, [|g|], |g|);
          }
        }
      }
    }
    forall h, k | 0 <= h < |g| && 0 <= k <= |g| && StepBit(g, after, h, k)
      ensures after[h][k]
    {
      assert StepBit(g, rows, h, k);
    }
  }

  // ---------------------------------------------------------------- bit count

  ghost function Bits(row: Row): nat {
    if row == [] then 0 else (if row[0] then 1 else 0) + Bits(row[1..])
  }

  ghost function Total(rows: seq<Row>): nat {
    if rows == [] then 0 else Bits(rows[0]) + Total(rows[1..])
  }

  lemma {:induction false} BitsMonotone(a: Row, b: Row)
    requires RowAtMost(a, b)
    ensures Bits(a) <= Bits(b) <= |b|
    ensures a != b ==> Bits(a) < Bits(b)
  {
    if a == [] {
    } else {
      assert forall k :: 0 <= k < |a| - 1 ==> a[1..][k] == a[k + 1] && b[1..][k] == b[k + 1];
      BitsMonotone(a[1..], b[1..]);
      assert a == [a[0]] + a[1..] && b == [b[0]] + b[1..];
    }
  }

  lemma {:induction false} TotalUpdate(rows: seq<Row>, i: nat, row: Row)
    requires i < |rows|
    ensures Total(rows[i := row]) + Bits(rows[i]) == Total(rows) + Bits(row)
  {
    if i == 0 {
      assert rows[0 := row][1..] == rows[1..];
    } else {
      assert rows[i := row][1..] == rows[1..][i - 1 := row];
      TotalUpdate(rows[1..], i - 1, row);
    }
  }

  lemma {:induction false} TotalBound(rows: seq<Row>, m: nat)
    requires forall i :: 0 <= i < |rows| ==> |rows[i]| == m
    ensures Total(rows) <= |rows| * m
  {
    if rows != [] {
      BitsMonotone(rows[0], rows[0]);
      TotalBound(rows[1..], m);
      assert |rows| * m == (|rows| - 1) * m + m;
    }
  }

  // ---------------------------------------------------------------- the sweep

  /** Bit `k` holds in the rows of all the listed successors. */
  ghost predicate Meet(rows: seq<Row>, succ: seq<nat>, k: nat) {
    forall u :: 0 <= u < |succ| ==> succ[u] < |rows| && k < |rows[succ[u]]| && rows[succ[u]][k]
  }

  /** Lines 279-288: intersect the successors' rows and add the block itself. */
  method Recompute(g: Cfg, succ: seq<nat>, pdom: array<Row>, i: nat) returns (next: Row)
    requires WellFormed(g) && Shape(g, pdom[..]) && i < |g| && succ == Successors(g, i)
    ensures IsStep(g, pdom[..], i, next)
  {
    var n := |g|;
    ghost var rows := pdom[..];
    var bits := new bool[n + 1](_ => true);
    for t := 0 to |succ|
      invariant pdom[..] == rows
      invariant forall k :: 0 <= k <= n ==> bits[k] == Meet(rows, succ[..t], k)
    {
      var s := succ[t];
      assert s in succ && succ[..t + 1] == succ[..t] + [s];
      for k := 0 to n + 1
        invariant pdom[..] == rows
        invariant forall j :: 0 <= j < k ==> bits[j] == Meet(rows, succ[..t + 1], j)
        invariant forall j :: k <= j <= n ==> bits[j] == Meet(rows, succ[..t], j)
      {
        assert pdom[s] == rows[s];
        MeetAppend(rows, succ[..t], s, k);
        bits[k] := bits[k] && pdom[s][k];
      }
    }
    assert succ[..|succ|] == succ;
    bits[i] := true;
    next := bits[..];
    forall k | 0 <= k <= n
      ensures next[k] == StepBit(g, rows, i, k)
    {
      MeetAll(g, rows, i, k);
    }
  }

  lemma MeetAppend(rows: seq<Row>, succ: seq<nat>, s: nat, k: nat)
    requires s < |rows| && k < |rows[s]|
    ensures Meet(rows, succ + [s], k) <==> Meet(rows, succ, k) && rows[s][k]
  {
    if Meet(rows, succ + [s], k) {
      var all := succ + [s];
      assert all[|succ|] == s;
      forall u | 0 <= u < |succ|
        ensures succ[u] < |rows| && k < |rows[succ[u]]| && rows[succ[u]][k]
      {
        assert all[u] == succ[u];
      }
    }
  }

  lemma MeetAll(g: Cfg, rows: seq<Row>, i: nat, k: nat)
    requires WellFormed(g) && Shape(g, rows) && i < |g| && k <= |g|
    ensures StepBit(g, rows, i, k) <==> k == i || Meet(rows, Successors(g, i), k)
  {
    var succ := Successors(g, i);
    assert forall u :: 0 <= u < |succ| ==> succ[u] in succ;
  }

  /** One pass over all blocks, rewriting rows in place (lines 278-296). */
  method Sweep(g: Cfg, succ: seq<seq<nat>>, pdom: array<Row>) returns (changed: bool)
    requires SweepInvariant(g, pdom[..])
    requires |succ| == |g| && forall i :: 0 <= i < |g| ==> succ[i] == Successors(g, i)
    modifies pdom
    ensures SweepInvariant(g, pdom[..])
    ensures changed <==> pdom[..] != old(pdom[..])
    ensures forall i :: 0 <= i <= |g| ==> RowAtMost(pdom[i], old(pdom[i]))
    ensures !changed ==> IsFixpoint(g, pdom[..])
    ensures changed ==> Total(pdom[..|g|]) < Total(old(pdom[..|g|]))
  {
    changed := false;
    ghost var start := pdom[..];
    for i := 0 to |g|
      invariant SweepInvariant(g, pdom[..])
      invariant forall h :: 0 <= h <= |g| ==> RowAtMost(pdom[h], start[h])
      invariant changed <==> pdom[..] != start
      invariant if changed then Total(pdom[..|g|]) < Total(start[..|g|]) else pdom[..] == start
      invariant !changed ==> forall h :: 0 <= h < i ==> IsStep(g, pdom[..], h, pdom[h])
    {
      var next := Recompute(g, succ[i], pdom, i);
      ghost var rows := pdom[..];
      StepKeepsInvariant(g, rows, i, next);
      TotalUpdate(rows[..|g|], i, next);
      BitsMonotone(next, rows[i]);
      if next != pdom[i] {
        changed := true;
      }
      pdom[i] := next;
      assert pdom[..] == rows[i := next] && pdom[..|g|] == rows[..|g|][i := next];
    }
  }

  /** The blocks that lie on every entry-to-exit walk, or none without a terminal block. */
  ghost function AlwaysExecuted(g: Cfg): set<nat> {
    set j | 0 <= j < |g| && HasTerminal(g) && PostDominates(g, j, 0)
  }

  /** Lines 250-264. */
  method ExitGraph(g: Cfg) returns (succ: seq<seq<nat>>, hasExit: bool)
    ensures |succ| == |g| && forall i :: 0 <= i < |g| ==> succ[i] == Successors(g, i)
    ensures hasExit <==> HasTerminal(g)
  {
    succ, hasExit := [], false;
    for i := 0 to |g|
      invariant |succ| == i && forall h :: 0 <= h < i ==> succ[h] == Successors(g, h)
      invariant hasExit <==> exists h :: 0 <= h < i && g[h] == []
    {
      if |g[i]| == 0 {
        succ := succ + [[|g|]];
        hasExit := true;
      } else {
        succ := succ + [g[i]];
      }
    }
  }

  /** Lines 276-297: sweep until a pass changes nothing. */
  method Solve(g: Cfg, succ: seq<seq<nat>>, pdom: array<Row>) returns (ghost passes: nat)
    requires SweepInvariant(g, pdom[..])
    requires |succ| == |g| && forall i :: 0 <= i < |g| ==> succ[i] == Successors(g, i)
    modifies pdom
    ensures SweepInvariant(g, pdom[..]) && IsFixpoint(g, pdom[..])
    ensures passes + Total(pdom[..|g|]) <= old(Total(pdom[..|g|])) + 1
  {
    passes := 0;
    var changed := true;
    while changed
      invariant SweepInvariant(g, pdom[..])
      invariant !changed ==> IsFixpoint(g, pdom[..])
      invariant passes + Total(pdom[..|g|]) <= old(Total(pdom[..|g|])) + (if changed then 0 else 1)
      decreases changed, Total(pdom[..|g|])
    {
      changed := Sweep(g, succ, pdom);
      passes := passes + 1;
    }
  }

  /** `passes` counts sweeps; all but the last remove one of the n*(n+1) bits there are. */
  method AlwaysExec(g: Cfg) returns (result: set<nat>, ghost passes: nat)
    requires WellFormed(g)
    ensures result == AlwaysExecuted(g)
    ensures passes <= |g| * (|g| + 1) + 1
  {
    result, passes := {}, 0;
    var n := |g|;
    if n == 0 {
      return;
    }
    var succ, hasExit := ExitGraph(g);
    if !hasExit {
      return;
    }
    var pdom := FullMatrix(g);
    passes := Solve(g, succ, pdom);
    FixpointExact(g, pdom[..]);
    assert pdom[0] == pdom[..][0];
    result := EntryRow(g, pdom);
  }

  /** Lines 298-303: the blocks set in the entry's row. */
  method EntryRow(g: Cfg, pdom: array<Row>) returns (result: set<nat>)
    requires pdom.Length == |g| + 1 && |pdom[0]| == |g| + 1
    ensures forall j :: j in result <==> 0 <= j < |g| && pdom[0][j]
  {
    result := {};
    for j := 0 to |g|
      invariant forall k :: k in result <==> 0 <= k < j && pdom[0][k]
    {
      if pdom[0][j] {
        result := result + {j};
      }
    }
  }

  /** Lines 267-275: every row full, but the exit's, which holds the exit alone. */
  method FullMatrix(g: Cfg) returns (pdom: array<Row>)
    requires WellFormed(g)
    ensures fresh(pdom) && SweepInvariant(g, pdom[..])
    ensures Total(pdom[..|g|]) <= |g| * (|g| + 1)
  {
    var n := |g|;
    var full := seq(n + 1, _ => true);
    pdom := new Row[n + 1](_ => full);
    pdom[n] := seq(n + 1, k => k == n);
    StartInvariant(g, pdom[..]);
    TotalBound(pdom[..n], n + 1);
  }

  lemma StartInvariant(g: Cfg, rows: seq<Row>)
    requires WellFormed(g) && Shape(g, rows)
    requires forall k :: 0 <= k <= |g| ==> rows[|g|][k] == (k == |g|)
    requires forall i, k :: 0 <= i < |g| && 0 <= k <= |g| ==> rows[i][k]
    ensures SweepInvariant(g, rows)
  {
  }

  // ---------------------------------------------------------------- consequences

  lemma FirstOf(p: seq<nat>, a: nat, b: nat) returns (t: nat)
    requires a in p
    ensures t < |p| && (p[t] == a || p[t] == b) && a !in p[..t] && b !in p[..t]
  {
    t := 0;
    while p[t] != a && p[t] != b
      invariant t < |p| && a !in p[..t] && b !in p[..t]
      invariant a in p[t..]
      decreases |p| - t
    {
      assert p[t..] == [p[t]] + p[t + 1..];
      t := t + 1;
    }
  }

  lemma LastOf(p: seq<nat>, a: nat, b: nat) returns (t: nat)
    requires a in p
    ensures t < |p| && (p[t] == a || p[t] == b) && a !in p[t + 1..] && b !in p[t + 1..]
  {
    t := |p| - 1;
    while p[t] != a && p[t] != b
      invariant t < |p| && a !in p[t + 1..] && b !in p[t + 1..]
      invariant a in p[..t + 1]
      decreases t
    {
      assert p[t..] == [p[t]] + p[t + 1..] && p[..t + 1] == p[..t] + [p[t]];
      t := t - 1;
    }
  }

  /** Whichever of two always-run blocks a walk meets first, the other still lies ahead
      of it on every way out. */
  lemma MetFirst(g: Cfg, p: seq<nat>, t: nat, a: nat, b: nat)
    requires ExitPath(g, p, 0) && t < |p| && p[t] == a && b !in p[..t]
    requires PostDominates(g, b, 0)
    ensures PostDominates(g, b, a)
  {
    forall r | ExitPath(g, r, a)
      ensures b in r
    {
      PathSplice(g, p, t, r, 0);
      assert b in p[..t] + r;
    }
  }

  /** The always-run blocks form a chain once the function can complete. */
  lemma AlwaysRunBlocksFormChain(g: Cfg, a: nat, b: nat)
    requires ReachesExit(g, 0) && a in AlwaysExecuted(g) && b in AlwaysExecuted(g)
    ensures PostDominates(g, a, b) || PostDominates(g, b, a)
  {
    var p :| ExitPath(g, p, 0);
    assert a in p;
    var t := FirstOf(p, a, b);
    if p[t] == a {
      MetFirst(g, p, t, a, b);
    } else {
      MetFirst(g, p, t, b, a);
    }
  }

  /** The chain is strict: no two blocks that can complete lie behind each other. */
  lemma PostDominanceAntisymmetric(g: Cfg, a: nat, b: nat)
    requires ReachesExit(g, a) && PostDominates(g, b, a) && PostDominates(g, a, b)
    ensures a == b
  {
    var p :| ExitPath(g, p, a);
    var t := LastOf(p, a, b);
    PathTail(g, p, t);
    var tail := p[t..];
    assert tail == [p[t]] + p[t + 1..];
    assert ExitPath(g, tail, p[t]);
    assert a in tail && b in tail;
  }

  lemma PostDominanceTransitive(g: Cfg, a: nat, b: nat, c: nat)
    requires PostDominates(g, b, a) && PostDominates(g, c, b)
    ensures PostDominates(g, c, a)
  {
    forall p | ExitPath(g, p, a)
      ensures c in p
    {
      var t :| 0 <= t < |p| && p[t] == b;
      PathTail(g, p, t);
      assert ExitPath(g, p[t..], b);
      assert c in p[t..];
    }
  }

  /** What is answered when the entry reaches no terminal block: nothing if no block at all is
      terminal, and every block otherwise, vacuously. */
  lemma CutOffEntry(g: Cfg)
    requires g != [] && !ReachesExit(g, 0)
    ensures forall j :: j in AlwaysExecuted(g) <==> HasTerminal(g) && 0 <= j < |g|
    ensures AlwaysExecuted(g) == {} <==> !HasTerminal(g)
  {
    forall j | 0 <= j < |g|
      ensures PostDominates(g, j, 0)
    {
    }
    if HasTerminal(g) {
      assert 0 in AlwaysExecuted(g);
    }
  }

  lemma {:induction false} LoopNeverLeaves(g: Cfg, p: seq<nat>)
    requires g == [[1], [1], []] && IsPath(g, p) && p[0] <= 1
    ensures p[|p| - 1] <= 1
    decreases |p|
  {
    if |p| > 1 {
      assert p[0] < |g| && p[1] in Successors(g, p[0]);
      PathTail(g, p, 1);
      LoopNeverLeaves(g, p[1..]);
    }
  }

  /** A function that spins in block 1 and has a recover block, which no other block leads to:
      that block is reported as running on every execution. */
  lemma CutOffEntryExample()
    ensures var g: Cfg := [[1], [1], []]; WellFormed(g) && !ReachesExit(g, 0) && AlwaysExecuted(g) == {0, 1, 2}
  {
    var g: Cfg := [[1], [1], []];
    forall p | ExitPath(g, p, 0)
      ensures false
    {
      LoopNeverLeaves(g, p);
    }
    assert g[2] == [];
    CutOffEntry(g);
  }

  /** Some walk leads from the entry to the block. */
  ghost predicate Reachable(g: Cfg, j: nat) {
    exists p :: IsPath(g, p) && p[0] == 0 && p[|p| - 1] == j
  }

  lemma OnPathReachable(g: Cfg, p: seq<nat>, j: nat)
    requires IsPath(g, p) && p[0] == 0 && j in p
    ensures Reachable(g, j)
  {
    var t :| 0 <= t < |p| && p[t] == j;
    var q := p[..t + 1];
    forall h | 0 <= h < |q| - 1
      ensures q[h] < |g| && q[h + 1] in Successors(g, q[h])
    {
      assert q[h] == p[h] && q[h + 1] == p[h + 1];
    }
    assert IsPath(g, q);
  }

  /** Every reported block is one that the entry reaches, exactly when the entry can complete,
      or no block is terminal, or the entry reaches every block. */
  lemma ReportedBlocksAreReachable(g: Cfg)
    ensures (forall j :: j in AlwaysExecuted(g) ==> Reachable(g, j)) <==>
            ReachesExit(g, 0) || !HasTerminal(g) || forall j: nat :: j < |g| ==> Reachable(g, j)
  {
    if ReachesExit(g, 0) {
      var p :| ExitPath(g, p, 0);
      forall j | j in AlwaysExecuted(g)
        ensures Reachable(g, j)
      {
        OnPathReachable(g, p, j);
      }
    } else if g != [] {
      CutOffEntry(g);
    }
  }
}
