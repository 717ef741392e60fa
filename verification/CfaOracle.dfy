/** The repeated-scan oracle for the finite control-flow domain
    (roster/ocaml-cfa-foundation/check-domain.js): interleaved seeds, copy constraints and
    solves over a product of two set domains. */
module CfaOracle {
  import opened Prelude

  datatype Op =
    | Target(cell: nat, value: string)
    | Reason(cell: nat, value: string)
    | Copy(src: nat, dst: nat)
    | Solve
    | Unknown(kind: string)

  datatype Domain = Targets | Reasons

  type Cells = seq<set<string>>

  datatype Snapshot = Snapshot(targets: Cells, reasons: Cells) {
    function Of(dom: Domain): Cells {
      if dom == Targets then targets else reasons
    }
  }

  predicate InRange(cells: nat, ops: seq<Op>) {
    forall op :: op in ops ==>
      match op
      case Target(c, _) => c < cells
      case Reason(c, _) => c < cells
      case Copy(s, d) => s < cells && d < cells
      case _ => true
  }

  // ---------------------------------------------------------------- meaning

  predicate Seeded(ops: seq<Op>, dom: Domain, cell: nat, value: string) {
    (if dom == Targets then Target(cell, value) else Reason(cell, value)) in ops
  }

  /** A walk along copy constraints. */
  ghost predicate CopyPath(ops: seq<Op>, p: seq<nat>) {
    p != [] && forall i :: 0 <= i < |p| - 1 ==> Copy(p[i], p[i + 1]) in ops
  }

  /** `value` was seeded at some cell from which copies lead to `dst`. */
  ghost predicate Derivable(ops: seq<Op>, dom: Domain, dst: nat, value: string) {
    exists p :: CopyPath(ops, p) && p[|p| - 1] == dst && Seeded(ops, dom, p[0], value)
  }

  ghost predicate Meaning(cells: nat, ops: seq<Op>, s: Snapshot) {
    && |s.targets| == cells && |s.reasons| == cells
    && forall dom, d, v :: 0 <= d < cells ==> (v in s.Of(dom)[d] <==> Derivable(ops, dom, d, v))
  }

  lemma DerivableGrows(ops: seq<Op>, op: Op, dom: Domain, dst: nat, value: string)
    requires Derivable(ops, dom, dst, value)
    ensures Derivable(ops + [op], dom, dst, value)
  {
    var p :| CopyPath(ops, p) && p[|p| - 1] == dst && Seeded(ops, dom, p[0], value);
    assert CopyPath(ops + [op], p);
  }

  lemma SeedDerivable(ops: seq<Op>, dom: Domain, cell: nat, value: string)
    requires Seeded(ops, dom, cell, value)
    ensures Derivable(ops, dom, cell, value)
  {
    assert CopyPath(ops, [cell]);
  }

  lemma CopyDerivable(ops: seq<Op>, dom: Domain, src: nat, dst: nat, value: string)
    requires Copy(src, dst) in ops && Derivable(ops, dom, src, value)
    ensures Derivable(ops, dom, dst, value)
  {
    var p :| CopyPath(ops, p) && p[|p| - 1] == src && Seeded(ops, dom, p[0], value);
    var q := p + [dst];
    forall i | 0 <= i < |q| - 1
      ensures Copy(q[i], q[i + 1]) in ops
    {
      if i < |p| - 1 {
        assert q[i] == p[i] && q[i + 1] == p[i + 1];
      }
    }
    assert CopyPath(ops, q);
  }

  /** Only derivable values, every seed, and nothing outside the seeds. */
  ghost predicate Sound(cells: nat, ops: seq<Op>, s: Snapshot) {
    && |s.targets| == cells && |s.reasons| == cells
    && (forall dom, d, v :: 0 <= d < cells && v in s.Of(dom)[d] ==> Derivable(ops, dom, d, v))
    && (forall dom, d, v :: 0 <= d < cells && Seeded(ops, dom, d, v) ==> v in s.Of(dom)[d])
  }

  ghost predicate Closed(ops: seq<Op>, s: Snapshot) {
    forall src: nat, dst: nat, dom :: Copy(src, dst) in ops && src < |s.Of(dom)| && dst < |s.Of(dom)|
                            ==> s.Of(dom)[src] <= s.Of(dom)[dst]
  }

  /** In a closed state every value has travelled the whole of every walk. */
  lemma {:induction false} ClosedFollowsPaths(cells: nat, ops: seq<Op>, s: Snapshot, dom: Domain, p: seq<nat>, v: string)
    requires InRange(cells, ops) && Closed(ops, s) && |s.targets| == cells && |s.reasons| == cells
    requires CopyPath(ops, p) && p[0] < cells && v in s.Of(dom)[p[0]]
    ensures p[|p| - 1] < cells && v in s.Of(dom)[p[|p| - 1]]
    decreases |p|
  {
    if |p| > 1 {
      assert Copy(p[0], p[1]) in ops;
      var rest := p[1..];
      forall i | 0 <= i < |rest| - 1
        ensures Copy(rest[i], rest[i + 1]) in ops
      {
        assert rest[i] == p[i + 1] && rest[i + 1] == p[i + 2];
      }
      ClosedFollowsPaths(cells, ops, s, dom, rest, v);
    }
  }

  /** A sound closed state is the least solution. */
  lemma ClosedIsMeaning(cells: nat, ops: seq<Op>, s: Snapshot)
    requires InRange(cells, ops) && Sound(cells, ops, s) && Closed(ops, s)
    ensures Meaning(cells, ops, s)
  {
    forall dom, d, v | 0 <= d < cells && Derivable(ops, dom, d, v)
      ensures v in s.Of(dom)[d]
    {
      var p :| CopyPath(ops, p) && p[|p| - 1] == d && Seeded(ops, dom, p[0], v);
      assert p[0] < cells;
      ClosedFollowsPaths(cells, ops, s, dom, p, v);
    }
  }

  // ---------------------------------------------------------------- termination

  /** The seeds of a domain: no scan can put any other value into a cell. */
  ghost function Universe(ops: seq<Op>, dom: Domain): set<string> {
    if dom == Targets then set op | op in ops && op.Target? :: op.value
    else set op | op in ops && op.Reason? :: op.value
  }

  /** Values that some cell could still receive. */
  ghost function Missing(ops: seq<Op>, s: Snapshot): set<(Domain, nat, string)> {
    (set d, v | 0 <= d < |s.targets| && v in Universe(ops, Targets) && v !in s.targets[d] :: (Targets, d, v))
    + (set d, v | 0 <= d < |s.reasons| && v in Universe(ops, Reasons) && v !in s.reasons[d] :: (Reasons, d, v))
  }

  lemma DerivableInUniverse(ops: seq<Op>, dom: Domain, d: nat, v: string)
    requires Derivable(ops, dom, d, v)
    ensures v in Universe(ops, dom)
  {
    var p :| CopyPath(ops, p) && p[|p| - 1] == d && Seeded(ops, dom, p[0], v);
  }

  ghost predicate Grows(a: Snapshot, b: Snapshot) {
    && |a.targets| == |b.targets| && |a.reasons| == |b.reasons|
    && (forall d :: 0 <= d < |a.targets| ==> a.targets[d] <= b.targets[d])
    && (forall d :: 0 <= d < |a.reasons| ==> a.reasons[d] <= b.reasons[d])
  }

  lemma GrowthFillsMissing(cells: nat, ops: seq<Op>, a: Snapshot, b: Snapshot)
    requires Sound(cells, ops, a) && Sound(cells, ops, b) && Grows(a, b) && a != b
    ensures Missing(ops, b) < Missing(ops, a)
  {
    assert Missing(ops, b) <= Missing(ops, a);
    var dom, d :| 0 <= d < cells && a.Of(dom)[d] != b.Of(dom)[d] by {
      DifferSomewhere(cells, a, b);
    }
    assert a.Of(dom)[d] <= b.Of(dom)[d];
    var v :| v in b.Of(dom)[d] && v !in a.Of(dom)[d];
    DerivableInUniverse(ops, dom, d, v);
    assert (dom, d, v) in Missing(ops, a) && (dom, d, v) !in Missing(ops, b);
  }

  lemma DifferSomewhere(cells: nat, a: Snapshot, b: Snapshot)
    requires |a.targets| == |a.reasons| == |b.targets| == |b.reasons| == cells && a != b
    ensures exists dom, d :: 0 <= d < cells && a.Of(dom)[d] != b.Of(dom)[d]
  {
    if a.targets != b.targets {
      var d :| 0 <= d < cells && a.targets[d] != b.targets[d];
      assert a.Of(Targets)[d] != b.Of(Targets)[d];
    } else {
      var d :| 0 <= d < cells && a.reasons[d] != b.reasons[d];
      assert a.Of(Reasons)[d] != b.Of(Reasons)[d];
    }
  }

  // ---------------------------------------------------------------- the algorithm

  ghost function State(targets: array<set<string>>, reasons: array<set<string>>): Snapshot
    reads targets, reasons
  {
    Snapshot(targets[..], reasons[..])
  }

  /** The copy constraints among the operations, in order. */
  ghost function CopiesOf(ops: seq<Op>): seq<(nat, nat)> {
    if ops == [] then []
    else
      var last := ops[|ops| - 1];
      CopiesOf(ops[..|ops| - 1]) + (if last.Copy? then [(last.src, last.dst)] else [])
  }

  lemma {:induction false} CopiesMembers(ops: seq<Op>, src: nat, dst: nat)
    ensures (src, dst) in CopiesOf(ops) <==> Copy(src, dst) in ops
  {
    if ops != [] {
      CopiesMembers(ops[..|ops| - 1], src, dst);
      assert ops == ops[..|ops| - 1] + [ops[|ops| - 1]];
    }
  }

  /** One scan of every copy constraint (lines 48-55). */
  method Scan(cells: nat, ghost ops: seq<Op>, copies: seq<(nat, nat)>, targets: array<set<string>>, reasons: array<set<string>>)
    returns (changed: bool)
    requires InRange(cells, ops) && copies == CopiesOf(ops) && targets != reasons
    requires Sound(cells, ops, State(targets, reasons))
    modifies targets, reasons
    ensures Sound(cells, ops, State(targets, reasons))
    ensures Grows(old(State(targets, reasons)), State(targets, reasons))
    ensures changed <==> State(targets, reasons) != old(State(targets, reasons))
    ensures !changed ==> Closed(ops, State(targets, reasons))
  {
    changed := false;
    ghost var start := State(targets, reasons);
    for i := 0 to |copies|
      invariant Sound(cells, ops, State(targets, reasons))
      invariant Grows(start, State(targets, reasons))
      invariant changed <==> State(targets, reasons) != start
      invariant !changed ==> forall h :: 0 <= h < i ==>
                  copies[h].0 < cells && copies[h].1 < cells
                  && targets[copies[h].0] <= targets[copies[h].1] && reasons[copies[h].0] <= reasons[copies[h].1]
    {
      var src, dst := copies[i].0, copies[i].1;
      CopiesMembers(ops, src, dst);
      ghost var before := State(targets, reasons);
      var nextTargets := targets[dst] + targets[src];
      var nextReasons := reasons[dst] + reasons[src];
      SubsetSize(targets[dst], nextTargets);
      SubsetSize(reasons[dst], nextReasons);
      if |nextTargets| != |targets[dst]| || |nextReasons| != |reasons[dst]| {
        changed := true;
      }
      targets[dst] := nextTargets;
      reasons[dst] := nextReasons;
      ScanStep(cells, ops, before, src, dst);
      assert State(targets, reasons) == Snapshot(before.targets[dst := nextTargets], before.reasons[dst := nextReasons]);
      StillGrowing(start, before, State(targets, reasons));
    }
    if !changed {
      forall src: nat, dst: nat | Copy(src, dst) in ops
        ensures src < cells && dst < cells && targets[src] <= targets[dst] && reasons[src] <= reasons[dst]
      {
        CopiesMembers(ops, src, dst);
        var h :| 0 <= h < |copies| && copies[h] == (src, dst);
      }
    }
  }

  lemma StillGrowing(start: Snapshot, before: Snapshot, after: Snapshot)
    requires Grows(start, before) && Grows(before, after)
    ensures Grows(start, after)
    ensures before != start ==> after != start
  {
    if after == start {
      assert forall d :: 0 <= d < |start.targets| ==> before.targets[d] == start.targets[d];
      assert forall d :: 0 <= d < |start.reasons| ==> before.reasons[d] == start.reasons[d];
      assert before.targets == start.targets && before.reasons == start.reasons;
    }
  }

  lemma ScanStep(cells: nat, ops: seq<Op>, s: Snapshot, src: nat, dst: nat)
    requires InRange(cells, ops) && Sound(cells, ops, s) && Copy(src, dst) in ops
    ensures var s' := Snapshot(s.targets[dst := s.targets[dst] + s.targets[src]], s.reasons[dst := s.reasons[dst] + s.reasons[src]]);
            Sound(cells, ops, s') && Grows(s, s')
  {
    var s' := Snapshot(s.targets[dst := s.targets[dst] + s.targets[src]], s.reasons[dst := s.reasons[dst] + s.reasons[src]]);
    forall dom, d, v | 0 <= d < cells && v in s'.Of(dom)[d]
      ensures Derivable(ops, dom, d, v)
    {
      if v !in s.Of(dom)[d] {
        assert d == dst && v in s.Of(dom)[src];
        CopyDerivable(ops, dom, src, dst, v);
      }
    }
    forall dom, d, v | 0 <= d < cells && Seeded(ops, dom, d, v)
      ensures v in s'.Of(dom)[d]
    {
      assert v in s.Of(dom)[d];
    }
  }

  /** Lines 45-56: scan until no destination changes. */
  method Settle(cells: nat, ghost ops: seq<Op>, copies: seq<(nat, nat)>, targets: array<set<string>>, reasons: array<set<string>>)
    requires InRange(cells, ops) && copies == CopiesOf(ops) && targets != reasons
    requires Sound(cells, ops, State(targets, reasons))
    modifies targets, reasons
    ensures Sound(cells, ops, State(targets, reasons))
    ensures Meaning(cells, ops, State(targets, reasons))
  {
    var changed := true;
    while changed
      invariant Sound(cells, ops, State(targets, reasons))
      invariant !changed ==> Closed(ops, State(targets, reasons))
      decreases changed, Missing(ops, State(targets, reasons))
    {
      ghost var before := State(targets, reasons);
      changed := Scan(cells, ops, copies, targets, reasons);
      if changed {
        GrowthFillsMissing(cells, ops, before, State(targets, reasons));
      }
    }
    ClosedIsMeaning(cells, ops, State(targets, reasons));
  }

  /** The positions of the solve operations. */
  ghost function SolvePoints(ops: seq<Op>): seq<nat> {
    if ops == [] then []
    else SolvePoints(ops[..|ops| - 1]) + (if ops[|ops| - 1].Solve? then [|ops| - 1] else [])
  }

  lemma {:induction false} SolvePointsInside(ops: seq<Op>)
    ensures forall i :: 0 <= i < |SolvePoints(ops)| ==> SolvePoints(ops)[i] < |ops| && ops[SolvePoints(ops)[i]].Solve?
  {
    if ops != [] {
      SolvePointsInside(ops[..|ops| - 1]);
    }
  }

  /** One snapshot a solve, each the least solution of the operations before that solve; an
      operation of unknown kind is refused. */
  ghost predicate SnapshotsMean(cells: nat, ops: seq<Op>, snapshots: seq<Snapshot>) {
    && |snapshots| == |SolvePoints(ops)|
    && forall i :: 0 <= i < |snapshots| ==>
         SolvePoints(ops)[i] < |ops| && Meaning(cells, ops[..SolvePoints(ops)[i]], snapshots[i])
  }

  /** The state after a seed, a copy or a solve that found nothing to do. */
  function Seed(s: Snapshot, op: Op): Snapshot {
    match op
    case Target(cell, value) =>
      if cell < |s.targets| then s.(targets := s.targets[cell := s.targets[cell] + {value}]) else s
    case Reason(cell, value) =>
      if cell < |s.reasons| then s.(reasons := s.reasons[cell := s.reasons[cell] + {value}]) else s
    case _ => s
  }

  lemma SeedStep(cells: nat, ops: seq<Op>, s: Snapshot, op: Op)
    requires InRange(cells, ops + [op]) && Sound(cells, ops, s)
    ensures Sound(cells, ops + [op], Seed(s, op))
  {
    var all, s' := ops + [op], Seed(s, op);
    assert op in all;
    forall dom, d, v | 0 <= d < cells && v in s'.Of(dom)[d]
      ensures Derivable(all, dom, d, v)
    {
      if v in s.Of(dom)[d] {
        DerivableGrows(ops, op, dom, d, v);
      } else {
        assert Seeded(all, dom, d, v);
        SeedDerivable(all, dom, d, v);
      }
    }
    forall dom, d, v | 0 <= d < cells && Seeded(all, dom, d, v)
      ensures v in s'.Of(dom)[d]
    {
      if Seeded(ops, dom, d, v) {
        assert v in s.Of(dom)[d];
      } else {
        assert op == if dom == Targets then Target(d, v) else Reason(d, v);
      }
    }
  }

  lemma InRangePrefix(cells: nat, ops: seq<Op>, i: nat)
    requires InRange(cells, ops) && i < |ops|
    ensures InRange(cells, ops[..i]) && InRange(cells, ops[..i] + [ops[i]])
  {
    forall op | op in ops[..i] + [ops[i]]
      ensures op in ops
    {
    }
    assert forall op :: op in ops[..i] ==> op in ops;
  }

  lemma SnapshotsExtend(cells: nat, ops: seq<Op>, snapshots: seq<Snapshot>, op: Op, s: Snapshot)
    requires SnapshotsMean(cells, ops, snapshots) && (op.Solve? ==> Meaning(cells, ops, s))
    ensures SnapshotsMean(cells, ops + [op], if op.Solve? then snapshots + [s] else snapshots)
  {
    var all := ops + [op];
    assert all[..|ops|] == ops;
    forall i | 0 <= i < |snapshots|
      ensures all[..SolvePoints(ops)[i]] == ops[..SolvePoints(ops)[i]]
    {
    }
  }

  method Oracle(cells: nat, ops: seq<Op>) returns (r: Result<seq<Snapshot>, string>)
    requires InRange(cells, ops)
    ensures r.Ok? <==> forall op :: op in ops ==> !op.Unknown?
    ensures r.Ok? ==> SnapshotsMean(cells, ops, r.value)
  {
    hide CopyPath;
    hide Derivable;
    hide Meaning;
    var targets := new set<string>[cells](_ => {});
    var reasons := new set<string>[cells](_ => {});
    var snapshots: seq<Snapshot> := [];
    var copies: seq<(nat, nat)> := [];
    for i := 0 to |ops|
      invariant forall op :: op in ops[..i] ==> !op.Unknown?
      invariant Sound(cells, ops[..i], State(targets, reasons))
      invariant copies == CopiesOf(ops[..i])
      invariant SnapshotsMean(cells, ops[..i], snapshots)
    {
      var op := ops[i];
      ghost var done := ops[..i];
      TakeNext(ops, i);
      InRangePrefix(cells, ops, i);
      assert (done + [op])[..i] == done && op in done + [op];
      assert targets.Length == |State(targets, reasons).targets| && reasons.Length == |State(targets, reasons).reasons|;
      ghost var earlier := snapshots;
      match op {
        case Target(cell, value) =>
          SeedStep(cells, done, State(targets, reasons), op);
          ghost var before := State(targets, reasons);
          targets[cell] := targets[cell] + {value};
          assert State(targets, reasons) == Seed(before, op);
        case Reason(cell, value) =>
          SeedStep(cells, done, State(targets, reasons), op);
          ghost var before := State(targets, reasons);
          reasons[cell] := reasons[cell] + {value};
          assert State(targets, reasons) == Seed(before, op);
        case Copy(src, dst) =>
          SeedStep(cells, done, State(targets, reasons), op);
          copies := copies + [(src, dst)];
        case Solve =>
          Settle(cells, done, copies, targets, reasons);
          SeedStep(cells, done, State(targets, reasons), op);
          snapshots := snapshots + [Snapshot(targets[..], reasons[..])];
        case Unknown(kind) =>
          assert op in ops;
          return Err(kind);
      }
      SnapshotsExtend(cells, done, earlier, op, State(targets, reasons));
    }
    TakeAll(ops);
    return Ok(snapshots);
  }

  // ---------------------------------------------------------------- consequences

  /** The meaning lies below every state that holds the seeds and satisfies the copies. */
  lemma MeaningIsLeast(cells: nat, ops: seq<Op>, s: Snapshot, other: Snapshot)
    requires InRange(cells, ops) && Meaning(cells, ops, s)
    requires |other.targets| == cells && |other.reasons| == cells && Closed(ops, other)
    requires forall dom, d, v :: 0 <= d < cells && Seeded(ops, dom, d, v) ==> v in other.Of(dom)[d]
    ensures Closed(ops, s) && forall dom, d, v :: 0 <= d < cells && Seeded(ops, dom, d, v) ==> v in s.Of(dom)[d]
    ensures forall dom, d :: 0 <= d < cells ==> s.Of(dom)[d] <= other.Of(dom)[d]
  {
    forall src: nat, dst: nat, dom, v | Copy(src, dst) in ops && src < cells && dst < cells && v in s.Of(dom)[src]
      ensures v in s.Of(dom)[dst]
    {
      CopyDerivable(ops, dom, src, dst, v);
    }
    forall dom, d: nat, v | d < cells && Seeded(ops, dom, d, v)
      ensures v in s.Of(dom)[d]
    {
      SeedDerivable(ops, dom, d, v);
    }
    forall dom, d, v | 0 <= d < cells && v in s.Of(dom)[d]
      ensures v in other.Of(dom)[d]
    {
      var p :| CopyPath(ops, p) && p[|p| - 1] == d && Seeded(ops, dom, p[0], v);
      assert p[0] < cells;
      ClosedFollowsPaths(cells, ops, other, dom, p, v);
    }
  }

  ghost predicate SameConstraints(ops: seq<Op>, ops': seq<Op>) {
    forall op: Op :: !op.Solve? ==> (op in ops <==> op in ops')
  }

  /** Reordering, repeating or re-solving changes no snapshot. */
  lemma SnapshotIgnoresOrder(cells: nat, ops: seq<Op>, ops': seq<Op>, s: Snapshot, s': Snapshot)
    requires SameConstraints(ops, ops') && Meaning(cells, ops, s) && Meaning(cells, ops', s')
    ensures s == s'
  {
    forall dom, d, v | 0 <= d < cells
      ensures v in s.Of(dom)[d] <==> v in s'.Of(dom)[d]
    {
      if p :| CopyPath(ops, p) && p[|p| - 1] == d && Seeded(ops, dom, p[0], v) {
        assert CopyPath(ops', p);
      }
      if p :| CopyPath(ops', p) && p[|p| - 1] == d && Seeded(ops', dom, p[0], v) {
        assert CopyPath(ops, p);
      }
    }
    assert forall d :: 0 <= d < cells ==> s.targets[d] == s.Of(Targets)[d] == s'.Of(Targets)[d] == s'.targets[d];
    assert forall d :: 0 <= d < cells ==> s.reasons[d] == s.Of(Reasons)[d] == s'.Of(Reasons)[d] == s'.reasons[d];
  }

  // ---------------------------------------------------------------- the three-block case

  datatype Arc = Arc(src: nat, dst: nat)

  function EdgeOps(edges: seq<Arc>, base: nat): seq<Op> {
    seq(|edges|, i requires 0 <= i < |edges| => Copy(edges[i].src + base, edges[i].dst + base))
  }

  function Reversed<T>(s: seq<T>): seq<T> {
    seq(|s|, i requires 0 <= i < |s| => s[|s| - 1 - i])
  }

  function Seeds(base: nat): seq<Op> {
    [Target(base, "f"), Reason(base + 2, "callback_param")]
  }

  /** `graphCase`: one three-node graph built forward, built in reverse on cells 3-5 with the
      seeds last, and built twice over on cells 6-8. */
  function GraphCase(edges: seq<Arc>): seq<Op> {
    Seeds(0) + EdgeOps(edges, 0) + [Solve]
    + Reversed(EdgeOps(edges, 3)) + Reversed(Seeds(3)) + [Solve]
    + Seeds(6) + EdgeOps(edges, 6) + EdgeOps(edges, 6) + [Solve]
  }

  predicate ThreeNodes(edges: seq<Arc>) {
    forall e :: e in edges ==> e.src < 3 && e.dst < 3
  }

  lemma EdgeOpsMembers(edges: seq<Arc>, base: nat, op: Op)
    ensures op in EdgeOps(edges, base) <==>
            op.Copy? && op.src >= base && op.dst >= base && Arc(op.src - base, op.dst - base) in edges
  {
    if op.Copy? && op.src >= base && op.dst >= base && Arc(op.src - base, op.dst - base) in edges {
      var i :| 0 <= i < |edges| && edges[i] == Arc(op.src - base, op.dst - base);
      assert EdgeOps(edges, base)[i] == op;
    }
  }

  lemma ReversedMembers<T>(s: seq<T>)
    ensures forall x :: x in Reversed(s) <==> x in s
  {
    forall x | x in s
      ensures x in Reversed(s)
    {
      var i :| 0 <= i < |s| && s[i] == x;
      assert Reversed(s)[|s| - 1 - i] == x;
    }
  }

  lemma GraphCaseMembers(edges: seq<Arc>)
    ensures forall op :: op in GraphCase(edges) <==>
              || op == Solve || op in Seeds(0) || op in Seeds(3) || op in Seeds(6)
              || op in EdgeOps(edges, 0) || op in EdgeOps(edges, 3) || op in EdgeOps(edges, 6)
  {
    ReversedMembers(EdgeOps(edges, 3));
    ReversedMembers(Seeds(3));
  }

  ghost predicate Block(ops: seq<Op>, part: seq<Op>, base: nat) {
    && (forall s: nat, d: nat :: Copy(s, d) in ops && base <= d < base + 3 ==> base <= s < base + 3)
    && (forall s: nat, d: nat :: s < 3 && d < 3 ==> (Copy(s + base, d + base) in ops <==> Copy(s, d) in part))
    && (forall s: nat, d: nat :: Copy(s, d) in part ==> s < 3 && d < 3)
    && (forall dom, c: nat, v :: c < 3 ==> (Seeded(ops, dom, c + base, v) <==> Seeded(part, dom, c, v)))
  }

  function Shift(p: seq<nat>, base: nat): seq<nat> {
    seq(|p|, i requires 0 <= i < |p| => p[i] + base)
  }

  function Unshift(p: seq<nat>, base: nat): seq<nat>
    requires forall i :: 0 <= i < |p| ==> p[i] >= base
  {
    seq(|p|, i requires 0 <= i < |p| => p[i] - base)
  }

  lemma {:induction false} PathStaysInBlock(ops: seq<Op>, part: seq<Op>, base: nat, p: seq<nat>)
    requires Block(ops, part, base) && CopyPath(ops, p) && base <= p[|p| - 1] < base + 3
    ensures forall i :: 0 <= i < |p| ==> base <= p[i] < base + 3
    decreases |p|
  {
    if |p| > 1 {
      var front := p[..|p| - 1];
      assert Copy(p[|p| - 2], p[|p| - 2 + 1]) in ops;
      forall i | 0 <= i < |front| - 1
        ensures Copy(front[i], front[i + 1]) in ops
      {
        assert front[i] == p[i] && front[i + 1] == p[i + 1];
      }
      PathStaysInBlock(ops, part, base, front);
      assert forall i :: 0 <= i < |p| - 1 ==> p[i] == front[i];
    }
  }

  lemma BlockDerivable(ops: seq<Op>, part: seq<Op>, base: nat, dom: Domain, d: nat, v: string)
    requires Block(ops, part, base) && d < 3
    ensures Derivable(ops, dom, d + base, v) <==> Derivable(part, dom, d, v)
  {
    if p :| CopyPath(ops, p) && p[|p| - 1] == d + base && Seeded(ops, dom, p[0], v) {
      PathStaysInBlock(ops, part, base, p);
      var q := Unshift(p, base);
      forall i | 0 <= i < |q| - 1
        ensures Copy(q[i], q[i + 1]) in part
      {
        assert Copy(p[i], p[i + 1]) in ops;
        assert p[i] == q[i] + base && p[i + 1] == q[i + 1] + base;
      }
      assert Seeded(ops, dom, q[0] + base, v);
      assert CopyPath(part, q);
    }
    if p :| CopyPath(part, p) && p[|p| - 1] == d && Seeded(part, dom, p[0], v) {
      var q := Shift(p, base);
      forall i | 0 <= i < |q| - 1
        ensures Copy(q[i], q[i + 1]) in ops
      {
        assert Copy(p[i], p[i + 1]) in part;
      }
      assert p[0] < 3 by {
        if |p| > 1 {
          assert Copy(p[0], p[0 + 1]) in part;
        }
      }
      assert CopyPath(ops, q);
    }
  }

  /** A copy constraint of the case lies inside the block of its destination. */
  lemma CaseCopies(edges: seq<Arc>, base: nat, src: nat, dst: nat)
    requires ThreeNodes(edges) && (base == 0 || base == 3 || base == 6) && base <= dst < base + 3
    ensures Copy(src, dst) in GraphCase(edges) <==> src >= base && Arc(src - base, dst - base) in edges
    ensures Copy(src, dst) in GraphCase(edges) ==> src < base + 3
  {
    GraphCaseMembers(edges);
    EdgeOpsMembers(edges, 0, Copy(src, dst));
    EdgeOpsMembers(edges, 3, Copy(src, dst));
    EdgeOpsMembers(edges, 6, Copy(src, dst));
  }

  lemma CaseCopiesInside(edges: seq<Arc>, base: nat, s: nat, d: nat)
    requires ThreeNodes(edges) && (base == 0 || base == 3 || base == 6) && d < 3
    ensures Copy(s + base, d + base) in GraphCase(edges) <==> Arc(s, d) in edges
  {
    hide GraphCase;
    hide ThreeNodes;
    CaseCopies(edges, base, s + base, d + base);
    assert Arc(s + base - base, d + base - base) == Arc(s, d);
  }

  lemma CaseSeeds(edges: seq<Arc>, base: nat, dom: Domain, c: nat, v: string)
    requires (base == 0 || base == 3 || base == 6) && c < 3
    ensures Seeded(GraphCase(edges), dom, c + base, v) <==> Seeded(Seeds(0), dom, c, v)
    ensures Seeded(Seeds(0) + EdgeOps(edges, 0), dom, c, v) <==> Seeded(Seeds(0), dom, c, v)
  {
    GraphCaseMembers(edges);
  }

  lemma PartCopies(edges: seq<Arc>, s: nat, d: nat)
    ensures Copy(s, d) in Seeds(0) + EdgeOps(edges, 0) <==> Arc(s, d) in edges
  {
    EdgeOpsMembers(edges, 0, Copy(s, d));
  }

  lemma BlockFromMembers(ops: seq<Op>, part: seq<Op>, edges: seq<Arc>, base: nat)
    requires ThreeNodes(edges)
    requires forall s: nat, d: nat :: Copy(s, d) in part <==> Arc(s, d) in edges
    requires forall s: nat, d: nat :: base <= d < base + 3 && Copy(s, d) in ops ==> base <= s < base + 3
    requires forall s: nat, d: nat :: s < 3 && d < 3 ==> (Copy(s + base, d + base) in ops <==> Arc(s, d) in edges)
    requires forall dom, c: nat, v :: c < 3 ==> (Seeded(ops, dom, c + base, v) <==> Seeded(part, dom, c, v))
    ensures Block(ops, part, base)
  {
  }

  lemma GraphCaseBlock(edges: seq<Arc>, base: nat)
    requires ThreeNodes(edges) && (base == 0 || base == 3 || base == 6)
    ensures Block(GraphCase(edges), Seeds(0) + EdgeOps(edges, 0), base)
  {
    var ops, part := GraphCase(edges), Seeds(0) + EdgeOps(edges, 0);
    assert forall s: nat, d: nat :: Copy(s, d) in part <==> Arc(s, d) in edges by {
      forall s: nat, d: nat
        ensures Copy(s, d) in part <==> Arc(s, d) in edges
      {
        PartCopies(edges, s, d);
      }
    }
    assert forall s: nat, d: nat :: base <= d < base + 3 && Copy(s, d) in ops ==> base <= s < base + 3 by {
      forall s: nat, d: nat | base <= d < base + 3 && Copy(s, d) in ops
        ensures base <= s < base + 3
      {
        CaseCopies(edges, base, s, d);
      }
    }
    assert forall s: nat, d: nat :: s < 3 && d < 3 ==> (Copy(s + base, d + base) in ops <==> Arc(s, d) in edges) by {
      forall s: nat, d: nat | s < 3 && d < 3
        ensures Copy(s + base, d + base) in ops <==> Arc(s, d) in edges
      {
        CaseCopiesInside(edges, base, s, d);
      }
    }
    assert forall dom, c: nat, v :: c < 3 ==> (Seeded(ops, dom, c + base, v) <==> Seeded(part, dom, c, v)) by {
      forall dom, c: nat, v | c < 3
        ensures Seeded(ops, dom, c + base, v) <==> Seeded(part, dom, c, v)
      {
        CaseSeeds(edges, base, dom, c, v);
      }
    }
    BlockFromMembers(ops, part, edges, base);
  }

  lemma BlockCells(edges: seq<Arc>, s: Snapshot, base: nat, dom: Domain, d: nat)
    requires ThreeNodes(edges) && Meaning(9, GraphCase(edges), s) && (base == 3 || base == 6) && d < 3
    ensures s.Of(dom)[d] == s.Of(dom)[d + base]
  {
    var part := Seeds(0) + EdgeOps(edges, 0);
    GraphCaseBlock(edges, 0);
    GraphCaseBlock(edges, base);
    forall v
      ensures v in s.Of(dom)[d] <==> v in s.Of(dom)[d + base]
    {
      BlockDerivable(GraphCase(edges), part, 0, dom, d, v);
      BlockDerivable(GraphCase(edges), part, base, dom, d, v);
      assert d + 0 == d;
    }
  }

  /** The reversed and the duplicated copy of any three-node graph come out cell for cell
      like the forward one, in one run with a solve between them. */
  lemma GraphCaseBlocksAgree(edges: seq<Arc>, s: Snapshot)
    requires ThreeNodes(edges) && Meaning(9, GraphCase(edges), s)
    ensures s.targets[0..3] == s.targets[3..6] == s.targets[6..9]
    ensures s.reasons[0..3] == s.reasons[3..6] == s.reasons[6..9]
  {
    BlocksAgreeAt(edges, s, 0);
    BlocksAgreeAt(edges, s, 1);
    BlocksAgreeAt(edges, s, 2);
  }

  lemma BlocksAgreeAt(edges: seq<Arc>, s: Snapshot, d: nat)
    requires ThreeNodes(edges) && Meaning(9, GraphCase(edges), s) && d < 3
    ensures s.targets[d] == s.targets[d + 3] == s.targets[d + 6]
    ensures s.reasons[d] == s.reasons[d + 3] == s.reasons[d + 6]
  {
    BlockCells(edges, s, 3, Targets, d);
    BlockCells(edges, s, 6, Targets, d);
    BlockCells(edges, s, 3, Reasons, d);
    BlockCells(edges, s, 6, Reasons, d);
  }
}
