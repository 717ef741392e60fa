/** How the Go producer turns calls into edges: the memoised always-executed test, the
    kind of each edge in both walks, deduplication, and the sorted flush
    (callgraph-go/main.go). */
module GoEdges {
  import opened Dedup
  import opened Order
  import opened PostDominance
  import opened Prelude
  import opened Splitting

  const TOP := "*TOP*"

  datatype Kind = MUST | MAY_ENUMERATED | MAY_TOP

  /** A function as the walks see it. `top` says that it is well-known top or external cgo. */
  datatype Func = Func(name: string, file: string, top: bool)

  datatype CallRecord = CallRecord(
    callerName: string, callerFile: string, calleeName: string, calleeFile: Option<string>,
    site: string, kind: Kind)

  type Key = (string, string, string)

  function KeyOf(r: CallRecord): Key {
    (r.callerName, r.calleeName, r.site)
  }

  /** The control-flow graphs of the loaded functions, by function identity. */
  type Program = map<nat, Cfg>

  ghost predicate WellFormedProgram(prog: Program) {
    forall f :: f in prog ==> WellFormed(prog[f])
  }

  /** Whether a call in `block` of `fn` is answered as always run; an absent block is not. */
  ghost predicate AlwaysRun(prog: Program, fn: nat, block: Option<nat>) {
    fn in prog && block.Some? && block.value in AlwaysExecuted(prog[fn])
  }

  // ---------------------------------------------------------------- memo cache

  class AlwaysExecCache {
    const prog: Program
    var m: map<nat, set<nat>>

    ghost predicate Valid()
      reads this
    {
      && WellFormedProgram(prog)
      && m.Keys <= prog.Keys
      && forall f :: f in m ==> m[f] == AlwaysExecuted(prog[f])
    }

    constructor (prog: Program)
      requires WellFormedProgram(prog)
      ensures Valid() && this.prog == prog
    {
      this.prog := prog;
      m := map[];
    }

    /** Whatever was asked before, the answer is the one a fresh analysis would give. */
    method RunsAlways(fn: Option<nat>, block: Option<nat>) returns (r: bool)
      requires Valid() && (fn.Some? ==> fn.value in prog)
      modifies this
      ensures Valid()
      ensures r <==> fn.Some? && AlwaysRun(prog, fn.value, block)
      ensures m.Keys == old(m.Keys) + (if fn.Some? && block.Some? then {fn.value} else {})
    {
      if fn.None? || block.None? {
        return false;
      }
      if fn.value !in m {
        var found, _ := AlwaysExec(prog[fn.value]);
        m := m[fn.value := found];
      }
      r := block.value in m[fn.value];
    }
  }

  // ---------------------------------------------------------------- edges

  datatype Callee = Invoke | Dynamic | Static(fn: Func)

  /** A call instruction met by the direct walk (lines 521-605). */
  datatype Call = Call(callerId: nat, caller: Func, callee: Callee, block: Option<nat>, site: string)

  datatype SiteInfo = SiteInfo(pos: string, isStatic: bool, block: Option<nat>)

  /** An edge of the CHA call graph (lines 608-671). */
  datatype Edge = Edge(callerId: nat, caller: Func, callee: Func, site: Option<SiteInfo>)

  function FileOf(f: Func): Option<string> {
    if f.file == "" then None else Some(f.file)
  }

  function TopRecord(caller: Func, site: string): CallRecord {
    CallRecord(caller.name, caller.file, TOP, None, site, MAY_TOP)
  }

  /** The record of an edge whose static callee runs always, or not (`must`). */
  function Resolved(caller: Func, callee: Func, site: string, must: bool): CallRecord {
    var name := if callee.top then TOP else callee.name;
    var kind := if callee.top then MAY_TOP else if must then MUST else MAY_ENUMERATED;
    CallRecord(caller.name, caller.file, name, if name == TOP then None else FileOf(callee), site, kind)
  }

  ghost function CallToRecord(prog: Program, c: Call): CallRecord {
    match c.callee
    case Static(fn) => Resolved(c.caller, fn, c.site, AlwaysRun(prog, c.callerId, c.block))
    case _ => TopRecord(c.caller, c.site)
  }

  ghost function EdgeToRecord(prog: Program, e: Edge): CallRecord {
    match e.site
    case None => Resolved(e.caller, e.callee, "", false)
    case Some(s) => Resolved(e.caller, e.callee, s.pos, s.isStatic && AlwaysRun(prog, e.callerId, s.block))
  }

  ghost function CallRecords(prog: Program, calls: seq<Call>): seq<CallRecord> {
    seq(|calls|, i requires 0 <= i < |calls| => CallToRecord(prog, calls[i]))
  }

  ghost function EdgeRecords(prog: Program, edges: seq<Edge>): seq<CallRecord> {
    seq(|edges|, i requires 0 <= i < |edges| => EdgeToRecord(prog, edges[i]))
  }

  /** The `emitted` set shared by the walks, in front of the output buffer. */
  class EdgeWriter {
    var emitted: set<Key>
    var outBuf: seq<CallRecord>
    ghost var offered: seq<CallRecord>

    ghost predicate Valid()
      reads this
    {
      && outBuf == FirstPerKey(KeyOf, offered)
      && forall key :: key in emitted <==> KeySeen(KeyOf, offered, key)
    }

    constructor ()
      ensures Valid() && offered == []
    {
      emitted, outBuf, offered := {}, [], [];
    }

    method Emit(r: CallRecord)
      requires Valid()
      modifies this
      ensures Valid() && offered == old(offered) + [r]
      ensures outBuf == old(outBuf) + (if KeyOf(r) in old(emitted) then [] else [r])
    {
      OfferOne(KeyOf, offered, r);
      offered := offered + [r];
      if KeyOf(r) !in emitted {
        emitted := emitted + {KeyOf(r)};
        outBuf := outBuf + [r];
      }
    }
  }

  // ---------------------------------------------------------------- records and calls

  /** The record of a call: its caller and line; a static callee that is no top function by name,
      MUST where the call always runs; the top anchor for any other callee. */
  ghost predicate OfCall(prog: Program, r: CallRecord, c: Call) {
    && r.callerName == c.caller.name && r.callerFile == c.caller.file && r.site == c.site
    && if c.callee.Static? && !c.callee.fn.top then
         && r.calleeName == c.callee.fn.name
         && r.kind == (if AlwaysRun(prog, c.callerId, c.block) then MUST else MAY_ENUMERATED)
         && r.calleeFile == (if c.callee.fn.name == "*TOP*" || c.callee.fn.file == "" then None else Some(c.callee.fn.file))
       else
         r.calleeName == "*TOP*" && r.kind == MAY_TOP && r.calleeFile == None
  }

  /** The record of an edge, whose site is empty where the edge has none. */
  ghost predicate OfEdge(prog: Program, r: CallRecord, e: Edge) {
    && r.callerName == e.caller.name && r.callerFile == e.caller.file && r.site == (if e.site.Some? then e.site.value.pos else "")
    && if !e.callee.top then
         && r.calleeName == e.callee.name
         && r.kind == (if e.site.Some? && e.site.value.isStatic && AlwaysRun(prog, e.callerId, e.site.value.block) then MUST else MAY_ENUMERATED)
         && r.calleeFile == (if e.callee.name == "*TOP*" || e.callee.file == "" then None else Some(e.callee.file))
       else
         r.calleeName == "*TOP*" && r.kind == MAY_TOP && r.calleeFile == None
  }

  /** Records of one call line of one callee. */
  predicate Alike(r: CallRecord, r': CallRecord) {
    r.callerName == r'.callerName && r.calleeName == r'.calleeName && r.site == r'.site
  }

  ghost predicate NoTwoAlike(out: seq<CallRecord>) {
    forall i, j :: 0 <= i < j < |out| ==> !Alike(out[i], out[j])
  }

  /** The output holds a record with the caller, the line and the callee of the call. */
  ghost predicate Reached(prog: Program, out: seq<CallRecord>, c: Call) {
    exists r, r' :: r in out && OfCall(prog, r', c) && Alike(r, r')
  }

  ghost predicate EdgeReached(prog: Program, out: seq<CallRecord>, e: Edge) {
    exists r, r' :: r in out && OfEdge(prog, r', e) && Alike(r, r')
  }

  lemma CallTold(prog: Program, c: Call)
    ensures OfCall(prog, CallToRecord(prog, c), c)
  {
  }

  lemma EdgeTold(prog: Program, e: Edge)
    ensures OfEdge(prog, EdgeToRecord(prog, e), e)
  {
  }

  /** What is offered leaves a record like it. */
  lemma OfferedLeaves(offered: seq<CallRecord>, o: CallRecord)
    requires o in offered
    ensures exists r :: r in FirstPerKey(KeyOf, offered) && Alike(r, o)
  {
    var i := KeptOfKey(KeyOf, offered, o);
    assert Alike(offered[i], o);
  }

  lemma NoneAlike(offered: seq<CallRecord>)
    ensures NoTwoAlike(FirstPerKey(KeyOf, offered))
  {
    NothingDropped(KeyOf, offered);
  }

  /** After offering the records of some calls: each call has left one, no two are alike, and
      whatever is new comes from one of the calls. */
  ghost predicate CallsTold(prog: Program, before: seq<CallRecord>, out: seq<CallRecord>, calls: seq<Call>) {
    && NoTwoAlike(out) && (forall c :: c in calls ==> Reached(prog, out, c))
    && forall r :: r in out ==> r in before || exists c :: c in calls && OfCall(prog, r, c)
  }

  ghost predicate EdgesTold(prog: Program, before: seq<CallRecord>, out: seq<CallRecord>, edges: seq<Edge>) {
    && NoTwoAlike(out) && (forall e :: e in edges ==> EdgeReached(prog, out, e))
    && forall r :: r in out ==> r in before || exists e :: e in edges && OfEdge(prog, r, e)
  }

  lemma CallsAreTold(prog: Program, before: seq<CallRecord>, calls: seq<Call>)
    ensures CallsTold(prog, before, FirstPerKey(KeyOf, before + CallRecords(prog, calls)), calls)
  {
    hide FirstPerKey;
    hide OfCall;
    hide CallToRecord;
    hide Alike;
    var offered := before + CallRecords(prog, calls);
    NoneAlike(offered);
    forall c | c in calls
      ensures Reached(prog, FirstPerKey(KeyOf, offered), c)
    {
      var i :| 0 <= i < |calls| && calls[i] == c;
      assert CallRecords(prog, calls)[i] == CallToRecord(prog, c);
      OfferedLeaves(offered, CallToRecord(prog, c));
      CallTold(prog, c);
    }
    forall r | r in FirstPerKey(KeyOf, offered)
      ensures r in before || exists c :: c in calls && OfCall(prog, r, c)
    {
      KeptMember(KeyOf, offered, r);
      if r !in before {
        var i :| 0 <= i < |calls| && CallRecords(prog, calls)[i] == r;
        CallTold(prog, calls[i]);
        assert calls[i] in calls;
      }
    }
  }

  lemma EdgesAreTold(prog: Program, before: seq<CallRecord>, edges: seq<Edge>)
    ensures EdgesTold(prog, before, FirstPerKey(KeyOf, before + EdgeRecords(prog, edges)), edges)
  {
    hide FirstPerKey;
    hide OfEdge;
    hide EdgeToRecord;
    hide Alike;
    var offered := before + EdgeRecords(prog, edges);
    NoneAlike(offered);
    forall e | e in edges
      ensures EdgeReached(prog, FirstPerKey(KeyOf, offered), e)
    {
      var i :| 0 <= i < |edges| && edges[i] == e;
      assert EdgeRecords(prog, edges)[i] == EdgeToRecord(prog, e);
      OfferedLeaves(offered, EdgeToRecord(prog, e));
      EdgeTold(prog, e);
    }
    forall r | r in FirstPerKey(KeyOf, offered)
      ensures r in before || exists e :: e in edges && OfEdge(prog, r, e)
    {
      KeptMember(KeyOf, offered, r);
      if r !in before {
        var i :| 0 <= i < |edges| && EdgeRecords(prog, edges)[i] == r;
        EdgeTold(prog, edges[i]);
        assert edges[i] in edges;
      }
    }
  }

  /** Lines 529-603, for one call instruction. */
  method WalkCall(cache: AlwaysExecCache, writer: EdgeWriter, c: Call)
    requires cache.Valid() && writer.Valid() && c.callerId in cache.prog
    modifies cache, writer
    ensures cache.Valid() && writer.Valid()
    ensures writer.offered == old(writer.offered) + [CallToRecord(cache.prog, c)]
  {
    match c.callee {
      case Static(fn) =>
        var calleeName, kind := fn.name, MUST;
        var always := cache.RunsAlways(Some(c.callerId), c.block);
        if !always {
          kind := MAY_ENUMERATED;
        }
        if fn.top {
          calleeName, kind := TOP, MAY_TOP;
        }
        var calleeFile := if calleeName != TOP then FileOf(fn) else None;
        writer.Emit(CallRecord(c.caller.name, c.caller.file, calleeName, calleeFile, c.site, kind));
      case _ =>
        writer.Emit(TopRecord(c.caller, c.site));
    }
  }

  /** Lines 520-605: the call instructions of one function, in the order of its blocks. */
  method WalkCalls(cache: AlwaysExecCache, writer: EdgeWriter, calls: seq<Call>)
    requires cache.Valid() && writer.Valid()
    requires forall c :: c in calls ==> c.callerId in cache.prog
    modifies cache, writer
    ensures cache.Valid() && writer.Valid()
    ensures writer.offered == old(writer.offered) + CallRecords(cache.prog, calls)
    ensures CallsTold(cache.prog, old(writer.offered), writer.outBuf, calls)
  {
    for i := 0 to |calls|
      invariant cache.Valid() && writer.Valid()
      invariant writer.offered == old(writer.offered) + CallRecords(cache.prog, calls)[..i]
    {
      assert CallRecords(cache.prog, calls)[..i + 1] == CallRecords(cache.prog, calls)[..i] + [CallToRecord(cache.prog, calls[i])];
      WalkCall(cache, writer, calls[i]);
    }
    assert CallRecords(cache.prog, calls)[..|calls|] == CallRecords(cache.prog, calls);
    CallsAreTold(cache.prog, old(writer.offered), calls);
  }

  /** The records of every function. */
  ghost function FunctionRecords(prog: Program, fns: seq<seq<Call>>): seq<seq<CallRecord>> {
    seq(|fns|, i requires 0 <= i < |fns| => CallRecords(prog, fns[i]))
  }

  /** The direct walk over call instructions, used when the CHA graph cannot be built: the
      functions come in random order, the calls of each in their own. */
  method WalkFunctions(cache: AlwaysExecCache, writer: EdgeWriter, fns: seq<seq<Call>>)
    requires cache.Valid() && writer.Valid()
    requires forall calls, c :: calls in fns && c in calls ==> c.callerId in cache.prog
    modifies cache, writer
    ensures cache.Valid() && writer.Valid()
    ensures writer.offered == old(writer.offered) + Flat(FunctionRecords(cache.prog, fns))
    ensures CallsTold(cache.prog, old(writer.offered), writer.outBuf, Flat(fns))
  {
    hide FirstPerKey;
    hide KeySeen;
    hide CallRecords;
    ghost var all := FunctionRecords(cache.prog, fns);
    for i := 0 to |fns|
      invariant cache.Valid() && writer.Valid()
      invariant writer.offered == old(writer.offered) + Flat(all[..i])
    {
      assert fns[i] in fns;
      assert all[..i + 1][..i] == all[..i];
      WalkCalls(cache, writer, fns[i]);
    }
    TakeAll(all);
    FlatRecords(cache.prog, fns);
    CallsAreTold(cache.prog, old(writer.offered), Flat(fns));
  }

  lemma {:induction false} FlatRecords(prog: Program, fns: seq<seq<Call>>)
    ensures Flat(FunctionRecords(prog, fns)) == CallRecords(prog, Flat(fns))
  {
    hide CallToRecord;
    if fns != [] {
      var n := |fns| - 1;
      FlatRecords(prog, fns[..n]);
      assert FunctionRecords(prog, fns)[..n] == FunctionRecords(prog, fns[..n]);
      assert CallRecords(prog, Flat(fns[..n]) + fns[n]) == CallRecords(prog, Flat(fns[..n])) + CallRecords(prog, fns[n]);
    }
  }

  /** Lines 615-668: the record of one CHA edge. */
  method RecordEdge(cache: AlwaysExecCache, e: Edge) returns (r: CallRecord)
    requires cache.Valid() && e.callerId in cache.prog
    modifies cache
    ensures cache.Valid() && r == EdgeToRecord(cache.prog, e)
  {
    var calleeName, kind, site := e.callee.name, MAY_ENUMERATED, "";
    if e.site.Some? {
      site := e.site.value.pos;
      if e.site.value.isStatic {
        kind := MUST;
        var always := cache.RunsAlways(Some(e.callerId), e.site.value.block);
        if !always {
          kind := MAY_ENUMERATED;
        }
      }
    }
    if e.callee.top {
      calleeName, kind := TOP, MAY_TOP;
    }
    var calleeFile := if calleeName != TOP then FileOf(e.callee) else None;
    r := CallRecord(e.caller.name, e.caller.file, calleeName, calleeFile, site, kind);
  }

  /** The walk over the edges of the CHA call graph. */
  method WalkEdges(cache: AlwaysExecCache, writer: EdgeWriter, edges: seq<Edge>)
    requires cache.Valid() && writer.Valid()
    requires forall e :: e in edges ==> e.callerId in cache.prog
    modifies cache, writer
    ensures cache.Valid() && writer.Valid()
    ensures writer.offered == old(writer.offered) + EdgeRecords(cache.prog, edges)
    ensures EdgesTold(cache.prog, old(writer.offered), writer.outBuf, edges)
  {
    hide EdgeToRecord;
    hide FirstPerKey;
    hide KeySeen;
    ghost var all := EdgeRecords(cache.prog, edges);
    for i := 0 to |edges|
      invariant cache.Valid() && writer.Valid()
      invariant writer.offered == old(writer.offered) + all[..i]
    {
      var r := RecordEdge(cache, edges[i]);
      writer.Emit(r);
      assert all[..i + 1] == all[..i] + [r];
    }
    assert all[..|edges|] == all;
    EdgesAreTold(cache.prog, old(writer.offered), edges);
  }

  /** One top record for every static call to a top function, in order. */
  function AnchorRecords(calls: seq<Call>): seq<CallRecord> {
    if calls == [] then []
    else
      var c := calls[|calls| - 1];
      AnchorRecords(calls[..|calls| - 1]) + (if c.callee.Static? && c.callee.fn.top then [TopRecord(c.caller, c.site)] else [])
  }

  /** The anchors of one function's calls. */
  method ScanCalls(writer: EdgeWriter, calls: seq<Call>)
    requires writer.Valid()
    modifies writer
    ensures writer.Valid() && writer.offered == old(writer.offered) + AnchorRecords(calls)
  {
    hide FirstPerKey;
    hide KeySeen;
    for i := 0 to |calls|
      invariant writer.Valid() && writer.offered == old(writer.offered) + AnchorRecords(calls[..i])
    {
      assert calls[..i + 1][..i] == calls[..i];
      var c := calls[i];
      if c.callee.Static? && c.callee.fn.top {
        writer.Emit(TopRecord(c.caller, c.site));
      }
    }
    TakeAll(calls);
  }

  function AnchorLists(fns: seq<seq<Call>>): seq<seq<CallRecord>> {
    Map(AnchorRecords, fns)
  }

  /** Lines 345-381: every static call to a top function, offered once more after the CHA
      walk in case the graph missed it; functions in random order again. */
  method ScanForTopAnchors(writer: EdgeWriter, fns: seq<seq<Call>>)
    requires writer.Valid()
    modifies writer
    ensures writer.Valid() && writer.offered == old(writer.offered) + Flat(AnchorLists(fns))
    ensures AnchorsTold(old(writer.offered), writer.outBuf, Flat(fns))
  {
    hide FirstPerKey;
    hide KeySeen;
    hide AnchorRecords;
    ghost var all := AnchorLists(fns);
    for i := 0 to |fns|
      invariant writer.Valid() && writer.offered == old(writer.offered) + Flat(all[..i])
    {
      assert all[..i + 1][..i] == all[..i];
      ScanCalls(writer, fns[i]);
    }
    TakeAll(all);
    AnchorsAreTold(old(writer.offered), fns);
  }

  /** A record without a callee that says where a top function was called. */
  predicate OfTopCall(r: CallRecord, c: Call) {
    && c.callee.Static? && c.callee.fn.top
    && r == CallRecord(c.caller.name, c.caller.file, "*TOP*", None, c.site, MAY_TOP)
  }

  ghost predicate AnchorsTold(before: seq<CallRecord>, out: seq<CallRecord>, calls: seq<Call>) {
    && NoTwoAlike(out)
    && (forall c :: c in calls && c.callee.Static? && c.callee.fn.top ==>
          exists r :: r in out && r.callerName == c.caller.name && r.calleeName == "*TOP*" && r.site == c.site)
    && forall r :: r in out ==> r in before || exists c :: c in calls && OfTopCall(r, c)
  }

  lemma {:induction false} AnchorMembers(calls: seq<Call>, r: CallRecord)
    ensures r in AnchorRecords(calls) <==> exists c :: c in calls && OfTopCall(r, c)
  {
    if calls != [] {
      var front, last := calls[..|calls| - 1], calls[|calls| - 1];
      AnchorMembers(front, r);
      assert calls == front + [last] && forall c :: c in calls <==> c in front || c == last;
      assert OfTopCall(r, last) <==> last.callee.Static? && last.callee.fn.top && r == TopRecord(last.caller, last.site);
    }
  }

  lemma {:induction false} FlatAnchors(fns: seq<seq<Call>>, r: CallRecord)
    ensures r in Flat(AnchorLists(fns)) <==> exists c :: c in Flat(fns) && OfTopCall(r, c)
  {
    hide OfTopCall;
    if fns != [] {
      var n := |fns| - 1;
      FlatAnchors(fns[..n], r);
      AnchorMembers(fns[n], r);
      assert AnchorLists(fns)[..n] == AnchorLists(fns[..n]);
    }
  }

  lemma AnchorsAreTold(before: seq<CallRecord>, fns: seq<seq<Call>>)
    ensures AnchorsTold(before, FirstPerKey(KeyOf, before + Flat(AnchorLists(fns))), Flat(fns))
  {
    hide FirstPerKey;
    hide Flat;
    hide AnchorLists;
    var anchors, calls := Flat(AnchorLists(fns)), Flat(fns);
    var offered := before + anchors;
    NoneAlike(offered);
    forall c | c in calls && c.callee.Static? && c.callee.fn.top
      ensures exists r :: r in FirstPerKey(KeyOf, offered) && r.callerName == c.caller.name && r.calleeName == "*TOP*" && r.site == c.site
    {
      var anchor := CallRecord(c.caller.name, c.caller.file, "*TOP*", None, c.site, MAY_TOP);
      assert OfTopCall(anchor, c);
      FlatAnchors(fns, anchor);
      OfferedLeaves(offered, anchor);
    }
    forall r | r in FirstPerKey(KeyOf, offered)
      ensures r in before || exists c :: c in calls && OfTopCall(r, c)
    {
      KeptMember(KeyOf, offered, r);
      FlatAnchors(fns, r);
    }
  }

  // ---------------------------------------------------------------- what the output means

  /** A MUST edge of the CHA walk has a static callee that is no top anchor, and its call
      lies on every walk from the caller's entry to its end. */
  lemma MustEdgeJustified(prog: Program, edges: seq<Edge>, r: CallRecord) returns (e: Edge)
    requires r in FirstPerKey(KeyOf, EdgeRecords(prog, edges)) && r.kind == MUST
    ensures e in edges && EdgeToRecord(prog, e) == r
    ensures e.callee.name == r.calleeName && !e.callee.top
    ensures e.site.Some? && e.site.value.isStatic && e.site.value.block.Some? && e.callerId in prog
    ensures HasTerminal(prog[e.callerId]) && PostDominates(prog[e.callerId], e.site.value.block.value, 0)
  {
    var rs := EdgeRecords(prog, edges);
    KeptIsFirst(KeyOf, rs, r);
    var i: nat :| FirstAt(KeyOf, rs, i, r);
    e := edges[i];
  }

  /** The same for the direct walk. */
  lemma MustCallJustified(prog: Program, calls: seq<Call>, r: CallRecord) returns (c: Call)
    requires r in FirstPerKey(KeyOf, CallRecords(prog, calls)) && r.kind == MUST
    ensures c in calls && CallToRecord(prog, c) == r
    ensures c.callee.Static? && c.callee.fn.name == r.calleeName && !c.callee.fn.top
    ensures c.block.Some? && c.callerId in prog
    ensures HasTerminal(prog[c.callerId]) && PostDominates(prog[c.callerId], c.block.value, 0)
  {
    var rs := CallRecords(prog, calls);
    KeptIsFirst(KeyOf, rs, r);
    var i: nat :| FirstAt(KeyOf, rs, i, r);
    c := calls[i];
  }

  predicate IsMust(r: CallRecord) {
    r.kind == MUST
  }

  /** Deduplication ignores the kind of a record. Every MUST record that a walk offers leaves
      one of its key in the output if and only if no key that has one is led by another kind. */
  lemma MustsReachOutput(offered: seq<CallRecord>)
    ensures Survives(KeyOf, IsMust, offered) <==> LedAlike(KeyOf, IsMust, offered)
  {
    SurvivesExact(KeyOf, IsMust, offered);
  }

  /** In every run of the direct walk, if and only if no function leads with another kind a
      key for which some function has a MUST record. */
  lemma MustsReachEveryOutput(prog: Program, fns: seq<seq<Call>>)
    ensures SurvivesInEveryOrder(KeyOf, IsMust, FunctionRecords(prog, fns)) <==> ListsLedAlike(KeyOf, IsMust, FunctionRecords(prog, fns))
  {
    SurvivesInEveryOrderExact(KeyOf, IsMust, FunctionRecords(prog, fns));
  }

  lemma FirstOfTwo(a: CallRecord, b: CallRecord)
    requires KeyOf(a) == KeyOf(b)
    ensures FirstPerKey(KeyOf, [a, b]) == [a] && FirstPerKey(KeyOf, [a]) == [a]
  {
    assert [a, b][..1] == [a] && [a][..0] == [];
    assert KeySeen(KeyOf, [a], KeyOf(b)) by {
      assert KeyOf([a][0]) == KeyOf(b);
    }
    assert FirstPerKey(KeyOf, [a]) == [a];
  }

  /** A branch around a block, and the block behind both: only the latter always runs. */
  lemma BranchRuns(prog: Program)
    requires prog == map[0 := [[1, 2], [2], []]]
    ensures WellFormedProgram(prog) && !AlwaysRun(prog, 0, Some(1)) && AlwaysRun(prog, 0, Some(2))
  {
    var g: Cfg := [[1, 2], [2], []];
    assert prog[0] == g;
    assert g[2] == [];
    assert ExitPath(g, [0, 2, 3], 0);
    assert 1 !in [0, 2, 3];
    assert !PostDominates(g, 1, 0);
    forall p | ExitPath(g, p, 0)
      ensures 2 in p
    {
      var n := |p| - 2;
      assert p[n + 1] in Successors(g, p[n]);
      assert p[n] == 2;
    }
    assert PostDominates(g, 2, 0);
  }

  /** `if c { f() }; f()` on one line. The conditional call comes first in every run, and its
      record hides the MUST record of the other. */
  lemma LostMustExample()
    ensures var prog: Program := map[0 := [[1, 2], [2], []]];
            var main, f := Func("p.main", "m.go", false), Func("p.f", "m.go", false);
            var rs := CallRecords(prog, [Call(0, main, Static(f), Some(1), "m.go:3"), Call(0, main, Static(f), Some(2), "m.go:3")]);
            && WellFormedProgram(prog) && rs[0].kind == MAY_ENUMERATED && rs[1].kind == MUST
            && forall ls :: multiset(ls) == multiset([rs]) ==> FirstPerKey(KeyOf, Flat(ls)) == [rs[0]]
  {
    var prog: Program := map[0 := [[1, 2], [2], []]];
    var main, f := Func("p.main", "m.go", false), Func("p.f", "m.go", false);
    var calls := [Call(0, main, Static(f), Some(1), "m.go:3"), Call(0, main, Static(f), Some(2), "m.go:3")];
    BranchRuns(prog);
    hide AlwaysRun;
    hide FirstPerKey;
    hide WellFormedProgram;
    var rs := CallRecords(prog, calls);
    assert rs == [rs[0], rs[1]];
    FirstOfTwo(rs[0], rs[1]);
    forall ls | multiset(ls) == multiset([rs])
      ensures FirstPerKey(KeyOf, Flat(ls)) == [rs[0]]
    {
      OneList(ls, rs);
    }
  }

  lemma OneList(ls: seq<seq<CallRecord>>, l: seq<CallRecord>)
    requires multiset(ls) == multiset([l])
    ensures Flat(ls) == l
  {
    assert |ls| == |multiset(ls)| == |multiset([l])| == 1;
    assert ls[0] in multiset(ls);
    assert ls == [l] && ls[..0] == [];
  }

  /** Two wrappers of one method, both rendered "M" and without a position: one promotes it
      from the receiver's pointer, the other from an embedded interface. The kind that is
      output is that of whichever was visited first. */
  lemma OrderDependentKindExample()
    ensures var prog: Program := map[0 := [[]], 1 := [[]]];
            var wrapper, promoted := Func("M", "x.go", false), Func("x.(T).M", "x.go", false);
            var direct := Edge(0, wrapper, promoted, Some(SiteInfo("", true, Some(0))));
            var through := Edge(1, wrapper, promoted, Some(SiteInfo("", false, Some(0))));
            var a, b := EdgeToRecord(prog, direct), EdgeToRecord(prog, through);
            && WellFormedProgram(prog) && a.kind == MUST && b.kind == MAY_ENUMERATED
            && Interleaving([[direct], [through]], [direct, through]) && Interleaving([[direct], [through]], [through, direct])
            && FirstPerKey(KeyOf, EdgeRecords(prog, [direct, through])) == [a]
            && FirstPerKey(KeyOf, EdgeRecords(prog, [through, direct])) == [b]
            && !LeadersAgree(KeyOf, EdgeLists(prog, [[direct], [through]]))
  {
    var prog: Program := map[0 := [[]], 1 := [[]]];
    var wrapper, promoted := Func("M", "x.go", false), Func("x.(T).M", "x.go", false);
    var direct := Edge(0, wrapper, promoted, Some(SiteInfo("", true, Some(0))));
    var through := Edge(1, wrapper, promoted, Some(SiteInfo("", false, Some(0))));
    SingleBlockRuns(prog);
    TwoTurns(direct, through);
    hide AlwaysRun;
    hide FirstPerKey;
    hide WellFormedProgram;
    hide Interleaving;
    hide LeadersAgree;
    hide EdgeLists;
    hide EdgeRecords;
    TwoNodesClash(prog, direct, through);
  }

  /** Two nodes with one edge each, of one key and different: the first one visited is kept. */
  lemma TwoNodesClash(prog: Program, e: Edge, e': Edge)
    requires KeyOf(EdgeToRecord(prog, e)) == KeyOf(EdgeToRecord(prog, e')) && EdgeToRecord(prog, e) != EdgeToRecord(prog, e')
    ensures FirstPerKey(KeyOf, EdgeRecords(prog, [e, e'])) == [EdgeToRecord(prog, e)]
    ensures FirstPerKey(KeyOf, EdgeRecords(prog, [e', e])) == [EdgeToRecord(prog, e')]
    ensures !LeadersAgree(KeyOf, EdgeLists(prog, [[e], [e']]))
  {
    hide EdgeToRecord;
    hide FirstPerKey;
    var a, b := EdgeToRecord(prog, e), EdgeToRecord(prog, e');
    FirstOfTwo(a, b);
    FirstOfTwo(b, a);
    assert EdgeRecords(prog, [e, e']) == [a, b] && EdgeRecords(prog, [e', e]) == [b, a];
    var lists := EdgeLists(prog, [[e], [e']]);
    assert lists[0] == [a] && lists[1] == [b];
    assert [a] in lists && [b] in lists && a in FirstPerKey(KeyOf, [a]) && b in FirstPerKey(KeyOf, [b]);
  }

  lemma SingleBlockRuns(prog: Program)
    requires prog == map[0 := [[]], 1 := [[]]]
    ensures WellFormedProgram(prog) && AlwaysRun(prog, 0, Some(0))
  {
    var g: Cfg := [[]];
    assert prog[0] == g && g[0] == [];
    assert PostDominates(g, 0, 0);
  }

  lemma TwoTurns(a: Edge, b: Edge)
    ensures Interleaving([[a], [b]], [a, b]) && Interleaving([[a], [b]], [b, a])
  {
    assert [a, b][..1] == [a] && [b, a][..1] == [b] && [0, 1][..1] == [0] && [1, 0][..1] == [1];
    assert [a][..0] == [] && [b][..0] == [];
    assert Own([a], [0], 0) == [a] && Own([a], [0], 1) == [] && Own([b], [1], 0) == [] && Own([b], [1], 1) == [b];
    assert Own([a, b], [0, 1], 0) == [a] && Own([a, b], [0, 1], 1) == [b];
    assert Own([b, a], [1, 0], 0) == [a] && Own([b, a], [1, 0], 1) == [b];
    assert Interleaved([[a], [b]], [a, b], [0, 1]);
    assert Interleaved([[a], [b]], [b, a], [1, 0]);
  }

  // ---------------------------------------------------------------- orders of the CHA walk

  /** The records of every node's outgoing edges. */
  ghost function EdgeLists(prog: Program, outs: seq<seq<Edge>>): seq<seq<CallRecord>> {
    seq(|outs|, i requires 0 <= i < |outs| => EdgeRecords(prog, outs[i]))
  }

  lemma {:induction false} OwnRecords(prog: Program, edges: seq<Edge>, owner: seq<nat>, i: nat)
    requires |owner| == |edges|
    ensures Own(EdgeRecords(prog, edges), owner, i) == EdgeRecords(prog, Own(edges, owner, i))
  {
    hide EdgeToRecord;
    if edges != [] {
      var n := |edges| - 1;
      OwnRecords(prog, edges[..n], owner[..n], i);
      assert EdgeRecords(prog, edges)[..n] == EdgeRecords(prog, edges[..n]);
    }
  }

  lemma RecordsInterleave(prog: Program, outs: seq<seq<Edge>>, edges: seq<Edge>)
    requires Interleaving(outs, edges)
    ensures Interleaving(EdgeLists(prog, outs), EdgeRecords(prog, edges))
  {
    hide EdgeToRecord;
    hide Own;
    var owner :| Interleaved(outs, edges, owner);
    forall i: nat | i < |outs|
      ensures Own(EdgeRecords(prog, edges), owner, i) == EdgeLists(prog, outs)[i]
    {
      OwnRecords(prog, edges, owner, i);
    }
    assert Interleaved(EdgeLists(prog, outs), EdgeRecords(prog, edges), owner);
  }

  // ---------------------------------------------------------------- flush

  datatype BufferedRec = BufferedRec(key: string, line: string)

  predicate RecLe(a: BufferedRec, b: BufferedRec) {
    if a.key != b.key then StringLe(a.key, b.key) else StringLe(a.line, b.line)
  }

  lemma RecTotalOrder()
    ensures TotalOrder(RecLe)
  {
    StringOrder();
  }

  /** Bytes written for the buffered records, one line each (lines 128-131). */
  function Output(buf: seq<BufferedRec>): string {
    if buf == [] then "" else buf[0].line + "\n" + Output(buf[1..])
  }

  /** Splitting the bytes at line feeds gives the lines back, and nothing after the last one. */
  lemma {:induction false} OutputMeans(buf: seq<BufferedRec>)
    requires forall b :: b in buf ==> '\n' !in b.line
    ensures Split('\n', Output(buf)) == Map((b: BufferedRec) => b.line, buf) + [""]
  {
    var lines := Map((b: BufferedRec) => b.line, buf) + [""];
    if buf != [] {
      OutputMeans(buf[1..]);
      var rest := Map((b: BufferedRec) => b.line, buf[1..]) + [""];
      assert lines == [buf[0].line] + rest;
      LineSplit(buf[0].line, Output(buf[1..]));
    }
  }

  lemma LineSplit(line: string, rest: string)
    requires '\n' !in line
    ensures Split('\n', line + "\n" + rest) == [line] + Split('\n', rest)
  {
    var parts := Split('\n', rest);
    SplitJoins('\n', rest);
    assert Joined('\n', [line] + parts) == line + "\n" + rest by {
      assert ([line] + parts)[1..] == parts;
    }
    JoinSplits('\n', [line] + parts);
  }

  /** Whatever the sort does with equal elements, the bytes depend only on which records
      were buffered: the line breaks every tie of the key. */
  lemma FlushDeterministic(a: seq<BufferedRec>, b: seq<BufferedRec>, a': seq<BufferedRec>, b': seq<BufferedRec>)
    requires multiset(a) == multiset(b)
    requires multiset(a') == multiset(a) && Sorted(RecLe, a')
    requires multiset(b') == multiset(b) && Sorted(RecLe, b')
    ensures Output(a') == Output(b')
  {
    RecTotalOrder();
    SortedUnique(RecLe, a', b');
  }

  /** The bytes that any sort by RecLe gives. */
  ghost predicate Flushed(buf: seq<BufferedRec>, out: string) {
    exists s :: multiset(s) == multiset(buf) && Sorted(RecLe, s) && out == Output(s)
  }

  lemma FlushedExists(buf: seq<BufferedRec>) returns (out: string)
    ensures Flushed(buf, out)
  {
    RecTotalOrder();
    var s := SortedExists(RecLe, buf);
    out := Output(s);
  }

  lemma FlushedOnce(a: seq<BufferedRec>, b: seq<BufferedRec>, out: string, out': string)
    requires multiset(a) == multiset(b) && Flushed(a, out) && Flushed(b, out')
    ensures out == out'
  {
    var s :| multiset(s) == multiset(a) && Sorted(RecLe, s) && out == Output(s);
    var t :| multiset(t) == multiset(b) && Sorted(RecLe, t) && out' == Output(t);
    FlushDeterministic(a, b, s, t);
  }

  function LineOf(b: BufferedRec): string { b.line }

  ghost predicate OneLiners(buf: seq<BufferedRec>) {
    forall b :: b in buf ==> '\n' !in b.line
  }

  lemma FirstLine(x: string, p: string, y: string, q: string)
    requires '\n' !in x && '\n' !in y && x + "\n" + p == y + "\n" + q
    ensures x == y && p == q
  {
    var s := x + "\n" + p;
    assert s[|x|] == '\n' && s[|y|] == '\n' && s[..|x|] == x && s[..|y|] == y;
    assert s[|x| + 1..] == p && s[|y| + 1..] == q;
  }

  /** One line a record: the bytes give the lines back. */
  lemma {:induction false} OutputTellsLines(a: seq<BufferedRec>, b: seq<BufferedRec>)
    requires OneLiners(a) && OneLiners(b) && Output(a) == Output(b)
    ensures Map(LineOf, a) == Map(LineOf, b)
  {
    if a != [] && b != [] {
      FirstLine(a[0].line, Output(a[1..]), b[0].line, Output(b[1..]));
      OutputTellsLines(a[1..], b[1..]);
      MapCons(LineOf, a[0], a[1..]);
      MapCons(LineOf, b[0], b[1..]);
      assert a == [a[0]] + a[1..] && b == [b[0]] + b[1..];
    }
  }

  /** The buffer when the walks are done: the function records, and the edges kept. */
  ghost function Buffer(funcs: seq<BufferedRec>, render: CallRecord -> BufferedRec, offered: seq<CallRecord>): seq<BufferedRec> {
    funcs + Map(render, FirstPerKey(KeyOf, offered))
  }

  /** Marshalling gives one line a record, and tells the offered records apart. */
  ghost predicate Renders(render: CallRecord -> BufferedRec, offered: seq<CallRecord>) {
    && (forall r :: '\n' !in render(r).line)
    && forall r, r' :: r in offered && r' in offered && render(r).line == render(r').line ==> r == r'
  }

  lemma KeptIn(offered: seq<CallRecord>)
    ensures forall r :: r in FirstPerKey(KeyOf, offered) ==> r in offered
  {
    forall r | r in FirstPerKey(KeyOf, offered)
      ensures r in offered
    {
      KeptIsFirst(KeyOf, offered, r);
    }
  }

  lemma SameBytesSameRecords(funcs: seq<BufferedRec>, render: CallRecord -> BufferedRec, a: seq<CallRecord>, b: seq<CallRecord>, out: string)
    requires OneLiners(funcs) && (forall r :: '\n' !in render(r).line)
    requires forall r, r' :: r in a && r' in b && render(r).line == render(r').line ==> r == r'
    requires Flushed(funcs + Map(render, a), out) && Flushed(funcs + Map(render, b), out)
    ensures multiset(a) == multiset(b)
  {
    var line := (r: CallRecord) => render(r).line;
    var s := SortedLines(funcs, render, a, out);
    var t := SortedLines(funcs, render, b, out);
    hide Flushed;
    hide Output;
    OutputTellsLines(s, t);
    LinesOfBuffer(funcs, render, line, a, s);
    LinesOfBuffer(funcs, render, line, b, t);
    Cancel(multiset(Map(LineOf, funcs)), multiset(Map(line, a)), multiset(Map(line, b)));
    MapTellsApart(line, a, b);
  }

  lemma LinesOfBuffer(funcs: seq<BufferedRec>, render: CallRecord -> BufferedRec, line: CallRecord -> string, a: seq<CallRecord>, s: seq<BufferedRec>)
    requires multiset(s) == multiset(funcs + Map(render, a)) && forall r :: line(r) == render(r).line
    ensures multiset(Map(LineOf, s)) == multiset(Map(LineOf, funcs)) + multiset(Map(line, a))
  {
    MapPermutes(LineOf, s, funcs + Map(render, a));
    assert Map(LineOf, funcs + Map(render, a)) == Map(LineOf, funcs) + Map(line, a);
  }

  lemma SortedLines(funcs: seq<BufferedRec>, render: CallRecord -> BufferedRec, a: seq<CallRecord>, out: string) returns (s: seq<BufferedRec>)
    requires OneLiners(funcs) && (forall r :: '\n' !in render(r).line) && Flushed(funcs + Map(render, a), out)
    ensures multiset(s) == multiset(funcs + Map(render, a)) && OneLiners(s) && out == Output(s)
  {
    s :| multiset(s) == multiset(funcs + Map(render, a)) && Sorted(RecLe, s) && out == Output(s);
    SameMembers(s, funcs + Map(render, a));
    forall b | b in s
      ensures '\n' !in b.line
    {
      if b !in funcs {
        assert b in Map(render, a);
      }
    }
  }

  lemma Cancel<T>(x: multiset<T>, a: multiset<T>, b: multiset<T>)
    requires x + a == x + b
    ensures a == b
  {
    assert a == x + a - x && b == x + b - x;
  }

  /** Whatever order the functions are visited in. */
  ghost predicate SameBytes(funcs: seq<BufferedRec>, render: CallRecord -> BufferedRec, lists: seq<seq<CallRecord>>) {
    forall funcs', lists', out, out' ::
      (&& multiset(funcs') == multiset(funcs) && multiset(lists') == multiset(lists)
       && Flushed(Buffer(funcs, render, Flat(lists)), out) && Flushed(Buffer(funcs', render, Flat(lists')), out')) ==>
        out == out'
  }

  /** The same edges kept, and the same functions: the same bytes. */
  lemma SameKeptSameBytes(funcs: seq<BufferedRec>, funcs': seq<BufferedRec>, render: CallRecord -> BufferedRec,
                          offered: seq<CallRecord>, offered': seq<CallRecord>, out: string, out': string)
    requires multiset(funcs) == multiset(funcs')
    requires multiset(FirstPerKey(KeyOf, offered)) == multiset(FirstPerKey(KeyOf, offered'))
    requires Flushed(Buffer(funcs, render, offered), out) && Flushed(Buffer(funcs', render, offered'), out')
    ensures out == out'
  {
    hide Flushed;
    MapPermutes(render, FirstPerKey(KeyOf, offered), FirstPerKey(KeyOf, offered'));
    FlushedOnce(Buffer(funcs, render, offered), Buffer(funcs', render, offered'), out, out');
  }

  lemma SameBytesSameKept(funcs: seq<BufferedRec>, render: CallRecord -> BufferedRec, lists: seq<seq<CallRecord>>, lists': seq<seq<CallRecord>>)
    requires OneLiners(funcs) && Renders(render, Flat(lists)) && SameBytes(funcs, render, lists) && multiset(lists') == multiset(lists)
    ensures multiset(FirstPerKey(KeyOf, Flat(lists'))) == multiset(FirstPerKey(KeyOf, Flat(lists)))
  {
    hide Flushed;
    hide Flat;
    var out := FlushedExists(Buffer(funcs, render, Flat(lists)));
    var out' := FlushedExists(Buffer(funcs, render, Flat(lists')));
    assert out == out';
    KeptIn(Flat(lists));
    KeptIn(Flat(lists'));
    SameMembers(lists, lists');
    FlatLedBy(KeyOf, lists);
    FlatLedBy(KeyOf, lists');
    assert forall r :: r in Flat(lists') ==> r in Flat(lists);
    SameBytesSameRecords(funcs, render, FirstPerKey(KeyOf, Flat(lists')), FirstPerKey(KeyOf, Flat(lists)), out);
  }

  /** The direct walk visits the functions in random order. The bytes of the whole output are
      the same for every order if and only if functions that offer records of one key first
      offer the same one. */
  lemma BytesOrderIndependent(funcs: seq<BufferedRec>, render: CallRecord -> BufferedRec, lists: seq<seq<CallRecord>>)
    requires OneLiners(funcs) && Renders(render, Flat(lists))
    ensures SameBytes(funcs, render, lists) <==> LeadersAgree(KeyOf, lists)
  {
    OutputOrderIndependent(KeyOf, lists);
    hide Flushed;
    hide LeadersAgree;
    hide Flat;
    if LeadersAgree(KeyOf, lists) {
      forall funcs', lists', out, out' |
        && multiset(funcs') == multiset(funcs) && multiset(lists') == multiset(lists)
        && Flushed(Buffer(funcs, render, Flat(lists)), out) && Flushed(Buffer(funcs', render, Flat(lists')), out')
        ensures out == out'
      {
        SameKeptSameBytes(funcs, funcs', render, Flat(lists), Flat(lists'), out, out');
      }
    }
    if SameBytes(funcs, render, lists) {
      forall lists' | multiset(lists') == multiset(lists)
        ensures multiset(FirstPerKey(KeyOf, Flat(lists'))) == multiset(FirstPerKey(KeyOf, Flat(lists)))
      {
        SameBytesSameKept(funcs, render, lists, lists');
      }
    }
  }

  /** What the CHA walk offers: the edges of the nodes in turns, then the anchors. */
  ghost function ChaOffers(prog: Program, edges: seq<Edge>, fns: seq<seq<Call>>): seq<CallRecord> {
    EdgeRecords(prog, edges) + Flat(AnchorLists(fns))
  }

  /** The CHA walk takes the nodes in turns and the scan visits the functions in random order.
      If nodes with edges of one key first offer the same record, and so do functions with
      anchors of a key that no edge has, the bytes are the same in every run. */
  lemma ChaBytesOrderIndependent(funcs: seq<BufferedRec>, funcs': seq<BufferedRec>, render: CallRecord -> BufferedRec, prog: Program,
                                 outs: seq<seq<Edge>>, edges: seq<Edge>, edges': seq<Edge>,
                                 fns: seq<seq<Call>>, fns': seq<seq<Call>>, out: string, out': string)
    requires multiset(funcs) == multiset(funcs') && multiset(fns) == multiset(fns')
    requires Interleaving(outs, edges) && Interleaving(outs, edges')
    requires LeadersAgree(KeyOf, EdgeLists(prog, outs)) && LaterAgree(KeyOf, EdgeLists(prog, outs), AnchorLists(fns))
    requires Flushed(Buffer(funcs, render, ChaOffers(prog, edges, fns)), out)
    requires Flushed(Buffer(funcs', render, ChaOffers(prog, edges', fns')), out')
    ensures out == out'
  {
    hide Flushed;
    hide Interleaving;
    hide LeadersAgree;
    hide LaterAgree;
    hide Flat;
    hide FirstPerKey;
    var ls, ms, ms' := EdgeLists(prog, outs), AnchorLists(fns), AnchorLists(fns');
    RecordsInterleave(prog, outs, edges);
    RecordsInterleave(prog, outs, edges');
    InterleavingLedBy(KeyOf, ls, EdgeRecords(prog, edges));
    InterleavingLedBy(KeyOf, ls, EdgeRecords(prog, edges'));
    MapPermutes(AnchorRecords, fns, fns');
    SameMembers(ms, ms');
    FlatLedBy(KeyOf, ms);
    FlatLedBy(KeyOf, ms');
    assert LedBy(KeyOf, ms, Flat(ms'));
    SameInTwoRounds(KeyOf, ls, EdgeRecords(prog, edges), EdgeRecords(prog, edges'), ms, Flat(ms), Flat(ms'));
    SameKeptSameBytes(funcs, funcs', render, ChaOffers(prog, edges, fns), ChaOffers(prog, edges', fns'), out, out');
  }
}
