/** The never-drop walk of the Rust producer (callgraph-rust/src/main.rs): a deduplicating
    emitter, the walk of every collected instance, and anchors for what was not walked. */
module RustWalk {
  import opened Prelude
  import opened Dedup

  /** Text as its character codes. */
  type Text = seq<int>

  function Ascii(s: string): (t: Text)
    ensures |t| == |s| && forall i :: 0 <= i < |s| ==> t[i] == s[i] as int
  {
    seq(|s|, i requires 0 <= i < |s| => s[i] as int)
  }

  const TOP: Text := Ascii("*TOP*")
  const UNWALKED: Text := Ascii("<unwalked>")

  // ---------------------------------------------------------------- records

  datatype Kind = MUST | MAY_TOP

  datatype FnInfo = FnInfo(name: Text, file: Option<Text>, lineStart: Option<nat>, lineEnd: Option<nat>, exported: bool)

  datatype Record =
    | Function(info: FnInfo)
    | Call(caller: Text, callerFile: Option<Text>, callee: Text, calleeFile: Option<Text>, site: Text, kind: Kind)
    | DynCall(caller: Text, callerFile: Option<Text>, site: Text, traitPath: Text, methodName: Text)
    | TraitImplFact(traitPath: Text, selfTypePath: Text, methodName: Text, implCrate: Text,
                    publishFalse: bool, isBlanket: bool, implName: Text)

  predicate IsEdge(r: Record) {
    r.Call? || r.DynCall?
  }

  /** Every edge that leaves the callee open. */
  predicate IsTop(r: Record) {
    r.DynCall? || (r.Call? && r.kind == MAY_TOP)
  }

  // ---------------------------------------------------------------- emitter

  /** The deduplication key of an edge; other records have none. */
  datatype EdgeKey = NoKey | CallKey(caller: Text, callee: Text, site: Text) | DynKey(caller: Text, traitPath: Text, methodName: Text, site: Text)

  function KeyOfEdge(r: Record): EdgeKey {
    match r
    case Call(caller, _, callee, _, site, _) => CallKey(caller, callee, site)
    case DynCall(caller, _, site, traitPath, methodName) => DynKey(caller, traitPath, methodName, site)
    case _ => NoKey
  }

  function EdgesOf(rs: seq<Record>): seq<Record> {
    if rs == [] then []
    else EdgesOf(rs[..|rs| - 1]) + (if IsEdge(rs[|rs| - 1]) then [rs[|rs| - 1]] else [])
  }

  predicate IsMust(r: Record) {
    r.Call? && r.kind == MUST
  }

  /** The counters reported at the end of a run. */
  datatype Tally = Tally(funcs: nat, must: nat, mayTop: nat, facts: nat)

  function AddTo(t: Tally, r: Record): Tally {
    match r
    case Function(_) => t.(funcs := t.funcs + 1)
    case TraitImplFact(_, _, _, _, _, _, _) => t.(facts := t.facts + 1)
    case Call(_, _, _, _, _, MUST) => t.(must := t.must + 1)
    case Call(_, _, _, _, _, MAY_TOP) => t.(mayTop := t.mayTop + 1)
    case DynCall(_, _, _, _, _) => t.(mayTop := t.mayTop + 1)
  }

  function TallyOf(rs: seq<Record>): Tally {
    if rs == [] then Tally(0, 0, 0, 0) else AddTo(TallyOf(rs[..|rs| - 1]), rs[|rs| - 1])
  }

  /** How many records satisfy a test. */
  function Number(p: Record -> bool, rs: seq<Record>): nat {
    if rs == [] then 0 else Number(p, rs[..|rs| - 1]) + (if p(rs[|rs| - 1]) then 1 else 0)
  }

  /** The counters count the records of each kind. */
  lemma {:induction false} TallyCounts(rs: seq<Record>)
    ensures TallyOf(rs).funcs == Number((r: Record) => r.Function?, rs)
    ensures TallyOf(rs).must == Number((r: Record) => r.Call? && r.kind == MUST, rs)
    ensures TallyOf(rs).mayTop == Number((r: Record) => r.DynCall? || (r.Call? && r.kind == MAY_TOP), rs)
    ensures TallyOf(rs).facts == Number((r: Record) => r.TraitImplFact?, rs)
  {
    if rs != [] {
      TallyCounts(rs[..|rs| - 1]);
    }
  }

  /** The functions that have a record of their own, in order. */
  function NodesOf(rs: seq<Record>): seq<FnInfo> {
    if rs == [] then []
    else NodesOf(rs[..|rs| - 1]) + (if rs[|rs| - 1].Function? then [rs[|rs| - 1].info] else [])
  }

  function NameOf(f: FnInfo): Text { f.name }

  /** Appending one record to the output. */
  lemma Snoc(rs: seq<Record>, r: Record)
    ensures NodesOf(rs + [r]) == NodesOf(rs) + (if r.Function? then [r.info] else [])
    ensures EdgesOf(rs + [r]) == EdgesOf(rs) + (if IsEdge(r) then [r] else [])
    ensures TallyOf(rs + [r]) == AddTo(TallyOf(rs), r)
  {
    assert (rs + [r])[..|rs|] == rs;
  }

  ghost predicate Deduplicated(edges: seq<Record>, offered: seq<Record>) {
    edges == FirstPerKey(KeyOfEdge, offered)
  }

  ghost predicate SeenAre(seen: set<EdgeKey>, offered: seq<Record>) {
    forall k :: k in seen <==> KeySeen(KeyOfEdge, offered, k)
  }

  lemma NothingOffered()
    ensures Deduplicated([], []) && SeenAre({}, [])
  {
  }

  lemma OfferStep(edges: seq<Record>, seen: set<EdgeKey>, offered: seq<Record>, r: Record)
    requires Deduplicated(edges, offered) && SeenAre(seen, offered)
    ensures KeyOfEdge(r) in seen ==> Deduplicated(edges, offered + [r]) && SeenAre(seen, offered + [r])
    ensures KeyOfEdge(r) !in seen ==>
              Deduplicated(edges + [r], offered + [r]) && SeenAre(seen + {KeyOfEdge(r)}, offered + [r])
  {
    OfferOne(KeyOfEdge, offered, r);
  }

  /** `out` holds the records written so far; RustRecords renders them as text. */
  class Emitter {
    var out: seq<Record>
    var nFuncs: nat
    var nMust: nat
    var nMayTop: nat
    var nFacts: nat
    var seen: set<EdgeKey>
    /** The edges offered so far, in order, written or not. */
    ghost var offered: seq<Record>

    ghost predicate Valid()
      reads this
    {
      && Tally(nFuncs, nMust, nMayTop, nFacts) == TallyOf(out)
      && Deduplicated(EdgesOf(out), offered)
      && SeenAre(seen, offered)
    }

    constructor ()
      ensures Valid() && offered == [] && out == []
    {
      out, nFuncs, nMust, nMayTop, nFacts, seen := [], 0, 0, 0, 0, {};
      offered := [];
      NothingOffered();
    }

    /** One record written, and counted. */
    method Write(r: Record)
      requires Tally(nFuncs, nMust, nMayTop, nFacts) == TallyOf(out)
      modifies `out, `nFuncs, `nMust, `nMayTop, `nFacts
      ensures Tally(nFuncs, nMust, nMayTop, nFacts) == TallyOf(out)
      ensures out == old(out) + [r]
    {
      Snoc(out, r);
      out := out + [r];
      match r {
        case Function(_) => nFuncs := nFuncs + 1;
        case TraitImplFact(_, _, _, _, _, _, _) => nFacts := nFacts + 1;
        case Call(_, _, _, _, _, MUST) => nMust := nMust + 1;
        case _ => nMayTop := nMayTop + 1;
      }
    }

    /** `function` and `trait_impl_fact`, which are never deduplicated. */
    method PlainRecord(r: Record)
      requires Valid() && !IsEdge(r)
      modifies this
      ensures Valid() && offered == old(offered) && out == old(out) + [r]
      ensures NodesOf(out) == NodesOf(old(out)) + (if r.Function? then [r.info] else [])
    {
      Snoc(out, r);
      Write(r);
    }

    /** `call` and `call_dyn`: only the first edge of a key is written. */
    method EdgeRecord(r: Record)
      requires Valid() && IsEdge(r)
      modifies this
      ensures Valid() && offered == old(offered) + [r]
      ensures out == old(out) + (if KeyOfEdge(r) in old(seen) then [] else [r])
      ensures NodesOf(out) == NodesOf(old(out))
    {
      OfferStep(EdgesOf(out), seen, offered, r);
      Snoc(out, r);
      offered := offered + [r];
      if KeyOfEdge(r) in seen {
        return;
      }
      seen := seen + {KeyOfEdge(r)};
      Write(r);
    }
  }

  // ---------------------------------------------------------------- the walk

  /** How a call terminator was classified (lines 440-449). */
  datatype Callee =
    | Must(name: Text, file: Option<Text>)
    | Top(name: Text)
    | DynDispatch(traitPath: Text, methodName: Text)

  /** A basic block's terminator; calls and tail calls carry their site and classification. */
  datatype Terminator = Absent | OtherKind | CallShape(site: Text, callee: Callee)

  datatype Instance = Instance(info: FnInfo, callerFile: Option<Text>, walkable: bool, blocks: seq<Terminator>)

  /** The edge of a call terminator: lines 603-613. */
  function EdgeFor(inst: Instance, site: Text, callee: Callee): Record {
    match callee
    case Must(name, file) => Call(inst.info.name, inst.callerFile, name, file, site, MUST)
    case Top(name) => Call(inst.info.name, inst.callerFile, name, None, site, MAY_TOP)
    case DynDispatch(traitPath, methodName) => DynCall(inst.info.name, inst.callerFile, site, traitPath, methodName)
  }

  function BlockEdges(inst: Instance, blocks: seq<Terminator>): seq<Record> {
    if blocks == [] then []
    else
      var t := blocks[|blocks| - 1];
      BlockEdges(inst, blocks[..|blocks| - 1]) + (if t.CallShape? then [EdgeFor(inst, t.site, t.callee)] else [])
  }

  function WalkEdges(inst: Instance): seq<Record> {
    if inst.walkable then BlockEdges(inst, inst.blocks) else []
  }

  function AllEdges(items: seq<Instance>): seq<Record> {
    if items == [] then [] else AllEdges(items[..|items| - 1]) + WalkEdges(items[|items| - 1])
  }

  lemma NoBlockEdges(inst: Instance)
    ensures BlockEdges(inst, []) == []
  {
  }

  lemma NextBlockEdges(inst: Instance, b: nat)
    requires b < |inst.blocks|
    ensures var t := inst.blocks[b];
            BlockEdges(inst, inst.blocks[..b + 1]) ==
            BlockEdges(inst, inst.blocks[..b]) + (if t.CallShape? then [EdgeFor(inst, t.site, t.callee)] else [])
  {
    assert inst.blocks[..b + 1][..b] == inst.blocks[..b];
  }

  method WalkInstance(inst: Instance, emit: Emitter) returns (walked: bool)
    requires emit.Valid()
    modifies emit
    ensures emit.Valid() && walked == inst.walkable
    ensures emit.offered == old(emit.offered) + WalkEdges(inst)
    ensures NodesOf(emit.out) == NodesOf(old(emit.out))
  {
    hide Emitter.Valid;
    hide FirstPerKey;
    hide KeySeen;
    hide BlockEdges;
    hide NodesOf;
    if !inst.walkable {
      return false;
    }
    NoBlockEdges(inst);
    for b := 0 to |inst.blocks|
      invariant emit.Valid() && NodesOf(emit.out) == NodesOf(old(emit.out))
      invariant emit.offered == old(emit.offered) + BlockEdges(inst, inst.blocks[..b])
    {
      var term := inst.blocks[b];
      NextBlockEdges(inst, b);
      if term.CallShape? {
        emit.EdgeRecord(EdgeFor(inst, term.site, term.callee));
      }
    }
    TakeAll(inst.blocks);
    return true;
  }

  function Anchor(name: Text): Record {
    Call(name, None, TOP, None, UNWALKED, MAY_TOP)
  }

  function Names(universe: seq<FnInfo>, items: seq<Instance>): set<Text> {
    NamesOf(universe) + ItemNames(items)
  }

  function WalkedNames(items: seq<Instance>): set<Text> {
    set inst | inst in items && inst.walkable :: inst.info.name
  }

  /** A function record for a name not seen before. */
  method EmitFunction(emit: Emitter, fnSeen0: set<Text>, info: FnInfo) returns (fnSeen: set<Text>)
    requires emit.Valid()
    modifies emit
    ensures emit.Valid() && emit.offered == old(emit.offered)
    ensures fnSeen == fnSeen0 + {info.name}
    ensures NodesOf(emit.out) == NodesOf(old(emit.out)) + (if info.name in fnSeen0 then [] else [info])
  {
    fnSeen := fnSeen0;
    if info.name !in fnSeen {
      fnSeen := fnSeen + {info.name};
      emit.PlainRecord(Function(info));
    }
  }

  function NamesOf(universe: seq<FnInfo>): set<Text> {
    set f | f in universe :: f.name
  }

  function ItemNames(items: seq<Instance>): set<Text> {
    set inst | inst in items :: inst.info.name
  }

  lemma Regroup(a: seq<Record>, b: seq<Record>, c: seq<Record>)
    ensures a + b + c == a + (b + c)
  {
  }

  lemma NamesAppend(universe: seq<FnInfo>, f: FnInfo, items: seq<Instance>, inst: Instance)
    ensures NamesOf(universe + [f]) == NamesOf(universe) + {f.name}
    ensures ItemNames(items + [inst]) == ItemNames(items) + {inst.info.name}
    ensures WalkedNames(items + [inst]) == WalkedNames(items) + (if inst.walkable then {inst.info.name} else {})
    ensures AllEdges(items + [inst]) == AllEdges(items) + WalkEdges(inst)
  {
    assert forall g :: g in universe + [f] <==> g in universe || g == f;
    assert forall j :: j in items + [inst] <==> j in items || j == inst;
    assert (items + [inst])[..|items|] == items;
  }

  function Infos(items: seq<Instance>): seq<FnInfo> {
    if items == [] then [] else Infos(items[..|items| - 1]) + [items[|items| - 1].info]
  }

  /** The function records are those there were and the first of every known name. */
  ghost predicate NodesAre(out: seq<Record>, base: seq<FnInfo>, known: seq<FnInfo>) {
    NodesOf(out) == base + FirstPerKey(NameOf, known)
  }

  lemma NodeStep(out: seq<Record>, out': seq<Record>, base: seq<FnInfo>, known: seq<FnInfo>, info: FnInfo)
    requires NodesAre(out, base, known)
    requires NodesOf(out') == NodesOf(out) + (if info.name in NamesOf(known) then [] else [info])
    ensures NodesAre(out', base, known + [info])
  {
    hide NodesOf;
    hide FirstPerKey;
    hide KeySeen;
    hide NamesOf;
    OfferOne(NameOf, known, info);
    NameSeen(known, info.name);
  }

  lemma NameSeen(known: seq<FnInfo>, name: Text)
    ensures KeySeen(NameOf, known, name) <==> name in NamesOf(known)
  {
    if name in NamesOf(known) {
      var f :| f in known && f.name == name;
      var i :| 0 <= i < |known| && known[i] == f;
      assert NameOf(known[i]) == name;
    }
  }

  /** Lines 842-855. */
  method EmitUniverse(emit: Emitter, universe: seq<FnInfo>) returns (fnSeen: set<Text>)
    requires emit.Valid()
    modifies emit
    ensures emit.Valid() && emit.offered == old(emit.offered)
    ensures fnSeen == NamesOf(universe) && NodesAre(emit.out, NodesOf(old(emit.out)), universe)
  {
    hide NodesOf;
    hide FirstPerKey;
    fnSeen := {};
    ghost var base := NodesOf(emit.out);
    NoNodes(emit.out);
    for i := 0 to |universe|
      invariant emit.Valid() && emit.offered == old(emit.offered)
      invariant fnSeen == NamesOf(universe[..i]) && NodesAre(emit.out, base, universe[..i])
    {
      TakeNext(universe, i);
      ghost var before := emit.out;
      NamesAppend(universe[..i], universe[i], [], Instance(universe[i], None, false, []));
      fnSeen := EmitFunction(emit, fnSeen, universe[i]);
      NodeStep(before, emit.out, base, universe[..i], universe[i]);
    }
    TakeAll(universe);
  }

  lemma NoNodes(out: seq<Record>)
    ensures NodesAre(out, NodesOf(out), [])
  {
    assert NodesOf(out) + [] == NodesOf(out);
  }

  /** Lines 860-868, for one instance. */
  method WalkItem(emit: Emitter, inst: Instance, fnSeen0: set<Text>, walked0: set<Text>)
    returns (fnSeen: set<Text>, walked: set<Text>)
    requires emit.Valid()
    modifies emit
    ensures emit.Valid() && emit.offered == old(emit.offered) + WalkEdges(inst)
    ensures fnSeen == fnSeen0 + {inst.info.name}
    ensures walked == walked0 + (if inst.walkable then {inst.info.name} else {})
    ensures NodesOf(emit.out) == NodesOf(old(emit.out)) + (if inst.info.name in fnSeen0 then [] else [inst.info])
  {
    fnSeen := EmitFunction(emit, fnSeen0, inst.info);
    walked := walked0;
    var done := WalkInstance(inst, emit);
    if done {
      walked := walked + {inst.info.name};
    }
  }

  /** What walking a list of items leads to. */
  ghost predicate Progress(offered0: seq<Record>, offered: seq<Record>, fnSeen0: set<Text>, fnSeen: set<Text>,
                           walked: set<Text>, items: seq<Instance>) {
    offered == offered0 + AllEdges(items) && fnSeen == fnSeen0 + ItemNames(items) && walked == WalkedNames(items)
  }

  lemma ProgressStep(offered0: seq<Record>, offered: seq<Record>, fnSeen0: set<Text>, fnSeen: set<Text>,
                     walked: set<Text>, items: seq<Instance>, inst: Instance)
    requires Progress(offered0, offered, fnSeen0, fnSeen, walked, items)
    ensures Progress(offered0, offered + WalkEdges(inst), fnSeen0, fnSeen + {inst.info.name},
                     walked + (if inst.walkable then {inst.info.name} else {}), items + [inst])
  {
    NamesAppend([], inst.info, items, inst);
    Regroup(offered0, AllEdges(items), WalkEdges(inst));
  }

  lemma InfosNext(known: seq<FnInfo>, items: seq<Instance>, inst: Instance)
    ensures known + Infos(items + [inst]) == known + Infos(items) + [inst.info]
    ensures NamesOf(known + Infos(items)) == NamesOf(known) + ItemNames(items)
  {
    assert (items + [inst])[..|items|] == items;
    InfosNamed(items);
    assert forall f :: f in known + Infos(items) <==> f in known || f in Infos(items);
  }

  lemma {:induction false} InfosNamed(items: seq<Instance>)
    ensures NamesOf(Infos(items)) == ItemNames(items)
  {
    if items != [] {
      var front, last := items[..|items| - 1], items[|items| - 1];
      InfosNamed(front);
      assert items == front + [last];
      NamesAppend(Infos(front), last.info, front, last);
    }
  }

  /** Lines 857-871. `known` are the functions named before. */
  method WalkItems(emit: Emitter, items: seq<Instance>, fnSeen0: set<Text>, ghost base: seq<FnInfo>, ghost known: seq<FnInfo>)
    returns (fnSeen: set<Text>, walked: set<Text>)
    requires emit.Valid() && fnSeen0 == NamesOf(known) && NodesAre(emit.out, base, known)
    modifies emit
    ensures emit.Valid() && Progress(old(emit.offered), emit.offered, fnSeen0, fnSeen, walked, items)
    ensures NodesAre(emit.out, base, known + Infos(items))
  {
    hide NodesAre;
    hide NodesOf;
    hide NamesOf;
    hide ItemNames;
    fnSeen, walked := fnSeen0, {};
    NothingWalked(emit.offered, fnSeen0);
    assert known + Infos([]) == known;
    for i := 0 to |items|
      invariant emit.Valid() && Progress(old(emit.offered), emit.offered, fnSeen0, fnSeen, walked, items[..i])
      invariant NodesAre(emit.out, base, known + Infos(items[..i]))
    {
      ProgressStep(old(emit.offered), emit.offered, fnSeen0, fnSeen, walked, items[..i], items[i]);
      TakeNext(items, i);
      InfosNext(known, items[..i], items[i]);
      ghost var before := emit.out;
      fnSeen, walked := WalkItem(emit, items[i], fnSeen, walked);
      NodeStep(before, emit.out, base, known + Infos(items[..i]), items[i].info);
    }
    TakeAll(items);
  }

  lemma NothingWalked(offered: seq<Record>, fnSeen: set<Text>)
    ensures Progress(offered, offered, fnSeen, fnSeen, {}, [])
  {
  }

  ghost function Members(rs: seq<Record>): set<Record> {
    set r | r in rs
  }

  /** The anchors of a set of names. */
  ghost function Anchors(names: set<Text>): set<Record> {
    set n | n in names :: Anchor(n)
  }

  lemma AnchorsAppend(rs: seq<Record>, names: set<Text>, n: Text)
    ensures Members(rs + [Anchor(n)]) == Members(rs) + {Anchor(n)}
    ensures Anchors(names + {n}) == Anchors(names) + {Anchor(n)}
  {
  }

  lemma NoAnchors()
    ensures Members([]) == Anchors({})
  {
  }

  /** Lines 875-879: the set is visited in no particular order. */
  method AnchorUnwalked(emit: Emitter, fnSeen: set<Text>, walked: set<Text>) returns (ghost anchors: seq<Record>)
    requires emit.Valid()
    modifies emit
    ensures emit.Valid() && emit.offered == old(emit.offered) + anchors
    ensures Members(anchors) == Anchors(fnSeen - walked)
    ensures NodesOf(emit.out) == NodesOf(old(emit.out))
  {
    hide Emitter.Valid;
    hide Members;
    hide Anchors;
    hide NodesOf;
    anchors := [];
    var todo := fnSeen - walked;
    NoAnchors();
    ghost var done: set<Text> := {};
    while todo != {}
      invariant done + todo == fnSeen - walked
      invariant emit.Valid() && emit.offered == old(emit.offered) + anchors
      invariant Members(anchors) == Anchors(done) && NodesOf(emit.out) == NodesOf(old(emit.out))
      decreases todo
    {
      var name :| name in todo;
      AnchorsAppend(anchors, done, name);
      emit.EdgeRecord(Anchor(name));
      todo, done, anchors := todo - {name}, done + {name}, anchors + [Anchor(name)];
    }
  }

  /** The edges the whole analysis offers: those of the walk, then an anchor for every name
      not walked, in some order. */
  ghost predicate Analysed(universe: seq<FnInfo>, items: seq<Instance>, offered: seq<Record>) {
    exists anchors ::
      offered == AllEdges(items) + anchors && Members(anchors) == Anchors(Names(universe, items) - WalkedNames(items))
  }

  // ---------------------------------------------------------------- edges and calls

  /** The record of a call terminator: its caller and its site, and what the classifier said. */
  predicate OfCall(r: Record, inst: Instance, t: Terminator) {
    t.CallShape? &&
    match t.callee
    case Must(name, file) => r == Call(inst.info.name, inst.callerFile, name, file, t.site, MUST)
    case Top(name) => r == Call(inst.info.name, inst.callerFile, name, None, t.site, MAY_TOP)
    case DynDispatch(traitPath, methodName) => r == DynCall(inst.info.name, inst.callerFile, t.site, traitPath, methodName)
  }

  /** The record names the call: its caller, its site and its callee, or trait and method. */
  predicate Tells(r: Record, inst: Instance, t: Terminator) {
    t.CallShape? &&
    match t.callee
    case Must(name, _) => r.Call? && r.caller == inst.info.name && r.site == t.site && r.callee == name
    case Top(name) => r.Call? && r.caller == inst.info.name && r.site == t.site && r.callee == name
    case DynDispatch(traitPath, methodName) =>
      r.DynCall? && r.caller == inst.info.name && r.site == t.site && r.traitPath == traitPath && r.methodName == methodName
  }

  /** Two edges of one call line and one callee. */
  predicate Alike(r: Record, r': Record) {
    || (r.Call? && r'.Call? && r.caller == r'.caller && r.callee == r'.callee && r.site == r'.site)
    || (r.DynCall? && r'.DynCall? && r.caller == r'.caller && r.site == r'.site && r.traitPath == r'.traitPath && r.methodName == r'.methodName)
  }

  ghost predicate NoTwoAlike(out: seq<Record>) {
    forall i, j :: 0 <= i < j < |out| ==> !Alike(out[i], out[j])
  }

  ghost predicate CallsTold(items: seq<Instance>, out: seq<Record>) {
    forall inst, t :: inst in items && inst.walkable && t in inst.blocks && t.CallShape? ==> exists r :: r in out && Tells(r, inst, t)
  }

  ghost predicate IsWalked(items: seq<Instance>, name: Text) {
    exists inst :: inst in items && inst.walkable && inst.info.name == name
  }

  ghost predicate IsKnown(universe: seq<FnInfo>, items: seq<Instance>, name: Text) {
    (exists f :: f in universe && f.name == name) || exists inst :: inst in items && inst.info.name == name
  }

  /** The edge of a name that was not walked. */
  predicate OfUnwalked(r: Record, name: Text) {
    r == Call(name, None, Ascii("*TOP*"), None, Ascii("<unwalked>"), MAY_TOP)
  }

  ghost predicate UnwalkedTold(universe: seq<FnInfo>, items: seq<Instance>, out: seq<Record>) {
    forall name :: IsKnown(universe, items, name) && !IsWalked(items, name) ==> exists r :: r in out && OfUnwalked(r, name)
  }

  ghost predicate FromCallOrUnwalked(universe: seq<FnInfo>, items: seq<Instance>, r: Record) {
    || (exists inst, t :: inst in items && inst.walkable && t in inst.blocks && OfCall(r, inst, t))
    || (exists name :: IsKnown(universe, items, name) && !IsWalked(items, name) && OfUnwalked(r, name))
  }

  /** What the edges of a run are: each call of a walked body has one, each known name that was
      not walked has its own, no two are alike, and there are no others. */
  ghost predicate EdgesTold(universe: seq<FnInfo>, items: seq<Instance>, edges: seq<Record>) {
    && CallsTold(items, edges) && UnwalkedTold(universe, items, edges) && NoTwoAlike(edges)
    && forall r :: r in edges ==> FromCallOrUnwalked(universe, items, r)
  }

  lemma CallEdge(inst: Instance, t: Terminator)
    requires t.CallShape?
    ensures OfCall(EdgeFor(inst, t.site, t.callee), inst, t) && Tells(EdgeFor(inst, t.site, t.callee), inst, t)
    ensures forall r :: Alike(r, EdgeFor(inst, t.site, t.callee)) ==> Tells(r, inst, t)
  {
  }

  lemma AlikeIsKey(r: Record, r': Record)
    requires IsEdge(r) && IsEdge(r')
    ensures Alike(r, r') <==> KeyOfEdge(r) == KeyOfEdge(r')
  {
  }

  /** What is offered leaves an edge like it. */
  lemma OfferedLeaves(offered: seq<Record>, o: Record) returns (r: Record)
    requires o in offered && IsEdge(o)
    ensures r in FirstPerKey(KeyOfEdge, offered) && Alike(r, o)
  {
    var i := KeptOfKey(KeyOfEdge, offered, o);
    r := offered[i];
    AlikeIsKey(r, o);
  }

  lemma NoneAlike(offered: seq<Record>)
    requires forall r :: r in offered ==> IsEdge(r)
    ensures NoTwoAlike(FirstPerKey(KeyOfEdge, offered))
  {
    hide KeyOfEdge;
    hide Alike;
    hide IsEdge;
    NothingDropped(KeyOfEdge, offered);
    var out := FirstPerKey(KeyOfEdge, offered);
    forall i, j | 0 <= i < j < |out|
      ensures !Alike(out[i], out[j])
    {
      assert out[i] in out && out[j] in out;
      KeptMember(KeyOfEdge, offered, out[i]);
      KeptMember(KeyOfEdge, offered, out[j]);
      AlikeIsKey(out[i], out[j]);
    }
  }

  lemma NamesAre(universe: seq<FnInfo>, items: seq<Instance>, name: Text)
    ensures name in Names(universe, items) <==> IsKnown(universe, items, name)
    ensures name in WalkedNames(items) <==> IsWalked(items, name)
  {
  }

  lemma OfferedFrom(universe: seq<FnInfo>, items: seq<Instance>, offered: seq<Record>, r: Record)
    requires Analysed(universe, items, offered) && r in offered
    ensures FromCallOrUnwalked(universe, items, r) && IsEdge(r)
  {
    hide EdgeFor;
    hide BlockEdges;
    hide AllEdges;
    var anchors :| offered == AllEdges(items) + anchors
                   && Members(anchors) == Anchors(Names(universe, items) - WalkedNames(items));
    if r in AllEdges(items) {
      AllEdgesMembers(items, r);
      var inst :| inst in items && r in WalkEdges(inst);
      BlockEdgesMembers(inst, inst.blocks, r);
      var b :| 0 <= b < |inst.blocks| && inst.blocks[b].CallShape? && r == EdgeFor(inst, inst.blocks[b].site, inst.blocks[b].callee);
      CallEdge(inst, inst.blocks[b]);
      assert inst.blocks[b] in inst.blocks;
    } else {
      assert r in Members(anchors);
      var name :| name in Names(universe, items) - WalkedNames(items) && r == Anchor(name);
      NamesAre(universe, items, name);
      assert OfUnwalked(r, name);
    }
  }

  lemma CallsAreTold(universe: seq<FnInfo>, items: seq<Instance>, offered: seq<Record>)
    requires Analysed(universe, items, offered)
    ensures CallsTold(items, FirstPerKey(KeyOfEdge, offered))
  {
    hide FirstPerKey;
    hide EdgeFor;
    hide Tells;
    forall inst, t | inst in items && inst.walkable && t in inst.blocks && t.CallShape?
      ensures exists r :: r in FirstPerKey(KeyOfEdge, offered) && Tells(r, inst, t)
    {
      var i: nat :| i < |items| && items[i] == inst;
      var b: nat :| b < |inst.blocks| && inst.blocks[b] == t;
      SiteOffered(items, i, b);
      var edge := SiteEdge(items, i, b);
      assert edge in offered;
      OfferedFrom(universe, items, offered, edge);
      var r := OfferedLeaves(offered, edge);
      CallEdge(inst, t);
    }
  }

  lemma UnwalkedAreTold(universe: seq<FnInfo>, items: seq<Instance>, offered: seq<Record>)
    requires Analysed(universe, items, offered)
    ensures UnwalkedTold(universe, items, FirstPerKey(KeyOfEdge, offered))
  {
    forall name | IsKnown(universe, items, name) && !IsWalked(items, name)
      ensures exists r :: r in FirstPerKey(KeyOfEdge, offered) && OfUnwalked(r, name)
    {
      NamesAre(universe, items, name);
      WalkedOrAnchored(universe, items, offered, name);
      assert OfUnwalked(Anchor(name), name);
    }
  }

  lemma EdgesAreTold(universe: seq<FnInfo>, items: seq<Instance>, offered: seq<Record>)
    requires Analysed(universe, items, offered)
    ensures EdgesTold(universe, items, FirstPerKey(KeyOfEdge, offered))
  {
    hide FirstPerKey;
    hide Analysed;
    hide FromCallOrUnwalked;
    CallsAreTold(universe, items, offered);
    UnwalkedAreTold(universe, items, offered);
    forall r | r in offered
      ensures FromCallOrUnwalked(universe, items, r) && IsEdge(r)
    {
      OfferedFrom(universe, items, offered, r);
    }
    NoneAlike(offered);
    forall r | r in FirstPerKey(KeyOfEdge, offered)
      ensures FromCallOrUnwalked(universe, items, r)
    {
      KeptMember(KeyOfEdge, offered, r);
    }
  }

  /** Calls that differ in caller, site or callee leave different edges. */
  lemma DifferentCallsDifferentEdges(items: seq<Instance>, out: seq<Record>, inst: Instance, t: Terminator, inst': Instance, t': Terminator)
    returns (r: Record, r': Record)
    requires CallsTold(items, out)
    requires inst in items && inst.walkable && t in inst.blocks && t.CallShape?
    requires inst' in items && inst'.walkable && t' in inst'.blocks && t'.CallShape?
    requires inst.info.name != inst'.info.name || t.site != t'.site || (t.callee.DynDispatch? != t'.callee.DynDispatch?)
             || (!t.callee.DynDispatch? && !t'.callee.DynDispatch? && t.callee.name != t'.callee.name)
             || (t.callee.DynDispatch? && t'.callee.DynDispatch? && t.callee != t'.callee)
    ensures r in out && Tells(r, inst, t) && r' in out && Tells(r', inst', t') && r != r'
  {
    r :| r in out && Tells(r, inst, t);
    r' :| r' in out && Tells(r', inst', t');
  }

  /** `run_analysis`. `facts` are the records of the trait-impl pass. */
  method RunAnalysis(facts: seq<Record>, universe: seq<FnInfo>, items: seq<Instance>) returns (emit: Emitter)
    requires forall r :: r in facts ==> !IsEdge(r)
    ensures fresh(emit) && emit.Valid() && Analysed(universe, items, emit.offered)
    ensures NodesAre(emit.out, NodesOf(facts), universe + Infos(items))
    ensures EdgesTold(universe, items, EdgesOf(emit.out)) && forall r :: r in EdgesOf(emit.out) <==> r in emit.out && (r.Call? || r.DynCall?)
  {
    hide NodesAre;
    emit := new Emitter();
    for i := 0 to |facts|
      invariant emit.Valid() && emit.offered == [] && fresh(emit) && NodesOf(emit.out) == NodesOf(facts[..i])
    {
      assert facts[i] in facts;
      TakeNext(facts, i);
      Snoc(facts[..i], facts[i]);
      emit.PlainRecord(facts[i]);
    }
    TakeAll(facts);
    var fnSeen := EmitUniverse(emit, universe);
    var walked;
    fnSeen, walked := WalkItems(emit, items, fnSeen, NodesOf(facts), universe);
    assert fnSeen == Names(universe, items);
    assert emit.offered == AllEdges(items);
    ghost var before := emit.out;
    ghost var anchors := AnchorUnwalked(emit, fnSeen, walked);
    SameNodes(before, emit.out, NodesOf(facts), universe + Infos(items));
    EdgesAreTold(universe, items, emit.offered);
    forall r
      ensures r in EdgesOf(emit.out) <==> r in emit.out && (r.Call? || r.DynCall?)
    {
      EdgeMembers(emit.out, r);
    }
  }

  lemma {:induction false} EdgeMembers(out: seq<Record>, r: Record)
    ensures r in EdgesOf(out) <==> r in out && (r.Call? || r.DynCall?)
  {
    if out != [] {
      var front, last := out[..|out| - 1], out[|out| - 1];
      EdgeMembers(front, r);
      assert out == front + [last];
    }
  }

  lemma SameNodes(out: seq<Record>, out': seq<Record>, base: seq<FnInfo>, known: seq<FnInfo>)
    requires NodesAre(out, base, known) && NodesOf(out') == NodesOf(out)
    ensures NodesAre(out', base, known)
  {
  }

  // ---------------------------------------------------------------- what the output means

  lemma {:induction false} BlockEdgesMembers(inst: Instance, blocks: seq<Terminator>, r: Record)
    ensures r in BlockEdges(inst, blocks) <==>
            exists b :: 0 <= b < |blocks| && blocks[b].CallShape? && r == EdgeFor(inst, blocks[b].site, blocks[b].callee)
  {
    if blocks != [] {
      var front := blocks[..|blocks| - 1];
      BlockEdgesMembers(inst, front, r);
      assert forall b :: 0 <= b < |front| ==> front[b] == blocks[b];
    }
  }

  lemma {:induction false} AllEdgesMembers(items: seq<Instance>, r: Record)
    ensures r in AllEdges(items) <==> exists inst :: inst in items && r in WalkEdges(inst)
  {
    if items != [] {
      var front, last := items[..|items| - 1], items[|items| - 1];
      AllEdgesMembers(front, r);
      assert items == front + [last];
    }
  }

  /** `inst` is walked and block `b` of it ends in a call. */
  predicate IsCallSite(items: seq<Instance>, i: nat, b: nat) {
    i < |items| && items[i].walkable && b < |items[i].blocks| && items[i].blocks[b].CallShape?
  }

  function SiteEdge(items: seq<Instance>, i: nat, b: nat): Record
    requires IsCallSite(items, i, b)
  {
    EdgeFor(items[i], items[i].blocks[b].site, items[i].blocks[b].callee)
  }

  lemma SiteOffered(items: seq<Instance>, i: nat, b: nat)
    requires IsCallSite(items, i, b)
    ensures SiteEdge(items, i, b) in AllEdges(items)
  {
    BlockEdgesMembers(items[i], items[i].blocks, SiteEdge(items, i, b));
    AllEdgesMembers(items, SiteEdge(items, i, b));
  }

  /** No call terminator of a walked body is dropped: the output holds an edge with its caller,
      its site and its callee, or its trait and method. */
  lemma NoCallDropped(universe: seq<FnInfo>, items: seq<Instance>, offered: seq<Record>, i: nat, b: nat)
    requires Analysed(universe, items, offered) && IsCallSite(items, i, b)
    ensures exists r :: r in FirstPerKey(KeyOfEdge, offered) && Tells(r, items[i], items[i].blocks[b])
  {
    CallsAreTold(universe, items, offered);
    assert items[i] in items && items[i].blocks[b] in items[i].blocks;
  }

  lemma CallersAreWalked(items: seq<Instance>, r: Record)
    requires r in AllEdges(items)
    ensures IsEdge(r) && r.caller in WalkedNames(items)
  {
    hide AllEdges;
    hide BlockEdges;
    AllEdgesMembers(items, r);
    var inst :| inst in items && r in WalkEdges(inst);
    BlockEdgesMembers(inst, inst.blocks, r);
  }

  ghost predicate OnlyNamed(nodes: seq<FnInfo>, i: int, name: Text) {
    0 <= i < |nodes| && nodes[i].name == name && forall j :: 0 <= j < |nodes| && nodes[j].name == name ==> j == i
  }

  /** Every known name has exactly one function record of the walk's own. */
  lemma OneNodePerName(universe: seq<FnInfo>, items: seq<Instance>, name: Text) returns (i: nat)
    requires name in Names(universe, items)
    ensures OnlyNamed(FirstPerKey(NameOf, universe + Infos(items)), i, name)
  {
    var known := universe + Infos(items);
    InfosNamed(items);
    assert forall f :: f in known <==> f in universe || f in Infos(items);
    NameSeen(known, name);
    i := OneKept(known, name);
  }

  lemma OneKept(known: seq<FnInfo>, name: Text) returns (i: nat)
    requires name in NamesOf(known)
    ensures OnlyNamed(FirstPerKey(NameOf, known), i, name)
  {
    hide FirstPerKey;
    var f :| f in known && f.name == name;
    NothingDropped(NameOf, known);
    var nodes := FirstPerKey(NameOf, known);
    assert KeySeen(NameOf, nodes, NameOf(f));
    i :| 0 <= i < |nodes| && NameOf(nodes[i]) == NameOf(f);
    forall j | 0 <= j < |nodes| && nodes[j].name == name
      ensures j == i
    {
      assert NameOf(nodes[j]) == NameOf(nodes[i]);
    }
  }

  /** Every known name was walked or carries its own anchor to the open frontier. A walked name
      carries one only where a call of its own body gives that very edge. */
  lemma WalkedOrAnchored(universe: seq<FnInfo>, items: seq<Instance>, offered: seq<Record>, name: Text)
    requires Analysed(universe, items, offered) && name in Names(universe, items)
    ensures Anchor(name) in offered <==> name !in WalkedNames(items) || Anchor(name) in AllEdges(items)
    ensures name !in WalkedNames(items) ==> Anchor(name) in FirstPerKey(KeyOfEdge, offered)
  {
    var anchors :| offered == AllEdges(items) + anchors
                   && Members(anchors) == Anchors(Names(universe, items) - WalkedNames(items));
    assert Anchor(name) in anchors <==> name !in WalkedNames(items) by {
      assert Anchor(name) in anchors <==> Anchor(name) in Members(anchors);
    }
    if name !in WalkedNames(items) {
      var h := KeptOfKey(KeyOfEdge, offered, Anchor(name));
      var kept := offered[h];
      if kept in AllEdges(items) {
        CallersAreWalked(items, kept);
      }
      assert kept in Members(anchors);
    }
  }

  // ---------------------------------------------------------------- coverage of runs

  /** No key that has an open edge is led by a MUST edge. */
  ghost predicate NoMustLeads(offered: seq<Record>) {
    LedAlike(KeyOfEdge, IsTop, offered)
  }

  /** Every open edge that was offered leaves an open edge of its key in the output. */
  ghost predicate TopsSurvive(offered: seq<Record>) {
    Survives(KeyOfEdge, IsTop, offered)
  }

  /** Deduplication ignores the kind of an edge. It keeps every open frontier exactly when no
      key that has one is led by a MUST edge. */
  lemma OpenFrontiersSurvive(offered: seq<Record>)
    ensures TopsSurvive(offered) <==> NoMustLeads(offered)
  {
    SurvivesExact(KeyOfEdge, IsTop, offered);
  }

  /** What the running program may call at each call site, by name. */
  type Runtime = (nat, nat) -> set<Text>

  /** A MUST answer of the classifier names the only possible target. */
  ghost predicate SoundClassifier(items: seq<Instance>, runs: Runtime) {
    forall i: nat, b: nat :: IsCallSite(items, i, b) && items[i].blocks[b].callee.Must? ==>
      runs(i, b) <= {items[i].blocks[b].callee.name}
  }

  /** A run calls `callee` from a walked body named `caller`. */
  ghost predicate Calls(items: seq<Instance>, runs: Runtime, caller: Text, callee: Text) {
    exists i: nat, b: nat :: IsCallSite(items, i, b) && items[i].info.name == caller && callee in runs(i, b)
  }

  ghost predicate HasMust(edges: seq<Record>, caller: Text, callee: Text) {
    exists r :: r in edges && IsMust(r) && r.caller == caller && r.callee == callee
  }

  ghost predicate HasTop(edges: seq<Record>, caller: Text) {
    exists r :: r in edges && IsTop(r) && r.caller == caller
  }

  /** An open edge of the caller comes first of its key. */
  ghost predicate LeadsOpen(offered: seq<Record>, caller: Text) {
    exists i: nat :: i < |offered| && FirstAt(KeyOfEdge, offered, i, offered[i]) && IsTop(offered[i]) && offered[i].caller == caller
  }

  /** Wherever the classifier left a call open, some open edge of the caller comes first of
      its key: not necessarily the edge of that call. */
  ghost predicate CallersStayOpen(items: seq<Instance>, offered: seq<Record>) {
    forall i: nat, b: nat :: IsCallSite(items, i, b) && !items[i].blocks[b].callee.Must? ==> LeadsOpen(offered, items[i].info.name)
  }

  lemma LeadsOpenIsKept(offered: seq<Record>, caller: Text)
    ensures LeadsOpen(offered, caller) <==> HasTop(FirstPerKey(KeyOfEdge, offered), caller)
  {
    if i: nat :| i < |offered| && FirstAt(KeyOfEdge, offered, i, offered[i]) && IsTop(offered[i]) && offered[i].caller == caller {
      KeptIsFirst(KeyOfEdge, offered, offered[i]);
    }
    if r :| r in FirstPerKey(KeyOfEdge, offered) && IsTop(r) && r.caller == caller {
      KeptIsFirst(KeyOfEdge, offered, r);
      var i: nat :| FirstAt(KeyOfEdge, offered, i, r);
      assert offered[i] == r;
    }
  }

  /** One step of a run follows an emitted MUST edge or leaves a name with an open frontier. */
  lemma StepCovered(universe: seq<FnInfo>, items: seq<Instance>, offered: seq<Record>, runs: Runtime, caller: Text, callee: Text)
    requires Analysed(universe, items, offered) && CallersStayOpen(items, offered) && SoundClassifier(items, runs)
    requires Calls(items, runs, caller, callee)
    ensures HasMust(FirstPerKey(KeyOfEdge, offered), caller, callee) || HasTop(FirstPerKey(KeyOfEdge, offered), caller)
  {
    var out := FirstPerKey(KeyOfEdge, offered);
    var i: nat, b: nat :| IsCallSite(items, i, b) && items[i].info.name == caller && callee in runs(i, b);
    var edge := SiteEdge(items, i, b);
    LeadsOpenIsKept(offered, caller);
    if items[i].blocks[b].callee.Must? {
      SiteOffered(items, i, b);
      assert edge in offered;
      var h := KeptOfKey(KeyOfEdge, offered, edge);
      assert offered[h].caller == caller;
      assert IsTop(offered[h]) || (IsMust(offered[h]) && offered[h].callee == callee);
    }
  }

  /** A chain of calls through walked bodies. */
  ghost predicate Chain(items: seq<Instance>, runs: Runtime, names: seq<Text>) {
    forall j :: 0 <= j < |names| - 1 ==> Calls(items, runs, names[j], names[j + 1])
  }

  lemma FrontOfChain(items: seq<Instance>, runs: Runtime, names: seq<Text>)
    requires Chain(items, runs, names) && names != []
    ensures Chain(items, runs, names[..|names| - 1])
  {
    var front := names[..|names| - 1];
    forall j | 0 <= j < |front| - 1
      ensures Calls(items, runs, front[j], front[j + 1])
    {
      assert Calls(items, runs, names[j], names[j + 1]);
    }
  }

  ghost predicate MustPath(edges: seq<Record>, names: seq<Text>) {
    forall j :: 0 <= j < |names| - 1 ==> HasMust(edges, names[j], names[j + 1])
  }

  /** Over-approximation: every concrete chain either is a path of emitted MUST edges all the
      way, or is one up to a name with an open frontier. */
  lemma {:induction false} ChainCovered(universe: seq<FnInfo>, items: seq<Instance>, offered: seq<Record>, runs: Runtime, names: seq<Text>)
    requires Analysed(universe, items, offered) && CallersStayOpen(items, offered) && SoundClassifier(items, runs)
    requires names != [] && Chain(items, runs, names)
    ensures Covered(FirstPerKey(KeyOfEdge, offered), names)
    decreases |names|
  {
    var out := FirstPerKey(KeyOfEdge, offered);
    if |names| > 1 {
      var front, last := names[..|names| - 1], |names| - 2;
      FrontOfChain(items, runs, names);
      ChainCovered(universe, items, offered, runs, front);
      assert Calls(items, runs, names[last], names[last + 1]);
      StepCovered(universe, items, offered, runs, names[last], names[last + 1]);
      CoverExtends(out, names);
    }
  }

  /** The names up to an open frontier, or all of them, follow MUST edges. */
  ghost predicate Covered(edges: seq<Record>, names: seq<Text>) {
    MustPath(edges, names) || exists k :: 0 <= k < |names| && OpensAt(edges, names, k)
  }

  ghost predicate OpensAt(edges: seq<Record>, names: seq<Text>, k: nat)
    requires k < |names|
  {
    MustPath(edges, names[..k + 1]) && HasTop(edges, names[k])
  }

  lemma CoverExtends(edges: seq<Record>, names: seq<Text>)
    requires |names| > 1 && Covered(edges, names[..|names| - 1])
    requires HasMust(edges, names[|names| - 2], names[|names| - 1]) || HasTop(edges, names[|names| - 2])
    ensures Covered(edges, names)
  {
    var front, last := names[..|names| - 1], |names| - 2;
    if k :| 0 <= k < |front| && OpensAt(edges, front, k) {
      assert front[..k + 1] == names[..k + 1];
      assert OpensAt(edges, names, k);
    } else if HasTop(edges, names[last]) {
      assert names[..last + 1] == front;
      assert OpensAt(edges, names, last);
    } else {
      forall j | 0 <= j < |names| - 1
        ensures HasMust(edges, names[j], names[j + 1])
      {
        if j < last {
          assert HasMust(edges, front[j], front[j + 1]);
        }
      }
    }
  }

  /** The output covers every chain of every run that the classifier's answers allow. */
  ghost predicate AllCovered(items: seq<Instance>, offered: seq<Record>) {
    forall runs: Runtime, names: seq<Text> :: SoundClassifier(items, runs) && names != [] && Chain(items, runs, names) ==>
      Covered(FirstPerKey(KeyOfEdge, offered), names)
  }

  lemma FreshName(out: seq<Record>) returns (name: Text)
    ensures name != []
    ensures forall r :: r in out && r.Call? ==> |r.callee| < |name|
  {
    name := [0];
    if out != [] {
      var front, last := out[..|out| - 1], out[|out| - 1];
      name := FreshName(front);
      assert out == front + [last];
      if last.Call? {
        name := name + last.callee;
      }
    }
  }

  /** A caller that lost all its open edges can call a function that no edge names. */
  lemma UncoveredChain(items: seq<Instance>, offered: seq<Record>, i: nat, b: nat) returns (runs: Runtime, names: seq<Text>)
    requires IsCallSite(items, i, b) && !items[i].blocks[b].callee.Must?
    requires !LeadsOpen(offered, items[i].info.name)
    ensures SoundClassifier(items, runs) && names != [] && Chain(items, runs, names)
    ensures !Covered(FirstPerKey(KeyOfEdge, offered), names)
  {
    var out, caller := FirstPerKey(KeyOfEdge, offered), items[i].info.name;
    var callee := FreshName(out);
    runs := (j: nat, c: nat) => if j == i && c == b then {callee} else {};
    names := [caller, callee];
    assert Calls(items, runs, caller, callee);
    LeadsOpenIsKept(offered, caller);
    assert !HasMust(out, caller, callee);
    assert names[0] == caller && names[1] == callee && names[..2] == names;
    forall k | 0 <= k < |names|
      ensures !OpensAt(out, names, k)
    {
      assert k == 1 ==> !MustPath(out, names[..k + 1]);
    }
  }

  /** Over-approximation, exactly: all chains of all runs are covered if and only if every
      caller that the classifier left open somewhere keeps an open edge. */
  lemma CoverageExact(universe: seq<FnInfo>, items: seq<Instance>, offered: seq<Record>)
    requires Analysed(universe, items, offered)
    ensures AllCovered(items, offered) <==> CallersStayOpen(items, offered)
  {
    if CallersStayOpen(items, offered) {
      forall runs: Runtime, names: seq<Text> | SoundClassifier(items, runs) && names != [] && Chain(items, runs, names)
        ensures Covered(FirstPerKey(KeyOfEdge, offered), names)
      {
        ChainCovered(universe, items, offered, runs, names);
      }
    }
    if AllCovered(items, offered) {
      forall i: nat, b: nat | IsCallSite(items, i, b) && !items[i].blocks[b].callee.Must?
        ensures LeadsOpen(offered, items[i].info.name)
      {
        if !LeadsOpen(offered, items[i].info.name) {
          var runs, names := UncoveredChain(items, offered, i, b);
        }
      }
    }
  }

  /** What `classify_callee` and `classify_resolved` give: an open answer names a foreign
      item or nothing, a MUST answer names neither. */
  ghost predicate NamesApart(items: seq<Instance>) {
    forall i: nat, b: nat, j: nat, c: nat ::
      IsCallSite(items, i, b) && IsCallSite(items, j, c) && items[i].blocks[b].callee.Must? && items[j].blocks[c].callee.Top? ==>
        items[i].blocks[b].callee.name != items[j].blocks[c].callee.name
  }

  lemma EdgeHasSite(items: seq<Instance>, r: Record) returns (i: nat, b: nat)
    requires r in AllEdges(items)
    ensures IsCallSite(items, i, b) && r == SiteEdge(items, i, b)
  {
    AllEdgesMembers(items, r);
    var inst :| inst in items && r in WalkEdges(inst);
    BlockEdgesMembers(inst, inst.blocks, r);
    i :| i < |items| && items[i] == inst;
    b :| b < |inst.blocks| && inst.blocks[b].CallShape? && r == EdgeFor(inst, inst.blocks[b].site, inst.blocks[b].callee);
  }

  /** A MUST edge and an open edge of one key name one callee. */
  lemma ClashNamesOneCallee(universe: seq<FnInfo>, items: seq<Instance>, offered: seq<Record>, must: Record, top: Record)
    requires Analysed(universe, items, offered) && must in offered && top in offered
    requires IsMust(must) && IsTop(top) && KeyOfEdge(must) == KeyOfEdge(top)
    ensures !NamesApart(items)
  {
    var anchors :| offered == AllEdges(items) + anchors
                   && Members(anchors) == Anchors(Names(universe, items) - WalkedNames(items));
    assert must !in anchors by {
      assert must in anchors ==> must in Members(anchors);
    }
    CallersAreWalked(items, must);
    assert top !in anchors by {
      assert top in anchors ==> top in Members(anchors);
    }
    var i, b := EdgeHasSite(items, must);
    var j, c := EdgeHasSite(items, top);
  }

  /** With the names that the classifier gives, no key of an open edge is led by a MUST edge. */
  lemma NamesApartLead(universe: seq<FnInfo>, items: seq<Instance>, offered: seq<Record>)
    requires Analysed(universe, items, offered) && NamesApart(items)
    ensures NoMustLeads(offered)
  {
    hide Analysed;
    hide NamesApart;
    forall e, r | e in FirstPerKey(KeyOfEdge, offered) && r in offered && IsTop(r) && KeyOfEdge(e) == KeyOfEdge(r)
      ensures IsTop(e)
    {
      KeptMember(KeyOfEdge, offered, e);
      if !IsTop(e) {
        ClashNamesOneCallee(universe, items, offered, e, r);
      }
    }
  }

  lemma SurvivorsLead(universe: seq<FnInfo>, items: seq<Instance>, offered: seq<Record>)
    requires Analysed(universe, items, offered) && TopsSurvive(offered)
    ensures CallersStayOpen(items, offered)
  {
    hide LeadsOpen;
    hide FirstPerKey;
    hide AllEdges;
    forall i: nat, b: nat | IsCallSite(items, i, b) && !items[i].blocks[b].callee.Must?
      ensures LeadsOpen(offered, items[i].info.name)
    {
      SiteOffered(items, i, b);
      var edge := SiteEdge(items, i, b);
      assert edge in offered && IsTop(edge);
      var e :| e in FirstPerKey(KeyOfEdge, offered) && KeyOfEdge(e) == KeyOfEdge(edge) && IsTop(e);
      LeadsOpenIsKept(offered, items[i].info.name);
    }
  }

  /** Then nothing is lost: open frontiers survive and every chain is covered. */
  lemma SourceNamesCover(universe: seq<FnInfo>, items: seq<Instance>, offered: seq<Record>)
    requires Analysed(universe, items, offered) && NamesApart(items)
    ensures TopsSurvive(offered) && AllCovered(items, offered)
  {
    NamesApartLead(universe, items, offered);
    OpenFrontiersSurvive(offered);
    SurvivorsLead(universe, items, offered);
    CoverageExact(universe, items, offered);
  }
}
