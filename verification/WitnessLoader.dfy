/** Loading a local-recursion witness: capacity-consuming approval of transitions and
    residuals against positioned rows (roster/tezos-local-recursion/witness.js:136-216). */
module WitnessLoader {
  import opened Counter
  import opened Prelude
  import opened Rows
  import opened NativeEvidence

  /** One application, across artifacts. */
  datatype Head = Head(cmt: string, index: int)

  datatype Transition = Transition(head: Head, storage: Storage, reviewed: bool, before: PosRow, after: PosRow)

  datatype Residual = Residual(head: Head, arity: int, arguments: int, after: PosRow)

  datatype Refusal =
    | DuplicateArtifact | Unreviewed | UnknownArtifact | UnknownOccurrence | HeadReused | BadPair
    | NoBeforeCapacity | NoAfterCapacity | PartialGroup | StorageChanged
    | NoApprovedHead | ResidualReused | NotOverapplied | ArityMismatch | ResidualMismatch

  // ---------------------------------------------------------------- lookups

  function FindRecord(records: seq<Evidence>, cmt: string): (r: Option<Evidence>)
    ensures r.Some? ==> r.value in records && r.value.cmt == cmt
  {
    if records == [] then None
    else if records[0].cmt == cmt then Some(records[0])
    else FindRecord(records[1..], cmt)
  }

  function FindApp(apps: seq<App>, index: int): (r: Option<App>)
    ensures r.Some? ==> r.value in apps && r.value.index == index
  {
    if apps == [] then None
    else if apps[0].index == index then Some(apps[0])
    else FindApp(apps[1..], index)
  }

  /** The application a head names, if the evidence has it. */
  function AppOf(records: seq<Evidence>, h: Head): Option<App> {
    var record := FindRecord(records, h.cmt);
    if record.None? then None else FindApp(record.value.apps, h.index)
  }

  // ---------------------------------------------------------------- what is accepted

  predicate TransitionOk(records: seq<Evidence>, t: Transition) {
    && t.reviewed && AppOf(records, t.head).Some?
    && NativePair(FindRecord(records, t.head.cmt).value, AppOf(records, t.head).value, t.storage, t.before, t.after)
  }

  function HeadOf(t: Transition): Head { t.head }

  ghost function Befores(ts: seq<Transition>): multiset<PosRow> {
    if ts == [] then multiset{} else Befores(ts[..|ts| - 1]) + multiset{ts[|ts| - 1].before}
  }

  ghost function Afters(ts: seq<Transition>): multiset<PosRow> {
    if ts == [] then multiset{} else Afters(ts[..|ts| - 1]) + multiset{ts[|ts| - 1].after}
  }

  ghost function Extras(ws: seq<Residual>): multiset<PosRow> {
    if ws == [] then multiset{} else Extras(ws[..|ws| - 1]) + multiset{ws[|ws| - 1].after}
  }

  ghost predicate HeadUsed(ts: seq<Transition>, h: Head) {
    exists t :: t in ts && t.head == h
  }

  ghost predicate ResidualUsed(ws: seq<Residual>, h: Head) {
    exists w :: w in ws && w.head == h
  }

  ghost predicate DistinctHeads(ts: seq<Transition>) {
    forall i, j :: 0 <= i < j < |ts| ==> ts[i].head != ts[j].head
  }

  ghost predicate DistinctResiduals(ws: seq<Residual>) {
    forall i, j :: 0 <= i < j < |ws| ==> ws[i].head != ws[j].head
  }

  ghost predicate TransitionsFit(records: seq<Evidence>, base: multiset<PosRow>, cand: multiset<PosRow>, ts: seq<Transition>) {
    && (forall t :: t in ts ==> TransitionOk(records, t))
    && DistinctHeads(ts) && Befores(ts) <= base && Afters(ts) <= cand
  }

  /** Occurrence `i` of the artifact is covered for the group `key`. */
  ghost predicate Covered(records: seq<Evidence>, ts: seq<Transition>, cmt: string, key: string, i: int) {
    exists t :: t in ts && t.head == Head(cmt, i) && AppOf(records, t.head).Some? && AppOf(records, t.head).value.groupKey == key
  }

  ghost predicate GroupCovered(records: seq<Evidence>, ts: seq<Transition>, t: Transition) {
    var app := AppOf(records, t.head);
    && app.Some? && app.value.storageUnconfirmed
    && forall i :: i in app.value.listed ==> Covered(records, ts, t.head.cmt, app.value.groupKey, i)
  }

  /** Lines 210-212. */
  predicate ResidualMatches(app: App, headAfter: PosRow, after: PosRow) {
    var r := after.row;
    && r.callerPath == headAfter.row.callerPath && r.caller == app.callerName && r.callSite == Some(Site(app))
    && r.target.None? && r.targetPath.None? && r.calleeName == "*TOP*" && r.kind == MAY_TOP
    && r.topReason == Some("callback_param") && r.topAnchor == Some(Site(app)) && r.edgeForm.None?
  }

  ghost predicate ResidualOk(records: seq<Evidence>, ts: seq<Transition>, w: Residual) {
    exists t :: && t in ts && t.head == w.head && AppOf(records, w.head).Some?
                && var app := AppOf(records, w.head).value;
                   app.supplied > app.arity && w.arity == app.arity && w.arguments == app.supplied
                   && ResidualMatches(app, t.after, w.after)
  }

  ghost predicate ResidualsFit(records: seq<Evidence>, cand: multiset<PosRow>, ts: seq<Transition>, ws: seq<Residual>) {
    && (forall w :: w in ws ==> ResidualOk(records, ts, w))
    && DistinctResiduals(ws) && Afters(ts) + Extras(ws) <= cand
  }

  ghost predicate DistinctArtifacts(records: seq<Evidence>) {
    forall i, j :: 0 <= i < j < |records| ==> records[i].cmt != records[j].cmt
  }

  /** The closed form of acceptance. */
  ghost predicate Accepts(records: seq<Evidence>, baseline: seq<PosRow>, candidate: seq<PosRow>,
                          ts: seq<Transition>, ws: seq<Residual>) {
    && DistinctArtifacts(records)
    && TransitionsFit(records, multiset(baseline), multiset(candidate), ts)
    && (forall t :: t in ts ==> GroupCovered(records, ts, t))
    && ResidualsFit(records, multiset(candidate), ts, ws)
  }

  lemma BeforesAppend(ts: seq<Transition>, t: Transition)
    ensures Befores(ts + [t]) == Befores(ts) + multiset{t.before}
    ensures Afters(ts + [t]) == Afters(ts) + multiset{t.after}
    ensures forall u :: u in ts + [t] <==> u in ts || u == t
    ensures forall h :: HeadUsed(ts + [t], h) <==> HeadUsed(ts, h) || h == t.head
  {
    assert (ts + [t])[..|ts|] == ts;
    assert forall u :: u in ts + [t] <==> u in ts || u == t;
    assert t in ts + [t];
  }

  lemma DistinctAppend(ts: seq<Transition>, t: Transition)
    ensures DistinctHeads(ts + [t]) <==> DistinctHeads(ts) && !HeadUsed(ts, t.head)
  {
    var all := ts + [t];
    assert all[|ts|] == t;
    if DistinctHeads(all) {
      forall u | u in ts
        ensures u.head != t.head
      {
        var i :| 0 <= i < |ts| && ts[i] == u;
        assert all[i] == u;
      }
      assert forall i :: 0 <= i < |ts| ==> all[i] == ts[i];
    }
    if DistinctHeads(ts) && !HeadUsed(ts, t.head) {
      forall i, j | 0 <= i < j < |all|
        ensures all[i].head != all[j].head
      {
        assert ts[i] in ts;
      }
    }
  }

  lemma ResidualsAppend(ws: seq<Residual>, w: Residual)
    ensures Extras(ws + [w]) == Extras(ws) + multiset{w.after}
    ensures forall u :: u in ws + [w] <==> u in ws || u == w
    ensures forall h :: ResidualUsed(ws + [w], h) <==> ResidualUsed(ws, h) || h == w.head
    ensures DistinctResiduals(ws + [w]) <==> DistinctResiduals(ws) && !ResidualUsed(ws, w.head)
  {
    var all := ws + [w];
    assert all[..|ws|] == ws && all[|ws|] == w;
    assert forall u :: u in all <==> u in ws || u == w;
    assert w in all;
    if DistinctResiduals(all) {
      forall u | u in ws
        ensures u.head != w.head
      {
        var i :| 0 <= i < |ws| && ws[i] == u;
        assert all[i] == u;
      }
      assert forall i :: 0 <= i < |ws| ==> all[i] == ws[i];
    }
    if DistinctResiduals(ws) && !ResidualUsed(ws, w.head) {
      forall i, j | 0 <= i < j < |all|
        ensures all[i].head != all[j].head
      {
        assert ws[i] in ws;
      }
    }
  }

  /** One more transition fits exactly when the earlier ones do, it is in order, its head is
      new, and both its rows have capacity left. */
  lemma OneMoreFits(records: seq<Evidence>, base: multiset<PosRow>, cand: multiset<PosRow>, ts: seq<Transition>, t: Transition)
    ensures TransitionsFit(records, base, cand, ts + [t]) <==>
            && TransitionsFit(records, base, cand, ts) && TransitionOk(records, t) && !HeadUsed(ts, t.head)
            && (base - Befores(ts))[t.before] > 0 && (cand - Afters(ts))[t.after] > 0
  {
    BeforesAppend(ts, t);
    DistinctAppend(ts, t);
    OneMoreIncluded(base, Befores(ts), t.before);
    OneMoreIncluded(cand, Afters(ts), t.after);
    assert t in ts + [t];
  }

  lemma OneMoreResidualFits(records: seq<Evidence>, cand: multiset<PosRow>, ts: seq<Transition>, ws: seq<Residual>, w: Residual)
    ensures ResidualsFit(records, cand, ts, ws + [w]) <==>
            && ResidualsFit(records, cand, ts, ws) && ResidualOk(records, ts, w) && !ResidualUsed(ws, w.head)
            && (cand - (Afters(ts) + Extras(ws)))[w.after] > 0
  {
    ResidualsAppend(ws, w);
    OneMoreIncluded(cand, Afters(ts) + Extras(ws), w.after);
    assert Afters(ts) + Extras(ws + [w]) == Afters(ts) + Extras(ws) + multiset{w.after};
    assert w in ws + [w];
  }

  // ---------------------------------------------------------------- the loops

  datatype Group = Group(cmt: string, key: string)

  /** The maps and sets that the loops fill. */
  datatype State = State(before: map<PosRow, nat>, after: map<PosRow, nat>, approved: map<Head, Transition>,
                         covered: map<Group, set<int>>, residualUse: set<Head>)

  ghost predicate ApprovedAre(approved: map<Head, Transition>, ts: seq<Transition>) {
    && (forall h :: h in approved <==> HeadUsed(ts, h))
    && (forall h :: h in approved ==> approved[h] in ts && approved[h].head == h)
  }

  ghost predicate CoveredAre(records: seq<Evidence>, covered: map<Group, set<int>>, ts: seq<Transition>) {
    forall cmt, key, i :: InMap(covered, cmt, key, i) <==> Covered(records, ts, cmt, key, i)
  }

  /** The state after approving exactly the given transitions and residuals. */
  ghost predicate Reflects(records: seq<Evidence>, st: State, ts: seq<Transition>, ws: seq<Residual>,
                           base: multiset<PosRow>, cand: multiset<PosRow>) {
    && Counts(st.before, base - Befores(ts)) && Counts(st.after, cand - (Afters(ts) + Extras(ws)))
    && ApprovedAre(st.approved, ts) && CoveredAre(records, st.covered, ts)
    && forall h :: h in st.residualUse <==> ResidualUsed(ws, h)
  }

  /** Lines 179-190, for one transition. */
  method ApproveOne(records: seq<Evidence>, st: State, t: Transition,
                    ghost ts: seq<Transition>, ghost base: multiset<PosRow>, ghost cand: multiset<PosRow>)
    returns (r: Result<State, Refusal>)
    requires Reflects(records, st, ts, [], base, cand) && TransitionsFit(records, base, cand, ts)
    ensures r.Ok? <==> TransitionsFit(records, base, cand, ts + [t])
    ensures r.Ok? ==> Reflects(records, r.value, ts + [t], [], base, cand)
  {
    OneMoreFits(records, base, cand, ts, t);
    NoResiduals(ts);
    if !t.reviewed {
      return Err(Unreviewed);
    }
    var record := FindRecord(records, t.head.cmt);
    if record.None? {
      return Err(UnknownArtifact);
    }
    if t.head in st.approved {
      return Err(HeadReused);
    }
    var app := FindApp(record.value.apps, t.head.index);
    if app.None? {
      return Err(UnknownOccurrence);
    }
    if !NativePair(record.value, app.value, t.storage, t.before, t.after) {
      return Err(BadPair);
    }
    assert Count(st.before, t.before) == (base - Befores(ts))[t.before];
    if Count(st.before, t.before) < 1 {
      return Err(NoBeforeCapacity);
    }
    assert Count(st.after, t.after) == (cand - Afters(ts))[t.after];
    if Count(st.after, t.after) < 1 {
      return Err(NoAfterCapacity);
    }
    var before := Consume(st.before, t.before, base - Befores(ts));
    var after := Consume(st.after, t.after, cand - Afters(ts));
    var group := Group(record.value.cmt, app.value.groupKey);
    var occurrences := if group in st.covered then st.covered[group] else {};
    r := Ok(State(before, after, st.approved[t.head := t], st.covered[group := occurrences + {t.head.index}], {}));
    BeforesAppend(ts, t);
    NoResiduals(ts + [t]);
    TakeOne(base, Befores(ts), t.before);
    TakeOne(cand, Afters(ts), t.after);
    ApprovedGrows(st.approved, ts, t);
    CoveredGrows(records, st.covered, ts, t, app.value);
  }

  lemma NoResiduals(ts: seq<Transition>)
    ensures Afters(ts) + Extras([]) == Afters(ts)
    ensures forall h :: !ResidualUsed([], h)
  {
  }

  lemma UsedAppend(ts: seq<Transition>, t: Transition, h: Head)
    ensures HeadUsed(ts + [t], h) <==> HeadUsed(ts, h) || h == t.head
  {
    assert t in ts + [t];
    if u :| u in ts && u.head == h {
      assert u in ts + [t];
    }
  }

  lemma ApprovedGrows(approved: map<Head, Transition>, ts: seq<Transition>, t: Transition)
    requires ApprovedAre(approved, ts)
    ensures ApprovedAre(approved[t.head := t], ts + [t])
  {
    var grown := approved[t.head := t];
    forall h
      ensures h in grown <==> HeadUsed(ts + [t], h)
    {
      UsedAppend(ts, t, h);
    }
    forall h | h in grown
      ensures grown[h] in ts + [t] && grown[h].head == h
    {
      if h == t.head {
        assert grown[h] == t;
      } else {
        assert approved[h] in ts;
      }
    }
  }

  lemma CoveredGrows(records: seq<Evidence>, covered: map<Group, set<int>>, ts: seq<Transition>, t: Transition, app: App)
    requires CoveredAre(records, covered, ts) && AppOf(records, t.head) == Some(app)
    ensures var group := Group(t.head.cmt, app.groupKey);
            var known := if group in covered then covered[group] else {};
            CoveredAre(records, covered[group := known + {t.head.index}], ts + [t])
  {
    var group := Group(t.head.cmt, app.groupKey);
    var known := if group in covered then covered[group] else {};
    forall cmt, key, i
      ensures InMap(covered[group := known + {t.head.index}], cmt, key, i) <==> Covered(records, ts + [t], cmt, key, i)
    {
      CoveredAppend(records, ts, t, app, cmt, key, i);
      InMapGrows(covered, t.head, app.groupKey, cmt, key, i);
    }
  }

  predicate InMap(covered: map<Group, set<int>>, cmt: string, key: string, i: int) {
    Group(cmt, key) in covered && i in covered[Group(cmt, key)]
  }

  lemma InMapGrows(covered: map<Group, set<int>>, h: Head, groupKey: string, cmt: string, key: string, i: int)
    ensures var group := Group(h.cmt, groupKey);
            var known := if group in covered then covered[group] else {};
            InMap(covered[group := known + {h.index}], cmt, key, i) <==>
            InMap(covered, cmt, key, i) || (h == Head(cmt, i) && groupKey == key)
  {
  }

  lemma CoveredAppend(records: seq<Evidence>, ts: seq<Transition>, t: Transition, app: App, cmt: string, key: string, i: int)
    requires AppOf(records, t.head) == Some(app)
    ensures Covered(records, ts + [t], cmt, key, i) <==>
            Covered(records, ts, cmt, key, i) || (t.head == Head(cmt, i) && app.groupKey == key)
  {
    assert forall u :: u in ts + [t] <==> u in ts || u == t;
    assert t in ts + [t];
  }

  /** Lines 178-191. */
  method ApproveTransitions(records: seq<Evidence>, st0: State, ts: seq<Transition>, ghost base: multiset<PosRow>, ghost cand: multiset<PosRow>)
    returns (r: Result<State, Refusal>)
    requires Reflects(records, st0, [], [], base, cand)
    ensures r.Ok? <==> TransitionsFit(records, base, cand, ts)
    ensures r.Ok? ==> Reflects(records, r.value, ts, [], base, cand)
  {
    var st := st0;
    assert ts[..0] == [];
    for i := 0 to |ts|
      invariant TransitionsFit(records, base, cand, ts[..i]) && Reflects(records, st, ts[..i], [], base, cand)
    {
      TakeNext(ts, i);
      var one := ApproveOne(records, st, ts[i], ts[..i], base, cand);
      if one.Err? {
        PrefixFits(records, base, cand, ts, i + 1);
        return Err(one.error);
      }
      st := one.value;
    }
    TakeAll(ts);
    return Ok(st);
  }

  lemma {:induction false} PrefixFits(records: seq<Evidence>, base: multiset<PosRow>, cand: multiset<PosRow>, ts: seq<Transition>, i: nat)
    requires i <= |ts|
    ensures TransitionsFit(records, base, cand, ts) ==> TransitionsFit(records, base, cand, ts[..i])
    decreases |ts|
  {
    if i < |ts| {
      var front := ts[..|ts| - 1];
      assert ts == front + [ts[|ts| - 1]] && front[..i] == ts[..i];
      OneMoreFits(records, base, cand, front, ts[|ts| - 1]);
      PrefixFits(records, base, cand, front, i);
    } else {
      TakeAll(ts);
    }
  }

  /** Lines 192-198. */
  method CheckGroups(records: seq<Evidence>, st: State, ts: seq<Transition>) returns (r: Option<Refusal>)
    requires CoveredAre(records, st.covered, ts) && forall t :: t in ts ==> AppOf(records, t.head).Some?
    ensures r.None? <==> forall t :: t in ts ==> GroupCovered(records, ts, t)
  {
    for i := 0 to |ts|
      invariant forall h :: 0 <= h < i ==> GroupCovered(records, ts, ts[h])
    {
      var t := ts[i];
      assert t in ts;
      var app := AppOf(records, t.head).value;
      var group := Group(t.head.cmt, app.groupKey);
      var covered := if group in st.covered then st.covered[group] else {};
      if exists k :: k in app.listed && k !in covered {
        ghost var k :| k in app.listed && k !in covered;
        assert !Covered(records, ts, t.head.cmt, app.groupKey, k);
        return Some(PartialGroup);
      }
      if !app.storageUnconfirmed {
        return Some(StorageChanged);
      }
      assert forall k :: k in app.listed ==> Covered(records, ts, t.head.cmt, app.groupKey, k);
    }
    return None;
  }

  /** Lines 201-215, for one residual. */
  method ApproveResidual(records: seq<Evidence>, st: State, w: Residual, ghost ts: seq<Transition>, ghost ws: seq<Residual>,
                         ghost base: multiset<PosRow>, ghost cand: multiset<PosRow>)
    returns (r: Result<State, Refusal>)
    requires Reflects(records, st, ts, ws, base, cand) && DistinctHeads(ts) && ResidualsFit(records, cand, ts, ws)
    requires forall t :: t in ts ==> AppOf(records, t.head).Some?
    ensures r.Ok? <==> ResidualsFit(records, cand, ts, ws + [w])
    ensures r.Ok? ==> Reflects(records, r.value, ts, ws + [w], base, cand)
  {
    hide CoveredAre;
    hide Afters;
    hide Extras;
    OneMoreResidualFits(records, cand, ts, ws, w);
    if w.head !in st.approved {
      assert !HeadUsed(ts, w.head);
      return Err(NoApprovedHead);
    }
    var t := st.approved[w.head];
    OneHead(records, ts, t, w);
    if w.head in st.residualUse {
      return Err(ResidualReused);
    }
    var app := AppOf(records, w.head).value;
    if !(app.supplied > app.arity) {
      return Err(NotOverapplied);
    }
    if w.arity != app.arity || w.arguments != app.supplied {
      return Err(ArityMismatch);
    }
    if !ResidualMatches(app, t.after, w.after) {
      return Err(ResidualMismatch);
    }
    ghost var used := Afters(ts) + Extras(ws);
    assert Count(st.after, w.after) == (cand - used)[w.after];
    if Count(st.after, w.after) < 1 {
      return Err(NoAfterCapacity);
    }
    var after := Consume(st.after, w.after, cand - used);
    ResidualsAppend(ws, w);
    TakeOne(cand, used, w.after);
    assert used + multiset{w.after} == Afters(ts) + Extras(ws + [w]);
    r := Ok(st.(after := after, residualUse := st.residualUse + {w.head}));
  }

  /** With distinct heads the approved transition is the only one a residual can name. */
  lemma OneHead(records: seq<Evidence>, ts: seq<Transition>, t: Transition, w: Residual)
    requires DistinctHeads(ts) && t in ts && t.head == w.head && AppOf(records, w.head).Some?
    ensures ResidualOk(records, ts, w) <==>
            var app := AppOf(records, w.head).value;
            app.supplied > app.arity && w.arity == app.arity && w.arguments == app.supplied
            && ResidualMatches(app, t.after, w.after)
  {
    var i :| 0 <= i < |ts| && ts[i] == t;
    forall u | u in ts && u.head == w.head
      ensures u == t
    {
      var j :| 0 <= j < |ts| && ts[j] == u;
      assert i == j;
    }
  }

  /** Lines 199-216. */
  method ApproveResiduals(records: seq<Evidence>, st0: State, ghost ts: seq<Transition>, ws: seq<Residual>,
                          ghost base: multiset<PosRow>, ghost cand: multiset<PosRow>)
    returns (r: Option<Refusal>)
    requires Reflects(records, st0, ts, [], base, cand) && TransitionsFit(records, base, cand, ts)
    ensures r.None? <==> ResidualsFit(records, cand, ts, ws)
  {
    var st := st0;
    NoResiduals(ts);
    for i := 0 to |ws|
      invariant ResidualsFit(records, cand, ts, ws[..i]) && Reflects(records, st, ts, ws[..i], base, cand)
    {
      TakeNext(ws, i);
      var one := ApproveResidual(records, st, ws[i], ts, ws[..i], base, cand);
      if one.Err? {
        ResidualPrefixFits(records, cand, ts, ws, i + 1);
        return Some(one.error);
      }
      st := one.value;
    }
    TakeAll(ws);
    return None;
  }

  lemma {:induction false} ResidualPrefixFits(records: seq<Evidence>, cand: multiset<PosRow>, ts: seq<Transition>, ws: seq<Residual>, i: nat)
    requires i <= |ws|
    ensures ResidualsFit(records, cand, ts, ws) ==> ResidualsFit(records, cand, ts, ws[..i])
    decreases |ws|
  {
    if i < |ws| {
      var front := ws[..|ws| - 1];
      assert ws == front + [ws[|ws| - 1]] && front[..i] == ws[..i];
      OneMoreResidualFits(records, cand, ts, front, ws[|ws| - 1]);
      ResidualPrefixFits(records, cand, ts, front, i);
    } else {
      TakeAll(ws);
    }
  }

  /** `loadWitness`, on parsed evidence: it refuses or accepts exactly by the closed form. */
  method LoadWitness(records: seq<Evidence>, baseline: seq<PosRow>, candidate: seq<PosRow>, ts: seq<Transition>, ws: seq<Residual>)
    returns (r: Option<Refusal>)
    ensures r.None? <==> Accepts(records, baseline, candidate, ts, ws)
  {
    if exists i, j :: 0 <= i < j < |records| && records[i].cmt == records[j].cmt {
      return Some(DuplicateArtifact);
    }
    var _, before := Counted(baseline);
    var _, after := Counted(candidate);
    var st := State(before, after, map[], map[], {});
    ghost var base, cand := multiset(baseline), multiset(candidate);
    StartReflects(records, st, base, cand);
    var approved := ApproveTransitions(records, st, ts, base, cand);
    if approved.Err? {
      return Some(approved.error);
    }
    r := CheckGroups(records, approved.value, ts);
    if r.Some? {
      return;
    }
    r := ApproveResiduals(records, approved.value, ts, ws, base, cand);
  }

  lemma StartReflects(records: seq<Evidence>, st: State, base: multiset<PosRow>, cand: multiset<PosRow>)
    requires Counts(st.before, base) && Counts(st.after, cand)
    requires st.approved == map[] && st.covered == map[] && st.residualUse == {}
    ensures Reflects(records, st, [], [], base, cand)
  {
    assert base - Befores([]) == base && cand - (Afters([]) + Extras([])) == cand;
  }

  // ---------------------------------------------------------------- what acceptance means

  /** Transitions map injectively to native occurrences, each to rows that are the native
      ones; what is left of the candidate after the transitions pays for the residuals, and
      every residual has a head of its own among the over-applied transitions. */
  lemma AcceptedWitness(records: seq<Evidence>, baseline: seq<PosRow>, candidate: seq<PosRow>, ts: seq<Transition>, ws: seq<Residual>)
    requires Accepts(records, baseline, candidate, ts, ws)
    ensures forall i, j :: 0 <= i < j < |ts| ==> ts[i].head != ts[j].head
    ensures forall t :: t in ts ==>
              AppOf(records, t.head).Some?
              && var app := AppOf(records, t.head).value;
                 t.after == NativeAfter(app) && t.before.(targetStart := None, targetEnd := None) == NativeBefore(app)
    ensures Befores(ts) <= multiset(baseline) && Afters(ts) + Extras(ws) <= multiset(candidate)
    ensures |ws| <= |ts| <= |baseline| && |ts| + |ws| <= |candidate|
    ensures forall i, j :: 0 <= i < j < |ws| ==> ws[i].head != ws[j].head
    ensures forall w :: w in ws ==> exists t :: t in ts && t.head == w.head
  {
    forall t | t in ts
      ensures AppOf(records, t.head).Some?
      ensures var app := AppOf(records, t.head).value;
              t.after == NativeAfter(app) && t.before.(targetStart := None, targetEnd := None) == NativeBefore(app)
    {
      assert TransitionOk(records, t);
      AcceptedPair(FindRecord(records, t.head.cmt).value, AppOf(records, t.head).value, t.storage, t.before, t.after);
    }
    Sizes(ts, ws);
    SubMultisetSize(Befores(ts), multiset(baseline));
    SubMultisetSize(Afters(ts) + Extras(ws), multiset(candidate));
    assert |multiset(baseline)| == |baseline| && |multiset(candidate)| == |candidate|;
    forall w | w in ws
      ensures exists t :: t in ts && t.head == w.head
    {
      assert ResidualOk(records, ts, w);
    }
    HeadsInject(ts, ws);
  }

  lemma {:induction false} Sizes(ts: seq<Transition>, ws: seq<Residual>)
    ensures |Befores(ts)| == |Afters(ts)| == |ts| && |Extras(ws)| == |ws|
    decreases |ts| + |ws|
  {
    if ts != [] {
      Sizes(ts[..|ts| - 1], []);
    }
    if ws != [] {
      Sizes([], ws[..|ws| - 1]);
    }
  }

  /** Distinct residual heads among distinct transition heads: no more residuals than
      transitions. */
  lemma HeadsInject(ts: seq<Transition>, ws: seq<Residual>)
    requires DistinctResiduals(ws) && forall w :: w in ws ==> HeadUsed(ts, w.head)
    ensures |ws| <= |ts|
  {
    var heads := set i | 0 <= i < |ts| :: ts[i].head;
    var used := set i | 0 <= i < |ws| :: ws[i].head;
    HeadCount(ts);
    ResidualCount(ws);
    forall h | h in used
      ensures h in heads
    {
      var i :| 0 <= i < |ws| && ws[i].head == h;
      assert ws[i] in ws;
      var t :| t in ts && t.head == h;
      var j :| 0 <= j < |ts| && ts[j] == t;
    }
    SubsetSize(used, heads);
  }

  lemma {:induction false} HeadCount(ts: seq<Transition>)
    ensures |set i | 0 <= i < |ts| :: ts[i].head| <= |ts|
  {
    var heads := set i | 0 <= i < |ts| :: ts[i].head;
    if ts == [] {
      assert heads == {};
    } else {
      var front := ts[..|ts| - 1];
      HeadCount(front);
      assert heads == (set i | 0 <= i < |front| :: front[i].head) + {ts[|ts| - 1].head};
    }
  }

  lemma {:induction false} ResidualCount(ws: seq<Residual>)
    requires DistinctResiduals(ws)
    ensures |set i | 0 <= i < |ws| :: ws[i].head| == |ws|
  {
    var heads := set i | 0 <= i < |ws| :: ws[i].head;
    if ws == [] {
      assert heads == {};
    } else {
      var front := ws[..|ws| - 1];
      ResidualCount(front);
      var rest := set i | 0 <= i < |front| :: front[i].head;
      assert heads == rest + {ws[|ws| - 1].head};
      assert ws[|ws| - 1].head !in rest;
    }
  }

  /** Every group with an approved member is covered completely: each application of the
      group has a transition of its own. */
  lemma GroupsComplete(records: seq<Evidence>, baseline: seq<PosRow>, candidate: seq<PosRow>, ts: seq<Transition>, ws: seq<Residual>,
                       t: Transition, other: App)
    requires Accepts(records, baseline, candidate, ts, ws) && t in ts
    requires other in FindRecord(records, t.head.cmt).value.apps
             && other.groupKey == AppOf(records, t.head).value.groupKey
    ensures exists u :: u in ts && u.head == Head(t.head.cmt, other.index)
  {
    assert TransitionOk(records, t) && GroupCovered(records, ts, t);
    var record, app := FindRecord(records, t.head.cmt).value, AppOf(records, t.head).value;
    AcceptedPair(record, app, t.storage, t.before, t.after);
    assert other.index in app.listed;
    assert Covered(records, ts, t.head.cmt, app.groupKey, other.index);
  }

  /** A residual's row is the application's call of whatever came back: its caller, its site, and
      no target. */
  lemma ResidualRow(app: App, headAfter: PosRow, after: PosRow)
    ensures ResidualMatches(app, headAfter, after) <==>
            after.row == Row(headAfter.row.callerPath, app.callerName, Some(Site(app)), None, None, "*TOP*", MAY_TOP, None,
                             Some("callback_param"), Some(Site(app)))
  {
  }

  /** What an accepted witness says of each of its transitions and residuals. */
  lemma AcceptedEach(records: seq<Evidence>, baseline: seq<PosRow>, candidate: seq<PosRow>, ts: seq<Transition>, ws: seq<Residual>)
    requires Accepts(records, baseline, candidate, ts, ws)
    ensures forall t :: t in ts ==>
              t.reviewed && exists record, app :: record in records && record.cmt == t.head.cmt && app in record.apps && app.index == t.head.index
                                                  && app.storageUnconfirmed && NativePair(record, app, t.storage, t.before, t.after)
    ensures forall w :: w in ws ==>
              exists t, record, app :: && t in ts && t.head == w.head && record in records && record.cmt == w.head.cmt
                                       && app in record.apps && app.index == w.head.index
                                       && app.supplied > app.arity == w.arity && w.arguments == app.supplied
                                       && ExtraRow(w) == Row(app.loc.startFile, app.callerName, Some(Site(app)), None, None, "*TOP*", MAY_TOP, None,
                                                          Some("callback_param"), Some(Site(app)))
  {
    hide NativePair;
    forall t | t in ts
      ensures t.reviewed && exists record, app :: record in records && record.cmt == t.head.cmt && app in record.apps && app.index == t.head.index
                                                  && app.storageUnconfirmed && NativePair(record, app, t.storage, t.before, t.after)
    {
      assert TransitionOk(records, t) && GroupCovered(records, ts, t);
    }
    forall w | w in ws
      ensures exists t, record, app :: && t in ts && t.head == w.head && record in records && record.cmt == w.head.cmt
                                       && app in record.apps && app.index == w.head.index
                                       && app.supplied > app.arity == w.arity && w.arguments == app.supplied
                                       && ExtraRow(w) == Row(app.loc.startFile, app.callerName, Some(Site(app)), None, None, "*TOP*", MAY_TOP, None,
                                                          Some("callback_param"), Some(Site(app)))
    {
      assert ResidualOk(records, ts, w);
      var t :| && t in ts && t.head == w.head && AppOf(records, w.head).Some?
               && var app := AppOf(records, w.head).value;
                  app.supplied > app.arity && w.arity == app.arity && w.arguments == app.supplied && ResidualMatches(app, t.after, w.after);
      var record, app := FindRecord(records, w.head.cmt).value, AppOf(records, w.head).value;
      assert TransitionOk(records, t);
      PairRows(record, app, t.storage, t.before, t.after);
      ResidualRow(app, t.after, w.after);
    }
  }

  function ExtraRow(w: Residual): Row { w.after.row }
}
