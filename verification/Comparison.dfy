/** The counted snapshot comparator (roster/tezos-call-resolution/comparison.js): canonical
    rows, multiset difference, and witness approval that consumes what it approves. */
module Comparison {
  import opened Counter
  import opened Prelude
  import opened Rows

  // ---------------------------------------------------------------- witnesses

  /** A reviewed pair: one removed fact turned into one added fact. */
  datatype Transition = Transition(before: Row, after: Row)

  /** A reviewed over-application: one extra added fact, charged to an approved head.
      `None` stands for a number that is no integer. */
  datatype Residual = Residual(after: Row, head: Transition, arity: Option<int>, arguments: Option<int>)

  predicate SameSite(a: Row, b: Row) {
    a.callerPath == b.callerPath && a.caller == b.caller && a.callSite == b.callSite
  }

  predicate Permitted(t: Transition) {
    && SameSite(t.before, t.after) && t.before.target.None?
    && t.before.kind == MAY_TOP && t.before.topReason == Some("module_param")
    && t.after.target.Some? && t.after.targetPath == Some(t.before.callerPath)
    && t.after.kind == MAY_ENUMERATED && t.after.topReason.None? && t.after.topAnchor.None?
    && t.after.edgeForm == t.before.edgeForm
  }

  predicate PermittedResidual(w: Residual) {
    && w.arity.Some? && w.arity.value > 0
    && w.arguments.Some? && w.arguments.value > w.arity.value
    && SameSite(w.after, w.head.after) && SameSite(w.head.before, w.head.after)
    && w.after.kind == MAY_TOP && w.after.topReason == Some("callback_param")
    && w.after.target.None? && w.after.calleeName == "*TOP*" && w.after.edgeForm.None?
    && w.after.topAnchor == w.after.callSite && w.head.after.edgeForm.None?
  }

  ghost function Befores(ts: seq<Transition>): multiset<Row> {
    if ts == [] then multiset{} else Befores(ts[..|ts| - 1]) + multiset{ts[|ts| - 1].before}
  }

  ghost function Afters(ts: seq<Transition>): multiset<Row> {
    if ts == [] then multiset{} else Afters(ts[..|ts| - 1]) + multiset{ts[|ts| - 1].after}
  }

  ghost function ResidualAfters(ws: seq<Residual>): multiset<Row> {
    if ws == [] then multiset{} else ResidualAfters(ws[..|ws| - 1]) + multiset{ws[|ws| - 1].after}
  }

  ghost function Heads(ws: seq<Residual>): multiset<Transition> {
    if ws == [] then multiset{} else Heads(ws[..|ws| - 1]) + multiset{ws[|ws| - 1].head}
  }

  /** The closed form of acceptance, with no mention of order or of consumption. */
  ghost predicate Accepts(oldRows: seq<Row>, newRows: seq<Row>, ts: seq<Transition>, ws: seq<Residual>) {
    && (forall t :: t in ts ==> Permitted(t))
    && (forall w :: w in ws ==> PermittedResidual(w))
    && Befores(ts) == multiset(oldRows) - multiset(newRows)
    && Afters(ts) + ResidualAfters(ws) == multiset(newRows) - multiset(oldRows)
    && Heads(ws) <= multiset(ts)
  }

  /** The witnesses so far are permitted and within what was removed and added. */
  ghost predicate TransitionsFit(removed: multiset<Row>, added: multiset<Row>, ts: seq<Transition>) {
    (forall t :: t in ts ==> Permitted(t)) && Befores(ts) <= removed && Afters(ts) <= added
  }

  ghost predicate ResidualsFit(added: multiset<Row>, ts: seq<Transition>, ws: seq<Residual>) {
    && (forall w :: w in ws ==> PermittedResidual(w))
    && Afters(ts) + ResidualAfters(ws) <= added
    && Heads(ws) <= multiset(ts)
  }

  lemma TransitionsAppend(ts: seq<Transition>, t: Transition)
    ensures Befores(ts + [t]) == Befores(ts) + multiset{t.before}
    ensures Afters(ts + [t]) == Afters(ts) + multiset{t.after}
  {
    assert (ts + [t])[..|ts|] == ts;
  }

  lemma ResidualsAppend(ws: seq<Residual>, w: Residual)
    ensures ResidualAfters(ws + [w]) == ResidualAfters(ws) + multiset{w.after}
    ensures Heads(ws + [w]) == Heads(ws) + multiset{w.head}
  {
    assert (ws + [w])[..|ws|] == ws;
  }

  function BeforeOf(t: Transition): Row { t.before }

  function AfterOf(t: Transition): Row { t.after }

  function ExtraOf(w: Residual): Row { w.after }

  function HeadOf(w: Residual): Transition { w.head }

  lemma {:induction false} TransitionsMapped(ts: seq<Transition>)
    ensures Befores(ts) == multiset(Map(BeforeOf, ts)) && Afters(ts) == multiset(Map(AfterOf, ts))
  {
    if ts != [] {
      var front, last := ts[..|ts| - 1], ts[|ts| - 1];
      TransitionsMapped(front);
      MapAppend(BeforeOf, front, last);
      MapAppend(AfterOf, front, last);
      assert ts == front + [last];
    }
  }

  lemma {:induction false} ResidualsMapped(ws: seq<Residual>)
    ensures ResidualAfters(ws) == multiset(Map(ExtraOf, ws)) && Heads(ws) == multiset(Map(HeadOf, ws))
  {
    if ws != [] {
      var front, last := ws[..|ws| - 1], ws[|ws| - 1];
      ResidualsMapped(front);
      MapAppend(ExtraOf, front, last);
      MapAppend(HeadOf, front, last);
      assert ws == front + [last];
    }
  }

  // ---------------------------------------------------------------- relations

  datatype RelationKey = RelationKey(
    callerPath: string, caller: string, callSite: Option<string>, targetPath: Option<string>, target: Option<string>)

  function KeyOfRow(r: Row): RelationKey {
    RelationKey(r.callerPath, r.caller, r.callSite, r.targetPath, r.target)
  }

  predicate IsRelation(r: Row) {
    r.edgeForm != Some(ValueAlias) && r.target.Some?
  }

  function RelationSet(rows: seq<Row>): set<RelationKey> {
    set r | r in rows && IsRelation(r) :: KeyOfRow(r)
  }

  function TransitionGains(ts: seq<Transition>, known: set<RelationKey>): set<RelationKey> {
    set t | t in ts && t.after.edgeForm != Some(ValueAlias) && KeyOfRow(t.after) !in known :: KeyOfRow(t.after)
  }

  lemma RemovedAreUnresolved(oldRows: seq<Row>, newRows: seq<Row>, ts: seq<Transition>, ws: seq<Residual>, r: Row)
    requires Accepts(oldRows, newRows, ts, ws) && r in multiset(oldRows) - multiset(newRows)
    ensures r.target.None?
  {
    TransitionsMapped(ts);
    var t := MapMember(BeforeOf, ts, r);
  }

  lemma AddedAreWitnessed(oldRows: seq<Row>, newRows: seq<Row>, ts: seq<Transition>, ws: seq<Residual>, r: Row)
    requires Accepts(oldRows, newRows, ts, ws) && r in multiset(newRows) - multiset(oldRows)
    ensures r.kind != MUST
    ensures r.target.Some? ==> exists t :: t in ts && t.after == r
  {
    TransitionsMapped(ts);
    ResidualsMapped(ws);
    if r in Afters(ts) {
      var t := MapMember(AfterOf, ts, r);
    } else {
      assert r in ResidualAfters(ws);
      var w := MapMember(ExtraOf, ws, r);
    }
  }

  lemma AfterIsAdded(oldRows: seq<Row>, newRows: seq<Row>, ts: seq<Transition>, ws: seq<Residual>, t: Transition)
    requires Accepts(oldRows, newRows, ts, ws) && t in ts
    ensures t.after in newRows && t.after.target.Some?
  {
    TransitionsMapped(ts);
    MapContains(AfterOf, ts, t);
    assert t.after in multiset(newRows) - multiset(oldRows);
  }

  /** After exact accounting nothing remains for the last three checks to find. */
  lemma AccountedNeedsNoMoreChecks(oldRows: seq<Row>, newRows: seq<Row>, ts: seq<Transition>, ws: seq<Residual>)
    requires Accepts(oldRows, newRows, ts, ws)
    ensures RelationSet(oldRows) <= RelationSet(newRows)
    ensures forall r :: r in multiset(newRows) - multiset(oldRows) ==> r.kind != MUST
    ensures RelationSet(newRows) - RelationSet(oldRows) == TransitionGains(ts, RelationSet(oldRows))
  {
    forall r | r in multiset(newRows) - multiset(oldRows)
      ensures r.kind != MUST
    {
      AddedAreWitnessed(oldRows, newRows, ts, ws, r);
    }
    forall r | r in oldRows && IsRelation(r)
      ensures r in newRows
    {
      if r in multiset(oldRows) - multiset(newRows) {
        RemovedAreUnresolved(oldRows, newRows, ts, ws, r);
      }
      assert r in multiset(oldRows);
      assert r in multiset(newRows);
    }
    forall r | r in newRows && IsRelation(r) && KeyOfRow(r) !in RelationSet(oldRows)
      ensures KeyOfRow(r) in TransitionGains(ts, RelationSet(oldRows))
    {
      assert r in multiset(newRows) && r !in multiset(oldRows);
      AddedAreWitnessed(oldRows, newRows, ts, ws, r);
    }
    forall t | t in ts && t.after.edgeForm != Some(ValueAlias)
      ensures KeyOfRow(t.after) in RelationSet(newRows)
    {
      AfterIsAdded(oldRows, newRows, ts, ws, t);
    }
  }

  // ---------------------------------------------------------------- the comparator

  datatype CompareError =
    | ForbiddenTransition(site: Row)
    | ForbiddenResidual(site: Row)
    | Unaccounted(removed: bool, count: nat, site: Row)
    | RelationLosses(n: nat)
    | NewMust
    | GainsMismatch(gains: nat, transitions: nat)

  datatype Slices = Slices(irmin: nat, protocol: nat, other: nat)

  datatype Report = Report(
    errors: seq<CompareError>, removed: seq<Row>, added: seq<Row>, transitions: seq<Transition>,
    residuals: seq<Residual>, losses: set<RelationKey>, gains: set<RelationKey>, slices: Slices)
  {
    predicate Ok() {
      errors == []
    }

    predicate Neutral() {
      removed == [] && added == []
    }
  }

  /** The maps the two approval loops work on. */
  datatype Accounts = Accounts(
    before: map<Row, nat>, after: map<Row, nat>, transitions: seq<Transition>, residuals: seq<Residual>,
    capacity: map<Transition, nat>)
  {
    /** Each counter holds what the approved witnesses have left over. */
    ghost predicate Balanced(removed: multiset<Row>, added: multiset<Row>) {
      && Befores(transitions) <= removed
      && Counts(before, removed - Befores(transitions))
      && Afters(transitions) + ResidualAfters(residuals) <= added
      && Counts(after, added - (Afters(transitions) + ResidualAfters(residuals)))
      && Heads(residuals) <= multiset(transitions)
      && Counts(capacity, multiset(transitions) - Heads(residuals))
    }
  }

  /** Lines 122-135: approve one witness if it is permitted and both its facts are left. */
  method ApproveOne(acc: Accounts, t: Transition, ghost removed: multiset<Row>, ghost added: multiset<Row>)
    returns (ok: bool, acc': Accounts)
    requires acc.Balanced(removed, added) && acc.residuals == []
    ensures ok <==> Permitted(t) && (removed - Befores(acc.transitions))[t.before] > 0
                    && (added - Afters(acc.transitions))[t.after] > 0
    ensures acc'.Balanced(removed, added) && acc'.residuals == []
    ensures acc'.transitions == if ok then acc.transitions + [t] else acc.transitions
    ensures acc'.before.Keys == acc.before.Keys && acc'.after.Keys == acc.after.Keys
  {
    ok, acc' := false, acc;
    ghost var leftBefore, leftAfter := removed - Befores(acc.transitions), added - Afters(acc.transitions);
    NoResiduals(acc.transitions);
    assert Count(acc.before, t.before) == leftBefore[t.before] && Count(acc.after, t.after) == leftAfter[t.after];
    if Permitted(t) && Count(acc.before, t.before) > 0 && Count(acc.after, t.after) > 0 {
      var before := Consume(acc.before, t.before, leftBefore);
      var after := Consume(acc.after, t.after, leftAfter);
      acc' := Accounts(before, after, acc.transitions + [t], [], acc.capacity[t := Count(acc.capacity, t) + 1]);
      TransitionBalances(acc, acc', t, removed, added);
      ok := true;
    }
  }

  lemma NoResiduals(ts: seq<Transition>)
    ensures Afters(ts) + ResidualAfters([]) == Afters(ts)
    ensures multiset(ts) - Heads([]) == multiset(ts)
  {
  }

  lemma TransitionBalances(acc: Accounts, acc': Accounts, t: Transition, removed: multiset<Row>, added: multiset<Row>)
    requires acc.Balanced(removed, added) && acc.residuals == acc'.residuals == []
    requires acc'.transitions == acc.transitions + [t]
    requires (removed - Befores(acc.transitions))[t.before] > 0 && (added - Afters(acc.transitions))[t.after] > 0
    requires Counts(acc'.before, removed - Befores(acc.transitions) - multiset{t.before})
    requires Counts(acc'.after, added - Afters(acc.transitions) - multiset{t.after})
    requires acc'.capacity == acc.capacity[t := Count(acc.capacity, t) + 1]
    ensures acc'.Balanced(removed, added)
  {
    TransitionsAppend(acc.transitions, t);
    NoResiduals(acc.transitions);
    NoResiduals(acc'.transitions);
    TakeOne(removed, Befores(acc.transitions), t.before);
    TakeOne(added, Afters(acc.transitions), t.after);
    CountGrows(acc.capacity, multiset(acc.transitions), t);
    assert multiset(acc'.transitions) == multiset(acc.transitions) + multiset{t};
  }

  /** The witnesses that one pass in order grants: each while both its facts are left. */
  ghost function Granted(ts: seq<Transition>, removed: multiset<Row>, added: multiset<Row>): seq<Transition> {
    if ts == [] then []
    else
      var front, t := Granted(ts[..|ts| - 1], removed, added), ts[|ts| - 1];
      if Permitted(t) && (removed - Befores(front))[t.before] > 0 && (added - Afters(front))[t.after] > 0 then front + [t] else front
  }

  lemma GrantedNext(ts: seq<Transition>, i: nat, removed: multiset<Row>, added: multiset<Row>)
    requires i < |ts|
    ensures var front, t := Granted(ts[..i], removed, added), ts[i];
            Granted(ts[..i + 1], removed, added) ==
            if Permitted(t) && (removed - Befores(front))[t.before] > 0 && (added - Afters(front))[t.after] > 0 then front + [t] else front
  {
    assert ts[..i + 1][..i] == ts[..i];
  }

  /** The residuals that one pass in order charges to the granted transitions. */
  ghost function Charged(ws: seq<Residual>, ts: seq<Transition>, added: multiset<Row>): seq<Residual> {
    if ws == [] then []
    else
      var front, w := Charged(ws[..|ws| - 1], ts, added), ws[|ws| - 1];
      if Chargeable(w, ts, front, added) then front + [w] else front
  }

  ghost predicate Chargeable(w: Residual, ts: seq<Transition>, front: seq<Residual>, added: multiset<Row>) {
    && PermittedResidual(w) && (multiset(ts) - Heads(front))[w.head] > 0
    && (added - (Afters(ts) + ResidualAfters(front)))[w.after] > 0
  }

  lemma ChargedNext(ws: seq<Residual>, i: nat, ts: seq<Transition>, added: multiset<Row>)
    requires i < |ws|
    ensures var front := Charged(ws[..i], ts, added);
            Charged(ws[..i + 1], ts, added) == if Chargeable(ws[i], ts, front, added) then front + [ws[i]] else front
  {
    assert ws[..i + 1][..i] == ws[..i];
  }

  lemma NoneGranted(removed: multiset<Row>, added: multiset<Row>)
    ensures Granted([], removed, added) == []
  {
  }

  lemma NoneFit(removed: multiset<Row>, added: multiset<Row>)
    ensures TransitionsFit(removed, added, [])
  {
  }

  /** Lines 121-136. */
  method ApproveTransitions(start: Accounts, ts: seq<Transition>, ghost removed: multiset<Row>, ghost added: multiset<Row>)
    returns (errors: seq<CompareError>, acc: Accounts)
    requires start.Balanced(removed, added) && start.transitions == [] && start.residuals == []
    ensures errors == [] <==> TransitionsFit(removed, added, ts)
    ensures errors == [] ==> acc.transitions == ts
    ensures acc.transitions == Granted(ts, removed, added) && |errors| == |ts| - |acc.transitions|
    ensures acc.Balanced(removed, added) && acc.residuals == []
    ensures acc.before.Keys == start.before.Keys && acc.after.Keys == start.after.Keys
  {
    hide TransitionsFit;
    hide Permitted;
    hide Befores;
    hide Afters;
    hide Granted;
    errors, acc := [], start;
    NoneGranted(removed, added);
    NoneFit(removed, added);
    for i := 0 to |ts|
      invariant errors == [] <==> TransitionsFit(removed, added, ts[..i])
      invariant errors == [] ==> acc.transitions == ts[..i]
      invariant acc.transitions == Granted(ts[..i], removed, added) && |errors| == i - |acc.transitions|
      invariant acc.Balanced(removed, added) && acc.residuals == []
      invariant acc.before.Keys == start.before.Keys && acc.after.Keys == start.after.Keys
    {
      var t := ts[i];
      TakeNext(ts, i);
      OneMoreFits(removed, added, ts[..i], t);
      GrantedNext(ts, i, removed, added);
      var ok;
      ok, acc := ApproveOne(acc, t, removed, added);
      if !ok {
        errors := errors + [ForbiddenTransition(t.before)];
      }
    }
    TakeAll(ts);
  }

  /** One more witness fits exactly when the earlier ones do, it is permitted, and both
      sides still hold a copy. */
  lemma OneMoreFits(removed: multiset<Row>, added: multiset<Row>, ts: seq<Transition>, t: Transition)
    ensures TransitionsFit(removed, added, ts + [t]) <==>
            && TransitionsFit(removed, added, ts) && Permitted(t)
            && (removed - Befores(ts))[t.before] > 0 && (added - Afters(ts))[t.after] > 0
  {
    TransitionsAppend(ts, t);
    assert forall u :: u in ts + [t] <==> u in ts || u == t;
    OneMoreIncluded(removed, Befores(ts), t.before);
    OneMoreIncluded(added, Afters(ts), t.after);
  }

  /** Lines 138-150: charge one residual to a head that has capacity left. */
  method ApproveResidual(acc: Accounts, w: Residual, ghost removed: multiset<Row>, ghost added: multiset<Row>)
    returns (ok: bool, acc': Accounts)
    requires acc.Balanced(removed, added)
    ensures ok <==> && PermittedResidual(w)
                    && (multiset(acc.transitions) - Heads(acc.residuals))[w.head] > 0
                    && (added - (Afters(acc.transitions) + ResidualAfters(acc.residuals)))[w.after] > 0
    ensures acc'.Balanced(removed, added)
    ensures acc'.transitions == acc.transitions && acc'.before == acc.before
    ensures acc'.residuals == if ok then acc.residuals + [w] else acc.residuals
    ensures acc'.after.Keys == acc.after.Keys
  {
    ok, acc' := false, acc;
    ghost var used := Afters(acc.transitions) + ResidualAfters(acc.residuals);
    assert Count(acc.after, w.after) == (added - used)[w.after];
    assert Count(acc.capacity, w.head) == (multiset(acc.transitions) - Heads(acc.residuals))[w.head];
    if PermittedResidual(w) && Count(acc.capacity, w.head) > 0 && Count(acc.after, w.after) > 0 {
      var after := Consume(acc.after, w.after, added - used);
      acc' := Accounts(acc.before, after, acc.transitions, acc.residuals + [w],
                       acc.capacity[w.head := acc.capacity[w.head] - 1]);
      ResidualBalances(acc, acc', w, removed, added);
      ok := true;
    }
  }

  lemma ResidualBalances(acc: Accounts, acc': Accounts, w: Residual, removed: multiset<Row>, added: multiset<Row>)
    requires acc.Balanced(removed, added) && acc'.transitions == acc.transitions && acc'.before == acc.before
    requires acc'.residuals == acc.residuals + [w]
    requires (added - (Afters(acc.transitions) + ResidualAfters(acc.residuals)))[w.after] > 0
    requires Counts(acc'.after, added - (Afters(acc.transitions) + ResidualAfters(acc.residuals)) - multiset{w.after})
    requires Count(acc.capacity, w.head) > 0
    requires acc'.capacity == acc.capacity[w.head := acc.capacity[w.head] - 1]
    ensures acc'.Balanced(removed, added)
  {
    var used := Afters(acc.transitions) + ResidualAfters(acc.residuals);
    ResidualsAppend(acc.residuals, w);
    TakeOne(added, used, w.after);
    CountShrinks(acc.capacity, multiset(acc.transitions) - Heads(acc.residuals), w.head);
    TakeOne(multiset(acc.transitions), Heads(acc.residuals), w.head);
    assert used + multiset{w.after} == Afters(acc.transitions) + ResidualAfters(acc'.residuals);
  }

  lemma OneMoreResidualFits(added: multiset<Row>, ts: seq<Transition>, ws: seq<Residual>, w: Residual)
    ensures ResidualsFit(added, ts, ws + [w]) <==>
            && ResidualsFit(added, ts, ws) && PermittedResidual(w)
            && (multiset(ts) - Heads(ws))[w.head] > 0
            && (added - (Afters(ts) + ResidualAfters(ws)))[w.after] > 0
  {
    ResidualsAppend(ws, w);
    assert forall u :: u in ws + [w] <==> u in ws || u == w;
    assert Afters(ts) + ResidualAfters(ws + [w]) == Afters(ts) + ResidualAfters(ws) + multiset{w.after};
    OneMoreIncluded(added, Afters(ts) + ResidualAfters(ws), w.after);
    OneMoreIncluded(multiset(ts), Heads(ws), w.head);
  }

  lemma NoResidualFits(acc: Accounts, removed: multiset<Row>, added: multiset<Row>)
    requires acc.Balanced(removed, added) && acc.residuals == []
    ensures ResidualsFit(added, acc.transitions, [])
  {
    NoResiduals(acc.transitions);
  }

  /** Lines 137-151. */
  method ApproveResiduals(errors0: seq<CompareError>, start: Accounts, ws: seq<Residual>,
                          ghost removed: multiset<Row>, ghost added: multiset<Row>)
    returns (errors: seq<CompareError>, acc: Accounts)
    requires start.Balanced(removed, added) && start.residuals == []
    ensures errors == [] <==> errors0 == [] && ResidualsFit(added, start.transitions, ws)
    ensures errors == [] ==> acc.residuals == ws
    ensures acc.residuals == Charged(ws, start.transitions, added) && |errors| == |errors0| + |ws| - |acc.residuals|
    ensures acc.transitions == start.transitions && acc.Balanced(removed, added)
    ensures acc.before.Keys == start.before.Keys && acc.after.Keys == start.after.Keys
  {
    hide ResidualsFit;
    hide PermittedResidual;
    hide Befores;
    hide Afters;
    hide ResidualAfters;
    hide Heads;
    errors, acc := errors0, start;
    assert ws[..0] == [];
    NoResidualFits(start, removed, added);
    for i := 0 to |ws|
      invariant errors == [] <==> errors0 == [] && ResidualsFit(added, start.transitions, ws[..i])
      invariant errors == [] ==> acc.residuals == ws[..i]
      invariant acc.residuals == Charged(ws[..i], start.transitions, added) && |errors| == |errors0| + i - |acc.residuals|
      invariant acc.transitions == start.transitions && acc.Balanced(removed, added)
      invariant acc.before.Keys == start.before.Keys && acc.after.Keys == start.after.Keys
    {
      var w := ws[i];
      TakeNext(ws, i);
      OneMoreResidualFits(added, start.transitions, ws[..i], w);
      ChargedNext(ws, i, start.transitions, added);
      var ok;
      ok, acc := ApproveResidual(acc, w, removed, added);
      if !ok {
        errors := errors + [ForbiddenResidual(w.after)];
      }
    }
    TakeAll(ws);
  }

  /** Lines 152-155, for one side. */
  method Leftovers(isRemoved: bool, keys: seq<Row>, m: map<Row, nat>, ghost left: multiset<Row>)
    returns (errors: seq<CompareError>)
    requires Counts(m, left) && forall r :: r in m <==> r in keys
    ensures errors == [] <==> left == multiset{}
    ensures forall e :: e in errors <==> e.Unaccounted? && e.removed == isRemoved && e.count == left[e.site] && e.count > 0
  {
    errors := [];
    for i := 0 to |keys|
      invariant errors == [] <==> forall r :: r in keys[..i] ==> left[r] == 0
      invariant forall e :: e in errors <==> e.Unaccounted? && e.removed == isRemoved && e.count == left[e.site] && e.count > 0 && e.site in keys[..i]
    {
      TakeNext(keys, i);
      assert Count(m, keys[i]) == left[keys[i]];
      if m[keys[i]] > 0 {
        errors := errors + [Unaccounted(isRemoved, m[keys[i]], keys[i])];
      }
    }
    TakeAll(keys);
    forall r
      ensures left[r] > 0 ==> r in keys
    {
      assert Count(m, r) == left[r];
    }
    assert errors == [] ==> forall r :: left[r] == 0;
  }

  // ---------------------------------------------------------------- slices

  datatype Slice = Irmin | Protocol | OtherSlice

  function SliceOf(path: string): Slice {
    if "irmin/" <= path then Irmin
    else if "src/proto_alpha/" <= path then Protocol
    else OtherSlice
  }

  ghost function InSlice(keys: set<RelationKey>, slice: Slice): set<RelationKey> {
    set k | k in keys && SliceOf(k.callerPath) == slice
  }

  lemma SlicesPartition(keys: set<RelationKey>)
    ensures |InSlice(keys, Irmin)| + |InSlice(keys, Protocol)| + |InSlice(keys, OtherSlice)| == |keys|
  {
    var a, b, c := InSlice(keys, Irmin), InSlice(keys, Protocol), InSlice(keys, OtherSlice);
    assert keys == a + b + c;
    assert a !! b && (a + b) !! c;
  }

  lemma SliceRemoval(keys: set<RelationKey>, k: RelationKey, slice: Slice)
    requires k in keys
    ensures |InSlice(keys, slice)| == |InSlice(keys - {k}, slice)| + (if SliceOf(k.callerPath) == slice then 1 else 0)
  {
    if SliceOf(k.callerPath) == slice {
      assert InSlice(keys, slice) == InSlice(keys - {k}, slice) + {k};
    } else {
      assert InSlice(keys, slice) == InSlice(keys - {k}, slice);
    }
  }

  lemma NoneInSlice()
    ensures forall slice :: InSlice({}, slice) == {}
  {
  }

  /** Lines 164-166: each gained relation is charged once, to the slice of its caller. */
  method CountSlices(newRows: seq<Row>, gains: set<RelationKey>) returns (slices: Slices)
    requires forall k :: k in gains ==> exists r :: r in newRows && KeyOfRow(r) == k
    ensures slices == Slices(|InSlice(gains, Irmin)|, |InSlice(gains, Protocol)|, |InSlice(gains, OtherSlice)|)
    ensures slices.irmin + slices.protocol + slices.other == |gains|
  {
    hide InSlice;
    hide SliceOf;
    slices := Slices(0, 0, 0);
    var pending := gains;
    for i := 0 to |newRows|
      invariant pending <= gains
      invariant forall k :: k in pending ==> exists r :: r in newRows[i..] && KeyOfRow(r) == k
      invariant slices.irmin + |InSlice(pending, Irmin)| == |InSlice(gains, Irmin)|
      invariant slices.protocol + |InSlice(pending, Protocol)| == |InSlice(gains, Protocol)|
      invariant slices.other + |InSlice(pending, OtherSlice)| == |InSlice(gains, OtherSlice)|
    {
      var k := KeyOfRow(newRows[i]);
      assert newRows[i..] == [newRows[i]] + newRows[i + 1..];
      if k in pending {
        SliceRemoval(pending, k, Irmin);
        SliceRemoval(pending, k, Protocol);
        SliceRemoval(pending, k, OtherSlice);
        pending := pending - {k};
        slices := match SliceOf(newRows[i].callerPath)
          case Irmin => slices.(irmin := slices.irmin + 1)
          case Protocol => slices.(protocol := slices.protocol + 1)
          case OtherSlice => slices.(other := slices.other + 1);
      }
    }
    assert pending == {};
    NoneInSlice();
    SlicesPartition(gains);
  }

  // ---------------------------------------------------------------- main results

  /** What a report says of the change between two lists of rows. */
  ghost predicate Describes(report: Report, oldRows: seq<Row>, newRows: seq<Row>, ts: seq<Transition>, ws: seq<Residual>) {
    && (report.Ok() <==> Accepts(oldRows, newRows, ts, ws))
    && (report.Neutral() <==> multiset(oldRows) == multiset(newRows))
    && multiset(report.removed) == multiset(oldRows) - multiset(newRows)
    && multiset(report.added) == multiset(newRows) - multiset(oldRows)
    && report.transitions == Granted(ts, multiset(report.removed), multiset(report.added))
    && report.residuals == Charged(ws, report.transitions, multiset(report.added))
    && report.losses == RelationSet(oldRows) - RelationSet(newRows)
    && report.gains == RelationSet(newRows) - RelationSet(oldRows)
    && report.slices == Slices(|InSlice(report.gains, Irmin)|, |InSlice(report.gains, Protocol)|, |InSlice(report.gains, OtherSlice)|)
  }

  method CompareCanonical(oldRows: seq<Row>, newRows: seq<Row>, ts: seq<Transition>, ws: seq<Residual>)
    returns (report: Report)
    ensures Describes(report, oldRows, newRows, ts, ws)
    ensures report.Ok() ==> report.transitions == ts && report.residuals == ws
    ensures Befores(report.transitions) <= multiset(report.removed)
    ensures Afters(report.transitions) + ResidualAfters(report.residuals) <= multiset(report.added)
    ensures Heads(report.residuals) <= multiset(report.transitions)
    ensures report.slices.irmin + report.slices.protocol + report.slices.other == |report.gains|
  {
    hide Granted;
    hide Charged;
    hide InSlice;
    var removed, added := Subtract(oldRows, newRows);
    NeutralIsEqual(oldRows, newRows, removed, added);
    var errors, transitions, residuals := Account(removed, added, ts, ws);
    FullyAccounted(oldRows, newRows, ts, ws, multiset(removed), multiset(added));
    var oldRelations, newRelations := RelationSet(oldRows), RelationSet(newRows);
    var losses, gains := oldRelations - newRelations, newRelations - oldRelations;
    if errors == [] {
      AccountedNeedsNoMoreChecks(oldRows, newRows, ts, ws);
      assert forall r :: r in added ==> r in multiset(added);
    }
    errors := LastChecks(errors, added, losses, gains, TransitionGains(transitions, oldRelations));
    var slices := CountSlices(newRows, gains);
    report := Report(errors, removed, added, transitions, residuals, losses, gains, slices);
  }

  /** Lines 110-155: both approval loops and the search for facts nobody accounted for. */
  method Account(removed: seq<Row>, added: seq<Row>, ts: seq<Transition>, ws: seq<Residual>)
    returns (errors: seq<CompareError>, transitions: seq<Transition>, residuals: seq<Residual>)
    ensures errors == [] <==>
            && TransitionsFit(multiset(removed), multiset(added), ts) && ResidualsFit(multiset(added), ts, ws)
            && multiset(removed) - Befores(ts) == multiset{}
            && multiset(added) - (Afters(ts) + ResidualAfters(ws)) == multiset{}
    ensures errors == [] ==> transitions == ts && residuals == ws
    ensures transitions == Granted(ts, multiset(removed), multiset(added)) && residuals == Charged(ws, transitions, multiset(added))
    ensures Befores(transitions) <= multiset(removed)
    ensures Afters(transitions) + ResidualAfters(residuals) <= multiset(added)
    ensures Heads(residuals) <= multiset(transitions)
  {
    hide TransitionsFit;
    hide ResidualsFit;
    hide Befores;
    hide Afters;
    hide ResidualAfters;
    hide Heads;
    ghost var r, a := multiset(removed), multiset(added);
    var beforeKeys, before := Counted(removed);
    var afterKeys, after := Counted(added);
    var start := Accounts(before, after, [], [], map[]);
    StartBalanced(start, r, a);
    var acc;
    errors, acc := ApproveTransitions(start, ts, r, a);
    errors, acc := ApproveResiduals(errors, acc, ws, r, a);
    transitions, residuals := acc.transitions, acc.residuals;
    var left := Leftovers(true, beforeKeys, acc.before, r - Befores(transitions));
    errors := errors + left;
    left := Leftovers(false, afterKeys, acc.after, a - (Afters(transitions) + ResidualAfters(residuals)));
    errors := errors + left;
  }

  lemma StartBalanced(start: Accounts, removed: multiset<Row>, added: multiset<Row>)
    requires start.transitions == [] && start.residuals == [] && start.capacity == map[]
    requires Counts(start.before, removed) && Counts(start.after, added)
    ensures start.Balanced(removed, added)
  {
    assert removed - Befores([]) == removed && added - (Afters([]) + ResidualAfters([])) == added;
  }

  /** Lines 158-163. */
  method LastChecks(errors0: seq<CompareError>, added: seq<Row>, losses: set<RelationKey>,
                    gains: set<RelationKey>, witnessed: set<RelationKey>)
    returns (errors: seq<CompareError>)
    ensures errors == [] <==> errors0 == [] && losses == {} && (forall r :: r in added ==> r.kind != MUST) && gains == witnessed
  {
    errors := errors0;
    if |losses| != 0 {
      errors := errors + [RelationLosses(|losses|)];
    }
    if exists r :: r in added && r.kind == MUST {
      errors := errors + [NewMust];
    }
    if |gains| != |witnessed| || !(gains <= witnessed) {
      errors := errors + [GainsMismatch(|gains|, |witnessed|)];
    } else {
      SubsetSize(gains, witnessed);
    }
  }

  lemma FullyAccounted(oldRows: seq<Row>, newRows: seq<Row>, ts: seq<Transition>, ws: seq<Residual>,
                       removed: multiset<Row>, added: multiset<Row>)
    requires removed == multiset(oldRows) - multiset(newRows) && added == multiset(newRows) - multiset(oldRows)
    ensures Accepts(oldRows, newRows, ts, ws) <==>
            && TransitionsFit(removed, added, ts) && ResidualsFit(added, ts, ws)
            && removed - Befores(ts) == multiset{}
            && added - (Afters(ts) + ResidualAfters(ws)) == multiset{}
  {
    EmptyDifference(removed, Befores(ts));
    EmptyDifference(added, Afters(ts) + ResidualAfters(ws));
    assert Afters(ts) <= Afters(ts) + ResidualAfters(ws);
  }

  lemma EmptyDifference<T>(all: multiset<T>, used: multiset<T>)
    ensures used == all <==> used <= all && all - used == multiset{}
  {
    if used <= all && all - used == multiset{} {
      assert forall x :: all[x] - used[x] == (all - used)[x] == 0;
    }
  }

  lemma NeutralIsEqual(oldRows: seq<Row>, newRows: seq<Row>, removed: seq<Row>, added: seq<Row>)
    requires multiset(removed) == multiset(oldRows) - multiset(newRows)
    requires multiset(added) == multiset(newRows) - multiset(oldRows)
    ensures removed == [] && added == [] <==> multiset(oldRows) == multiset(newRows)
  {
    assert removed == [] <==> multiset(removed) == multiset{};
    assert added == [] <==> multiset(added) == multiset{};
    if removed == [] && added == [] {
      var a, b := multiset(oldRows), multiset(newRows);
      forall x
        ensures a[x] == b[x]
      {
        assert (a - b)[x] == 0 && (b - a)[x] == 0;
      }
    }
  }

  /** Conservation: an accepted candidate is the baseline with every before replaced by its
      after, plus the residuals, each fact counted as often as it occurs. */
  lemma AcceptedConserves(oldRows: seq<Row>, newRows: seq<Row>, ts: seq<Transition>, ws: seq<Residual>)
    requires Accepts(oldRows, newRows, ts, ws)
    ensures Befores(ts) <= multiset(oldRows)
    ensures multiset(newRows) == multiset(oldRows) - Befores(ts) + Afters(ts) + ResidualAfters(ws)
    ensures |newRows| == |oldRows| + |ws|
    ensures |ws| <= |ts|
  {
    hide Befores;
    hide Afters;
    hide ResidualAfters;
    hide Heads;
    hide Permitted;
    hide PermittedResidual;
    var a, b := multiset(oldRows), multiset(newRows);
    ChangeTurnsOldIntoNew(a, b);
    assert a - b <= a;
    Sizes(ts, ws);
    SizeOfDifference(a, Befores(ts));
    SizeOfDifference(multiset(ts), Heads(ws));
    ThreeParts(b, a - Befores(ts), Afters(ts), ResidualAfters(ws));
    assert |multiset(ts)| == |ts| && |a| == |oldRows| && |b| == |newRows|;
  }

  lemma ChangeTurnsOldIntoNew<T>(a: multiset<T>, b: multiset<T>)
    ensures b == a - (a - b) + (b - a)
  {
  }

  lemma ThreeParts<T>(all: multiset<T>, a: multiset<T>, b: multiset<T>, c: multiset<T>)
    requires all == a + (b + c)
    ensures all == a + b + c && |all| == |a| + |b| + |c|
  {
  }

  lemma SizeOfDifference<T>(all: multiset<T>, part: multiset<T>)
    requires part <= all
    ensures |all - part| == |all| - |part|
  {
    assert all == part + (all - part);
  }

  lemma Sizes(ts: seq<Transition>, ws: seq<Residual>)
    ensures |Befores(ts)| == |Afters(ts)| == |ts|
    ensures |ResidualAfters(ws)| == |Heads(ws)| == |ws|
  {
    TransitionsMapped(ts);
    ResidualsMapped(ws);
  }

  /** Acceptance looks at each of the four lists only as a multiset. */
  lemma AcceptanceIgnoresOrder(o: seq<Row>, n: seq<Row>, ts: seq<Transition>, ws: seq<Residual>,
                               o': seq<Row>, n': seq<Row>, ts': seq<Transition>, ws': seq<Residual>)
    requires multiset(o) == multiset(o') && multiset(n) == multiset(n')
    requires multiset(ts) == multiset(ts') && multiset(ws) == multiset(ws')
    ensures Accepts(o, n, ts, ws) <==> Accepts(o', n', ts', ws')
  {
    SameMembers(ts, ts');
    SameMembers(ws, ws');
    TransitionsMapped(ts);
    TransitionsMapped(ts');
    ResidualsMapped(ws);
    ResidualsMapped(ws');
    MapPermutes(BeforeOf, ts, ts');
    MapPermutes(AfterOf, ts, ts');
    MapPermutes(ExtraOf, ws, ws');
    MapPermutes(HeadOf, ws, ws');
  }

  /** For each pair of snapshots at most one multiset of befores is acceptable, so a witness
      cannot be used twice, nor left unused. */
  lemma NoWitnessReuse(o: seq<Row>, n: seq<Row>, ts: seq<Transition>, ws: seq<Residual>, t: Transition)
    requires Accepts(o, n, ts, ws)
    ensures !Accepts(o, n, ts + [t], ws)
  {
    TransitionsAppend(ts, t);
    assert |Befores(ts) + multiset{t.before}| == |Befores(ts)| + 1;
  }

  // ---------------------------------------------------------------- raw snapshots

  datatype RawTransition = RawTransition(before: RawRow, after: RawRow)

  datatype RawResidual = RawResidual(after: RawRow, head: RawTransition, arity: Option<int>, arguments: Option<int>)

  function CanonicalTransition(raw: RawTransition): Result<Transition, InputError> {
    match (CanonicalRow(raw.before), CanonicalRow(raw.after))
    case (Err(e), _) => Err(e)
    case (_, Err(e)) => Err(e)
    case (Ok(b), Ok(a)) => Ok(Transition(b, a))
  }

  function CanonicalResidual(raw: RawResidual): Result<Residual, InputError> {
    match (CanonicalRow(raw.after), CanonicalTransition(raw.head))
    case (Err(e), _) => Err(e)
    case (_, Err(e)) => Err(e)
    case (Ok(a), Ok(h)) => Ok(Residual(a, h, raw.arity, raw.arguments))
  }

  /** All elements canonical, or the first failure. */
  method Canonicalise<A, B>(f: A -> Result<B, InputError>, raws: seq<A>) returns (r: Result<seq<B>, InputError>)
    ensures r.Ok? ==> |r.value| == |raws| && forall i :: 0 <= i < |raws| ==> f(raws[i]) == Ok(r.value[i])
    ensures r.Err? ==> exists i :: 0 <= i < |raws| && f(raws[i]) == Err(r.error) && forall j :: 0 <= j < i ==> f(raws[j]).Ok?
  {
    var out := [];
    for i := 0 to |raws|
      invariant |out| == i && forall j :: 0 <= j < i ==> f(raws[j]) == Ok(out[j])
    {
      match f(raws[i]) {
        case Err(e) => return Err(e);
        case Ok(b) => out := out + [b];
      }
    }
    return Ok(out);
  }

  ghost predicate Denotes<A, B>(f: A -> Result<B, InputError>, raws: seq<A>, rows: seq<B>) {
    |raws| == |rows| && forall i :: 0 <= i < |raws| ==> f(raws[i]) == Ok(rows[i])
  }

  /** `compareSnapshots` on raw rows: it throws exactly when some row anywhere is malformed. */
  method CompareSnapshots(o: seq<RawRow>, n: seq<RawRow>, ts: seq<RawTransition>, ws: seq<RawResidual>)
    returns (r: Result<Report, InputError>)
    ensures r.Ok? <==>
            && (forall i :: 0 <= i < |o| ==> CanonicalRow(o[i]).Ok?) && (forall i :: 0 <= i < |n| ==> CanonicalRow(n[i]).Ok?)
            && (forall i :: 0 <= i < |ts| ==> CanonicalTransition(ts[i]).Ok?)
            && (forall i :: 0 <= i < |ws| ==> CanonicalResidual(ws[i]).Ok?)
    ensures r.Ok? ==> forall o', n', ts', ws' ::
              && Denotes(CanonicalRow, o, o') && Denotes(CanonicalRow, n, n')
              && Denotes(CanonicalTransition, ts, ts') && Denotes(CanonicalResidual, ws, ws')
              ==> Describes(r.value, o', n', ts', ws')
  {
    var oldRows := Canonicalise(CanonicalRow, o);
    if oldRows.Err? {
      return Err(oldRows.error);
    }
    var newRows := Canonicalise(CanonicalRow, n);
    if newRows.Err? {
      return Err(newRows.error);
    }
    var transitions := Canonicalise(CanonicalTransition, ts);
    if transitions.Err? {
      return Err(transitions.error);
    }
    var residuals := Canonicalise(CanonicalResidual, ws);
    if residuals.Err? {
      return Err(residuals.error);
    }
    var report := CompareCanonical(oldRows.value, newRows.value, transitions.value, residuals.value);
    r := Ok(report);
    forall o', n', ts', ws' |
      && Denotes(CanonicalRow, o, o') && Denotes(CanonicalRow, n, n')
      && Denotes(CanonicalTransition, ts, ts') && Denotes(CanonicalResidual, ws, ws')
      ensures Describes(r.value, o', n', ts', ws')
    {
      DenotesOnce(CanonicalRow, o, o', oldRows.value);
      DenotesOnce(CanonicalRow, n, n', newRows.value);
      DenotesOnce(CanonicalTransition, ts, ts', transitions.value);
      DenotesOnce(CanonicalResidual, ws, ws', residuals.value);
    }
  }

  lemma DenotesOnce<A, B>(f: A -> Result<B, InputError>, raws: seq<A>, rows: seq<B>, rows': seq<B>)
    requires Denotes(f, raws, rows) && Denotes(f, raws, rows')
    ensures rows == rows'
  {
  }
}
