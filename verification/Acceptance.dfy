/** What the comparator accepts, in terms of the rows' fields: which transitions a witness may
    approve, and for which changes there are witnesses at all
    (roster/tezos-call-resolution/comparison.js:119-155). */
module Acceptance {
  import opened Comparison
  import opened Counter
  import opened Picking
  import opened Prelude
  import opened Rows

  // ---------------------------------------------------------------- rows that can change

  /** Where a call stands, and its form. */
  datatype Place = Place(callerPath: string, caller: string, callSite: Option<string>, edgeForm: Option<Form>)

  function PlaceOf(r: Row): Place {
    Place(r.callerPath, r.caller, r.callSite, r.edgeForm)
  }

  /** An unresolved call through a module parameter. */
  predicate Unresolved(r: Row) {
    r.kind == MAY_TOP && r.topReason == Some("module_param") && r.target.None?
  }

  /** A call bounded to a target in its caller's file. */
  predicate Bounded(r: Row) {
    r.kind == MAY_ENUMERATED && r.target.Some? && r.targetPath == Some(r.callerPath) && r.topReason.None? && r.topAnchor.None?
  }

  /** A call of whatever a bounded call returned. */
  predicate Extra(r: Row) {
    && r.kind == MAY_TOP && r.topReason == Some("callback_param") && r.target.None? && r.calleeName == "*TOP*"
    && r.edgeForm.None? && r.topAnchor == r.callSite
  }

  function Only(p: Row -> bool, rows: seq<Row>): seq<Row> {
    if rows == [] then []
    else Only(p, rows[..|rows| - 1]) + (if p(rows[|rows| - 1]) then [rows[|rows| - 1]] else [])
  }

  lemma {:induction false} OnlyCounts(p: Row -> bool, rows: seq<Row>, r: Row)
    ensures multiset(Only(p, rows))[r] == if p(r) then multiset(rows)[r] else 0
  {
    if rows != [] {
      var front, last := rows[..|rows| - 1], rows[|rows| - 1];
      OnlyCounts(p, front, r);
      assert rows == front + [last];
    }
  }

  // ---------------------------------------------------------------- what was accepted

  ghost predicate Changed(o: seq<Row>, n: seq<Row>, removed: seq<Row>, added: seq<Row>) {
    multiset(removed) == multiset(o) - multiset(n) && multiset(added) == multiset(n) - multiset(o)
  }

  lemma WitnessedRows(o: seq<Row>, n: seq<Row>, removed: seq<Row>, added: seq<Row>, ts: seq<Transition>, ws: seq<Residual>)
    requires Changed(o, n, removed, added) && Accepts(o, n, ts, ws)
    ensures multiset(removed) == multiset(Map(BeforeOf, ts))
    ensures multiset(added) == multiset(Map(AfterOf, ts)) + multiset(Map(ExtraOf, ws))
    ensures multiset(Map(HeadOf, ws)) <= multiset(ts)
  {
    TransitionsMapped(ts);
    ResidualsMapped(ws);
  }

  /** What an accepted comparison lets through. A removed row is an unresolved call through a
      module parameter, and each is replaced by a row of the same call: one that is bounded to
      a target in the caller's file and keeps the form. Any other added row is a call of what
      such a row returned, at its place. */
  lemma AcceptedMeans(o: seq<Row>, n: seq<Row>, removed: seq<Row>, added: seq<Row>, ts: seq<Transition>, ws: seq<Residual>)
    requires Changed(o, n, removed, added) && Accepts(o, n, ts, ws)
    ensures multiset(Map((r: Row) => (r.callerPath, r.caller, r.callSite, r.edgeForm), removed)) ==
            multiset(Map((t: Transition) => (t.after.callerPath, t.after.caller, t.after.callSite, t.after.edgeForm), ts))
    ensures forall t :: t in ts ==> && t.before.callerPath == t.after.callerPath && t.before.caller == t.after.caller
                                    && t.before.callSite == t.after.callSite && t.before.edgeForm == t.after.edgeForm
    ensures forall r :: r in removed ==> r.kind == MAY_TOP && r.topReason == Some("module_param") && r.target == None
    ensures forall r :: r in added ==>
              || (exists t :: t in ts && t.after == r && r.kind == MAY_ENUMERATED && r.target.Some?
                              && r.targetPath == Some(r.callerPath) && r.topReason == None && r.topAnchor == None)
              || (exists w, t :: w in ws && t in ts && w.after == r && w.head == t && r.kind == MAY_TOP && r.target == None
                                 && r.callerPath == t.after.callerPath && r.caller == t.after.caller && r.callSite == t.after.callSite
                                 && r.calleeName == "*TOP*" && r.topReason == Some("callback_param")
                                 && r.edgeForm == None && t.after.edgeForm == None && r.topAnchor == r.callSite)
    ensures forall w :: w in ws ==> w.arity.Some? && w.arguments.Some? && 0 < w.arity.value < w.arguments.value
  {
    WitnessedRows(o, n, removed, added, ts, ws);
    RemovedMean(o, n, removed, ts, ws);
    AddedMean(o, n, added, ts, ws);
  }

  lemma RemovedMean(o: seq<Row>, n: seq<Row>, removed: seq<Row>, ts: seq<Transition>, ws: seq<Residual>)
    requires Accepts(o, n, ts, ws) && multiset(removed) == multiset(Map(BeforeOf, ts))
    ensures multiset(Map((r: Row) => (r.callerPath, r.caller, r.callSite, r.edgeForm), removed)) ==
            multiset(Map((t: Transition) => (t.after.callerPath, t.after.caller, t.after.callSite, t.after.edgeForm), ts))
    ensures forall r :: r in removed ==> Unresolved(r)
  {
    var site := (r: Row) => (r.callerPath, r.caller, r.callSite, r.edgeForm);
    var siteAfter := (t: Transition) => (t.after.callerPath, t.after.caller, t.after.callSite, t.after.edgeForm);
    MapPermutes(site, removed, Map(BeforeOf, ts));
    forall i | 0 <= i < |ts|
      ensures Map(site, Map(BeforeOf, ts))[i] == Map(siteAfter, ts)[i]
    {
      assert ts[i] in ts;
    }
    assert Map(site, Map(BeforeOf, ts)) == Map(siteAfter, ts);
    forall r | r in removed
      ensures Unresolved(r)
    {
      assert r in multiset(removed);
      var t := MapMember(BeforeOf, ts, r);
    }
  }

  lemma AddedMean(o: seq<Row>, n: seq<Row>, added: seq<Row>, ts: seq<Transition>, ws: seq<Residual>)
    requires Accepts(o, n, ts, ws)
    requires multiset(added) == multiset(Map(AfterOf, ts)) + multiset(Map(ExtraOf, ws)) && multiset(Map(HeadOf, ws)) <= multiset(ts)
    ensures forall r :: r in added ==>
              || (exists t :: t in ts && t.after == r && Bounded(r))
              || (exists w, t :: w in ws && t in ts && w.after == r && w.head == t && Extra(r) && t.after.edgeForm == None
                                 && r.callerPath == t.after.callerPath && r.caller == t.after.caller && r.callSite == t.after.callSite)
  {
    forall r | r in added
      ensures || (exists t :: t in ts && t.after == r && Bounded(r))
              || (exists w, t :: w in ws && t in ts && w.after == r && w.head == t && Extra(r) && t.after.edgeForm == None
                                 && r.callerPath == t.after.callerPath && r.caller == t.after.caller && r.callSite == t.after.callSite)
    {
      assert r in multiset(added);
      if r in multiset(Map(AfterOf, ts)) {
        var t := MapMember(AfterOf, ts, r);
      } else {
        var w := MapMember(ExtraOf, ws, r);
        MapContains(HeadOf, ws, w);
        assert w.head in multiset(ts);
      }
    }
  }

  // ---------------------------------------------------------------- what can be accepted

  /** Every removed call comes back bounded, with its form, as often as it was removed; and no
      place has more extra calls than bounded ones. */
  ghost predicate Acceptable(removed: seq<Row>, added: seq<Row>) {
    && (forall r :: r in removed ==> Unresolved(r)) && (forall r :: r in added ==> Bounded(r) || Extra(r))
    && multiset(Map(PlaceOf, removed)) == multiset(Map(PlaceOf, Only(Bounded, added)))
    && multiset(Map(PlaceOf, Only(Extra, added))) <= multiset(Map(PlaceOf, Only(Bounded, added)))
  }

  lemma AddedSplits(added: seq<Row>)
    requires forall r :: r in added ==> Bounded(r) || Extra(r)
    ensures multiset(added) == multiset(Only(Bounded, added)) + multiset(Only(Extra, added))
  {
    forall r
      ensures multiset(added)[r] == multiset(Only(Bounded, added))[r] + multiset(Only(Extra, added))[r]
    {
      OnlyCounts(Bounded, added, r);
      OnlyCounts(Extra, added, r);
      assert multiset(added)[r] > 0 ==> r in added;
    }
  }

  lemma SplitsOnce(added: seq<Row>, heads: seq<Row>, extras: seq<Row>)
    requires multiset(added) == multiset(heads) + multiset(extras)
    requires (forall r :: r in heads ==> Bounded(r)) && (forall r :: r in extras ==> Extra(r))
    ensures multiset(Only(Bounded, added)) == multiset(heads) && multiset(Only(Extra, added)) == multiset(extras)
  {
    forall r
      ensures multiset(Only(Bounded, added))[r] == multiset(heads)[r] && multiset(Only(Extra, added))[r] == multiset(extras)[r]
    {
      OnlyCounts(Bounded, added, r);
      OnlyCounts(Extra, added, r);
      assert multiset(heads)[r] > 0 ==> r in heads;
      assert multiset(extras)[r] > 0 ==> r in extras;
    }
  }

  lemma AcceptedIsAcceptable(o: seq<Row>, n: seq<Row>, removed: seq<Row>, added: seq<Row>, ts: seq<Transition>, ws: seq<Residual>)
    requires Changed(o, n, removed, added) && Accepts(o, n, ts, ws)
    ensures Acceptable(removed, added)
  {
    WitnessedRows(o, n, removed, added, ts, ws);
    var befores, heads, extras := Map(BeforeOf, ts), Map(AfterOf, ts), Map(ExtraOf, ws);
    AcceptedPlaces(ts, ws);
    SameMembers(removed, befores);
    forall r | r in added
      ensures Bounded(r) || Extra(r)
    {
      assert r in multiset(added);
      assert r in heads || r in extras;
    }
    SplitsOnce(added, heads, extras);
    MapPermutes(PlaceOf, removed, befores);
    MapPermutes(PlaceOf, Only(Bounded, added), heads);
    MapPermutes(PlaceOf, Only(Extra, added), extras);
    MapIncluded(AfterOf, Map(HeadOf, ws), ts);
    MapIncluded(PlaceOf, Map(AfterOf, Map(HeadOf, ws)), heads);
  }

  lemma AcceptedPlaces(ts: seq<Transition>, ws: seq<Residual>)
    requires (forall t :: t in ts ==> Permitted(t)) && forall w :: w in ws ==> PermittedResidual(w)
    ensures forall r :: r in Map(BeforeOf, ts) ==> Unresolved(r)
    ensures forall r :: r in Map(AfterOf, ts) ==> Bounded(r)
    ensures forall r :: r in Map(ExtraOf, ws) ==> Extra(r)
    ensures Map(PlaceOf, Map(BeforeOf, ts)) == Map(PlaceOf, Map(AfterOf, ts))
    ensures Map(PlaceOf, Map(ExtraOf, ws)) == Map(PlaceOf, Map(AfterOf, Map(HeadOf, ws)))
  {
    forall i | 0 <= i < |ts|
      ensures Unresolved(Map(BeforeOf, ts)[i]) && Bounded(Map(AfterOf, ts)[i])
      ensures Map(PlaceOf, Map(BeforeOf, ts))[i] == Map(PlaceOf, Map(AfterOf, ts))[i]
    {
      assert ts[i] in ts;
      MappedAt(BeforeOf, ts, i);
      MappedAt(AfterOf, ts, i);
      MappedAt(PlaceOf, Map(BeforeOf, ts), i);
      MappedAt(PlaceOf, Map(AfterOf, ts), i);
    }
    forall i | 0 <= i < |ws|
      ensures Extra(Map(ExtraOf, ws)[i])
      ensures Map(PlaceOf, Map(ExtraOf, ws))[i] == Map(PlaceOf, Map(AfterOf, Map(HeadOf, ws)))[i]
    {
      assert ws[i] in ws;
      MappedAt(ExtraOf, ws, i);
      MappedAt(HeadOf, ws, i);
      MappedAt(AfterOf, Map(HeadOf, ws), i);
      MappedAt(PlaceOf, Map(ExtraOf, ws), i);
      MappedAt(PlaceOf, Map(AfterOf, Map(HeadOf, ws)), i);
    }
  }

  lemma MappedAt<A, B>(f: A -> B, s: seq<A>, i: nat)
    requires i < |s|
    ensures Map(f, s)[i] == f(s[i])
  {
  }

  /** The rows of one place, paired up. */
  function Paired(removed: seq<Row>, heads: seq<Row>): (ts: seq<Transition>)
    requires |removed| == |heads|
    ensures |ts| == |heads| && Map(BeforeOf, ts) == removed && Map(AfterOf, ts) == heads
  {
    var ts := seq(|heads|, i requires 0 <= i < |heads| => Transition(removed[i], heads[i]));
    assert Map(BeforeOf, ts) == removed && Map(AfterOf, ts) == heads;
    ts
  }

  function Charges(extras: seq<Row>, heads: seq<Transition>): (ws: seq<Residual>)
    requires |extras| == |heads|
    ensures |ws| == |heads| && Map(ExtraOf, ws) == extras && Map(HeadOf, ws) == heads
    ensures forall w :: w in ws ==> w.arity == Some(1) && w.arguments == Some(2)
  {
    var ws := seq(|heads|, i requires 0 <= i < |heads| => Residual(extras[i], heads[i], Some(1), Some(2)));
    assert forall i :: 0 <= i < |ws| ==> ExtraOf(ws[i]) == extras[i] && HeadOf(ws[i]) == heads[i];
    assert Map(ExtraOf, ws) == extras && Map(HeadOf, ws) == heads;
    ws
  }

  lemma PairsPermitted(removed: seq<Row>, heads: seq<Row>)
    requires |removed| == |heads| && Map(PlaceOf, removed) == Map(PlaceOf, heads)
    requires (forall r :: r in removed ==> Unresolved(r)) && forall r :: r in heads ==> Bounded(r)
    ensures forall t :: t in Paired(removed, heads) ==> Permitted(t)
  {
    var ts := Paired(removed, heads);
    forall i | 0 <= i < |ts|
      ensures Permitted(ts[i])
    {
      assert removed[i] in removed && heads[i] in heads;
      assert PlaceOf(removed[i]) == Map(PlaceOf, removed)[i] == Map(PlaceOf, heads)[i] == PlaceOf(heads[i]);
    }
  }

  lemma ChargesPermitted(extras: seq<Row>, heads: seq<Transition>)
    requires |extras| == |heads| && Map(PlaceOf, extras) == Map(PlaceOf, Map(AfterOf, heads))
    requires (forall r :: r in extras ==> Extra(r)) && forall t :: t in heads ==> Permitted(t)
    ensures forall w :: w in Charges(extras, heads) ==> PermittedResidual(w)
  {
    var ws := Charges(extras, heads);
    forall i | 0 <= i < |ws|
      ensures PermittedResidual(ws[i])
    {
      assert extras[i] in extras && heads[i] in heads && ws[i] in ws;
      MappedAt(PlaceOf, extras, i);
      MappedAt(AfterOf, heads, i);
      MappedAt(PlaceOf, Map(AfterOf, heads), i);
      assert PlaceOf(extras[i]) == PlaceOf(heads[i].after);
    }
  }

  lemma AcceptableIsAccepted(o: seq<Row>, n: seq<Row>, removed: seq<Row>, added: seq<Row>) returns (ts: seq<Transition>, ws: seq<Residual>)
    requires Changed(o, n, removed, added) && Acceptable(removed, added)
    ensures Accepts(o, n, ts, ws)
  {
    var heads, extras := Only(Bounded, added), Only(Extra, added);
    AddedSplits(added);
    OnlyHolds(Bounded, added);
    OnlyHolds(Extra, added);
    var idx := Rearranged(Map(PlaceOf, heads), Map(PlaceOf, removed));
    var ordered := At(heads, idx);
    assert Map(PlaceOf, ordered) == At(Map(PlaceOf, heads), idx);
    AtAll(heads, idx);
    SameMembers(ordered, heads);
    ts := Paired(removed, ordered);
    PairsPermitted(removed, ordered);
    MapPermutes(PlaceOf, heads, ordered);
    var pick := Chosen(Map(PlaceOf, ordered), Map(PlaceOf, extras));
    var charged := At(ts, pick);
    assert Map(PlaceOf, Map(AfterOf, charged)) == At(Map(PlaceOf, ordered), pick);
    AtIncluded(ts, pick);
    AtHolds(ts, pick);
    ws := Charges(extras, charged);
    ChargesPermitted(extras, charged);
    TransitionsMapped(ts);
    ResidualsMapped(ws);
  }

  lemma AtHolds(ts: seq<Transition>, pick: seq<nat>)
    requires (forall i :: 0 <= i < |pick| ==> pick[i] < |ts|) && forall t :: t in ts ==> Permitted(t)
    ensures forall t :: t in At(ts, pick) ==> Permitted(t)
  {
    hide Permitted;
  }

  lemma {:induction false} OnlyHolds(p: Row -> bool, rows: seq<Row>)
    ensures forall r :: r in Only(p, rows) ==> p(r)
  {
    if rows != [] {
      OnlyHolds(p, rows[..|rows| - 1]);
    }
  }

  /** A change can be accepted with some witnesses if and only if every removed row is an
      unresolved call through a module parameter, every added one a call bounded to its
      caller's file or an extra call, the bounded ones stand where the removed ones stood,
      form and number included, and no place has more extra calls than bounded ones. */
  lemma AcceptableExact(o: seq<Row>, n: seq<Row>, removed: seq<Row>, added: seq<Row>)
    requires Changed(o, n, removed, added)
    ensures (exists ts, ws :: Accepts(o, n, ts, ws)) <==> Acceptable(removed, added)
  {
    if ts, ws :| Accepts(o, n, ts, ws) {
      AcceptedIsAcceptable(o, n, removed, added, ts, ws);
    }
    if Acceptable(removed, added) {
      var ts, ws := AcceptableIsAccepted(o, n, removed, added);
    }
  }

  // ---------------------------------------------------------------- relations

  /** The row says that its caller reaches that target, other than by naming a value. */
  predicate Relates(r: Row, k: RelationKey) {
    && r.edgeForm != Some(ValueAlias) && r.target.Some? && r.target == k.target && r.targetPath == k.targetPath
    && r.callerPath == k.callerPath && r.caller == k.caller && r.callSite == k.callSite
  }

  /** The relations that a report counts as gained and lost: those that some row of one side
      states and no row of the other. */
  lemma RelationsWrittenOut(o: seq<Row>, n: seq<Row>, k: RelationKey)
    ensures k in RelationSet(n) - RelationSet(o) <==> (exists r :: r in n && Relates(r, k)) && !exists r :: r in o && Relates(r, k)
  {
    RelationWrittenOut(o, k);
    RelationWrittenOut(n, k);
  }

  lemma RelationWrittenOut(rows: seq<Row>, k: RelationKey)
    ensures k in RelationSet(rows) <==> exists r :: r in rows && Relates(r, k)
  {
    if r :| r in rows && Relates(r, k) {
      assert IsRelation(r) && KeyOfRow(r) == k;
    }
  }

  /** Gains fall into slices by where their caller's path begins. */
  lemma SlicesWrittenOut(keys: set<RelationKey>)
    ensures InSlice(keys, Irmin) == set k | k in keys && |k.callerPath| >= 6 && k.callerPath[..6] == "irmin/"
    ensures InSlice(keys, Protocol) == set k | k in keys && |k.callerPath| >= 16 && k.callerPath[..16] == "src/proto_alpha/"
    ensures InSlice(keys, OtherSlice) == keys - InSlice(keys, Irmin) - InSlice(keys, Protocol)
  {
    forall k | k in keys
      ensures SliceOf(k.callerPath) == Irmin <==> |k.callerPath| >= 6 && k.callerPath[..6] == "irmin/"
      ensures SliceOf(k.callerPath) == Protocol <==> |k.callerPath| >= 16 && k.callerPath[..16] == "src/proto_alpha/"
    {
      assert |"irmin/"| == 6 && |"src/proto_alpha/"| == 16 && "irmin/"[0] == 'i' && "src/proto_alpha/"[0] == 's';
    }
  }

  /** The witnesses that are compared are the canonical rows of the ones given, with their
      numbers. */
  lemma WitnessesMean(t: RawTransition, w: RawResidual)
    ensures CanonicalTransition(t).Ok? ==>
              CanonicalRow(t.before) == Ok(CanonicalTransition(t).value.before) && CanonicalRow(t.after) == Ok(CanonicalTransition(t).value.after)
    ensures CanonicalResidual(w).Ok? ==>
              var r := CanonicalResidual(w).value;
              && CanonicalRow(w.after) == Ok(r.after) && CanonicalRow(w.head.before) == Ok(r.head.before)
              && CanonicalRow(w.head.after) == Ok(r.head.after) && r.arity == w.arity && r.arguments == w.arguments
  {
    hide CanonicalRow;
  }
}
