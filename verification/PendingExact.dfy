/** When the greedy approval of pending rows loses nothing. A first fit can spend the wrong
    application or the wrong added row; this module says for which applications it never does
    (roster/tezos-local-recursion/check-native.js:53-80). */
module PendingExact {
  import opened Counter
  import opened Picking
  import opened PendingRows
  import opened Prelude

  // ---------------------------------------------------------------- what an application does

  /** A native application turns a call of its binder into a call bounded to its root. */
  datatype Edge = Edge(caller: string, site: string, binder: string, root: string, partial: bool)

  /** None where a name is missing: such an application matches no row. */
  function EdgeOf(app: App): Option<Edge> {
    if app.caller.Some? && app.binder.Some? && app.root.Some?
    then Some(Edge(app.caller.value, app.site, app.binder.value, app.root.value, ExpectedPartial(app)))
    else None
  }

  function EdgeBetween(before: Pending, after: Pending): Edge {
    Edge(before.caller, before.site, before.callee, after.callee, after.partial)
  }

  predicate Callback(before: Pending) {
    before.head == UnknownHead(before.callee) && before.path.None? && before.form.None?
  }

  predicate IsHead(after: Pending) {
    after.head == EnumeratedHead(after.callee) && after.path.None? && after.form.None?
  }

  lemma FitsEdge(before: Pending, after: Pending, app: App)
    ensures Fits(before, after, app) <==>
            Callback(before) && EdgeOf(app) == Some(EdgeBetween(before, after)) && after == Bound(before, after.callee, after.partial)
  {
    FitsIsBound(before, after, app);
  }

  ghost predicate Edged(eligible: seq<App>, e: Edge) {
    exists a :: a in eligible && EdgeOf(a) == Some(e)
  }

  predicate SameBinder(e: Edge, e': Edge) {
    e.caller == e'.caller && e.site == e'.site && e.binder == e'.binder
  }

  predicate SameBound(e: Edge, e': Edge) {
    e.caller == e'.caller && e.site == e'.site && e.root == e'.root && e.partial == e'.partial
  }

  /** Applications that no row tells apart are over-applied together or not at all. */
  ghost predicate OverAgrees(eligible: seq<App>) {
    forall a, b :: a in eligible && b in eligible && EdgeOf(a).Some? && EdgeOf(a) == EdgeOf(b) ==> (Over(a) <==> Over(b))
  }

  /** The binder of the edge has another bound there. */
  ghost predicate Wide(eligible: seq<App>, e: Edge) {
    exists e' :: Edged(eligible, e') && SameBinder(e, e') && e' != e
  }

  /** A binder of several bounds shares none of them with another binder there. */
  ghost predicate BoundsApart(eligible: seq<App>) {
    forall e, e' :: Edged(eligible, e) && Wide(eligible, e) && Edged(eligible, e') && SameBound(e, e') ==> SameBinder(e, e')
  }

  ghost predicate Fitting(eligible: seq<App>) {
    OverAgrees(eligible) && BoundsApart(eligible)
  }

  // ---------------------------------------------------------------- what a row needs

  predicate CallsBinder(e: Edge, before: Pending) {
    e.caller == before.caller && e.site == before.site && e.binder == before.callee
  }

  predicate BoundsTo(e: Edge, after: Pending) {
    e.caller == after.caller && e.site == after.site && e.root == after.callee && e.partial == after.partial
  }

  ghost function FromBinder(eligible: seq<App>, before: Pending): (r: Option<Edge>)
    ensures r.Some? ==> Edged(eligible, r.value) && CallsBinder(r.value, before)
    ensures r.None? ==> forall e :: Edged(eligible, e) ==> !CallsBinder(e, before)
  {
    if exists e :: Edged(eligible, e) && CallsBinder(e, before)
    then var e :| Edged(eligible, e) && CallsBinder(e, before); Some(e)
    else None
  }

  ghost function IntoBound(eligible: seq<App>, after: Pending): (r: Option<Edge>)
    ensures r.Some? ==> Edged(eligible, r.value) && BoundsTo(r.value, after)
    ensures r.None? ==> forall e :: Edged(eligible, e) ==> !BoundsTo(e, after)
  {
    if exists e :: Edged(eligible, e) && BoundsTo(e, after)
    then var e :| Edged(eligible, e) && BoundsTo(e, after); Some(e)
    else None
  }

  /** The edge that a removed row needs, where its binder has only one. */
  ghost function RemovedNeed(eligible: seq<App>, before: Pending): Option<Edge> {
    var e := FromBinder(eligible, before);
    if e.Some? && !Wide(eligible, e.value) then e else None
  }

  /** The edge that an added row needs, where the binder of its bound has several. */
  ghost function AddedNeed(eligible: seq<App>, after: Pending): Option<Edge> {
    var e := IntoBound(eligible, after);
    if IsHead(after) && e.Some? && Wide(eligible, e.value) then e else None
  }

  /** What a removed row and an added row share when some application could match them. */
  datatype Token = Head(row: Pending) | Call(row: Pending) | Lost

  ghost function RemovedToken(eligible: seq<App>, before: Pending): Token {
    var need := RemovedNeed(eligible, before);
    if !Callback(before) || FromBinder(eligible, before).None? then Lost
    else if need.Some? then Head(Bound(before, need.value.root, need.value.partial))
    else Call(before.(partial := false))
  }

  ghost function AddedToken(eligible: seq<App>, after: Pending): Token {
    var need := AddedNeed(eligible, after);
    if need.Some? then Call(after.(head := UnknownHead(need.value.binder), callee := need.value.binder, partial := false))
    else Head(after)
  }

  /** The edge of a match is needed by one of the two rows only. */
  lemma OneNeed(before: Pending, after: Pending, eligible: seq<App>, i: nat)
    requires BoundsApart(eligible) && i < |eligible| && Fits(before, after, eligible[i])
    ensures var e := Some(EdgeBetween(before, after));
            || (RemovedNeed(eligible, before) == e && AddedNeed(eligible, after) == None)
            || (RemovedNeed(eligible, before) == None && AddedNeed(eligible, after) == e)
    ensures FromBinder(eligible, before).Some? && Callback(before) && IsHead(after)
    ensures Returned(after) == Returned(before)
  {
    FitsEdge(before, after, eligible[i]);
    var e := EdgeBetween(before, after);
    assert Edged(eligible, e) by {
      assert eligible[i] in eligible;
    }
    hide Fits;
    hide Edged;
    hide UnknownHead;
    hide EnumeratedHead;
    var from, into := FromBinder(eligible, before).value, IntoBound(eligible, after).value;
    assert SameBinder(e, from) && SameBound(e, into);
    assert from != e ==> Wide(eligible, e) && Wide(eligible, from);
    assert Wide(eligible, e) && from == e ==> Wide(eligible, from);
    assert Wide(eligible, e) ==> into == e;
    assert Wide(eligible, into) ==> into == e;
  }

  lemma FitsToken(before: Pending, after: Pending, eligible: seq<App>, i: nat)
    requires BoundsApart(eligible) && i < |eligible|
    ensures Fits(before, after, eligible[i]) <==>
            && EdgeOf(eligible[i]) == Some(EdgeBetween(before, after))
            && RemovedToken(eligible, before) == AddedToken(eligible, after)
  {
    FitsEdge(before, after, eligible[i]);
    if Fits(before, after, eligible[i]) {
      OneNeed(before, after, eligible, i);
      hide Fits;
      hide RemovedNeed;
      hide AddedNeed;
    } else if RemovedToken(eligible, before) == AddedToken(eligible, after) {
      hide Fits;
      TokenBounds(before, after, eligible);
    }
  }

  /** Rows that share a token differ in head, callee and partiality only. */
  lemma TokenBounds(before: Pending, after: Pending, eligible: seq<App>)
    requires RemovedToken(eligible, before) == AddedToken(eligible, after)
    ensures Callback(before) && after == Bound(before, after.callee, after.partial)
  {
  }

  // ---------------------------------------------------------------- counting

  function Edges(eligible: seq<App>): seq<Option<Edge>> {
    seq(|eligible|, i requires 0 <= i < |eligible| => EdgeOf(eligible[i]))
  }

  ghost function RemovedTokens(removed: seq<Pending>, eligible: seq<App>): seq<Token> {
    seq(|removed|, i requires 0 <= i < |removed| => RemovedToken(eligible, removed[i]))
  }

  ghost function AddedTokens(added: seq<Pending>, eligible: seq<App>): seq<Token> {
    seq(|added|, i requires 0 <= i < |added| => AddedToken(eligible, added[i]))
  }

  ghost function RemovedNeeds(removed: seq<Pending>, eligible: seq<App>): seq<Option<Edge>> {
    seq(|removed|, i requires 0 <= i < |removed| => RemovedNeed(eligible, removed[i]))
  }

  ghost function AddedNeeds(added: seq<Pending>, eligible: seq<App>): seq<Option<Edge>> {
    seq(|added|, i requires 0 <= i < |added| => AddedNeed(eligible, added[i]))
  }

  ghost predicate OverEdge(eligible: seq<App>, e: Edge) {
    exists a :: a in eligible && EdgeOf(a) == Some(e) && Over(a)
  }

  /** The residual that goes with a needed edge. */
  ghost function ResidualOf(eligible: seq<App>, need: Option<Edge>, row: Pending): Option<Pending> {
    if need.Some? && OverEdge(eligible, need.value) then Some(Returned(row)) else None
  }

  ghost function RemovedResiduals(removed: seq<Pending>, eligible: seq<App>): seq<Option<Pending>> {
    seq(|removed|, i requires 0 <= i < |removed| => ResidualOf(eligible, RemovedNeed(eligible, removed[i]), removed[i]))
  }

  ghost function AddedResiduals(added: seq<Pending>, eligible: seq<App>): seq<Option<Pending>> {
    seq(|added|, i requires 0 <= i < |added| => ResidualOf(eligible, AddedNeed(eligible, added[i]), added[i]))
  }

  function HeadFlags(added: seq<Pending>): seq<bool> {
    seq(|added|, i requires 0 <= i < |added| => IsHead(added[i]))
  }

  /** The added rows that are no heads. */
  function Others(added: seq<Pending>): seq<Option<Pending>> {
    seq(|added|, i requires 0 <= i < |added| => if IsHead(added[i]) then None else Some(added[i]))
  }

  /** Counting alone: each removed row has a head row, and there are no more; the applications
      suffice for the edges needed; the other added rows are among the residuals. */
  ghost predicate Countable(removed: seq<Pending>, added: seq<Pending>, eligible: seq<App>) {
    && multiset(RemovedTokens(removed, eligible)) <= multiset(AddedTokens(added, eligible))
    && multiset(HeadFlags(added))[true] == |removed|
    && (forall e: Edge :: multiset(RemovedNeeds(removed, eligible))[Some(e)] + multiset(AddedNeeds(added, eligible))[Some(e)]
                          <= multiset(Edges(eligible))[Some(e)])
    && (forall r: Pending :: multiset(Others(added))[Some(r)]
                             <= multiset(RemovedResiduals(removed, eligible))[Some(r)] + multiset(AddedResiduals(added, eligible))[Some(r)])
  }

  /** The residual that each pair may have. */
  function Spare(removed: seq<Pending>, eligible: seq<App>, pairs: seq<Pair>): (r: seq<Option<Pending>>)
    requires |pairs| <= |removed| && Within(PairApps(pairs), |eligible|)
  {
    seq(|pairs|, k requires 0 <= k < |pairs| =>
      assert PairApps(pairs)[k] == pairs[k].app;
      if Over(eligible[pairs[k].app]) then Some(Returned(removed[k])) else None)
  }

  lemma MatchedTokens(removed: seq<Pending>, added: seq<Pending>, eligible: seq<App>, pairs: seq<Pair>)
    requires BoundsApart(eligible) && Matched(removed, added, eligible, pairs)
    ensures At(AddedTokens(added, eligible), PairRows(pairs)) == RemovedTokens(removed, eligible)[..|pairs|]
  {
    hide Fits;
    hide BoundsApart;
    hide RemovedToken;
    hide AddedToken;
    forall k | 0 <= k < |pairs|
      ensures AddedTokens(added, eligible)[pairs[k].row] == RemovedTokens(removed, eligible)[k]
    {
      assert PairRows(pairs)[k] < |added| && PairApps(pairs)[k] < |eligible|;
      FitsToken(removed[k], added[pairs[k].row], eligible, pairs[k].app);
    }
  }

  /** The edges of the pairs are what their rows need. */
  lemma MatchedNeeds(removed: seq<Pending>, added: seq<Pending>, eligible: seq<App>, pairs: seq<Pair>)
    requires BoundsApart(eligible) && Matched(removed, added, eligible, pairs)
    ensures forall e: Edge ::
              multiset(At(Edges(eligible), PairApps(pairs)))[Some(e)] ==
              multiset(RemovedNeeds(removed, eligible)[..|pairs|])[Some(e)] + multiset(At(AddedNeeds(added, eligible), PairRows(pairs)))[Some(e)]
  {
    hide Fits;
    hide BoundsApart;
    hide RemovedNeed;
    hide AddedNeed;
    var all, left := At(Edges(eligible), PairApps(pairs)), RemovedNeeds(removed, eligible)[..|pairs|];
    var right := At(AddedNeeds(added, eligible), PairRows(pairs));
    forall k | 0 <= k < |pairs|
      ensures (left[k].None? && right[k] == all[k]) || (right[k].None? && left[k] == all[k])
    {
      assert PairRows(pairs)[k] < |added| && PairApps(pairs)[k] < |eligible|;
      OneNeed(removed[k], added[pairs[k].row], eligible, pairs[k].app);
      FitsEdge(removed[k], added[pairs[k].row], eligible[pairs[k].app]);
    }
    forall e: Edge
      ensures multiset(all)[Some(e)] == multiset(left)[Some(e)] + multiset(right)[Some(e)]
    {
      SplitCount(all, left, right, e);
    }
  }

  lemma OverIsEdge(eligible: seq<App>, i: nat)
    requires OverAgrees(eligible) && i < |eligible| && EdgeOf(eligible[i]).Some?
    ensures Over(eligible[i]) <==> OverEdge(eligible, EdgeOf(eligible[i]).value)
  {
    assert eligible[i] in eligible;
  }

  /** Their residuals are those of the edges needed. */
  lemma MatchedSpare(removed: seq<Pending>, added: seq<Pending>, eligible: seq<App>, pairs: seq<Pair>)
    requires Fitting(eligible) && Matched(removed, added, eligible, pairs)
    ensures forall r: Pending ::
              multiset(Spare(removed, eligible, pairs))[Some(r)] ==
              multiset(RemovedResiduals(removed, eligible)[..|pairs|])[Some(r)] + multiset(At(AddedResiduals(added, eligible), PairRows(pairs)))[Some(r)]
  {
    hide Fits;
    hide BoundsApart;
    hide OverAgrees;
    hide RemovedNeed;
    hide AddedNeed;
    hide Returned;
    hide EdgeOf;
    hide OverEdge;
    hide Over;
    var all, left := Spare(removed, eligible, pairs), RemovedResiduals(removed, eligible)[..|pairs|];
    var right := At(AddedResiduals(added, eligible), PairRows(pairs));
    forall k | 0 <= k < |pairs|
      ensures (left[k].None? && right[k] == all[k]) || (right[k].None? && left[k] == all[k])
    {
      assert PairRows(pairs)[k] < |added| && PairApps(pairs)[k] < |eligible|;
      OneNeed(removed[k], added[pairs[k].row], eligible, pairs[k].app);
      FitsEdge(removed[k], added[pairs[k].row], eligible[pairs[k].app]);
      OverIsEdge(eligible, pairs[k].app);
    }
    forall r: Pending
      ensures multiset(all)[Some(r)] == multiset(left)[Some(r)] + multiset(right)[Some(r)]
    {
      SplitCount(all, left, right, r);
    }
  }

  // ---------------------------------------------------------------- an accounting adds up

  lemma ResidualIsNoHead(after: Pending, head: Pending, app: App)
    requires ResidualFits(after, head, app)
    ensures !IsHead(after)
  {
    assert after.head[0] == 'u' && EnumeratedHead(after.callee)[0] == 'e';
  }

  lemma PairsAreHeads(removed: seq<Pending>, added: seq<Pending>, eligible: seq<App>, pairs: seq<Pair>)
    requires Matched(removed, added, eligible, pairs)
    ensures multiset(At(HeadFlags(added), PairRows(pairs)))[true] == |pairs|
  {
    forall k | 0 <= k < |pairs|
      ensures HeadFlags(added)[pairs[k].row]
    {
      assert PairRows(pairs)[k] < |added| && PairApps(pairs)[k] < |eligible|;
      FitsEdge(removed[k], added[pairs[k].row], eligible[pairs[k].app]);
    }
    CountSame(At(HeadFlags(added), PairRows(pairs)), true);
  }

  /** The rows of the pairs are the head rows. */
  ghost predicate HeadsPaired(added: seq<Pending>, pairs: seq<Pair>) {
    forall j: nat :: j < |added| && IsHead(added[j]) ==> j in PairRows(pairs)
  }

  lemma HeadsPairedIffCounted(removed: seq<Pending>, added: seq<Pending>, eligible: seq<App>, pairs: seq<Pair>)
    requires Matched(removed, added, eligible, pairs)
    ensures HeadsPaired(added, pairs) <==> multiset(HeadFlags(added))[true] == |pairs|
  {
    PairsAreHeads(removed, added, eligible, pairs);
    PickedAll(HeadFlags(added), PairRows(pairs), true);
  }

  /** What only head rows carry is all picked by the pairs. */
  lemma HeadsCarry<A>(added: seq<Pending>, pairs: seq<Pair>, s: seq<Option<A>>, v: A)
    requires HeadsPaired(added, pairs) && Distinct(PairRows(pairs)) && Within(PairRows(pairs), |added|)
    requires |s| == |added| && forall j :: 0 <= j < |s| && s[j].Some? ==> IsHead(added[j])
    ensures multiset(At(s, PairRows(pairs)))[Some(v)] == multiset(s)[Some(v)]
  {
    PickedAll(s, PairRows(pairs), Some(v));
  }

  lemma JustifiedHeads(removed: seq<Pending>, added: seq<Pending>, eligible: seq<App>, pairs: seq<Pair>, claims: seq<Claim>)
    requires Justified(removed, added, eligible, pairs, claims)
    ensures HeadsPaired(added, pairs)
    ensures Within(ClaimRows(claims), |added|)
    ensures forall j: nat :: j < |added| && !IsHead(added[j]) ==> j in ClaimRows(claims)
  {
    hide Fits;
    hide IsHead;
    forall k | 0 <= k < |claims|
      ensures claims[k].row < |added| && !IsHead(added[claims[k].row])
    {
      assert ClaimOk(added, eligible, pairs, claims[k]);
      ResidualIsNoHead(added[claims[k].row], added[pairs[claims[k].pair].row], eligible[claims[k].app]);
    }
    forall j: nat | j < |added|
      ensures if IsHead(added[j]) then j in PairRows(pairs) else j in ClaimRows(claims)
    {
      if j in ClaimRows(claims) {
        var k :| 0 <= k < |claims| && ClaimRows(claims)[k] == j;
        assert claims[k].row == j;
      } else {
        var k :| 0 <= k < |pairs| && PairRows(pairs)[k] == j;
        IsHeadOfPair(removed, added, eligible, pairs, k);
      }
    }
  }

  lemma IsHeadOfPair(removed: seq<Pending>, added: seq<Pending>, eligible: seq<App>, pairs: seq<Pair>, k: nat)
    requires Matched(removed, added, eligible, pairs) && k < |pairs|
    ensures pairs[k].row < |added| && IsHead(added[pairs[k].row])
  {
    assert PairRows(pairs)[k] < |added| && PairApps(pairs)[k] < |eligible|;
    FitsEdge(removed[k], added[pairs[k].row], eligible[pairs[k].app]);
  }

  /** Claimed rows are spare residuals of their pairs. */
  lemma ClaimedSpare(removed: seq<Pending>, added: seq<Pending>, eligible: seq<App>, pairs: seq<Pair>, j: nat, claims: seq<Claim>)
    requires BoundsApart(eligible) && Matched(removed, added, eligible, pairs) && Claimed(added, eligible, pairs, j, claims)
    ensures Within(ClaimRows(claims), |added|) && Within(ClaimPairs(claims), |pairs|)
    ensures At(Others(added), ClaimRows(claims)) == At(Spare(removed, eligible, pairs), ClaimPairs(claims))
  {
    hide Fits;
    hide ResidualFits;
    hide BoundsApart;
    hide IsHead;
    hide Over;
    hide Returned;
    forall k | 0 <= k < |claims|
      ensures claims[k].row < |added| && claims[k].pair < |pairs|
      ensures Others(added)[claims[k].row] == Spare(removed, eligible, pairs)[claims[k].pair]
    {
      var c := claims[k];
      assert ClaimOk(added, eligible, pairs, c);
      SpareIs(removed, added, eligible, pairs, c.pair, added[c.row]);
    }
  }

  lemma SpareIs(removed: seq<Pending>, added: seq<Pending>, eligible: seq<App>, pairs: seq<Pair>, p: nat, after: Pending)
    requires BoundsApart(eligible) && Matched(removed, added, eligible, pairs) && p < |pairs|
    ensures pairs[p].row < |added| && pairs[p].app < |eligible|
    ensures ResidualFits(after, added[pairs[p].row], eligible[pairs[p].app]) <==> Spare(removed, eligible, pairs)[p] == Some(after)
    ensures Spare(removed, eligible, pairs)[p] == Some(after) ==> !IsHead(after)
  {
    assert PairRows(pairs)[p] < |added| && PairApps(pairs)[p] < |eligible|;
    var before, head, app := removed[p], added[pairs[p].row], eligible[pairs[p].app];
    OneNeed(before, head, eligible, pairs[p].app);
    assert Some(head.caller) == app.caller && head.site == app.site;
    ResidualIsReturned(after, head, app);
    if ResidualFits(after, head, app) {
      ResidualIsNoHead(after, head, app);
    }
  }

  lemma JustifiedOthers(removed: seq<Pending>, added: seq<Pending>, eligible: seq<App>, pairs: seq<Pair>, claims: seq<Claim>)
    requires BoundsApart(eligible) && Justified(removed, added, eligible, pairs, claims)
    ensures forall r: Pending :: multiset(Others(added))[Some(r)] <= multiset(Spare(removed, eligible, pairs))[Some(r)]
  {
    hide Fits;
    hide ResidualFits;
    hide BoundsApart;
    hide IsHead;
    JustifiedHeads(removed, added, eligible, pairs, claims);
    ClaimedSpare(removed, added, eligible, pairs, |added|, claims);
    AtIncluded(Spare(removed, eligible, pairs), ClaimPairs(claims));
    forall r: Pending
      ensures multiset(Others(added))[Some(r)] == multiset(At(Others(added), ClaimRows(claims)))[Some(r)]
    {
      PickedAll(Others(added), ClaimRows(claims), Some(r));
    }
  }

  /** Any complete accounting, found greedily or not, passes the count. */
  lemma JustifiedCounts(removed: seq<Pending>, added: seq<Pending>, eligible: seq<App>, pairs: seq<Pair>, claims: seq<Claim>)
    requires Fitting(eligible) && Justified(removed, added, eligible, pairs, claims)
    ensures Countable(removed, added, eligible)
  {
    JustifiedHeads(removed, added, eligible, pairs, claims);
    JustifiedOthers(removed, added, eligible, pairs, claims);
    HeadsPairedIffCounted(removed, added, eligible, pairs);
    MatchedTokens(removed, added, eligible, pairs);
    MatchedNeeds(removed, added, eligible, pairs);
    MatchedSpare(removed, added, eligible, pairs);
    hide Matched;
    hide Claimed;
    hide Fitting;
    hide RemovedToken;
    hide AddedToken;
    hide RemovedNeed;
    hide ResidualOf;
    AtIncluded(AddedTokens(added, eligible), PairRows(pairs));
    AtIncluded(Edges(eligible), PairApps(pairs));
    TakeAll(RemovedTokens(removed, eligible));
    TakeAll(RemovedNeeds(removed, eligible));
    TakeAll(RemovedResiduals(removed, eligible));
    forall e: Edge
      ensures multiset(At(AddedNeeds(added, eligible), PairRows(pairs)))[Some(e)] == multiset(AddedNeeds(added, eligible))[Some(e)]
    {
      HeadsCarry(added, pairs, AddedNeeds(added, eligible), e);
    }
    AddedResidualsCarry(removed, added, eligible, pairs);
  }

  lemma AddedResidualsCarry(removed: seq<Pending>, added: seq<Pending>, eligible: seq<App>, pairs: seq<Pair>)
    requires HeadsPaired(added, pairs) && Distinct(PairRows(pairs)) && Within(PairRows(pairs), |added|)
    ensures forall r: Pending :: multiset(At(AddedResiduals(added, eligible), PairRows(pairs)))[Some(r)] == multiset(AddedResiduals(added, eligible))[Some(r)]
  {
    forall r: Pending
      ensures multiset(At(AddedResiduals(added, eligible), PairRows(pairs)))[Some(r)] == multiset(AddedResiduals(added, eligible))[Some(r)]
    {
      HeadsCarry(added, pairs, AddedResiduals(added, eligible), r);
    }
  }

  // ---------------------------------------------------------------- while the count holds, greed goes on

  /** The next removed row has an added row left, and an application for the two. */
  lemma NextPair(removed: seq<Pending>, added: seq<Pending>, eligible: seq<App>, done: seq<Pair>)
    requires BoundsApart(eligible) && Countable(removed, added, eligible)
    requires Matched(removed, added, eligible, done) && |done| < |removed|
    ensures FirstPair(removed[|done|], added, eligible, done, 0).Some?
  {
    hide Fits;
    hide BoundsApart;
    hide RemovedToken;
    hide AddedToken;
    hide RemovedNeed;
    hide AddedNeed;
    hide EdgeOf;
    var k := |done|;
    MatchedTokens(removed, added, eligible, done);
    PrefixLeaves(multiset(AddedTokens(added, eligible)), RemovedTokens(removed, eligible), k);
    var j := FreeIndex(AddedTokens(added, eligible), PairRows(done), RemovedTokens(removed, eligible)[k]);
    var e := EdgeBetween(removed[k], added[j]);
    SharedTokenNeeds(removed[k], added[j], eligible);
    EdgeLeft(removed, added, eligible, done, j, e);
    var i := FreeIndex(Edges(eligible), PairApps(done), Some(e));
    FitsToken(removed[k], added[j], eligible, i);
  }

  lemma SharedTokenNeeds(before: Pending, after: Pending, eligible: seq<App>)
    requires RemovedToken(eligible, before) == AddedToken(eligible, after)
    ensures RemovedNeed(eligible, before) == Some(EdgeBetween(before, after)) || AddedNeed(eligible, after) == Some(EdgeBetween(before, after))
  {
  }

  lemma EdgeLeft(removed: seq<Pending>, added: seq<Pending>, eligible: seq<App>, done: seq<Pair>, j: nat, e: Edge)
    requires BoundsApart(eligible) && Countable(removed, added, eligible)
    requires Matched(removed, added, eligible, done) && |done| < |removed|
    requires j < |added| && j !in PairRows(done)
    requires RemovedNeed(eligible, removed[|done|]) == Some(e) || AddedNeed(eligible, added[j]) == Some(e)
    ensures multiset(At(Edges(eligible), PairApps(done)))[Some(e)] < multiset(Edges(eligible))[Some(e)]
  {
    MatchedNeeds(removed, added, eligible, done);
    var calls, rows := RemovedNeeds(removed, eligible), AddedNeeds(added, eligible);
    AtIncluded(rows, PairRows(done));
    TakePrefix(calls, |done|);
    if RemovedNeed(eligible, removed[|done|]) == Some(e) {
      PrefixLeaves(multiset(calls), calls, |done|);
    } else {
      OneMorePick(rows, PairRows(done), [], j);
    }
  }

  lemma TakePrefix<A>(s: seq<A>, k: nat)
    requires k <= |s|
    ensures multiset(s[..k]) <= multiset(s)
  {
    assert s == s[..k] + s[k..];
  }

  lemma {:induction false} PairUpComplete(removed: seq<Pending>, added: seq<Pending>, eligible: seq<App>, done: seq<Pair>)
    requires BoundsApart(eligible) && Countable(removed, added, eligible) && Matched(removed, added, eligible, done)
    ensures PairUp(removed, added, eligible, done).Some?
    decreases |removed| - |done|
  {
    hide BoundsApart;
    hide Countable;
    if |done| < |removed| {
      NextPair(removed, added, eligible, done);
      var p := FirstPair(removed[|done|], added, eligible, done, 0).value;
      PairsAppend(done, p);
      PairUpComplete(removed, added, eligible, done + [p]);
    }
  }

  /** The residuals that the pairs have to spare suffice for the rows that are no heads. */
  ghost predicate Suffices(removed: seq<Pending>, added: seq<Pending>, eligible: seq<App>, pairs: seq<Pair>) {
    && |pairs| == |removed| && Matched(removed, added, eligible, pairs) && HeadsPaired(added, pairs)
    && forall r: Pending :: multiset(Others(added))[Some(r)] <= multiset(Spare(removed, eligible, pairs))[Some(r)]
  }

  lemma CountSuffices(removed: seq<Pending>, added: seq<Pending>, eligible: seq<App>, pairs: seq<Pair>)
    requires Fitting(eligible) && Countable(removed, added, eligible)
    requires |pairs| == |removed| && Matched(removed, added, eligible, pairs)
    ensures Suffices(removed, added, eligible, pairs)
  {
    hide Fitting;
    HeadsPairedIffCounted(removed, added, eligible, pairs);
    MatchedSpare(removed, added, eligible, pairs);
    hide Fits;
    hide ResidualOf;
    hide RemovedNeed;
    hide AddedNeed;
    TakeAll(RemovedResiduals(removed, eligible));
    AddedResidualsCarry(removed, added, eligible, pairs);
  }

  /** The next row that no pair took finds a residual to be. */
  lemma NextClaim(removed: seq<Pending>, added: seq<Pending>, eligible: seq<App>, pairs: seq<Pair>, j: nat, claims: seq<Claim>)
    requires BoundsApart(eligible) && Suffices(removed, added, eligible, pairs)
    requires j < |added| && j !in PairRows(pairs) && Claimed(added, eligible, pairs, j, claims)
    ensures FirstClaim(added[j], added, eligible, pairs, claims, 0).Some?
  {
    hide Fits;
    hide ResidualFits;
    hide BoundsApart;
    hide IsHead;
    hide Over;
    hide Returned;
    ClaimedSpare(removed, added, eligible, pairs, j, claims);
    UnclaimedRow(added, eligible, pairs, j, claims);
    OneMorePick(Others(added), [], ClaimRows(claims), j);
    assert Others(added)[j] == Some(added[j]);
    var p := FreeIndex(Spare(removed, eligible, pairs), ClaimPairs(claims), Some(added[j]));
    SpareIs(removed, added, eligible, pairs, p, added[j]);
    FoundPair(pairs, p);
    UnclaimedApp(added, eligible, pairs, j, claims, p);
    assert Claimable(added[j], added, eligible, pairs, claims, pairs[p].app);
  }

  /** With distinct applications, looking one up finds its own pair. */
  lemma FoundPair(pairs: seq<Pair>, p: nat)
    requires Distinct(PairApps(pairs)) && p < |pairs|
    ensures PairOf(pairs, pairs[p].app) == Some(p)
  {
    var apps := PairApps(pairs);
    var q := PairOf(pairs, apps[p]);
    assert apps[p] in apps;
    assert q.Some? && apps[q.value] == apps[p];
  }

  lemma UnclaimedApp(added: seq<Pending>, eligible: seq<App>, pairs: seq<Pair>, j: nat, claims: seq<Claim>, p: nat)
    requires Distinct(PairApps(pairs)) && Claimed(added, eligible, pairs, j, claims) && p < |pairs| && p !in ClaimPairs(claims)
    ensures pairs[p].app !in ClaimApps(claims)
  {
    forall k | 0 <= k < |claims|
      ensures ClaimApps(claims)[k] != pairs[p].app
    {
      assert ClaimPairs(claims)[k] in ClaimPairs(claims);
      assert ClaimOk(added, eligible, pairs, claims[k]);
      assert PairApps(pairs)[claims[k].pair] == claims[k].app && PairApps(pairs)[p] == pairs[p].app;
    }
  }

  lemma UnclaimedRow(added: seq<Pending>, eligible: seq<App>, pairs: seq<Pair>, j: nat, claims: seq<Claim>)
    requires j < |added| && Claimed(added, eligible, pairs, j, claims)
    ensures Within(ClaimRows(claims), |added|) && Distinct(ClaimRows(claims) + [j])
  {
    var rest := ClaimRows(claims);
    forall k | 0 <= k < |claims|
      ensures rest[k] < j
    {
      assert claims[k].row == rest[k];
    }
  }

  lemma {:induction false} ClaimAllComplete(removed: seq<Pending>, added: seq<Pending>, eligible: seq<App>, pairs: seq<Pair>,
                                            j: nat, claims: seq<Claim>)
    requires BoundsApart(eligible) && Suffices(removed, added, eligible, pairs)
    requires j <= |added| && Claimed(added, eligible, pairs, j, claims)
    ensures ClaimAll(added, eligible, pairs, j, claims).Some?
    decreases |added| - j
  {
    hide BoundsApart;
    hide Suffices;
    if j < |added| {
      if j in PairRows(pairs) {
        ClaimAllComplete(removed, added, eligible, pairs, j + 1, claims);
      } else {
        NextClaim(removed, added, eligible, pairs, j, claims);
        var i := FirstClaim(added[j], added, eligible, pairs, claims, 0).value;
        OneMoreClaim(added, eligible, pairs, j, claims, i);
        ClaimAllComplete(removed, added, eligible, pairs, j + 1, claims + [Claim(j, i, PairOf(pairs, i).value)]);
      }
    }
  }

  /** For fitting applications the greedy choice approves a change exactly when the counts add
      up, and exactly when any complete accounting exists. */
  lemma GreedyCounts(removed: seq<Pending>, added: seq<Pending>, eligible: seq<App>)
    requires Fitting(eligible)
    ensures Greedy(removed, added, eligible).Some? <==> Countable(removed, added, eligible)
    ensures Greedy(removed, added, eligible).Some? <==> Accountable(removed, added, eligible)
  {
    hide Fitting;
    hide Countable;
    hide Justified;
    if Greedy(removed, added, eligible).Some? {
      GreedySound(removed, added, eligible);
    }
    if Accountable(removed, added, eligible) {
      var pairs, claims :| Justified(removed, added, eligible, pairs, claims);
      JustifiedCounts(removed, added, eligible, pairs, claims);
    }
    if Countable(removed, added, eligible) {
      CountableGoes(removed, added, eligible);
    }
  }

  lemma CountableGoes(removed: seq<Pending>, added: seq<Pending>, eligible: seq<App>)
    requires Fitting(eligible) && Countable(removed, added, eligible)
    ensures Greedy(removed, added, eligible).Some?
  {
    FittingParts(eligible);
    hide Fits;
    hide Fitting;
    hide Countable;
    hide BoundsApart;
    hide OverAgrees;
    hide Suffices;
    PairUpSound(removed, added, eligible, []);
    PairUpComplete(removed, added, eligible, []);
    var pairs := PairUp(removed, added, eligible, []).value;
    CountSuffices(removed, added, eligible, pairs);
    ClaimAllComplete(removed, added, eligible, pairs, 0, []);
  }

  lemma FittingParts(eligible: seq<App>)
    requires Fitting(eligible)
    ensures OverAgrees(eligible) && BoundsApart(eligible)
  {
  }

  ghost predicate Accountable(removed: seq<Pending>, added: seq<Pending>, eligible: seq<App>) {
    exists pairs, claims :: Justified(removed, added, eligible, pairs, claims)
  }

  // ---------------------------------------------------------------- the order of the rows

  /** An accounting of a change is one of its added rows in any order. */
  lemma AddedMoved(removed: seq<Pending>, added: seq<Pending>, eligible: seq<App>, added': seq<Pending>)
    requires Accountable(removed, added, eligible) && multiset(added) == multiset(added')
    ensures Accountable(removed, added', eligible)
  {
    var pairs: seq<Pair>, claims: seq<Claim> :| Justified(removed, added, eligible, pairs, claims);
    var to := Rearranged(added', added);
    JustifiedConserves(removed, added, eligible, pairs, claims);
    var pairs' := MovedPairs(pairs, to);
    var claims' := MovedClaims(claims, to);
    MovedMatch(removed, added, eligible, pairs, added', to);
    MovedClaim(added, eligible, pairs, claims, added', to);
    assert Justified(removed, added', eligible, pairs', claims');
  }

  function MovedPairs(pairs: seq<Pair>, to: seq<nat>): (r: seq<Pair>)
    requires Within(PairRows(pairs), |to|)
  {
    seq(|pairs|, k requires 0 <= k < |pairs| => assert PairRows(pairs)[k] == pairs[k].row; pairs[k].(row := to[pairs[k].row]))
  }

  function MovedClaims(claims: seq<Claim>, to: seq<nat>): (r: seq<Claim>)
    requires Within(ClaimRows(claims), |to|)
  {
    seq(|claims|, k requires 0 <= k < |claims| => assert ClaimRows(claims)[k] == claims[k].row; claims[k].(row := to[claims[k].row]))
  }

  lemma DistinctAt(idx: seq<nat>, to: seq<nat>)
    requires Distinct(idx) && Distinct(to) && Within(idx, |to|)
    ensures Distinct(At(to, idx))
  {
    forall i, j | 0 <= i < j < |idx|
      ensures At(to, idx)[i] != At(to, idx)[j]
    {
      assert idx[i] < idx[j] || idx[j] < idx[i];
    }
  }

  lemma MovedMatch(removed: seq<Pending>, added: seq<Pending>, eligible: seq<App>, pairs: seq<Pair>, added': seq<Pending>, to: seq<nat>)
    requires Matched(removed, added, eligible, pairs)
    requires Distinct(to) && Within(to, |added'|) && At(added', to) == added
    ensures Matched(removed, added', eligible, MovedPairs(pairs, to))
    ensures PairRows(MovedPairs(pairs, to)) == At(to, PairRows(pairs)) && PairApps(MovedPairs(pairs, to)) == PairApps(pairs)
  {
    hide Fits;
    DistinctAt(PairRows(pairs), to);
    assert PairRows(MovedPairs(pairs, to)) == At(to, PairRows(pairs));
    forall k | 0 <= k < |pairs|
      ensures to[pairs[k].row] < |added'| && added'[to[pairs[k].row]] == added[pairs[k].row]
    {
      assert PairRows(pairs)[k] == pairs[k].row;
    }
  }

  lemma MovedOut(idx: seq<nat>, to: seq<nat>, j: nat)
    requires Within(idx, |to|) && Distinct(to) && j < |to|
    ensures to[j] in At(to, idx) <==> j in idx
  {
    if to[j] in At(to, idx) {
      var k :| 0 <= k < |idx| && At(to, idx)[k] == to[j];
      assert idx[k] < j || j < idx[k] || idx[k] == j;
      assert idx[k] == j;
    }
    if j in idx {
      var k :| 0 <= k < |idx| && idx[k] == j;
      assert At(to, idx)[k] == to[j];
    }
  }

  lemma MovedClaim(added: seq<Pending>, eligible: seq<App>, pairs: seq<Pair>, claims: seq<Claim>, added': seq<Pending>, to: seq<nat>)
    requires Within(PairRows(pairs), |added|) && Claimed(added, eligible, pairs, |added|, claims)
    requires Distinct(to) && Within(to, |added'|) && At(added', to) == added && forall j: nat :: j < |added'| ==> j in to
    requires Within(ClaimRows(claims), |added|)
    ensures Claimed(added', eligible, MovedPairs(pairs, to), |added'|, MovedClaims(claims, to))
  {
    hide ResidualFits;
    var pairs', claims' := MovedPairs(pairs, to), MovedClaims(claims, to);
    assert PairRows(pairs') == At(to, PairRows(pairs)) && ClaimRows(claims') == At(to, ClaimRows(claims));
    assert ClaimPairs(claims') == ClaimPairs(claims);
    DistinctAt(ClaimRows(claims), to);
    forall k | 0 <= k < |claims|
      ensures claims'[k].row < |added'| && ClaimOk(added', eligible, pairs', claims'[k])
    {
      var c := claims[k];
      assert ClaimOk(added, eligible, pairs, c);
      assert PairRows(pairs)[c.pair] == pairs[c.pair].row;
      MovedOut(PairRows(pairs), to, c.row);
    }
    forall m: nat | m < |added'|
      ensures m in PairRows(pairs') || m in ClaimRows(claims')
    {
      assert m in to;
      var j :| 0 <= j < |to| && to[j] == m;
      MovedOut(PairRows(pairs), to, j);
      MovedOut(ClaimRows(claims), to, j);
    }
  }

  /** And of its removed rows in any order. */
  lemma RemovedMoved(removed: seq<Pending>, added: seq<Pending>, eligible: seq<App>, removed': seq<Pending>)
    requires Accountable(removed, added, eligible) && multiset(removed) == multiset(removed')
    ensures Accountable(removed', added, eligible)
  {
    var pairs: seq<Pair>, claims: seq<Claim> :| Justified(removed, added, eligible, pairs, claims);
    hide Fits;
    hide ResidualFits;
    hide Distinct;
    var from := Rearranged(removed, removed');
    var pairs' := At(pairs, from);
    forall k | 0 <= k < |claims|
      ensures claims[k].pair in from
    {
      assert ClaimOk(added, eligible, pairs, claims[k]);
    }
    var claims' := seq(|claims|, k requires 0 <= k < |claims| => claims[k].(pair := Where(from, claims[k].pair)));
    ReorderedMatch(removed, added, eligible, pairs, removed', from);
    ReorderedClaim(added, eligible, pairs, claims, from, claims');
    assert Justified(removed', added, eligible, pairs', claims');
  }

  ghost function Where(idx: seq<nat>, v: nat): (i: nat)
    requires v in idx
    ensures i < |idx| && idx[i] == v
  {
    var i :| 0 <= i < |idx| && idx[i] == v;
    i
  }

  lemma ReorderedMatch(removed: seq<Pending>, added: seq<Pending>, eligible: seq<App>, pairs: seq<Pair>, removed': seq<Pending>, from: seq<nat>)
    requires |pairs| == |removed| && Matched(removed, added, eligible, pairs)
    requires Distinct(from) && Within(from, |removed|) && At(removed, from) == removed'
    ensures Matched(removed', added, eligible, At(pairs, from))
  {
    hide Fits;
    var pairs' := At(pairs, from);
    assert PairRows(pairs') == At(PairRows(pairs), from) && PairApps(pairs') == At(PairApps(pairs), from);
    DistinctAt(from, PairRows(pairs));
    DistinctAt(from, PairApps(pairs));
    forall k | 0 <= k < |pairs'|
      ensures PairRows(pairs')[k] < |added| && PairApps(pairs')[k] < |eligible|
    {
      assert PairRows(pairs)[from[k]] < |added| && PairApps(pairs)[from[k]] < |eligible|;
    }
  }

  lemma ReorderedClaim(added: seq<Pending>, eligible: seq<App>, pairs: seq<Pair>, claims: seq<Claim>, from: seq<nat>, claims': seq<Claim>)
    requires Claimed(added, eligible, pairs, |added|, claims)
    requires Distinct(from) && Within(from, |pairs|) && forall p: nat :: p < |pairs| ==> p in from
    requires |claims'| == |claims|
    requires forall k :: 0 <= k < |claims| ==> claims[k].pair in from && claims'[k] == claims[k].(pair := Where(from, claims[k].pair))
    ensures Claimed(added, eligible, At(pairs, from), |added|, claims')
  {
    hide ResidualFits;
    var pairs' := At(pairs, from);
    assert ClaimRows(claims') == ClaimRows(claims);
    SameRows(pairs, from);
    forall k | 0 <= k < |claims|
      ensures ClaimOk(added, eligible, pairs', claims'[k])
    {
      assert ClaimOk(added, eligible, pairs, claims[k]);
    }
    forall h, k | 0 <= h < k < |claims|
      ensures ClaimPairs(claims')[h] != ClaimPairs(claims')[k]
    {
      assert ClaimPairs(claims)[h] != ClaimPairs(claims)[k];
    }
  }

  lemma SameRows(pairs: seq<Pair>, from: seq<nat>)
    requires Within(from, |pairs|) && forall p: nat :: p < |pairs| ==> p in from
    ensures forall m :: m in PairRows(At(pairs, from)) <==> m in PairRows(pairs)
  {
    forall m
      ensures m in PairRows(At(pairs, from)) <==> m in PairRows(pairs)
    {
      if m in PairRows(pairs) {
        var p :| 0 <= p < |pairs| && PairRows(pairs)[p] == m;
        assert p in from;
        var k :| 0 <= k < |from| && from[k] == p;
        assert PairRows(At(pairs, from))[k] == m;
      }
      if m in PairRows(At(pairs, from)) {
        var k :| 0 <= k < |from| && PairRows(At(pairs, from))[k] == m;
        assert PairRows(pairs)[from[k]] == m;
      }
    }
  }

  /** Greed approves whatever has a complete accounting. */
  ghost predicate Complete(eligible: seq<App>) {
    forall removed, added :: Accountable(removed, added, eligible) ==> Greedy(removed, added, eligible).Some?
  }

  /** Approval does not depend on the order of the rows. */
  ghost predicate OrderFree(eligible: seq<App>) {
    forall removed, added, removed', added' :: multiset(removed) == multiset(removed') && multiset(added) == multiset(added') ==>
      (Greedy(removed, added, eligible).Some? <==> Greedy(removed', added', eligible).Some?)
  }

  /** The same of the lists that `subtract` can yield only. */
  ghost predicate CompleteForChanges(eligible: seq<App>) {
    forall removed, added :: Subtracted(removed, added) && Accountable(removed, added, eligible) ==> Greedy(removed, added, eligible).Some?
  }

  ghost predicate OrderFreeForChanges(eligible: seq<App>) {
    forall removed, added, removed', added' :: Reordered(removed, added, removed', added') ==>
      (Greedy(removed, added, eligible).Some? <==> Greedy(removed', added', eligible).Some?)
  }

  /** One change in two orders. */
  ghost predicate Reordered(removed: seq<Pending>, added: seq<Pending>, removed': seq<Pending>, added': seq<Pending>) {
    && Subtracted(removed, added) && Subtracted(removed', added')
    && multiset(removed) == multiset(removed') && multiset(added) == multiset(added')
  }

  lemma CompleteIsOrderFreeForChanges(eligible: seq<App>)
    requires CompleteForChanges(eligible)
    ensures OrderFreeForChanges(eligible)
  {
    hide Greedy;
    hide Subtracted;
    forall removed, added, removed', added' | Reordered(removed, added, removed', added')
      ensures Greedy(removed, added, eligible).Some? ==> Greedy(removed', added', eligible).Some?
    {
      if Greedy(removed, added, eligible).Some? {
        GreedySound(removed, added, eligible);
        RemovedMoved(removed, added, eligible, removed');
        AddedMoved(removed', added, eligible, added');
      }
    }
  }

  lemma CompleteIsOrderFree(eligible: seq<App>)
    requires Complete(eligible)
    ensures OrderFree(eligible)
  {
    hide Greedy;
    forall removed, added, removed', added' | multiset(removed) == multiset(removed') && multiset(added) == multiset(added')
      ensures Greedy(removed, added, eligible).Some? ==> Greedy(removed', added', eligible).Some?
    {
      if Greedy(removed, added, eligible).Some? {
        GreedySound(removed, added, eligible);
        RemovedMoved(removed, added, eligible, removed');
        AddedMoved(removed', added, eligible, added');
      }
    }
  }

  // ---------------------------------------------------------------- where greed goes wrong

  lemma {:induction false} FirstAppSame(before: Pending, after: Pending, before': Pending, after': Pending, eligible: seq<App>,
                                        used: seq<nat>, i: nat)
    requires i <= |eligible|
    requires forall k :: 0 <= k < |eligible| ==> (Fits(before, after, eligible[k]) <==> Fits(before', after', eligible[k]))
    ensures FirstApp(before, after, eligible, used, i) == FirstApp(before', after', eligible, used, i)
    decreases |eligible| - i
  {
    hide Fits;
    if i < |eligible| {
      FirstAppSame(before, after, before', after', eligible, used, i + 1);
    }
  }

  lemma {:induction false} FirstPairSame(before: Pending, added: seq<Pending>, before': Pending, added': seq<Pending>, eligible: seq<App>,
                                         done: seq<Pair>, j: nat)
    requires j <= |added| == |added'|
    requires forall m, k :: 0 <= m < |added| && 0 <= k < |eligible| ==>
               (Fits(before, added[m], eligible[k]) <==> Fits(before', added'[m], eligible[k]))
    ensures FirstPair(before, added, eligible, done, j) == FirstPair(before', added', eligible, done, j)
    decreases |added| - j
  {
    hide Fits;
    if j < |added| {
      FirstAppSame(before, added[j], before', added'[j], eligible, PairApps(done), 0);
      FirstPairSame(before, added, before', added', eligible, done, j + 1);
    }
  }

  /** The first phase sees nothing of the rows but which of them fit. */
  lemma {:induction false} PairUpSame(removed: seq<Pending>, added: seq<Pending>, removed': seq<Pending>, added': seq<Pending>,
                                      eligible: seq<App>, done: seq<Pair>)
    requires |done| <= |removed| == |removed'| && |added| == |added'|
    requires forall n, m, k :: 0 <= n < |removed| && 0 <= m < |added| && 0 <= k < |eligible| ==>
               (Fits(removed[n], added[m], eligible[k]) <==> Fits(removed'[n], added'[m], eligible[k]))
    ensures PairUp(removed, added, eligible, done) == PairUp(removed', added', eligible, done)
    decreases |removed| - |done|
  {
    hide Fits;
    if |done| < |removed| {
      FirstPairSame(removed[|done|], added, removed'[|done|], added', eligible, done, 0);
      var p := FirstPair(removed[|done|], added, eligible, done, 0);
      if p.Some? {
        PairUpSame(removed, added, removed', added', eligible, done + [p.value]);
      }
    }
  }

  /** The added rows begin with the heads of the removed rows, in their order. */
  ghost predicate Aligned(removed: seq<Pending>, added: seq<Pending>) {
    && |removed| <= |added|
    && forall k :: 0 <= k < |removed| ==> Callback(removed[k]) && added[k] == Bound(removed[k], added[k].callee, added[k].partial)
  }

  function RowEdges(removed: seq<Pending>, added: seq<Pending>): seq<Option<Edge>>
    requires |removed| <= |added|
  {
    seq(|removed|, k requires 0 <= k < |removed| => Some(EdgeBetween(removed[k], added[k])))
  }

  /** Each removed row so far took the added row in its own place. */
  ghost predicate InPlace(removed: seq<Pending>, added: seq<Pending>, eligible: seq<App>, pairs: seq<Pair>) {
    && Matched(removed, added, eligible, pairs) && |removed| <= |added|
    && forall k :: 0 <= k < |pairs| ==> pairs[k].row == k && EdgeOf(eligible[pairs[k].app]) == Some(EdgeBetween(removed[k], added[k]))
  }

  lemma NextInPlace(removed: seq<Pending>, added: seq<Pending>, eligible: seq<App>, done: seq<Pair>) returns (p: Pair)
    requires Aligned(removed, added) && multiset(RowEdges(removed, added)) <= multiset(Edges(eligible))
    requires InPlace(removed, added, eligible, done) && |done| < |removed|
    ensures FirstPair(removed[|done|], added, eligible, done, 0) == Some(p)
    ensures InPlace(removed, added, eligible, done + [p])
  {
    hide Fits;
    hide Bound;
    hide Callback;
    hide Edges;
    hide EdgeOf;
    hide RowEdges;
    hide FirstApp;
    hide Matched;
    var k := |done|;
    assert FirstApp(removed[k], added[k], eligible, PairApps(done), 0).Some? by {
      var i := EdgeInPlace(removed, added, eligible, done);
      FitsEdge(removed[k], added[k], eligible[i]);
    }
    var app := FirstApp(removed[k], added[k], eligible, PairApps(done), 0);
    assert k !in PairRows(done);
    SkipTaken(removed[k], added, eligible, done, 0);
    p := Pair(k, app.value);
    FitsEdge(removed[k], added[k], eligible[app.value]);
    OneMoreMatch(removed, added, eligible, done, p);
  }

  /** An application is left for the edge of the next row. */
  lemma EdgeInPlace(removed: seq<Pending>, added: seq<Pending>, eligible: seq<App>, done: seq<Pair>) returns (i: nat)
    requires |removed| <= |added| && multiset(RowEdges(removed, added)) <= multiset(Edges(eligible))
    requires InPlace(removed, added, eligible, done) && |done| < |removed|
    ensures i < |eligible| && i !in PairApps(done) && EdgeOf(eligible[i]) == Some(EdgeBetween(removed[|done|], added[|done|]))
  {
    hide Fits;
    hide EdgeOf;
    hide EdgeBetween;
    var k := |done|;
    assert At(Edges(eligible), PairApps(done)) == RowEdges(removed, added)[..k];
    PrefixLeaves(multiset(Edges(eligible)), RowEdges(removed, added), k);
    i := FreeIndex(Edges(eligible), PairApps(done), RowEdges(removed, added)[k]);
    assert Edges(eligible)[i] == EdgeOf(eligible[i]);
  }

  lemma OneMoreMatch(removed: seq<Pending>, added: seq<Pending>, eligible: seq<App>, done: seq<Pair>, p: Pair)
    requires Matched(removed, added, eligible, done) && |done| < |removed|
    requires p.row < |added| && p.app < |eligible| && p.row !in PairRows(done) && p.app !in PairApps(done)
    requires Fits(removed[|done|], added[p.row], eligible[p.app])
    ensures Matched(removed, added, eligible, done + [p])
  {
    hide Fits;
    PairsAppend(done, p);
  }

  lemma {:induction false} SkipTaken(before: Pending, added: seq<Pending>, eligible: seq<App>, done: seq<Pair>, j: nat)
    requires j <= |done| <= |added| && forall k :: 0 <= k < |done| ==> done[k].row == k
    ensures FirstPair(before, added, eligible, done, j) == FirstPair(before, added, eligible, done, |done|)
    decreases |done| - j
  {
    if j < |done| {
      assert PairRows(done)[j] == j;
      SkipTaken(before, added, eligible, done, j + 1);
    }
  }

  /** With enough applications, aligned rows are matched in place. */
  lemma {:induction false} AlignedGoes(removed: seq<Pending>, added: seq<Pending>, eligible: seq<App>, done: seq<Pair>)
    requires Aligned(removed, added) && multiset(RowEdges(removed, added)) <= multiset(Edges(eligible))
    requires InPlace(removed, added, eligible, done)
    ensures var r := PairUp(removed, added, eligible, done);
            r.Some? && |r.value| == |removed| && InPlace(removed, added, eligible, r.value)
    decreases |removed| - |done|
  {
    hide InPlace;
    assert |done| <= |removed| by {
      PlacesLeft(removed, added, eligible, done);
    }
    if |done| < |removed| {
      var p := NextInPlace(removed, added, eligible, done);
      AlignedGoes(removed, added, eligible, done + [p]);
    }
  }

  lemma PlacesLeft(removed: seq<Pending>, added: seq<Pending>, eligible: seq<App>, done: seq<Pair>)
    requires InPlace(removed, added, eligible, done)
    ensures |done| <= |removed|
  {
  }

  /** A row that calls the binder of the edge, in an exception scope of its own. */
  function CallRow(e: Edge, scope: int): Pending {
    Pending("", e.caller, UnknownHead(e.binder), e.binder, None, false, false, false, false, e.site, Some(scope), None, Some("result"), None)
  }

  function HeadRow(e: Edge, scope: int): Pending {
    Bound(CallRow(e, scope), e.root, e.partial)
  }

  lemma RowFits(e: Edge, scope: int, scope': int, app: App)
    ensures Fits(CallRow(e, scope), HeadRow(e, scope'), app) <==> scope == scope' && EdgeOf(app) == Some(e)
    ensures !Fits(CallRow(e, scope), Returned(HeadRow(e, scope')), app)
  {
    FitsEdge(CallRow(e, scope), HeadRow(e, scope'), app);
    FitsEdge(CallRow(e, scope), Returned(HeadRow(e, scope')), app);
    assert UnknownHead("*TOP*")[0] == 'u' && EnumeratedHead("*TOP*")[0] == 'e';
  }

  function CallRows(e: Edge, scopes: seq<int>): seq<Pending> {
    Map((s: int) => CallRow(e, s), scopes)
  }

  /** The heads of those rows, and a residual of the one in scope `s`. */
  function HeadRows(e: Edge, scopes: seq<int>, s: int): seq<Pending> {
    Map((t: int) => HeadRow(e, t), scopes) + [Returned(HeadRow(e, s))]
  }

  lemma ScopesTable(e: Edge, scopes: seq<int>, s: int, n: nat, m: nat, app: App)
    requires (forall i, j :: 0 <= i < j < |scopes| ==> scopes[i] != scopes[j]) && n < |scopes| && m <= |scopes|
    ensures Fits(CallRows(e, scopes)[n], HeadRows(e, scopes, s)[m], app) <==> n == m && EdgeOf(app) == Some(e)
  {
    hide Fits;
    hide CallRow;
    hide HeadRow;
    hide Returned;
    RowFits(e, scopes[n], if m < |scopes| then scopes[m] else s, app);
  }

  lemma ScopesAligned(e: Edge, scopes: seq<int>, s: int, eligible: seq<App>)
    requires |scopes| == multiset(Edges(eligible))[Some(e)]
    ensures Aligned(CallRows(e, scopes), HeadRows(e, scopes, s))
    ensures RowEdges(CallRows(e, scopes), HeadRows(e, scopes, s)) == seq(|scopes|, (k: int) => Some(e))
    ensures multiset(RowEdges(CallRows(e, scopes), HeadRows(e, scopes, s))) <= multiset(Edges(eligible))
  {
    var es := seq(|scopes|, (k: int) => Some(e));
    assert RowEdges(CallRows(e, scopes), HeadRows(e, scopes, s)) == es;
    CountSame(es, Some(e));
    forall v
      ensures multiset(es)[v] <= multiset(Edges(eligible))[v]
    {
      if v in multiset(es) {
        assert v in es;
      }
    }
  }

  /** One row in a scope of its own for each application of the edge: all are taken, in place. */
  lemma ScopesPaired(e: Edge, scopes: seq<int>, s: int, eligible: seq<App>) returns (pairs: seq<Pair>)
    requires |scopes| == multiset(Edges(eligible))[Some(e)]
    ensures PairUp(CallRows(e, scopes), HeadRows(e, scopes, s), eligible, []) == Some(pairs)
    ensures |pairs| == |scopes| && InPlace(CallRows(e, scopes), HeadRows(e, scopes, s), eligible, pairs)
    ensures forall i: nat :: i < |eligible| && EdgeOf(eligible[i]) == Some(e) ==> i in PairApps(pairs)
  {
    var removed, added := CallRows(e, scopes), HeadRows(e, scopes, s);
    ScopesAligned(e, scopes, s, eligible);
    AlignedGoes(removed, added, eligible, []);
    pairs := PairUp(removed, added, eligible, []).value;
    hide Fits;
    hide CallRow;
    hide HeadRow;
    hide Returned;
    assert At(Edges(eligible), PairApps(pairs)) == RowEdges(removed, added);
    CountSame(At(Edges(eligible), PairApps(pairs)), Some(e));
    PickedAll(Edges(eligible), PairApps(pairs), Some(e));
    forall i: nat | i < |eligible| && EdgeOf(eligible[i]) == Some(e)
      ensures i in PairApps(pairs)
    {
      assert Edges(eligible)[i] == Some(e);
    }
  }

  /** Whoever claims the residual of a row in its own scope is that row's pair. */
  lemma ClaimantOf(e: Edge, scopes: seq<int>, eligible: seq<App>, pairs: seq<Pair>, claims: seq<Claim>, j: nat)
    requires forall i, k :: 0 <= i < k < |scopes| ==> scopes[i] != scopes[k]
    requires j < |scopes| == |pairs| && forall k :: 0 <= k < |pairs| ==> pairs[k].row == k
    requires Claimed(HeadRows(e, scopes, scopes[j]), eligible, pairs, |scopes| + 1, claims)
    ensures pairs[j].app < |eligible| && Over(eligible[pairs[j].app])
  {
    var added := HeadRows(e, scopes, scopes[j]);
    var last := |scopes|;
    hide CallRow;
    hide Returned;
    assert last !in PairRows(pairs);
    assert last in ClaimRows(claims);
    var k :| 0 <= k < |claims| && ClaimRows(claims)[k] == last;
    assert ClaimOk(added, eligible, pairs, claims[k]);
    var p := claims[k].pair;
    assert added[last] == Returned(HeadRow(e, scopes[j])) && added[p] == HeadRow(e, scopes[p]);
    ReturnedScope(e, scopes[j]);
    ReturnedScope(e, scopes[p]);
    assert scopes[p] == scopes[j];
    assert p == j;
  }

  lemma ReturnedScope(e: Edge, scope: int)
    ensures Returned(HeadRow(e, scope)).exnScope == HeadRow(e, scope).exnScope == Some(scope)
  {
  }

  /** The residual belongs to a row whose application is not over-applied: no claim. */
  lemma ResidualStuck(e: Edge, scopes: seq<int>, eligible: seq<App>, pairs: seq<Pair>, j: nat)
    requires forall i, k :: 0 <= i < k < |scopes| ==> scopes[i] != scopes[k]
    requires j < |scopes| && PairUp(CallRows(e, scopes), HeadRows(e, scopes, scopes[j]), eligible, []) == Some(pairs)
    requires |pairs| == |scopes| && InPlace(CallRows(e, scopes), HeadRows(e, scopes, scopes[j]), eligible, pairs)
    requires !Over(eligible[pairs[j].app])
    ensures Greedy(CallRows(e, scopes), HeadRows(e, scopes, scopes[j]), eligible).None?
  {
    hide Fits;
    hide ResidualFits;
    hide CallRow;
    hide HeadRow;
    hide Returned;
    hide Over;
    hide PairUp;
    hide EdgeOf;
    var removed, added := CallRows(e, scopes), HeadRows(e, scopes, scopes[j]);
    if Greedy(removed, added, eligible).Some? {
      GreedySound(removed, added, eligible);
      ClaimantOf(e, scopes, eligible, pairs, Greedy(removed, added, eligible).value, j);
    }
  }

  /** The last added row is the residual of a pair, and the others are heads: approved. */
  lemma {:induction false} LastClaimed(added: seq<Pending>, eligible: seq<App>, pairs: seq<Pair>, i: nat, j: nat)
    requires j < |added| && forall m: nat :: m < |added| - 1 ==> m in PairRows(pairs)
    requires |added| - 1 !in PairRows(pairs) && Claimable(added[|added| - 1], added, eligible, pairs, [], i)
    ensures ClaimAll(added, eligible, pairs, j, []).Some?
    decreases |added| - j
  {
    hide Claimable;
    if j < |added| - 1 {
      LastClaimed(added, eligible, pairs, i, j + 1);
    }
  }

  lemma ResidualClaimed(e: Edge, scopes: seq<int>, eligible: seq<App>, pairs: seq<Pair>, j: nat)
    requires forall i, k :: 0 <= i < k < |scopes| ==> scopes[i] != scopes[k]
    requires j < |scopes| && PairUp(CallRows(e, scopes), HeadRows(e, scopes, scopes[j]), eligible, []) == Some(pairs)
    requires |pairs| == |scopes| && InPlace(CallRows(e, scopes), HeadRows(e, scopes, scopes[j]), eligible, pairs)
    requires Over(eligible[pairs[j].app])
    ensures Greedy(CallRows(e, scopes), HeadRows(e, scopes, scopes[j]), eligible).Some?
  {
    var added := HeadRows(e, scopes, scopes[j]);
    var i := pairs[j].app;
    FoundPair(pairs, j);
    assert pairs[j].row == j && PairApps(pairs)[j] == i && PairRows(pairs)[j] == j;
    RowFits(e, scopes[j], scopes[j], eligible[i]);
    ResidualIsReturned(added[|scopes|], added[j], eligible[i]);
    assert added[j] == HeadRow(e, scopes[j]) && added[|scopes|] == Returned(HeadRow(e, scopes[j]));
    hide Fits;
    hide ResidualFits;
    hide CallRow;
    hide HeadRow;
    forall m: nat | m < |added| - 1
      ensures m in PairRows(pairs)
    {
      assert PairRows(pairs)[m] == m;
    }
    LastClaimed(added, eligible, pairs, i, 0);
  }

  /** Applications `x` and `o` of one edge, the second one over-applied only: with a residual
      in the scope that the first fit gives to `x`, the change is refused; with that scope
      exchanged for the one it gives to `o`, it is approved. */
  lemma MixedOverMisses(eligible: seq<App>, e: Edge, x: nat, o: nat)
    requires x < |eligible| && o < |eligible| && EdgeOf(eligible[x]) == EdgeOf(eligible[o]) == Some(e)
    requires !Over(eligible[x]) && Over(eligible[o])
    ensures !OrderFreeForChanges(eligible)
  {
    hide Over;
    hide EdgeOf;
    hide Fits;
    hide CallRow;
    hide HeadRow;
    hide Returned;
    hide Greedy;
    hide InPlace;
    hide PairUp;
    var scopes := seq(multiset(Edges(eligible))[Some(e)], (k: int) => k);
    var pairs := ScopesPaired(e, scopes, 0, eligible);
    var j: nat :| j < |pairs| && PairApps(pairs)[j] == x;
    var l: nat :| l < |pairs| && PairApps(pairs)[l] == o;
    assert pairs[j].app == x && pairs[l].app == o;
    ScopesExchanged(eligible, e, scopes, pairs, j, l);
  }

  lemma ScopesExchanged(eligible: seq<App>, e: Edge, scopes: seq<int>, pairs: seq<Pair>, j: nat, l: nat)
    requires |scopes| == multiset(Edges(eligible))[Some(e)] && forall k :: 0 <= k < |scopes| ==> scopes[k] == k
    requires PairUp(CallRows(e, scopes), HeadRows(e, scopes, 0), eligible, []) == Some(pairs)
    requires j < |scopes| == |pairs| && l < |scopes| && pairs[j].app < |eligible| && pairs[l].app < |eligible|
    requires !Over(eligible[pairs[j].app]) && Over(eligible[pairs[l].app])
    ensures !OrderFreeForChanges(eligible)
  {
    hide Over;
    hide CallRow;
    hide HeadRow;
    hide Returned;
    hide Greedy;
    hide InPlace;
    hide PairUp;
    hide HeadRows;
    hide CallRows;
    hide Edges;
    var crossed := scopes[j := l][l := j];
    assert crossed[l] == j && multiset(crossed) == multiset(scopes);
    SamePairs(e, scopes, 0, scopes, j, eligible);
    SamePairs(e, scopes, 0, crossed, j, eligible);
    var first := ScopesPaired(e, scopes, j, eligible);
    var second := ScopesPaired(e, crossed, j, eligible);
    ResidualStuck(e, scopes, eligible, pairs, j);
    ResidualClaimed(e, crossed, eligible, pairs, l);
    ScopesPermute(e, scopes, crossed, j);
    ScopesSubtracted(e, scopes, j);
    ScopesSubtracted(e, crossed, j);
    assert Reordered(CallRows(e, scopes), HeadRows(e, scopes, j), CallRows(e, crossed), HeadRows(e, crossed, j));
  }

  lemma RowsDiffer(e: Edge, e': Edge, scope: int, scope': int)
    ensures CallRow(e, scope) != HeadRow(e', scope') && CallRow(e, scope) != Returned(HeadRow(e', scope'))
    ensures HeadRow(e, scope) != Returned(HeadRow(e', scope'))
    ensures CallRow(e, scope) == CallRow(e, scope') ==> scope == scope'
    ensures HeadRow(e, scope) == HeadRow(e, scope') ==> scope == scope'
  {
    assert CallRow(e, scope).head[0] == 'u' && HeadRow(e', scope').head[0] == 'e' && HeadRow(e, scope).head[0] == 'e';
    assert Returned(HeadRow(e', scope')).head[0] == 'u';
  }

  lemma ScopesSubtracted(e: Edge, scopes: seq<int>, s: int)
    requires forall i, k :: 0 <= i < k < |scopes| ==> scopes[i] != scopes[k]
    ensures Subtracted(CallRows(e, scopes), HeadRows(e, scopes, s))
  {
    hide CallRow;
    hide HeadRow;
    hide Returned;
    var removed, added := CallRows(e, scopes), HeadRows(e, scopes, s);
    forall i, k | 0 <= i < |scopes| && 0 <= k < |scopes|
      ensures removed[i] != added[k] && removed[i] != added[|scopes|] && added[i] != added[|scopes|]
      ensures removed[i] == removed[k] ==> i == k
      ensures added[i] == added[k] ==> i == k
    {
      RowsDiffer(e, e, scopes[i], scopes[k]);
      RowsDiffer(e, e, scopes[i], s);
    }
  }

  lemma ScopesPermute(e: Edge, scopes: seq<int>, scopes': seq<int>, s: int)
    requires multiset(scopes) == multiset(scopes')
    ensures multiset(CallRows(e, scopes)) == multiset(CallRows(e, scopes'))
    ensures multiset(HeadRows(e, scopes, s)) == multiset(HeadRows(e, scopes', s))
  {
    MapPermutes((s: int) => CallRow(e, s), scopes, scopes');
    MapPermutes((t: int) => HeadRow(e, t), scopes, scopes');
  }

  lemma SamePairs(e: Edge, scopes: seq<int>, s: int, scopes': seq<int>, s': int, eligible: seq<App>)
    requires (forall i, k :: 0 <= i < k < |scopes| ==> scopes[i] != scopes[k]) && |scopes'| == |scopes|
    requires forall i, k :: 0 <= i < k < |scopes'| ==> scopes'[i] != scopes'[k]
    ensures PairUp(CallRows(e, scopes), HeadRows(e, scopes, s), eligible, []) == PairUp(CallRows(e, scopes'), HeadRows(e, scopes', s'), eligible, [])
  {
    hide Fits;
    hide CallRow;
    hide HeadRow;
    hide Returned;
    hide EdgeOf;
    forall n: nat, m: nat, k: nat | n < |scopes| && m <= |scopes| && k < |eligible|
      ensures Fits(CallRows(e, scopes)[n], HeadRows(e, scopes, s)[m], eligible[k]) <==>
              Fits(CallRows(e, scopes')[n], HeadRows(e, scopes', s')[m], eligible[k])
    {
      ScopesTable(e, scopes, s, n, m, eligible[k]);
      ScopesTable(e, scopes', s', n, m, eligible[k]);
    }
    PairUpSame(CallRows(e, scopes), HeadRows(e, scopes, s), CallRows(e, scopes'), HeadRows(e, scopes', s'), eligible, []);
  }

  function Copies<A>(n: nat, v: A): (r: seq<A>)
    ensures |r| == n && forall k :: 0 <= k < n ==> r[k] == v
  {
    seq(n, (k: int) => v)
  }

  lemma CountCopies<A>(n: nat, v: A)
    ensures multiset(Copies(n, v))[v] == n
    ensures forall w :: w != v ==> multiset(Copies(n, v))[w] == 0
  {
    CountSame(Copies(n, v), v);
    forall w | w != v
      ensures multiset(Copies(n, v))[w] == 0
    {
      assert w !in Copies(n, v);
    }
  }

  /** The other binder of the shared bound, with the first binder's other bound. */
  function Corner(shared: Edge, other: Edge): Edge {
    shared.(root := other.root, partial := other.partial)
  }

  /** A binder of two bounds shares one of them with `shared.binder`. Rows that call the
      latter for each of its applications, one that calls the former, and a head too many in
      the former's other bound. */
  function SharedHeads(one: Edge, other: Edge, p: nat, q: nat): seq<Pending> {
    Copies(p, HeadRow(one, 0)) + Copies(q + 1, HeadRow(other, 0))
  }

  lemma HeadsOfCorner(one: Edge, other: Edge, shared: Edge)
    requires SameBinder(one, other) && SameBound(one, shared)
    ensures HeadRow(shared, 0) == HeadRow(one, 0) && HeadRow(Corner(shared, other), 0) == HeadRow(other, 0)
    ensures CallRow(other, 0) == CallRow(one, 0) && CallRow(Corner(shared, other), 0) == CallRow(shared, 0)
  {
  }

  lemma SharedLastApproved(eligible: seq<App>, one: Edge, other: Edge, shared: Edge)
    requires SameBinder(one, other) && one != other && SameBound(one, shared) && !SameBinder(one, shared)
    requires multiset(Edges(eligible))[Some(other)] > 0
    ensures var p, q := multiset(Edges(eligible))[Some(shared)], multiset(Edges(eligible))[Some(Corner(shared, other))];
            Greedy(Copies(p + q, CallRow(shared, 0)) + [CallRow(one, 0)], SharedHeads(one, other, p, q), eligible).Some?
  {
    var corner := Corner(shared, other);
    var p, q := multiset(Edges(eligible))[Some(shared)], multiset(Edges(eligible))[Some(corner)];
    var removed, added := Copies(p + q, CallRow(shared, 0)) + [CallRow(one, 0)], SharedHeads(one, other, p, q);
    SharedLastAligned(eligible, one, other, shared, p, q);
    hide Fits;
    hide Bound;
    hide Callback;
    hide EdgeBetween;
    hide CallRow;
    hide HeadRow;
    hide Edges;
    hide EdgeOf;
    AlignedApproved(removed, added, eligible);
  }

  /** Aligned rows with nothing else added are approved. */
  lemma AlignedApproved(removed: seq<Pending>, added: seq<Pending>, eligible: seq<App>)
    requires |removed| == |added| && Aligned(removed, added) && multiset(RowEdges(removed, added)) <= multiset(Edges(eligible))
    ensures Greedy(removed, added, eligible).Some?
  {
    hide Fits;
    hide Aligned;
    hide RowEdges;
    hide Edges;
    AlignedGoes(removed, added, eligible, []);
    var pairs := PairUp(removed, added, eligible, []).value;
    forall m: nat | m < |added|
      ensures m in PairRows(pairs)
    {
      assert PairRows(pairs)[m] == m;
    }
    NothingToClaim(added, eligible, pairs, 0);
  }

  lemma SharedLastAligned(eligible: seq<App>, one: Edge, other: Edge, shared: Edge, p: nat, q: nat)
    requires SameBinder(one, other) && one != other && SameBound(one, shared) && !SameBinder(one, shared)
    requires p == multiset(Edges(eligible))[Some(shared)] && q == multiset(Edges(eligible))[Some(Corner(shared, other))]
    requires multiset(Edges(eligible))[Some(other)] > 0
    ensures var removed, added := Copies(p + q, CallRow(shared, 0)) + [CallRow(one, 0)], SharedHeads(one, other, p, q);
            && |removed| == |added| && Aligned(removed, added)
            && multiset(RowEdges(removed, added)) <= multiset(Edges(eligible))
  {
    var removed, added := Copies(p + q, CallRow(shared, 0)) + [CallRow(one, 0)], SharedHeads(one, other, p, q);
    HeadsOfCorner(one, other, shared);
    SharedEdges(one, other, shared, p, q);
    EnoughOfThree(multiset(Edges(eligible)), Some(shared), p, Some(Corner(shared, other)), q, Some(other));
  }

  lemma SharedEdges(one: Edge, other: Edge, shared: Edge, p: nat, q: nat)
    requires SameBinder(one, other) && SameBound(one, shared)
    ensures RowEdges(Copies(p + q, CallRow(shared, 0)) + [CallRow(one, 0)], SharedHeads(one, other, p, q)) ==
            Copies(p, Some(shared)) + Copies(q, Some(Corner(shared, other))) + [Some(other)]
  {
  }

  lemma EnoughOfThree<A>(all: multiset<A>, a: A, p: nat, b: A, q: nat, c: A)
    requires a != b && b != c && c != a && p == all[a] && q == all[b] && all[c] > 0
    ensures multiset(Copies(p, a) + Copies(q, b) + [c]) <= all
  {
    CountCopies(p, a);
    CountCopies(q, b);
  }

  lemma {:induction false} NothingToClaim(added: seq<Pending>, eligible: seq<App>, pairs: seq<Pair>, j: nat)
    requires j <= |added| && forall m: nat :: m < |added| ==> m in PairRows(pairs)
    ensures ClaimAll(added, eligible, pairs, j, []).Some?
    decreases |added| - j
  {
    if j < |added| {
      NothingToClaim(added, eligible, pairs, j + 1);
    }
  }

  lemma {:induction false} PairUpExtends(removed: seq<Pending>, added: seq<Pending>, eligible: seq<App>, done: seq<Pair>)
    requires |done| <= |removed| && PairUp(removed, added, eligible, done).Some?
    ensures done <= PairUp(removed, added, eligible, done).value
    decreases |removed| - |done|
  {
    if |done| < |removed| {
      PairUpExtends(removed, added, eligible, done + [FirstPair(removed[|done|], added, eligible, done, 0).value]);
    }
  }

  /** The row that comes first takes the bound it shares. */
  lemma FirstTakesShared(eligible: seq<App>, one: Edge, rest: seq<Pending>, added: seq<Pending>)
    requires Edged(eligible, one) && added != [] && added[0] == HeadRow(one, 0)
    ensures var pairs := PairUp([CallRow(one, 0)] + rest, added, eligible, []);
            pairs.Some? ==> pairs.value != [] && pairs.value[0].row == 0
  {
    var removed := [CallRow(one, 0)] + rest;
    hide CallRow;
    hide HeadRow;
    hide Fits;
    var none: seq<Pair> := [];
    var a :| a in eligible && EdgeOf(a) == Some(one);
    var i: nat :| i < |eligible| && eligible[i] == a;
    RowFits(one, 0, 0, eligible[i]);
    assert FirstApp(removed[0], added[0], eligible, PairApps(none), 0).Some?;
    var p := FirstPair(removed[0], added, eligible, none, 0).value;
    assert p.row == 0;
    if PairUp(removed, added, eligible, none).Some? {
      PairUpExtends(removed, added, eligible, none + [p]);
      assert (none + [p])[0] == p;
    }
  }

  lemma SharedFirstRefused(eligible: seq<App>, one: Edge, other: Edge, shared: Edge)
    requires SameBinder(one, other) && one != other && SameBound(one, shared) && !SameBinder(one, shared)
    requires Edged(eligible, one) && Edged(eligible, shared)
    ensures var p, q := multiset(Edges(eligible))[Some(shared)], multiset(Edges(eligible))[Some(Corner(shared, other))];
            Greedy([CallRow(one, 0)] + Copies(p + q, CallRow(shared, 0)), SharedHeads(one, other, p, q), eligible).None?
  {
    var corner := Corner(shared, other);
    var p, q := multiset(Edges(eligible))[Some(shared)], multiset(Edges(eligible))[Some(corner)];
    var removed, added := [CallRow(one, 0)] + Copies(p + q, CallRow(shared, 0)), SharedHeads(one, other, p, q);
    EdgedCounts(eligible, shared);
    FirstTakesShared(eligible, one, Copies(p + q, CallRow(shared, 0)), added);
    if Greedy(removed, added, eligible).Some? {
      GreedySound(removed, added, eligible);
      var pairs, claims := PairUp(removed, added, eligible, []).value, Greedy(removed, added, eligible).value;
      JustifiedHeads(removed, added, eligible, pairs, claims);
      TooManyCorners(eligible, one, other, shared, removed, added, pairs, p, q);
    }
  }

  lemma EdgedCounts(eligible: seq<App>, e: Edge)
    requires Edged(eligible, e)
    ensures multiset(Edges(eligible))[Some(e)] > 0
  {
    var a :| a in eligible && EdgeOf(a) == Some(e);
    var i: nat :| i < |eligible| && eligible[i] == a;
    assert Edges(eligible)[i] == Some(e);
  }

  /** Then the heads of the other bound are left to the other binder, one too many. */
  lemma TooManyCorners(eligible: seq<App>, one: Edge, other: Edge, shared: Edge, removed: seq<Pending>, added: seq<Pending>,
                       pairs: seq<Pair>, p: nat, q: nat)
    requires SameBinder(one, other) && SameBound(one, shared) && p > 0
    requires q == multiset(Edges(eligible))[Some(Corner(shared, other))]
    requires removed == [CallRow(one, 0)] + Copies(p + q, CallRow(shared, 0)) && added == SharedHeads(one, other, p, q)
    requires |pairs| == |removed| && Matched(removed, added, eligible, pairs) && HeadsPaired(added, pairs)
    ensures pairs[0].row != 0
  {
    if pairs[0].row == 0 {
      HeadsOfCorner(one, other, shared);
      var corner := Corner(shared, other);
      var taken := seq(q + 1, (t: int) => p + t);
      forall t | 0 <= t <= q
        ensures taken[t] in PairRows(pairs)
      {
        assert IsHead(added[p + t]);
      }
      var at := seq(q + 1, t requires 0 <= t <= q => Where(PairRows(pairs), taken[t]));
      forall t | 0 <= t <= q
        ensures at[t] < |pairs| && pairs[at[t]].row == p + t && pairs[at[t]].app < |eligible| && EdgeOf(eligible[pairs[at[t]].app]) == Some(corner)
      {
        hide Fits;
        hide CallRow;
        hide HeadRow;
        assert PairRows(pairs)[at[t]] == p + t && PairApps(pairs)[at[t]] < |eligible|;
        assert added[p + t] == HeadRow(corner, 0) && removed[at[t]] == CallRow(corner, 0);
        RowFits(corner, 0, 0, eligible[pairs[at[t]].app]);
      }
      ManyOfEdge(eligible, pairs, at, corner);
    }
  }

  /** Pairs of one edge are at most as many as its applications. */
  lemma ManyOfEdge(eligible: seq<App>, pairs: seq<Pair>, at: seq<nat>, e: Edge)
    requires Distinct(PairApps(pairs)) && Within(PairApps(pairs), |eligible|)
    requires Within(at, |pairs|) && forall h, k :: 0 <= h < k < |at| ==> pairs[at[h]].row != pairs[at[k]].row
    requires forall k :: 0 <= k < |at| ==> pairs[at[k]].app < |eligible| && EdgeOf(eligible[pairs[at[k]].app]) == Some(e)
    ensures |at| <= multiset(Edges(eligible))[Some(e)]
  {
    hide EdgeOf;
    var apps := At(PairApps(pairs), at);
    DistinctAt(at, PairApps(pairs));
    CountSame(At(Edges(eligible), apps), Some(e));
    AtIncluded(Edges(eligible), apps);
  }

  lemma SharedBoundMisses(eligible: seq<App>, one: Edge, other: Edge, shared: Edge)
    requires Edged(eligible, one) && Edged(eligible, other) && Edged(eligible, shared)
    requires SameBinder(one, other) && one != other && SameBound(one, shared) && !SameBinder(one, shared)
    ensures !OrderFreeForChanges(eligible)
  {
    EdgedCounts(eligible, other);
    SharedFirstRefused(eligible, one, other, shared);
    SharedLastApproved(eligible, one, other, shared);
    var p, q := multiset(Edges(eligible))[Some(shared)], multiset(Edges(eligible))[Some(Corner(shared, other))];
    var x, ys, added := [CallRow(one, 0)], Copies(p + q, CallRow(shared, 0)), SharedHeads(one, other, p, q);
    hide Greedy;
    hide Copies;
    hide SharedHeads;
    assert multiset(x + ys) == multiset(ys + x);
    assert Greedy(x + ys, added, eligible).None? && Greedy(ys + x, added, eligible).Some?;
    SharedSubtracted(one, other, shared, p, q);
    assert Reordered(x + ys, added, ys + x, added);
  }

  lemma SharedSubtracted(one: Edge, other: Edge, shared: Edge, p: nat, q: nat)
    requires SameBinder(one, other) && one != other && !SameBinder(one, shared)
    ensures var x, ys, added := [CallRow(one, 0)], Copies(p + q, CallRow(shared, 0)), SharedHeads(one, other, p, q);
            Subtracted(x + ys, added) && Subtracted(ys + x, added)
  {
    var x, ys, added := [CallRow(one, 0)], Copies(p + q, CallRow(shared, 0)), SharedHeads(one, other, p, q);
    RowsDiffer(one, one, 0, 0);
    RowsDiffer(one, other, 0, 0);
    RowsDiffer(shared, one, 0, 0);
    RowsDiffer(shared, other, 0, 0);
    hide CallRow;
    hide HeadRow;
    TwoRuns(p, HeadRow(one, 0), q + 1, HeadRow(other, 0));
    assert x == Copies(1, CallRow(one, 0));
    TwoRuns(1, CallRow(one, 0), p + q, CallRow(shared, 0));
    TwoRuns(p + q, CallRow(shared, 0), 1, CallRow(one, 0));
  }

  lemma TwoRuns<A>(n: nat, a: A, m: nat, b: A)
    ensures Grouped(Copies(n, a) + Copies(m, b))
    ensures forall x :: x in Copies(n, a) + Copies(m, b) ==> x == a || x == b
  {
  }

  lemma OrderFreeIsFitting(eligible: seq<App>)
    requires OrderFreeForChanges(eligible)
    ensures Fitting(eligible)
  {
    hide OrderFreeForChanges;
    hide EdgeOf;
    hide Over;
    forall a, b | a in eligible && b in eligible && EdgeOf(a).Some? && EdgeOf(a) == EdgeOf(b)
      ensures Over(b) ==> Over(a)
    {
      if Over(b) && !Over(a) {
        var x: nat :| x < |eligible| && eligible[x] == a;
        var o: nat :| o < |eligible| && eligible[o] == b;
        MixedOverMisses(eligible, EdgeOf(a).value, x, o);
      }
    }
    forall e, e' | Edged(eligible, e) && Wide(eligible, e) && Edged(eligible, e') && SameBound(e, e')
      ensures SameBinder(e, e')
    {
      if !SameBinder(e, e') {
        var other :| Edged(eligible, other) && SameBinder(e, other) && other != e;
        SharedBoundMisses(eligible, e, other, e');
      }
    }
  }

  lemma FittingIsComplete(eligible: seq<App>)
    requires Fitting(eligible)
    ensures Complete(eligible)
  {
    forall removed, added | Accountable(removed, added, eligible)
      ensures Greedy(removed, added, eligible).Some?
    {
      GreedyCounts(removed, added, eligible);
    }
  }

  /** The first fit approves every change that has a complete accounting if and only if
      applications which no row tells apart are over-applied together or not at all, and a
      binder with several bounds shares none of them. It makes no difference whether all lists
      of rows are meant or those that `subtract` can yield. */
  lemma GreedyExact(eligible: seq<App>)
    ensures Complete(eligible) <==> Fitting(eligible)
    ensures CompleteForChanges(eligible) <==> Fitting(eligible)
  {
    hide Greedy;
    hide Subtracted;
    hide Fitting;
    if Fitting(eligible) {
      FittingIsComplete(eligible);
    }
    if CompleteForChanges(eligible) {
      CompleteIsOrderFreeForChanges(eligible);
      OrderFreeIsFitting(eligible);
    }
  }

  /** And those are the applications for which the order of the rows does not matter. */
  lemma ApprovalIgnoresOrder(eligible: seq<App>)
    ensures OrderFree(eligible) <==> Fitting(eligible)
    ensures OrderFreeForChanges(eligible) <==> Fitting(eligible)
  {
    hide Greedy;
    hide Subtracted;
    hide Fitting;
    if Fitting(eligible) {
      FittingIsComplete(eligible);
      CompleteIsOrderFree(eligible);
    }
    assert OrderFree(eligible) ==> OrderFreeForChanges(eligible);
    if OrderFreeForChanges(eligible) {
      OrderFreeIsFitting(eligible);
    }
  }

  /** An exact call of a local function and an over-applied one on one line. The root returns
      a function of two arguments, so the result of either call is a function. */
  const ExactCall: App := App(Some("f"), Some("aux"), Some("f.<fun:m.ml:1>"), "m.ml:2", true, 1, 1)
  const OverCall: App := App(Some("f"), Some("aux"), Some("f.<fun:m.ml:1>"), "m.ml:2", true, 2, 1)

  /** In different exception scopes: the change that adds a residual to the first call is
      refused with its rows in this order, though it has a complete accounting, and approved
      in the other order. */
  lemma GreedyMissesExample() returns (e: Edge)
    ensures EdgeOf(ExactCall) == EdgeOf(OverCall) == Some(e)
    ensures Greedy(CallRows(e, [0, 1]), HeadRows(e, [0, 1], 0), [ExactCall, OverCall]).None?
    ensures Greedy(CallRows(e, [1, 0]), HeadRows(e, [1, 0], 0), [ExactCall, OverCall]).Some?
    ensures Accountable(CallRows(e, [0, 1]), HeadRows(e, [0, 1], 0), [ExactCall, OverCall])
  {
    e := EdgeOf(ExactCall).value;
    var eligible := [ExactCall, OverCall];
    assert Edges(eligible) == [Some(e), Some(e)];
    ExampleRuns(e, eligible);
    hide CallRow;
    hide HeadRow;
    hide Returned;
    hide Greedy;
    hide Justified;
    GreedySound(CallRows(e, [1, 0]), HeadRows(e, [1, 0], 0), eligible);
    assert Accountable(CallRows(e, [1, 0]), HeadRows(e, [1, 0], 0), eligible);
    assert multiset([0, 1]) == multiset([1, 0]);
    ScopesPermute(e, [1, 0], [0, 1], 0);
    RemovedMoved(CallRows(e, [1, 0]), HeadRows(e, [1, 0], 0), eligible, CallRows(e, [0, 1]));
    AddedMoved(CallRows(e, [0, 1]), HeadRows(e, [1, 0], 0), eligible, HeadRows(e, [0, 1], 0));
  }

  lemma ExampleRuns(e: Edge, eligible: seq<App>)
    requires |eligible| == 2 && EdgeOf(eligible[0]) == EdgeOf(eligible[1]) == Some(e)
    requires Edges(eligible) == [Some(e), Some(e)] && !Over(eligible[0]) && Over(eligible[1])
    ensures Greedy(CallRows(e, [0, 1]), HeadRows(e, [0, 1], 0), eligible).None?
    ensures Greedy(CallRows(e, [1, 0]), HeadRows(e, [1, 0], 0), eligible).Some?
  {
    hide CallRow;
    hide HeadRow;
    hide Returned;
    hide Greedy;
    hide PairUp;
    hide EdgeOf;
    hide Over;
    var pairs := ScopesPaired(e, [0, 1], 0, eligible);
    var pairs' := ScopesPaired(e, [1, 0], 0, eligible);
    FirstTakesFirst(e, [0, 1], 0, eligible, pairs);
    FirstTakesFirst(e, [1, 0], 0, eligible, pairs');
    ResidualStuck(e, [0, 1], eligible, pairs, 0);
    ResidualClaimed(e, [1, 0], eligible, pairs', 1);
  }

  lemma FirstTakesFirst(e: Edge, scopes: seq<int>, s: int, eligible: seq<App>, pairs: seq<Pair>)
    requires |eligible| == |scopes| == |pairs| == 2 && EdgeOf(eligible[0]) == Some(e)
    requires PairUp(CallRows(e, scopes), HeadRows(e, scopes, s), eligible, []) == Some(pairs)
    requires InPlace(CallRows(e, scopes), HeadRows(e, scopes, s), eligible, pairs)
    ensures pairs[0].app == 0 && pairs[1].app == 1
  {
    hide CallRow;
    hide HeadRow;
    hide Returned;
    hide EdgeOf;
    hide Fits;
    var removed, added := CallRows(e, scopes), HeadRows(e, scopes, s);
    var none: seq<Pair> := [];
    RowFits(e, scopes[0], scopes[0], eligible[0]);
    assert FirstPair(removed[0], added, eligible, none, 0) == Some(Pair(0, 0));
    PairUpExtends(removed, added, eligible, none + [Pair(0, 0)]);
    assert (none + [Pair(0, 0)])[0] == Pair(0, 0);
    assert PairApps(pairs)[0] == 0 && PairApps(pairs)[1] < 2;
  }

  // ---------------------------------------------------------------- the whole check

  datatype Tally = Tally(removed: nat, added: nat, heads: nat, residuals: nat)

  /** `validatePending`. What it returns accounts for the whole change: every removed row has
      one head row and one application of its own, every other added row is the single
      residual of an over-applied one. */
  method ValidatePending(oldRows: seq<Pending>, newRows: seq<Pending>, eligible: seq<App>)
    returns (r: Option<Tally>, removed: seq<Pending>, added: seq<Pending>)
    ensures multiset(removed) == multiset(oldRows) - multiset(newRows)
    ensures multiset(added) == multiset(newRows) - multiset(oldRows)
    ensures Subtracted(removed, added)
    ensures r.Some? <==> Greedy(removed, added, eligible).Some?
    ensures r.Some? ==> exists pairs, claims :: && Justified(removed, added, eligible, pairs, claims)
                                                && r == Some(Tally(|removed|, |added|, |pairs|, |claims|))
    ensures r.Some? ==> && r.value.heads == r.value.removed && r.value.added == r.value.heads + r.value.residuals
                        && r.value.residuals <= r.value.heads
    ensures Fitting(eligible) ==> (r.Some? <==> Countable(removed, added, eligible))
    ensures Fitting(eligible) ==> (r.Some? <==> Accountable(removed, added, eligible))
  {
    removed, added := Subtract(oldRows, newRows);
    r := None;
    if Fitting(eligible) {
      GreedyCounts(removed, added, eligible);
    }
    var pairs := MatchRemoved(removed, added, eligible);
    if pairs.None? {
      return;
    }
    var claims := MatchResiduals(added, eligible, pairs.value);
    if claims.None? {
      return;
    }
    GreedySound(removed, added, eligible);
    JustifiedConserves(removed, added, eligible, pairs.value, claims.value);
    r := Some(Tally(|removed|, |added|, |pairs.value|, |claims.value|));
  }
}
