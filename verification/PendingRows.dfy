/** Greedy approval of changed pending-call rows against native applications
    (roster/tezos-local-recursion/check-native.js:53-80). */
module PendingRows {
  import opened Picking
  import opened Prelude

  /** A pending row, in the order of native-preservation-probe.ml:53-63. */
  datatype Pending = Pending(
    unit: string, caller: string, head: string, callee: string, path: Option<string>,
    localModule: bool, partial: bool, cond: bool, dead: bool, site: string,
    exnScope: Option<int>, errScope: Option<int>, errPropagates: Option<string>, form: Option<string>)

  /** A native application; the names are absent where the record has no such owner. */
  datatype App = App(caller: Option<string>, binder: Option<string>, root: Option<string>, site: string,
                     resultArrow: bool, supplied: int, arity: int)

  // ---------------------------------------------------------------- what one match means

  function UnknownHead(name: string): string { "unknown:" + name + ":callback_param" }

  function EnumeratedHead(name: string): string { "enumerated:" + name }

  predicate ExactContext(a: Pending, b: Pending) {
    && a.unit == b.unit && a.caller == b.caller && a.localModule == b.localModule && a.cond == b.cond && a.dead == b.dead
    && a.site == b.site && a.exnScope == b.exnScope && a.errScope == b.errScope && a.errPropagates == b.errPropagates
  }

  predicate ExpectedPartial(app: App) {
    app.resultArrow || app.supplied < app.arity
  }

  predicate Over(app: App) {
    app.supplied > app.arity
  }

  /** Line 63: the removed row is the unresolved call of the application. */
  predicate IsCallOf(before: Pending, app: App) {
    && Some(before.caller) == app.caller && before.site == app.site && app.binder.Some?
    && before.head == UnknownHead(app.binder.value) && before.callee == app.binder.value
    && before.path.None? && before.form.None?
  }

  /** Line 64: the added row is bounded to the application's root. */
  predicate IsBoundTo(after: Pending, app: App) {
    && app.root.Some? && after.head == EnumeratedHead(app.root.value) && after.callee == app.root.value
    && after.path.None? && after.partial == ExpectedPartial(app) && after.form.None?
  }

  predicate Fits(before: Pending, after: Pending, app: App) {
    ExactContext(before, after) && IsCallOf(before, app) && IsBoundTo(after, app)
  }

  /** Lines 73-75. */
  predicate ResidualFits(after: Pending, head: Pending, app: App) {
    && Over(app) && Some(after.caller) == app.caller && after.site == app.site
    && after.unit == head.unit && after.caller == head.caller && after.cond == head.cond && after.dead == head.dead
    && after.site == head.site && after.exnScope == head.exnScope
    && after.head == UnknownHead("*TOP*") && after.callee == "*TOP*" && after.path.None?
    && !after.localModule && !after.partial && after.errScope.None? && after.errPropagates.None? && after.form.None?
  }

  function Bound(before: Pending, root: string, partial: bool): Pending {
    before.(head := EnumeratedHead(root), callee := root, partial := partial)
  }

  function Returned(head: Pending): Pending {
    head.(head := UnknownHead("*TOP*"), callee := "*TOP*", path := None, localModule := false, partial := false,
          errScope := None, errPropagates := None, form := None)
  }

  /** A removed row and an application leave one possible head row. */
  lemma FitsIsBound(before: Pending, after: Pending, app: App)
    ensures Fits(before, after, app) <==>
            IsCallOf(before, app) && app.root.Some? && after == Bound(before, app.root.value, ExpectedPartial(app))
  {
  }

  /** A head row leaves one possible residual. */
  lemma ResidualIsReturned(after: Pending, head: Pending, app: App)
    requires Some(head.caller) == app.caller && head.site == app.site
    ensures ResidualFits(after, head, app) <==> Over(app) && after == Returned(head)
  {
  }

  // ---------------------------------------------------------------- the greedy choices

  /** A removed row's match: indices into the added rows and the applications. */
  datatype Pair = Pair(row: nat, app: nat)

  /** A residual's match: its added row, its application, and the pair that used it. */
  datatype Claim = Claim(row: nat, app: nat, pair: nat)

  function PairRows(pairs: seq<Pair>): (r: seq<nat>)
    ensures |r| == |pairs| && forall k :: 0 <= k < |r| ==> r[k] == pairs[k].row
  {
    seq(|pairs|, k requires 0 <= k < |pairs| => pairs[k].row)
  }

  function PairApps(pairs: seq<Pair>): (r: seq<nat>)
    ensures |r| == |pairs| && forall k :: 0 <= k < |r| ==> r[k] == pairs[k].app
  {
    seq(|pairs|, k requires 0 <= k < |pairs| => pairs[k].app)
  }

  function ClaimRows(claims: seq<Claim>): (r: seq<nat>)
    ensures |r| == |claims| && forall k :: 0 <= k < |r| ==> r[k] == claims[k].row
  {
    seq(|claims|, k requires 0 <= k < |claims| => claims[k].row)
  }

  function ClaimApps(claims: seq<Claim>): (r: seq<nat>)
    ensures |r| == |claims| && forall k :: 0 <= k < |r| ==> r[k] == claims[k].app
  {
    seq(|claims|, k requires 0 <= k < |claims| => claims[k].app)
  }

  function ClaimPairs(claims: seq<Claim>): (r: seq<nat>)
    ensures |r| == |claims| && forall k :: 0 <= k < |r| ==> r[k] == claims[k].pair
  {
    seq(|claims|, k requires 0 <= k < |claims| => claims[k].pair)
  }

  /** The first unused application, from `i` on, that matches the two rows. */
  function FirstApp(before: Pending, after: Pending, eligible: seq<App>, used: seq<nat>, i: nat): (r: Option<nat>)
    requires i <= |eligible|
    ensures r.Some? ==> i <= r.value < |eligible| && r.value !in used && Fits(before, after, eligible[r.value])
    ensures r.None? ==> forall k: nat :: i <= k < |eligible| && k !in used ==> !Fits(before, after, eligible[k])
    decreases |eligible| - i
  {
    if i == |eligible| then None
    else if i !in used && Fits(before, after, eligible[i]) then Some(i)
    else FirstApp(before, after, eligible, used, i + 1)
  }

  /** The first unused added row, from `j` on, that some unused application matches. */
  function FirstPair(before: Pending, added: seq<Pending>, eligible: seq<App>, done: seq<Pair>, j: nat): (r: Option<Pair>)
    requires j <= |added|
    ensures r.Some? ==> && j <= r.value.row < |added| && r.value.row !in PairRows(done)
                        && r.value.app < |eligible| && r.value.app !in PairApps(done)
                        && Fits(before, added[r.value.row], eligible[r.value.app])
    ensures r.None? ==> forall m: nat, k: nat :: j <= m < |added| && m !in PairRows(done) && k < |eligible| && k !in PairApps(done) ==>
                        !Fits(before, added[m], eligible[k])
    decreases |added| - j
  {
    if j == |added| then None
    else if j in PairRows(done) then FirstPair(before, added, eligible, done, j + 1)
    else
      var app := FirstApp(before, added[j], eligible, PairApps(done), 0);
      if app.Some? then Some(Pair(j, app.value)) else FirstPair(before, added, eligible, done, j + 1)
  }

  /** Matching the removed rows in order, each with the first pair that is left. */
  function PairUp(removed: seq<Pending>, added: seq<Pending>, eligible: seq<App>, done: seq<Pair>): Option<seq<Pair>>
    requires |done| <= |removed|
    decreases |removed| - |done|
  {
    if |done| == |removed| then Some(done)
    else
      var p := FirstPair(removed[|done|], added, eligible, done, 0);
      if p.None? then None else PairUp(removed, added, eligible, done + [p.value])
  }

  lemma PairAppsCons(pairs: seq<Pair>)
    requires pairs != []
    ensures PairApps(pairs) == [pairs[0].app] + PairApps(pairs[1..])
  {
  }

  function PairOf(pairs: seq<Pair>, app: nat): (r: Option<nat>)
    ensures r.Some? ==> r.value < |pairs| && pairs[r.value].app == app
    ensures r.None? <==> app !in PairApps(pairs)
  {
    if pairs == [] then None
    else
      PairAppsCons(pairs);
      if pairs[0].app == app then Some(0)
      else
        var rest := PairOf(pairs[1..], app);
        if rest.None? then None else Some(rest.value + 1)
  }

  predicate Claimable(after: Pending, added: seq<Pending>, eligible: seq<App>, pairs: seq<Pair>, claims: seq<Claim>, i: nat) {
    && i < |eligible| && i !in ClaimApps(claims) && PairOf(pairs, i).Some?
    && pairs[PairOf(pairs, i).value].row < |added|
    && ResidualFits(after, added[pairs[PairOf(pairs, i).value].row], eligible[i])
  }

  /** The first used application, from `i` on, whose residual the row is. */
  function FirstClaim(after: Pending, added: seq<Pending>, eligible: seq<App>, pairs: seq<Pair>, claims: seq<Claim>, i: nat): (r: Option<nat>)
    requires i <= |eligible|
    ensures r.Some? ==> i <= r.value && Claimable(after, added, eligible, pairs, claims, r.value)
    ensures r.None? ==> forall k: nat :: i <= k ==> !Claimable(after, added, eligible, pairs, claims, k)
    decreases |eligible| - i
  {
    if i == |eligible| then None
    else if Claimable(after, added, eligible, pairs, claims, i) then Some(i)
    else FirstClaim(after, added, eligible, pairs, claims, i + 1)
  }

  /** Claiming a residual for every added row from `j` on that no removed row took. */
  function ClaimAll(added: seq<Pending>, eligible: seq<App>, pairs: seq<Pair>, j: nat, claims: seq<Claim>): Option<seq<Claim>>
    requires j <= |added|
    decreases |added| - j
  {
    if j == |added| then Some(claims)
    else if j in PairRows(pairs) then ClaimAll(added, eligible, pairs, j + 1, claims)
    else
      var i := FirstClaim(added[j], added, eligible, pairs, claims, 0);
      if i.None? then None
      else ClaimAll(added, eligible, pairs, j + 1, claims + [Claim(j, i.value, PairOf(pairs, i.value).value)])
  }

  // ---------------------------------------------------------------- the loops

  /** Lines 58-69. */
  method MatchRemoved(removed: seq<Pending>, added: seq<Pending>, eligible: seq<App>) returns (r: Option<seq<Pair>>)
    ensures r == PairUp(removed, added, eligible, [])
  {
    var pairs: seq<Pair> := [];
    while |pairs| < |removed|
      invariant |pairs| <= |removed|
      invariant PairUp(removed, added, eligible, pairs) == PairUp(removed, added, eligible, [])
    {
      var before := removed[|pairs|];
      var found: Option<Pair> := None;
      var j := 0;
      while j < |added| && found.None?
        invariant 0 <= j <= |added|
        invariant FirstPair(before, added, eligible, pairs, 0) ==
                  if found.Some? then found else FirstPair(before, added, eligible, pairs, j)
      {
        if j !in PairRows(pairs) && ExactContext(before, added[j]) {
          found := MatchApplication(before, added[j], eligible, pairs, j);
        } else if j !in PairRows(pairs) {
          assert FirstApp(before, added[j], eligible, PairApps(pairs), 0).None?;
        }
        j := j + 1;
      }
      if found.None? {
        return None;
      }
      pairs := pairs + [found.value];
    }
    r := Some(pairs);
  }

  /** Lines 61-66, the inner loop. */
  method MatchApplication(before: Pending, after: Pending, eligible: seq<App>, pairs: seq<Pair>, j: nat) returns (r: Option<Pair>)
    requires ExactContext(before, after)
    ensures var app := FirstApp(before, after, eligible, PairApps(pairs), 0);
            r == if app.Some? then Some(Pair(j, app.value)) else None
  {
    r := None;
    for i := 0 to |eligible|
      invariant r.None?
      invariant FirstApp(before, after, eligible, PairApps(pairs), 0) == FirstApp(before, after, eligible, PairApps(pairs), i)
    {
      if i !in PairApps(pairs) && IsCallOf(before, eligible[i]) && IsBoundTo(after, eligible[i]) {
        r := Some(Pair(j, i));
        return;
      }
    }
  }

  /** Lines 70-78. */
  method MatchResiduals(added: seq<Pending>, eligible: seq<App>, pairs: seq<Pair>) returns (r: Option<seq<Claim>>)
    ensures r == ClaimAll(added, eligible, pairs, 0, [])
  {
    var claims: seq<Claim> := [];
    for j := 0 to |added|
      invariant ClaimAll(added, eligible, pairs, j, claims) == ClaimAll(added, eligible, pairs, 0, [])
    {
      if j !in PairRows(pairs) {
        var accepted: Option<nat> := None;
        var i := 0;
        while i < |eligible| && accepted.None?
          invariant 0 <= i <= |eligible|
          invariant FirstClaim(added[j], added, eligible, pairs, claims, 0) ==
                    if accepted.Some? then accepted else FirstClaim(added[j], added, eligible, pairs, claims, i)
        {
          if Claimable(added[j], added, eligible, pairs, claims, i) {
            accepted := Some(i);
          }
          i := i + 1;
        }
        if accepted.None? {
          return None;
        }
        claims := claims + [Claim(j, accepted.value, PairOf(pairs, accepted.value).value)];
      }
    }
    r := Some(claims);
  }

  // ---------------------------------------------------------------- what is justified

  /** The pairs match the first removed rows, one application and one added row each. */
  ghost predicate Matched(removed: seq<Pending>, added: seq<Pending>, eligible: seq<App>, pairs: seq<Pair>) {
    && |pairs| <= |removed|
    && Distinct(PairRows(pairs)) && Distinct(PairApps(pairs))
    && Within(PairRows(pairs), |added|) && Within(PairApps(pairs), |eligible|)
    && forall k :: 0 <= k < |pairs| ==> Fits(removed[k], added[pairs[k].row], eligible[pairs[k].app])
  }

  ghost predicate ClaimOk(added: seq<Pending>, eligible: seq<App>, pairs: seq<Pair>, c: Claim) {
    && c.row < |added| && c.row !in PairRows(pairs) && c.pair < |pairs| && pairs[c.pair].app == c.app < |eligible|
    && pairs[c.pair].row < |added| && ResidualFits(added[c.row], added[pairs[c.pair].row], eligible[c.app])
  }

  /** The claims account for the rows below `j` that no pair took, one over-applied pair each. */
  ghost predicate Claimed(added: seq<Pending>, eligible: seq<App>, pairs: seq<Pair>, j: nat, claims: seq<Claim>) {
    && Distinct(ClaimRows(claims)) && Distinct(ClaimPairs(claims))
    && (forall k :: 0 <= k < |claims| ==> claims[k].row < j && ClaimOk(added, eligible, pairs, claims[k]))
    && forall m: nat :: m < j ==> m in PairRows(pairs) || m in ClaimRows(claims)
  }

  /** A complete accounting of the change. */
  ghost predicate Justified(removed: seq<Pending>, added: seq<Pending>, eligible: seq<App>, pairs: seq<Pair>, claims: seq<Claim>) {
    && |pairs| == |removed| && Matched(removed, added, eligible, pairs)
    && Claimed(added, eligible, pairs, |added|, claims)
  }

  lemma {:induction false} PairUpSound(removed: seq<Pending>, added: seq<Pending>, eligible: seq<App>, done: seq<Pair>)
    requires Matched(removed, added, eligible, done)
    ensures var r := PairUp(removed, added, eligible, done);
            r.Some? ==> |r.value| == |removed| && Matched(removed, added, eligible, r.value)
    decreases |removed| - |done|
  {
    if |done| < |removed| {
      var p := FirstPair(removed[|done|], added, eligible, done, 0);
      if p.Some? {
        var next := done + [p.value];
        PairsAppend(done, p.value);
        PairUpSound(removed, added, eligible, next);
      }
    }
  }

  lemma PairsAppend(done: seq<Pair>, p: Pair)
    ensures PairRows(done + [p]) == PairRows(done) + [p.row] && PairApps(done + [p]) == PairApps(done) + [p.app]
    ensures Distinct(PairRows(done)) && p.row !in PairRows(done) ==> Distinct(PairRows(done + [p]))
    ensures Distinct(PairApps(done)) && p.app !in PairApps(done) ==> Distinct(PairApps(done + [p]))
  {
  }

  lemma ClaimsAppend(claims: seq<Claim>, c: Claim)
    ensures ClaimRows(claims + [c]) == ClaimRows(claims) + [c.row] && ClaimApps(claims + [c]) == ClaimApps(claims) + [c.app]
    ensures ClaimPairs(claims + [c]) == ClaimPairs(claims) + [c.pair]
  {
  }

  lemma OneMoreClaim(added: seq<Pending>, eligible: seq<App>, pairs: seq<Pair>, j: nat, claims: seq<Claim>, i: nat)
    requires j < |added| && j !in PairRows(pairs)
    requires Claimed(added, eligible, pairs, j, claims) && Claimable(added[j], added, eligible, pairs, claims, i)
    ensures Claimed(added, eligible, pairs, j + 1, claims + [Claim(j, i, PairOf(pairs, i).value)])
  {
    var c := Claim(j, i, PairOf(pairs, i).value);
    ClaimsAppend(claims, c);
    forall k | 0 <= k < |claims|
      ensures claims[k].pair != c.pair && claims[k].row != j
    {
      assert ClaimApps(claims)[k] == claims[k].app == pairs[claims[k].pair].app;
    }
    forall m: nat | m < j + 1
      ensures m in PairRows(pairs) || m in ClaimRows(claims + [c])
    {
      assert (ClaimRows(claims) + [j])[|claims|] == j;
    }
  }

  lemma {:induction false} ClaimAllSound(added: seq<Pending>, eligible: seq<App>, pairs: seq<Pair>, j: nat, claims: seq<Claim>)
    requires j <= |added| && Claimed(added, eligible, pairs, j, claims)
    ensures var r := ClaimAll(added, eligible, pairs, j, claims);
            r.Some? ==> Claimed(added, eligible, pairs, |added|, r.value)
    decreases |added| - j
  {
    if j < |added| {
      if j in PairRows(pairs) {
        ClaimAllSound(added, eligible, pairs, j + 1, claims);
      } else {
        var i := FirstClaim(added[j], added, eligible, pairs, claims, 0);
        if i.Some? {
          OneMoreClaim(added, eligible, pairs, j, claims, i.value);
          ClaimAllSound(added, eligible, pairs, j + 1, claims + [Claim(j, i.value, PairOf(pairs, i.value).value)]);
        }
      }
    }
  }

  /** Both greedy phases. */
  function Greedy(removed: seq<Pending>, added: seq<Pending>, eligible: seq<App>): Option<seq<Claim>> {
    var pairs := PairUp(removed, added, eligible, []);
    if pairs.None? then None else ClaimAll(added, eligible, pairs.value, 0, [])
  }

  /** Whatever is approved has a complete accounting. */
  lemma GreedySound(removed: seq<Pending>, added: seq<Pending>, eligible: seq<App>)
    requires Greedy(removed, added, eligible).Some?
    ensures Justified(removed, added, eligible, PairUp(removed, added, eligible, []).value, Greedy(removed, added, eligible).value)
  {
    PairUpSound(removed, added, eligible, []);
    ClaimAllSound(added, eligible, PairUp(removed, added, eligible, []).value, 0, []);
  }

  /** In a complete accounting the added rows are the heads and the residuals, and nothing else. */
  lemma JustifiedConserves(removed: seq<Pending>, added: seq<Pending>, eligible: seq<App>, pairs: seq<Pair>, claims: seq<Claim>)
    requires Justified(removed, added, eligible, pairs, claims)
    ensures Within(PairRows(pairs), |added|) && Within(ClaimRows(claims), |added|)
    ensures multiset(added) == multiset(At(added, PairRows(pairs))) + multiset(At(added, ClaimRows(claims)))
    ensures |added| == |removed| + |claims| && |claims| <= |removed|
  {
    var rows, rest := PairRows(pairs), ClaimRows(claims);
    forall j | j in rest
      ensures j !in rows
    {
      var k :| 0 <= k < |rest| && rest[k] == j;
      assert ClaimOk(added, eligible, pairs, claims[k]);
    }
    DistinctAppend(rows, rest);
    AtAppend(added, rows, rest);
    AtAll(added, rows + rest);
    assert |multiset(At(added, rows + rest))| == |rows| + |rest|;
    FewIndices(ClaimPairs(claims), |pairs|);
  }

  // ---------------------------------------------------------------- what a change is approved for

  /** A removed row calls the binder of its application there and is unresolved; its added row
      names the root, partially applied when the result is a function or arguments are missing,
      and keeps the other nine fields. */
  lemma FitsMeans(before: Pending, after: Pending, app: App)
    ensures Fits(before, after, app) <==>
            && app.caller == Some(before.caller) && app.site == before.site && app.binder == Some(before.callee) && app.root == Some(after.callee)
            && before.head == "unknown:" + before.callee + ":callback_param" && after.head == "enumerated:" + after.callee
            && before.path == None && after.path == None && before.form == None && after.form == None
            && (after.partial <==> app.resultArrow || app.supplied < app.arity)
            && before.unit == after.unit && before.caller == after.caller && before.localModule == after.localModule
            && before.cond == after.cond && before.dead == after.dead && before.site == after.site
            && before.exnScope == after.exnScope && before.errScope == after.errScope && before.errPropagates == after.errPropagates
  {
  }

  /** A residual calls what an application with surplus arguments returned: unresolved, complete,
      in the unit, at the site and in the exception scope of its head. */
  lemma ResidualMeans(before: Pending, head: Pending, app: App, after: Pending)
    requires Fits(before, head, app)
    ensures ResidualFits(after, head, app) <==>
            && app.supplied > app.arity
            && after == Pending(head.unit, head.caller, "unknown:*TOP*:callback_param", "*TOP*", None, false, false, head.cond, head.dead,
                                head.site, head.exnScope, None, None, None)
  {
    hide Fits;
    hide UnknownHead;
    UnknownTop();
    FitsCaller(before, head, app);
  }

  lemma UnknownTop()
    ensures UnknownHead("*TOP*") == "unknown:*TOP*:callback_param"
  {
  }

  lemma FitsCaller(before: Pending, head: Pending, app: App)
    requires Fits(before, head, app)
    ensures Some(head.caller) == app.caller && head.site == app.site
  {
  }

  /** In a complete accounting each removed row has such an added row and application, and each
      other added row is such a residual. */
  lemma JustifiedMeans(removed: seq<Pending>, added: seq<Pending>, eligible: seq<App>, pairs: seq<Pair>, claims: seq<Claim>)
    requires Justified(removed, added, eligible, pairs, claims)
    ensures forall k :: 0 <= k < |removed| ==>
              && pairs[k].row < |added| && pairs[k].app < |eligible|
              && Fits(removed[k], added[pairs[k].row], eligible[pairs[k].app])
    ensures forall j: nat :: j < |added| && j !in PairRows(pairs) ==>
              exists p, head :: && 0 <= p < |removed| && pairs[p].row < |added| && pairs[p].app < |eligible| && head == added[pairs[p].row]
                                && eligible[pairs[p].app].supplied > eligible[pairs[p].app].arity
                                && added[j] == Pending(head.unit, head.caller, "unknown:*TOP*:callback_param", "*TOP*", None, false, false,
                                                       head.cond, head.dead, head.site, head.exnScope, None, None, None)
  {
    forall k | 0 <= k < |removed|
      ensures && pairs[k].row < |added| && pairs[k].app < |eligible|
              && Fits(removed[k], added[pairs[k].row], eligible[pairs[k].app])
    {
      assert PairRows(pairs)[k] < |added| && PairApps(pairs)[k] < |eligible|;
    }
    hide Fits;
    hide ResidualFits;
    forall j: nat | j < |added| && j !in PairRows(pairs)
      ensures exists p, head :: && 0 <= p < |removed| && pairs[p].row < |added| && pairs[p].app < |eligible| && head == added[pairs[p].row]
                                && eligible[pairs[p].app].supplied > eligible[pairs[p].app].arity
                                && added[j] == Pending(head.unit, head.caller, "unknown:*TOP*:callback_param", "*TOP*", None, false, false,
                                                       head.cond, head.dead, head.site, head.exnScope, None, None, None)
    {
      var k :| 0 <= k < |claims| && ClaimRows(claims)[k] == j;
      assert ClaimOk(added, eligible, pairs, claims[k]);
      var p := claims[k].pair;
      ResidualMeans(removed[p], added[pairs[p].row], eligible[pairs[p].app], added[j]);
    }
  }
}
