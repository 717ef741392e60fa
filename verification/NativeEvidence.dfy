/** Native evidence behind a local-recursion witness: locations, owners, applications, and
    the rows they stand for (roster/tezos-local-recursion/witness.js:20-115 and
    prepare-witness.js:30-40). */
module NativeEvidence {
  import opened Prelude
  import opened Rows

  // ---------------------------------------------------------------- locations

  datatype Loc = Loc(startFile: string, endFile: string, startOffset: int, endOffset: int, startLine: int, endLine: int)

  predicate ValidLoc(l: Loc) {
    0 <= l.startOffset <= l.endOffset && l.startFile != "" && l.startFile == l.endFile
  }

  predicate Contains(outer: Loc, inner: Loc) {
    && ValidLoc(outer) && ValidLoc(inner) && outer.startFile == inner.startFile
    && outer.startOffset <= inner.startOffset && inner.endOffset <= outer.endOffset
  }

  predicate SameLoc(a: Loc, b: Loc) {
    && ValidLoc(a) && ValidLoc(b) && a.startFile == b.startFile && a.endFile == b.endFile
    && a.startOffset == b.startOffset && a.endOffset == b.endOffset
  }

  // ---------------------------------------------------------------- owners

  datatype OwnerKind = RecursiveRootLiteral | OtherOwner

  datatype Owner = Owner(index: int, name: string, kind: OwnerKind, loc: Loc, base: string, ordinal: int)

  /** The owners whose span contains a location, in order (line 86). */
  function Callers(owners: seq<Owner>, app: Loc): (r: seq<Owner>)
    ensures forall o :: o in r <==> o in owners && Contains(o.loc, app)
  {
    if owners == [] then []
    else (if Contains(owners[0].loc, app) then [owners[0]] else []) + Callers(owners[1..], app)
  }

  predicate StrictlyInside(outer: Owner, inner: Owner) {
    Contains(outer.loc, inner.loc) && !SameLoc(outer.loc, inner.loc)
  }

  predicate Minimal(callers: seq<Owner>, o: Owner) {
    forall other :: other in callers ==> !StrictlyInside(o, other)
  }

  /** The candidates among `some` that have no caller strictly inside them (line 87). */
  function Deepest(some: seq<Owner>, callers: seq<Owner>): (r: seq<Owner>)
    ensures forall o :: o in r <==> o in some && Minimal(callers, o)
  {
    if some == [] then []
    else (if Minimal(callers, some[0]) then [some[0]] else []) + Deepest(some[1..], callers)
  }

  lemma ContainsTransitive(a: Loc, b: Loc, c: Loc)
    requires Contains(a, b) && Contains(b, c)
    ensures Contains(a, c)
  {
  }

  /** Below every caller lies a minimal one: going strictly inside shortens the span. */
  lemma {:induction false} MinimalBelow(callers: seq<Owner>, o: Owner) returns (m: Owner)
    requires o in callers && ValidLoc(o.loc)
    ensures m in callers && Minimal(callers, m) && Contains(o.loc, m.loc)
    decreases o.loc.endOffset - o.loc.startOffset
  {
    if Minimal(callers, o) {
      m := o;
    } else {
      var inner :| inner in callers && StrictlyInside(o, inner);
      m := MinimalBelow(callers, inner);
      ContainsTransitive(o.loc, inner.loc, m.loc);
    }
  }

  /** A caller that is the only minimal one lies inside every owner that contains the
      application. */
  lemma UniqueDeepestInsideAll(owners: seq<Owner>, app: Loc, d: Owner)
    requires Deepest(Callers(owners, app), Callers(owners, app)) == [d]
    ensures d in owners && Contains(d.loc, app)
    ensures forall o :: o in owners && Contains(o.loc, app) ==> Contains(o.loc, d.loc)
  {
    var callers := Callers(owners, app);
    var deepest := Deepest(callers, callers);
    assert d in deepest;
    forall o | o in owners && Contains(o.loc, app)
      ensures Contains(o.loc, d.loc)
    {
      var m := MinimalBelow(callers, o);
      assert m in deepest;
    }
  }

  // ---------------------------------------------------------------- rows

  /** The recursive scope that an application was matched with, and what was seen of its root
      and of the head of the application. */
  datatype Match = Match(
    groupSize: int, directRhs: bool, rhsLoc: Loc, bindingLoc: Loc, binderName: string, binderIdentity: string, binderUid: string,
    rootIndex: int, rootKind: OwnerKind, rootBase: string, rootArity: int, rootObservations: int,
    headUid: string, headLoc: Loc, headNameLoc: Loc)

  /** A native application. Its root is that of the scope, if it was matched with one. */
  datatype App = App(
    index: int, admitted: bool, scope: Option<Match>, loc: Loc,
    callerIndex: int, callerName: string, callerLoc: Loc,
    headName: string, headLongident: string, headIdentity: string, disposition: string, slots: seq<bool>,
    rootName: string, rootLoc: Loc, rootOrdinal: int,
    arity: int, supplied: int, storageUnconfirmed: bool,
    groupKey: string, unambiguous: bool, listed: seq<int>)

  datatype Evidence = Evidence(cmt: string, owners: seq<Owner>, apps: seq<App>)

  function NatText(n: nat): string {
    if n < 10 then ["0123456789"[n]] else NatText(n / 10) + ["0123456789"[n % 10]]
  }

  function IntText(n: int): string {
    if n < 0 then "-" + NatText(-n) else NatText(n)
  }

  function Site(app: App): string {
    app.loc.startFile + ":" + IntText(app.loc.startLine)
  }

  /** `nativeBefore`: the unresolved row of the application. */
  function NativeBefore(app: App): PosRow {
    PosRow(Row(app.loc.startFile, app.callerName, Some(Site(app)), None, None, app.headName, MAY_TOP, None,
               Some("callback_param"), Some(Site(app))),
           Some(app.callerLoc.startLine), Some(app.callerLoc.endLine), None, None)
  }

  /** `nativeAfter`: the same call bounded to the recursive root. */
  function NativeAfter(app: App): PosRow {
    PosRow(Row(app.loc.startFile, app.callerName, Some(Site(app)), Some(app.loc.startFile), Some(app.rootName), app.rootName,
               MAY_ENUMERATED, None, None, None),
           Some(app.callerLoc.startLine), Some(app.callerLoc.endLine), Some(app.rootLoc.startLine), Some(app.rootLoc.endLine))
  }

  /** `residualAfter`: the returned function of an over-application. */
  function ResidualAfter(app: App): PosRow {
    var b := NativeBefore(app);
    b.(row := b.row.(calleeName := "*TOP*"))
  }

  /** Lines 94-97 and 101. */
  predicate BeforeMatches(app: App, before: PosRow) {
    var r := before.row;
    && r.callerPath == app.loc.startFile && r.caller == app.callerName && r.callSite == Some(Site(app))
    && r.calleeName == app.headName && r.target.None? && r.targetPath.None? && r.kind == MAY_TOP
    && r.topReason == Some("callback_param") && r.topAnchor == Some(Site(app)) && r.edgeForm.None?
    && before.callerStart == Some(app.callerLoc.startLine) && before.callerEnd == Some(app.callerLoc.endLine)
  }

  /** Lines 98-103. */
  predicate AfterMatches(app: App, before: PosRow, after: PosRow) {
    var r := after.row;
    && r.callerPath == before.row.callerPath && r.caller == before.row.caller && r.callSite == Some(Site(app))
    && r.targetPath == Some(before.row.callerPath) && r.target == Some(app.rootName) && r.calleeName == app.rootName
    && r.kind == MAY_ENUMERATED && r.topReason.None? && r.topAnchor.None? && r.edgeForm.None?
    && after.callerStart == Some(app.callerLoc.startLine) && after.callerEnd == Some(app.callerLoc.endLine)
    && after.targetStart == Some(app.rootLoc.startLine) && after.targetEnd == Some(app.rootLoc.endLine)
  }

  /** The checker accepts exactly the rows that the draft builder writes; of the before row it
      leaves the target lines open. */
  lemma MatchingRowsAreNativeRows(app: App, before: PosRow, after: PosRow)
    ensures BeforeMatches(app, before) && AfterMatches(app, before, after) <==>
            before.(targetStart := None, targetEnd := None) == NativeBefore(app) && after == NativeAfter(app)
  {
  }

  // ---------------------------------------------------------------- the native pair

  datatype Storage = Storage(stored: bool, cmt: string, calleeName: string, calleePath: string, ordinal: int)

  function StorageOf(record: Evidence, app: App): Storage {
    Storage(true, record.cmt, app.rootName, app.loc.startFile, app.rootOrdinal)
  }

  function GroupMembers(apps: seq<App>, key: string): (r: seq<App>)
    ensures forall a :: a in r <==> a in apps && a.groupKey == key
  {
    if apps == [] then [] else (if apps[0].groupKey == key then [apps[0]] else []) + GroupMembers(apps[1..], key)
  }

  function IndexOf(a: App): int {
    a.index
  }

  /** Lines 107-112: the listed members are exactly the applications of the group, all of
      them admitted for the same head. */
  predicate GroupExact(record: Evidence, app: App) {
    var members := GroupMembers(record.apps, app.groupKey);
    && app.unambiguous && |set i | i in app.listed| == |app.listed|
    && multiset(app.listed) == multiset(Map(IndexOf, members))
    && forall m :: m in members ==> && m.admitted && m.disposition == app.disposition
                                    && m.headLongident == app.headLongident && m.headIdentity == app.headIdentity
  }

  /** Lines 86-89: the recorded caller is the one deepest owner. */
  predicate CallerIsDeepest(record: Evidence, app: App) {
    var callers := Callers(record.owners, app.loc);
    var deepest := Deepest(callers, callers);
    && |deepest| == 1 && deepest[0].index == app.callerIndex && deepest[0].name == app.callerName
    && SameLoc(deepest[0].loc, app.callerLoc)
  }

  /** `canonicalRootName`: a second allocation at one place carries its number. */
  function CanonicalRootName(base: string, ordinal: int): string {
    if ordinal == 1 then base + ">" else base + "#" + IntText(ordinal) + ">"
  }

  predicate Includes(s: string, part: string) {
    part <= s || (s != "" && Includes(s[1..], part))
  }

  function OwnersOf(owners: seq<Owner>, index: int): (r: seq<Owner>)
    ensures forall o :: o in r <==> o in owners && o.index == index
  {
    if owners == [] then [] else (if owners[0].index == index then [owners[0]] else []) + OwnersOf(owners[1..], index)
  }

  /** Lines 63-72: one physical root, a function literal, which is an owner of the record under
      the name that its allocation gives it. */
  predicate RootObserved(record: Evidence, app: App, m: Match) {
    && m.groupSize == 1 && m.directRhs && m.rootObservations == 1 && m.rootKind == RecursiveRootLiteral
    && SameLoc(m.rhsLoc, app.rootLoc) && Contains(m.bindingLoc, m.rhsLoc)
    && app.rootOrdinal >= 1 && Includes(m.rootBase, "<fun:") && app.rootName == CanonicalRootName(m.rootBase, app.rootOrdinal)
    && var roots := OwnersOf(record.owners, m.rootIndex);
       && |roots| == 1 && roots[0].kind == RecursiveRootLiteral && roots[0].name == app.rootName
       && SameLoc(roots[0].loc, app.rootLoc) && roots[0].base == m.rootBase && roots[0].ordinal == app.rootOrdinal
  }

  /** Lines 76-82: the head is the binder of the scope, inside the application, inside the root. */
  predicate HeadIsBinder(app: App, m: Match) {
    && app.headIdentity != "" && app.headIdentity == m.binderIdentity && app.headName == m.binderName
    && app.headLongident == m.binderName && m.headUid == m.binderUid
    && Contains(app.loc, m.headLoc) && Contains(app.loc, m.headNameLoc)
    && Contains(m.rhsLoc, app.loc) && Contains(app.rootLoc, app.loc)
  }

  function SuppliedSlots(slots: seq<bool>): nat {
    if slots == [] then 0 else SuppliedSlots(slots[..|slots| - 1]) + (if slots[|slots| - 1] then 1 else 0)
  }

  /** Lines 63-82 and 104-106. */
  predicate Identified(record: Evidence, app: App) {
    && app.scope.Some? && RootObserved(record, app, app.scope.value) && HeadIsBinder(app, app.scope.value)
    && app.arity == app.scope.value.rootArity && app.supplied == SuppliedSlots(app.slots)
  }

  /** `validateNativePair` as a whole. */
  predicate NativePair(record: Evidence, app: App, storage: Storage, before: PosRow, after: PosRow) {
    && app.admitted && Identified(record, app)
    && Contains(app.callerLoc, app.loc) && CallerIsDeepest(record, app)
    && storage.stored && storage.cmt == record.cmt && storage.calleeName == app.rootName
    && Some(storage.calleePath) == after.row.targetPath && storage.ordinal == app.rootOrdinal
    && BeforeMatches(app, before) && AfterMatches(app, before, after)
    && GroupExact(record, app)
  }

  /** An accepted pair: its rows are the native ones, its caller's span lies inside that of
      every owner around the application, its storage is the draft's, and the listed
      occurrences are the group. */
  lemma AcceptedPair(record: Evidence, app: App, storage: Storage, before: PosRow, after: PosRow)
    requires NativePair(record, app, storage, before, after)
    ensures after == NativeAfter(app) && before.(targetStart := None, targetEnd := None) == NativeBefore(app)
    ensures storage == StorageOf(record, app)
    ensures forall o :: o in record.owners && Contains(o.loc, app.loc) ==> Contains(o.loc, app.callerLoc)
    ensures forall i :: i in app.listed <==> exists m :: m in record.apps && m.groupKey == app.groupKey && m.index == i
  {
    hide Identified;
    MatchingRowsAreNativeRows(app, before, after);
    DeepestInsideAll(record, app);
    var members := GroupMembers(record.apps, app.groupKey);
    forall i
      ensures i in app.listed <==> exists m :: m in record.apps && m.groupKey == app.groupKey && m.index == i
    {
      assert i in app.listed <==> i in multiset(app.listed);
      if i in multiset(Map(IndexOf, members)) {
        var m := MapMember(IndexOf, members, i);
      }
      if m :| m in record.apps && m.groupKey == app.groupKey && m.index == i {
        MapContains(IndexOf, members, m);
      }
    }
  }

  lemma DeepestInsideAll(record: Evidence, app: App)
    requires CallerIsDeepest(record, app)
    ensures forall o :: o in record.owners && Contains(o.loc, app.loc) ==> Contains(o.loc, app.callerLoc)
    ensures exists o :: o in record.owners && o.index == app.callerIndex && o.name == app.callerName && SameLoc(o.loc, app.callerLoc)
  {
    var callers := Callers(record.owners, app.loc);
    UniqueDeepestInsideAll(record.owners, app.loc, Deepest(callers, callers)[0]);
  }

  /** And its root is one owner of the record, which is around the caller, the application and
      the head; the caller itself is an owner, and it lies in the binding of the function that
      the application calls: the call is recursive. */
  lemma AcceptedRoot(record: Evidence, app: App, storage: Storage, before: PosRow, after: PosRow) returns (root: Owner, caller: Owner)
    requires NativePair(record, app, storage, before, after)
    ensures root in record.owners && forall o :: o in record.owners && o.index == root.index ==> o == root
    ensures root.kind == RecursiveRootLiteral && root.name == app.rootName == CanonicalRootName(root.base, root.ordinal)
    ensures caller in record.owners && caller.index == app.callerIndex && caller.name == app.callerName
    ensures Contains(root.loc, caller.loc) && Contains(caller.loc, app.loc) && Contains(app.loc, app.scope.value.headLoc)
    ensures Contains(app.scope.value.bindingLoc, caller.loc) && app.headName == app.scope.value.binderName
  {
    hide GroupExact;
    hide BeforeMatches;
    hide AfterMatches;
    hide Includes;
    hide CanonicalRootName;
    DeepestInsideAll(record, app);
    var roots := OwnersOf(record.owners, app.scope.value.rootIndex);
    root := roots[0];
    assert root in roots;
    OnlyOwner(record.owners, app.scope.value.rootIndex, root);
    caller :| caller in record.owners && caller.index == app.callerIndex && caller.name == app.callerName && SameLoc(caller.loc, app.callerLoc);
    assert Contains(root.loc, app.callerLoc);
  }

  lemma OnlyOwner(owners: seq<Owner>, index: int, root: Owner)
    requires OwnersOf(owners, index) == [root]
    ensures forall o :: o in owners && o.index == index ==> o == root
  {
    forall o | o in owners && o.index == index
      ensures o == root
    {
      assert o in OwnersOf(owners, index);
    }
  }

  // ---------------------------------------------------------------- what a pair is accepted for

  /** A location is a nonempty stretch of offsets in one named file, contains another within its
      stretch, and is the same as one with its file and stretch. */
  lemma LocationsMean(a: Loc, b: Loc)
    ensures Contains(a, b) <==> && a.startFile != "" && a.startFile == a.endFile == b.startFile == b.endFile
                                && 0 <= a.startOffset <= b.startOffset <= b.endOffset <= a.endOffset
    ensures SameLoc(a, b) <==> Contains(a, b) && a.startOffset == b.startOffset && a.endOffset == b.endOffset
  {
  }

  lemma DigitChar(d: nat)
    requires d < 10
    ensures "0123456789"[d] as int == '0' as int + d
  {
  }

  lemma {:induction false} NatTextMeans(n: nat)
    ensures NatText(n) != [] && forall i :: 0 <= i < |NatText(n)| ==> '0' <= NatText(n)[i] <= '9'
    ensures NumberOf(NatText(n)) == n
    ensures n > 0 ==> NatText(n)[0] != '0'
  {
    DigitChar(n % 10);
    if n >= 10 {
      NatTextMeans(n / 10);
      DigitAdded(NatText(n / 10), n / 10, n % 10);
    } else {
      DigitChar(n);
      assert NatText(n)[..0] == "";
    }
  }

  lemma DigitAdded(front: string, n: nat, d: nat)
    requires front != [] && (forall i :: 0 <= i < |front| ==> '0' <= front[i] <= '9') && NumberOf(front) == n && d < 10
    ensures var s := front + ["0123456789"[d]];
            (forall i :: 0 <= i < |s| ==> '0' <= s[i] <= '9') && NumberOf(s) == 10 * n + d && s[0] == front[0]
  {
    DigitChar(d);
    var s := front + ["0123456789"[d]];
    assert s[..|s| - 1] == front;
  }

  /** The value of decimal digits. */
  function NumberOf(digits: string): int {
    if digits == "" then 0 else 10 * NumberOf(digits[..|digits| - 1]) + (digits[|digits| - 1] as int - '0' as int)
  }

  /** The call site of an application names the file and the line where it starts. */
  lemma SiteMeans(app: App) returns (digits: string)
    ensures Site(app) == app.loc.startFile + ":" + (if app.loc.startLine < 0 then "-" else "") + digits
    ensures NumberOf(digits) == if app.loc.startLine < 0 then -app.loc.startLine else app.loc.startLine
    ensures digits != [] && (forall i :: 0 <= i < |digits| ==> '0' <= digits[i] <= '9') && (app.loc.startLine != 0 ==> digits[0] != '0')
  {
    var n := if app.loc.startLine < 0 then -app.loc.startLine else app.loc.startLine;
    digits := NatText(n);
    NatTextMeans(n);
  }

  /** One text includes another when that is somewhere in it. */
  lemma {:induction false} IncludesMeans(s: string, part: string)
    ensures Includes(s, part) <==> exists before, after :: s == before + part + after
  {
    if part <= s {
      assert s == [] + part + s[|part|..];
    } else {
      if s != "" {
        IncludesMeans(s[1..], part);
        if before, after :| s[1..] == before + part + after {
          assert s == ([s[0]] + before) + part + after;
        }
      }
      if before, after :| s == before + part + after {
        LaterIn(s, part, before, after);
      }
    }
  }

  lemma LaterIn(s: string, part: string, before: string, after: string)
    requires s == before + part + after && !(part <= s)
    ensures s != "" && s[1..] == before[1..] + part + after
  {
    assert before == [] ==> s == part + after;
  }

  /** As many slots are supplied as there are places of supplied ones. */
  lemma {:induction false} SuppliedMeans(slots: seq<bool>)
    ensures SuppliedSlots(slots) == |set i | 0 <= i < |slots| && slots[i]|
  {
    if slots != [] {
      var n := |slots| - 1;
      SuppliedMeans(slots[..n]);
      var front := set i | 0 <= i < |slots[..n]| && slots[..n][i];
      assert (set i | 0 <= i < |slots| && slots[i]) == front + if slots[n] then {n} else {};
    }
  }

  /** The rows of a pair: the call as an unresolved callback at the application's site, and the
      same call bounded to the root, with the lines of the caller and of the root. */
  lemma PairRows(record: Evidence, app: App, storage: Storage, before: PosRow, after: PosRow)
    requires NativePair(record, app, storage, before, after)
    ensures var file, site := app.loc.startFile, Some(Site(app));
            && before.row == Row(file, app.callerName, site, None, None, app.headName, MAY_TOP, None, Some("callback_param"), site)
            && after.row == Row(file, app.callerName, site, Some(file), Some(app.rootName), app.rootName, MAY_ENUMERATED, None, None, None)
    ensures before.callerStart == after.callerStart == Some(app.callerLoc.startLine)
    ensures before.callerEnd == after.callerEnd == Some(app.callerLoc.endLine)
    ensures after.targetStart == Some(app.rootLoc.startLine) && after.targetEnd == Some(app.rootLoc.endLine)
  {
  }

  /** What else a pair is accepted for: all of the evidence is there, and the storage agrees. */
  ghost predicate FullEvidence(record: Evidence, app: App, m: Match, storage: Storage) {
    // one direct recursive function, observed once
    && app.admitted && m.groupSize == 1 && m.directRhs && m.rootObservations == 1 && m.rootKind == RecursiveRootLiteral
    // whose right-hand side is the root, inside its binding
    && SameLoc(m.rhsLoc, app.rootLoc) && Contains(m.bindingLoc, m.rhsLoc)
    // allocated under a name of its own, as exactly one owner of the record says
    && app.rootOrdinal >= 1 && Includes(m.rootBase, "<fun:")
    && app.rootName == (if app.rootOrdinal == 1 then m.rootBase + ">" else m.rootBase + "#" + IntText(app.rootOrdinal) + ">")
    && (exists root :: root in record.owners && root.index == m.rootIndex && root.kind == RecursiveRootLiteral && root.name == app.rootName
                       && SameLoc(root.loc, app.rootLoc) && root.base == m.rootBase && root.ordinal == app.rootOrdinal)
    && |OwnersOf(record.owners, m.rootIndex)| == 1
    // the head of the application is the binder
    && app.headIdentity != "" && app.headIdentity == m.binderIdentity && m.headUid == m.binderUid
    && app.headName == app.headLongident == m.binderName
    // everything lies inside what it is part of
    && Contains(app.loc, m.headLoc) && Contains(app.loc, m.headNameLoc) && Contains(app.rootLoc, app.loc) && Contains(app.callerLoc, app.loc)
    // the storage names the root where it was found
    && storage == Storage(true, record.cmt, app.rootName, app.loc.startFile, app.rootOrdinal)
    // the arity is the root's and the arguments are counted
    && app.arity == m.rootArity && app.supplied == SuppliedSlots(app.slots)
    // the group is unambiguous and its applications are all of this kind
    && app.unambiguous
    && forall a :: a in record.apps && a.groupKey == app.groupKey ==>
         a.admitted && a.disposition == app.disposition && a.headLongident == app.headLongident && a.headIdentity == app.headIdentity
  }

  /** The recorded caller is an owner around the application with no owner strictly inside it
      that is around the application too, and it is the only such owner. */
  ghost predicate OnlyDeepest(owners: seq<Owner>, app: App) {
    var callers := Callers(owners, app.loc);
    && (exists o :: o in owners && Innermost(owners, app.loc, o)
                    && o.index == app.callerIndex && o.name == app.callerName && SameLoc(o.loc, app.callerLoc))
    && |Deepest(callers, callers)| == 1
  }

  ghost predicate Innermost(owners: seq<Owner>, at: Loc, o: Owner) {
    Contains(o.loc, at) && forall p :: p in owners && Contains(p.loc, at) && Contains(o.loc, p.loc) ==> SameLoc(o.loc, p.loc)
  }

  /** A pair is accepted exactly for its rows, its evidence, its caller and its group. */
  lemma PairExact(record: Evidence, app: App, storage: Storage, before: PosRow, after: PosRow)
    ensures NativePair(record, app, storage, before, after) <==>
            && app.scope.Some? && FullEvidence(record, app, app.scope.value, storage) && OnlyDeepest(record.owners, app)
            && before.(targetStart := None, targetEnd := None) == NativeBefore(app) && after == NativeAfter(app)
            && |set i | i in app.listed| == |app.listed|
            && multiset(app.listed) == multiset(Map(IndexOf, GroupMembers(record.apps, app.groupKey)))
  {
    hide FullEvidence;
    hide OnlyDeepest;
    hide GroupMembers;
    MatchingRowsAreNativeRows(app, before, after);
    if NativePair(record, app, storage, before, after) {
      PairHasEvidence(record, app, storage, before, after);
      DeepestIsOnly(record, app);
    }
    hide NativePair;
    hide NativeBefore;
    hide NativeAfter;
    if && app.scope.Some? && FullEvidence(record, app, app.scope.value, storage) && OnlyDeepest(record.owners, app)
       && before.(targetStart := None, targetEnd := None) == NativeBefore(app) && after == NativeAfter(app)
       && |set i | i in app.listed| == |app.listed|
       && multiset(app.listed) == multiset(Map(IndexOf, GroupMembers(record.apps, app.groupKey))) {
      DeepestIsOnly(record, app);
      EvidenceIsPair(record, app, storage, before, after);
    }
  }

  lemma EvidenceIsPair(record: Evidence, app: App, storage: Storage, before: PosRow, after: PosRow)
    requires app.scope.Some? && FullEvidence(record, app, app.scope.value, storage) && CallerIsDeepest(record, app)
    requires BeforeMatches(app, before) && AfterMatches(app, before, after)
    requires |set i | i in app.listed| == |app.listed|
    requires multiset(app.listed) == multiset(Map(IndexOf, GroupMembers(record.apps, app.groupKey)))
    ensures NativePair(record, app, storage, before, after)
  {
    hide IntText;
    hide Includes;
    hide SuppliedSlots;
    hide CallerIsDeepest;
    hide OwnersOf;
    OneRoot(record.owners, app.scope.value.rootIndex);
  }

  lemma DeepestIsOnly(record: Evidence, app: App)
    ensures CallerIsDeepest(record, app) <==> OnlyDeepest(record.owners, app)
  {
    hide Innermost;
    hide Contains;
    hide SameLoc;
    hide Callers;
    hide Deepest;
    var callers := Callers(record.owners, app.loc);
    var deepest := Deepest(callers, callers);
    InnermostAre(record.owners, app.loc);
    if |deepest| == 1 {
      assert deepest[0] in deepest && forall o :: o in deepest ==> o == deepest[0];
    }
  }

  lemma OneRoot(owners: seq<Owner>, index: int)
    ensures |OwnersOf(owners, index)| == 1 ==> forall o :: o in owners && o.index == index ==> o == OwnersOf(owners, index)[0]
    ensures |OwnersOf(owners, index)| == 1 ==> OwnersOf(owners, index)[0] in owners && OwnersOf(owners, index)[0].index == index
  {
    if |OwnersOf(owners, index)| == 1 {
      OnlyOwner(owners, index, OwnersOf(owners, index)[0]);
      assert OwnersOf(owners, index)[0] in OwnersOf(owners, index);
    }
  }

  lemma InnermostAre(owners: seq<Owner>, at: Loc)
    ensures forall o :: o in Deepest(Callers(owners, at), Callers(owners, at)) <==> o in owners && Innermost(owners, at, o)
  {
    hide Contains;
    hide SameLoc;
    hide Callers;
    hide Deepest;
    var callers := Callers(owners, at);
    forall o
      ensures o in Deepest(callers, callers) <==> o in owners && Innermost(owners, at, o)
    {
      assert o in Deepest(callers, callers) <==> o in callers && Minimal(callers, o);
    }
  }

  lemma PairHasEvidence(record: Evidence, app: App, storage: Storage, before: PosRow, after: PosRow)
    requires NativePair(record, app, storage, before, after)
    ensures FullEvidence(record, app, app.scope.value, storage)
  {
    hide IntText;
    hide Includes;
    hide SuppliedSlots;
    hide CallerIsDeepest;
    OneRoot(record.owners, app.scope.value.rootIndex);
  }
}
