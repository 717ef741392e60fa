/** Reference validation and coverage drift of the origin consumer
    (scripts/origin-consumer.js:63-108). */
module Coverage {
  import opened Order
  import opened Prelude
  import opened Splitting

  datatype Totals = Totals(modules: int, functions: int, calls: int, origins: int)

  datatype Group = Group(channel: string, form: string, escapes: int, count: int)

  datatype GroupKey = GroupKey(channel: string, form: string, escapes: int)

  datatype Reference = Reference(version: int, modules: seq<string>, totals: Totals, groups: seq<Group>)

  datatype Metric = Modules | Functions | Calls | Origins

  datatype Delta =
    | TotalDelta(metric: Metric, reference: int, current: int)
    | GroupDelta(key: GroupKey, before: int, after: int)
    | ModulePopulation(missing: seq<string>, extra: seq<string>)
    | SourceModulePopulation(missing: seq<string>, extra: seq<string>)

  function TotalOf(t: Totals, m: Metric): int {
    match m case Modules => t.modules case Functions => t.functions case Calls => t.calls case Origins => t.origins
  }

  function KeyOf(g: Group): GroupKey {
    GroupKey(g.channel, g.form, g.escapes)
  }

  // ---------------------------------------------------------------- reference

  function Sum(groups: seq<Group>): int {
    if groups == [] then 0 else Sum(groups[..|groups| - 1]) + groups[|groups| - 1].count
  }

  predicate SafePath(p: string) {
    !("/" <= p) && ".." !in Split('/', p)
  }

  predicate WfGroup(g: Group) {
    g.channel != "" && g.form != "" && (g.escapes == 0 || g.escapes == 1) && g.count >= 0
  }

  ghost predicate DistinctKeys(groups: seq<Group>) {
    forall i, j :: 0 <= i < j < |groups| ==> KeyOf(groups[i]) != KeyOf(groups[j])
  }

  ghost predicate ValidReference(r: Reference) {
    && r.version == 1
    && (forall i :: 0 <= i < |r.modules| ==> SafePath(r.modules[i]))
    && (forall i, j :: 0 <= i < j < |r.modules| ==> r.modules[i] != r.modules[j])
    && (forall m :: TotalOf(r.totals, m) >= 0)
    && r.totals.modules == |r.modules|
    && (forall i :: 0 <= i < |r.groups| ==> WfGroup(r.groups[i]))
    && DistinctKeys(r.groups)
    && Sum(r.groups) == r.totals.origins
  }

  method CheckModules(modules: seq<string>) returns (ok: bool)
    ensures ok <==> && (forall i :: 0 <= i < |modules| ==> SafePath(modules[i]))
                    && (forall i, j :: 0 <= i < j < |modules| ==> modules[i] != modules[j])
  {
    var seen: set<string> := {};
    for i := 0 to |modules|
      invariant forall m :: m in seen <==> m in modules[..i]
      invariant forall h :: 0 <= h < i ==> SafePath(modules[h])
      invariant forall h, j :: 0 <= h < j < i ==> modules[h] != modules[j]
    {
      if !SafePath(modules[i]) || modules[i] in seen {
        return false;
      }
      TakeNext(modules, i);
      seen := seen + {modules[i]};
    }
    return true;
  }

  ghost predicate Seen(seen: set<GroupKey>, groups: seq<Group>) {
    forall k :: k in seen <==> exists h :: 0 <= h < |groups| && KeyOf(groups[h]) == k
  }

  lemma NoneSeen()
    ensures Seen({}, []) && DistinctKeys([])
  {
  }

  lemma OneMoreSeen(seen: set<GroupKey>, groups: seq<Group>, g: Group)
    requires Seen(seen, groups)
    ensures Seen(seen + {KeyOf(g)}, groups + [g])
    ensures DistinctKeys(groups + [g]) <==> DistinctKeys(groups) && KeyOf(g) !in seen
  {
    hide KeyOf;
    var all := groups + [g];
    assert all[|groups|] == g && forall h :: 0 <= h < |groups| ==> all[h] == groups[h];
    if KeyOf(g) in seen {
      var h :| 0 <= h < |groups| && KeyOf(groups[h]) == KeyOf(g);
      assert KeyOf(all[h]) == KeyOf(all[|groups|]);
    }
  }

  lemma PrefixDistinct(groups: seq<Group>, i: nat)
    requires i <= |groups|
    ensures DistinctKeys(groups) ==> DistinctKeys(groups[..i])
  {
    hide KeyOf;
  }

  method CheckGroups(groups: seq<Group>) returns (ok: bool, sum: int)
    ensures ok <==> (forall i :: 0 <= i < |groups| ==> WfGroup(groups[i])) && DistinctKeys(groups)
    ensures ok ==> sum == Sum(groups)
  {
    hide KeyOf;
    hide WfGroup;
    hide DistinctKeys;
    hide Seen;
    var seen: set<GroupKey> := {};
    sum := 0;
    NoneSeen();
    for i := 0 to |groups|
      invariant Seen(seen, groups[..i]) && DistinctKeys(groups[..i])
      invariant forall h :: 0 <= h < i ==> WfGroup(groups[h])
      invariant sum == Sum(groups[..i])
    {
      TakeNext(groups, i);
      OneMoreSeen(seen, groups[..i], groups[i]);
      if !WfGroup(groups[i]) || KeyOf(groups[i]) in seen {
        PrefixDistinct(groups, i + 1);
        return false, sum;
      }
      assert groups[..i + 1][..i] == groups[..i];
      seen := seen + {KeyOf(groups[i])};
      sum := sum + groups[i].count;
    }
    TakeAll(groups);
    return true, sum;
  }

  /** `validateReference`: it throws exactly on an invalid reference. */
  method ValidateReference(r: Reference) returns (ok: bool)
    ensures ok <==> ValidReference(r)
  {
    if r.version != 1 {
      return false;
    }
    var modules := CheckModules(r.modules);
    if !modules || r.totals.modules < 0 || r.totals.functions < 0 || r.totals.calls < 0 || r.totals.origins < 0
       || r.totals.modules != |r.modules| {
      assert !modules || TotalOf(r.totals, Modules) < 0 || TotalOf(r.totals, Functions) < 0
             || TotalOf(r.totals, Calls) < 0 || TotalOf(r.totals, Origins) < 0 || r.totals.modules != |r.modules|;
      return false;
    }
    var groups, sum := CheckGroups(r.groups);
    return groups && sum == r.totals.origins;
  }

  // ---------------------------------------------------------------- drift

  /** What a Map built from the rows answers for a key, or 0: the last row counts. */
  function CountOf(groups: seq<Group>, key: GroupKey): int {
    if groups == [] then 0
    else if KeyOf(groups[|groups| - 1]) == key then groups[|groups| - 1].count
    else CountOf(groups[..|groups| - 1], key)
  }

  function Keys(groups: seq<Group>): set<GroupKey> {
    set i | 0 <= i < |groups| :: KeyOf(groups[i])
  }

  lemma {:induction false} UnknownKeyCountsZero(groups: seq<Group>, key: GroupKey)
    requires key !in Keys(groups)
    ensures CountOf(groups, key) == 0
  {
    if groups != [] {
      var front := groups[..|groups| - 1];
      assert KeyOf(groups[|groups| - 1]) in Keys(groups);
      assert forall i :: 0 <= i < |front| ==> front[i] == groups[i];
      UnknownKeyCountsZero(front, key);
    }
  }

  ghost predicate SameCounts(before: seq<Group>, after: seq<Group>) {
    forall key :: CountOf(before, key) == CountOf(after, key)
  }

  ghost predicate SameMembers(a: seq<string>, b: seq<string>) {
    forall x :: x in a <==> x in b
  }

  ghost predicate CoverageAgrees(totals: Totals, groups: seq<Group>, r: Reference, indexed: seq<string>, source: seq<string>) {
    && (forall m :: TotalOf(totals, m) == TotalOf(r.totals, m))
    && SameCounts(r.groups, groups)
    && SameMembers(r.modules, indexed)
    && SameMembers(r.modules, source)
  }

  /** The listed names that the other list lacks, in order. */
  function LackingFrom(names: seq<string>, others: seq<string>): (r: seq<string>)
    ensures forall x :: x in r <==> x in names && x !in others
  {
    if names == [] then []
    else
      var front, last := names[..|names| - 1], names[|names| - 1];
      assert names == front + [last];
      LackingFrom(front, others) + (if last in others then [] else [last])
  }

  method Lacking(names: seq<string>, others: seq<string>) returns (out: seq<string>)
    ensures out == LackingFrom(names, others)
  {
    out := [];
    for i := 0 to |names|
      invariant out == LackingFrom(names[..i], others)
    {
      assert names[..i + 1][..i] == names[..i];
      if names[i] !in others {
        out := out + [names[i]];
      }
    }
    TakeAll(names);
  }

  /** Two lists name the same things exactly when neither lacks any. */
  lemma NothingLacking(a: seq<string>, b: seq<string>)
    ensures LackingFrom(a, b) == [] && LackingFrom(b, a) == [] <==> SameMembers(a, b)
  {
    assert LackingFrom(a, b) != [] ==> LackingFrom(a, b)[0] in LackingFrom(a, b);
    assert LackingFrom(b, a) != [] ==> LackingFrom(b, a)[0] in LackingFrom(b, a);
  }

  /** What a delta says is true: both sides as they are, and not the same. */
  ghost predicate IsDrift(d: Delta, totals: Totals, groups: seq<Group>, r: Reference, indexed: seq<string>, source: seq<string>) {
    match d
    case TotalDelta(m, reference, current) => reference == TotalOf(r.totals, m) && current == TotalOf(totals, m) && reference != current
    case GroupDelta(key, before, after) => before == CountOf(r.groups, key) && after == CountOf(groups, key) && before != after
    case ModulePopulation(missing, extra) =>
      missing == LackingFrom(r.modules, indexed) && extra == LackingFrom(indexed, r.modules) && (missing != [] || extra != [])
    case SourceModulePopulation(missing, extra) =>
      missing == LackingFrom(r.modules, source) && extra == LackingFrom(source, r.modules) && (missing != [] || extra != [])
  }

  /** The deltas of one kind, and no others. */
  ghost predicate Reports(deltas: seq<Delta>, totals: Totals, groups: seq<Group>, r: Reference, indexed: seq<string>, source: seq<string>) {
    forall d :: d in deltas <==> IsDrift(d, totals, groups, r, indexed, source)
  }

  /** `compareCoverage`: exactly the deltas that hold, so none exactly when nothing drifted. */
  method CompareCoverage(totals: Totals, groups: seq<Group>, r: Reference, indexed: seq<string>, source: seq<string>)
    returns (deltas: seq<Delta>)
    ensures Reports(deltas, totals, groups, r, indexed, source)
    ensures deltas == [] <==> CoverageAgrees(totals, groups, r, indexed, source)
    ensures Arranged(deltas)
  {
    hide CoverageAgrees;
    hide Reports;
    hide LackingFrom;
    hide Arranged;
    hide CountOf;
    hide TotalOf;
    var ofTotals := CompareTotals(totals, r.totals);
    var ofGroups := CompareGroups(r.groups, groups);
    var missing := Lacking(r.modules, indexed);
    var extra := Lacking(indexed, r.modules);
    var ofModules := if |missing| != 0 || |extra| != 0 then [ModulePopulation(missing, extra)] else [];
    var sourceMissing := Lacking(r.modules, source);
    var sourceExtra := Lacking(source, r.modules);
    var ofSource := if |sourceMissing| != 0 || |sourceExtra| != 0 then [SourceModulePopulation(sourceMissing, sourceExtra)] else [];
    deltas := ofTotals + ofGroups + ofModules + ofSource;
    AllArranged(ofTotals, ofGroups, r, indexed, source);
    AllReported(ofTotals, ofGroups, totals, groups, r, indexed, source);
    NoneIffAgrees(deltas, totals, groups, r, indexed, source);
  }

  function OfModules(r: Reference, indexed: seq<string>): seq<Delta> {
    var missing, extra := LackingFrom(r.modules, indexed), LackingFrom(indexed, r.modules);
    if |missing| != 0 || |extra| != 0 then [ModulePopulation(missing, extra)] else []
  }

  function OfSource(r: Reference, source: seq<string>): seq<Delta> {
    var missing, extra := LackingFrom(r.modules, source), LackingFrom(source, r.modules);
    if |missing| != 0 || |extra| != 0 then [SourceModulePopulation(missing, extra)] else []
  }

  lemma AllReported(ofTotals: seq<Delta>, ofGroups: seq<Delta>, totals: Totals, groups: seq<Group>, r: Reference,
                    indexed: seq<string>, source: seq<string>)
    requires forall d :: d in ofTotals <==>
               d.TotalDelta? && d == TotalDelta(d.metric, TotalOf(r.totals, d.metric), TotalOf(totals, d.metric)) && d.reference != d.current
    requires forall d :: d in ofGroups <==>
               d.GroupDelta? && d == GroupDelta(d.key, CountOf(r.groups, d.key), CountOf(groups, d.key)) && d.before != d.after
    ensures Reports(ofTotals + ofGroups + OfModules(r, indexed) + OfSource(r, source), totals, groups, r, indexed, source)
  {
    hide LackingFrom;
    hide TotalOf;
    hide CountOf;
    var modules, sources := OfModules(r, indexed), OfSource(r, source);
    forall d
      ensures d in ofTotals + ofGroups + modules + sources <==> IsDrift(d, totals, groups, r, indexed, source)
    {
      InFour(ofTotals, ofGroups, modules, sources, d);
    }
  }

  /** Each kind in its own order, one kind after the other. */
  lemma AllArranged(ofTotals: seq<Delta>, ofGroups: seq<Delta>, r: Reference, indexed: seq<string>, source: seq<string>)
    requires Arranged(ofTotals) && Arranged(ofGroups)
    requires (forall d :: d in ofTotals ==> d.TotalDelta?) && (forall d :: d in ofGroups ==> d.GroupDelta?)
    ensures Arranged(ofTotals + ofGroups + OfModules(r, indexed) + OfSource(r, source))
  {
    hide LackingFrom;
    hide KeyLe;
    var modules, sources := OfModules(r, indexed), OfSource(r, source);
    assert Arranged(modules) && Arranged(sources);
    forall d
      ensures d in ofTotals + ofGroups <==> d in ofTotals || d in ofGroups
      ensures d in ofTotals + ofGroups + modules <==> d in ofTotals || d in ofGroups || d in modules
    {
    }
    hide Arranged;
    ArrangedParts(ofTotals, ofGroups);
    ArrangedParts(ofTotals + ofGroups, modules);
    ArrangedParts(ofTotals + ofGroups + modules, sources);
  }

  lemma InFour<T>(a: seq<T>, b: seq<T>, c: seq<T>, d: seq<T>, x: T)
    ensures x in a + b + c + d <==> x in a || x in b || x in c || x in d
  {
  }

  lemma NoneIffAgrees(deltas: seq<Delta>, totals: Totals, groups: seq<Group>, r: Reference, indexed: seq<string>, source: seq<string>)
    requires Reports(deltas, totals, groups, r, indexed, source)
    ensures deltas == [] <==> CoverageAgrees(totals, groups, r, indexed, source)
  {
    NothingLacking(r.modules, indexed);
    NothingLacking(r.modules, source);
    hide LackingFrom;
    hide SameMembers;
    if deltas == [] {
      forall m
        ensures TotalOf(totals, m) == TotalOf(r.totals, m)
      {
        assert !IsDrift(TotalDelta(m, TotalOf(r.totals, m), TotalOf(totals, m)), totals, groups, r, indexed, source);
      }
      forall key
        ensures CountOf(r.groups, key) == CountOf(groups, key)
      {
        assert !IsDrift(GroupDelta(key, CountOf(r.groups, key), CountOf(groups, key)), totals, groups, r, indexed, source);
      }
      assert !IsDrift(ModulePopulation(LackingFrom(r.modules, indexed), LackingFrom(indexed, r.modules)), totals, groups, r, indexed, source);
      assert !IsDrift(SourceModulePopulation(LackingFrom(r.modules, source), LackingFrom(source, r.modules)), totals, groups, r, indexed, source);
    } else {
      assert IsDrift(deltas[0], totals, groups, r, indexed, source);
    }
  }

  /** Lines 91-94. */
  method CompareTotals(current: Totals, reference: Totals) returns (deltas: seq<Delta>)
    ensures forall d :: d in deltas <==>
              d.TotalDelta? && d == TotalDelta(d.metric, TotalOf(reference, d.metric), TotalOf(current, d.metric)) && d.reference != d.current
    ensures Arranged(deltas)
  {
    deltas := [];
    var metrics := [Modules, Functions, Calls, Origins];
    assert metrics[0] == Modules && metrics[1] == Functions && metrics[2] == Calls && metrics[3] == Origins;
    for i := 0 to |metrics|
      invariant forall d :: d in deltas <==>
                  && d.TotalDelta? && d.metric in metrics[..i]
                  && d == TotalDelta(d.metric, TotalOf(reference, d.metric), TotalOf(current, d.metric)) && d.reference != d.current
      invariant forall d :: d in deltas ==> d.TotalDelta? && MetricRank(d.metric) < i
      invariant Arranged(deltas)
    {
      TakeNext(metrics, i);
      var m := metrics[i];
      if TotalOf(current, m) != TotalOf(reference, m) {
        ArrangedAppend(deltas, TotalDelta(m, TotalOf(reference, m), TotalOf(current, m)));
        deltas := deltas + [TotalDelta(m, TotalOf(reference, m), TotalOf(current, m))];
      }
    }
    TakeAll(metrics);
    forall m: Metric
      ensures m in metrics
    {
      match m case Modules => case Functions => case Calls => case Origins =>
    }
  }

  // ---------------------------------------------------------------- the order of the deltas

  function MetricRank(m: Metric): nat {
    match m case Modules => 0 case Functions => 1 case Calls => 2 case Origins => 3
  }

  function Digits(n: int): string
    decreases if n < 0 then 1 - n else n
  {
    if n < 0 then "-" + Digits(-n)
    else if n < 10 then [('0' as int + n) as char]
    else Digits(n / 10) + Digits(n % 10)
  }

  /** The text that a key is sorted by. */
  function KeyText(k: GroupKey): string {
    k.channel + [0 as char] + k.form + [0 as char] + Digits(k.escapes)
  }

  predicate KeyLe(a: GroupKey, b: GroupKey) {
    StringLe(KeyText(a), KeyText(b))
  }

  lemma KeyOrder()
    ensures Preorder(KeyLe)
  {
    hide KeyText;
    hide StringLe;
    StringOrder();
    forall a, b, c | KeyLe(a, b) && KeyLe(b, c)
      ensures KeyLe(a, c)
    {
      assert StringLe(KeyText(a), KeyText(b)) && StringLe(KeyText(b), KeyText(c));
    }
  }

  function KindRank(d: Delta): nat {
    match d case TotalDelta(_, _, _) => 0 case GroupDelta(_, _, _) => 1 case ModulePopulation(_, _) => 2 case SourceModulePopulation(_, _) => 3
  }

  /** Totals in their own order, then groups by the text of their key, then the two module
      lists; nothing is said twice. */
  predicate Precedes(a: Delta, b: Delta) {
    || KindRank(a) < KindRank(b)
    || (a.TotalDelta? && b.TotalDelta? && MetricRank(a.metric) < MetricRank(b.metric))
    || (a.GroupDelta? && b.GroupDelta? && a.key != b.key && KeyLe(a.key, b.key))
  }

  ghost predicate Arranged(deltas: seq<Delta>) {
    forall i, j :: 0 <= i < j < |deltas| ==> Precedes(deltas[i], deltas[j])
  }

  lemma ArrangedAppend(deltas: seq<Delta>, d: Delta)
    requires Arranged(deltas) && forall e :: e in deltas ==> Precedes(e, d)
    ensures Arranged(deltas + [d])
  {
    hide Precedes;
    forall i, j | 0 <= i < j < |deltas + [d]|
      ensures Precedes((deltas + [d])[i], (deltas + [d])[j])
    {
      assert deltas[i] in deltas;
    }
  }

  lemma ArrangedParts(a: seq<Delta>, b: seq<Delta>)
    requires Arranged(a) && Arranged(b) && forall d, e :: d in a && e in b ==> Precedes(d, e)
    ensures Arranged(a + b)
  {
    hide Precedes;
    forall i, j | 0 <= i < j < |a + b|
      ensures Precedes((a + b)[i], (a + b)[j])
    {
      if i < |a| <= j {
        assert a[i] in a && b[j - |a|] in b;
      }
    }
  }

  /** Lines 95-100: every key of either side, in order. */
  method CompareGroups(before: seq<Group>, after: seq<Group>) returns (deltas: seq<Delta>)
    ensures forall d :: d in deltas <==>
              d.GroupDelta? && d == GroupDelta(d.key, CountOf(before, d.key), CountOf(after, d.key)) && d.before != d.after
    ensures Arranged(deltas)
  {
    hide KeyOf;
    hide CountOf;
    hide KeyLe;
    hide Preorder;
    KeyOrder();
    deltas := [];
    var keys := SortedSet(Keys(before) + Keys(after), KeyLe);
    for i := 0 to |keys|
      invariant forall d :: d in deltas <==>
                  && d.GroupDelta? && d.key in keys[..i]
                  && d == GroupDelta(d.key, CountOf(before, d.key), CountOf(after, d.key)) && d.before != d.after
      invariant Arranged(deltas)
    {
      TakeNext(keys, i);
      var key := keys[i];
      var a, b := CountOf(before, key), CountOf(after, key);
      if a != b {
        KeysBefore(keys, i);
        ArrangedAppend(deltas, GroupDelta(key, a, b));
        deltas := deltas + [GroupDelta(key, a, b)];
      }
    }
    TakeAll(keys);
    forall key | key !in keys
      ensures CountOf(before, key) == CountOf(after, key)
    {
      UnknownKeyCountsZero(before, key);
      UnknownKeyCountsZero(after, key);
    }
  }

  lemma KeysBefore(keys: seq<GroupKey>, i: nat)
    requires Sorted(KeyLe, keys) && Distinct(keys) && i < |keys|
    ensures forall k :: k in keys[..i] ==> k != keys[i] && KeyLe(k, keys[i])
  {
    hide KeyLe;
  }

  /** Between references that pass validation, agreement on every group leaves the origin
      total no room to drift. */
  lemma GroupsDetermineOrigins(a: seq<Group>, b: seq<Group>)
    requires DistinctKeys(a) && DistinctKeys(b) && SameCounts(a, b)
    ensures Sum(a) == Sum(b)
  {
    SumIsSumOfCounts(a, Keys(a) + Keys(b));
    SumIsSumOfCounts(b, Keys(a) + Keys(b));
    SameCountsSameSum(a, b, Keys(a) + Keys(b));
  }

  ghost function SumOver(groups: seq<Group>, keys: set<GroupKey>): int {
    if keys == {} then 0
    else
      var k :| k in keys;
      CountOf(groups, k) + SumOver(groups, keys - {k})
  }

  lemma {:induction false} SameCountsSameSum(a: seq<Group>, b: seq<Group>, keys: set<GroupKey>)
    requires SameCounts(a, b)
    ensures SumOver(a, keys) == SumOver(b, keys)
  {
    if keys != {} {
      var k :| k in keys && SumOver(a, keys) == CountOf(a, k) + SumOver(a, keys - {k});
      SumOverAny(b, keys, k);
      SameCountsSameSum(a, b, keys - {k});
    }
  }

  lemma {:induction false} SumOverAny(groups: seq<Group>, keys: set<GroupKey>, k: GroupKey)
    requires k in keys
    ensures SumOver(groups, keys) == CountOf(groups, k) + SumOver(groups, keys - {k})
    decreases |keys|
  {
    var first :| first in keys && SumOver(groups, keys) == CountOf(groups, first) + SumOver(groups, keys - {first});
    if first != k {
      SumOverAny(groups, keys - {first}, k);
      SumOverAny(groups, keys - {k}, first);
      assert keys - {first} - {k} == keys - {k} - {first};
    }
  }

  lemma {:induction false} SumIsSumOfCounts(groups: seq<Group>, keys: set<GroupKey>)
    requires DistinctKeys(groups) && Keys(groups) <= keys
    ensures Sum(groups) == SumOver(groups, keys)
    decreases |groups|
  {
    if groups == [] {
      AllZero(groups, keys);
    } else {
      var front, last := groups[..|groups| - 1], groups[|groups| - 1];
      var k := KeyOf(last);
      assert k in Keys(groups);
      SumOverAny(groups, keys, k);
      assert forall i :: 0 <= i < |front| ==> front[i] == groups[i] && KeyOf(front[i]) != k;
      assert Keys(front) <= keys - {k} by {
        forall key | key in Keys(front)
          ensures key in keys - {k}
        {
          assert key in Keys(groups);
        }
      }
      SumIsSumOfCounts(front, keys - {k});
      FrontSameCounts(groups, keys - {k});
    }
  }

  lemma {:induction false} FrontSameCounts(groups: seq<Group>, keys: set<GroupKey>)
    requires groups != [] && KeyOf(groups[|groups| - 1]) !in keys
    ensures SumOver(groups, keys) == SumOver(groups[..|groups| - 1], keys)
    decreases |keys|
  {
    if keys != {} {
      var k :| k in keys && SumOver(groups, keys) == CountOf(groups, k) + SumOver(groups, keys - {k});
      SumOverAny(groups[..|groups| - 1], keys, k);
      assert CountOf(groups, k) == CountOf(groups[..|groups| - 1], k);
      FrontSameCounts(groups, keys - {k});
    }
  }

  lemma {:induction false} AllZero(groups: seq<Group>, keys: set<GroupKey>)
    requires groups == []
    ensures SumOver(groups, keys) == 0
    decreases |keys|
  {
    if keys != {} {
      var k :| k in keys && SumOver(groups, keys) == CountOf(groups, k) + SumOver(groups, keys - {k});
      assert CountOf(groups, k) == 0;
      AllZero(groups, keys - {k});
    }
  }

  // ---------------------------------------------------------------- what a reference is valid for

  /** A path is safe when it does not begin with a slash and no part between slashes is `..`. */
  lemma SafePathMeans(p: string, parts: seq<string>)
    requires parts != [] && (forall part :: part in parts ==> '/' !in part) && Joined('/', parts) == p
    ensures SafePath(p) <==> (p == "" || p[0] != '/') && ".." !in parts
  {
    JoinSplits('/', parts);
    assert "/" <= p <==> p != "" && p[0] == '/';
  }

  lemma PathHasParts(p: string)
    ensures exists parts :: parts != [] && (forall part :: part in parts ==> '/' !in part) && Joined('/', parts) == p
  {
    SplitJoins('/', p);
    assert Split('/', p) != [];
  }

  /** What a reference is valid for, group by group: the counts are those of distinct
      channels, forms and escapes, and they add up. */
  lemma ReferenceMeans(r: Reference)
    ensures ValidReference(r) <==>
            && r.version == 1 && r.totals.modules == |r.modules| && r.totals.functions >= 0 && r.totals.calls >= 0 && r.totals.origins >= 0
            && (forall p :: p in r.modules ==> SafePath(p)) && (forall i, j :: 0 <= i < j < |r.modules| ==> r.modules[i] != r.modules[j])
            && (forall g :: g in r.groups ==> |g.channel| > 0 && |g.form| > 0 && 0 <= g.escapes <= 1 && 0 <= g.count)
            && (forall i, j :: 0 <= i < j < |r.groups| ==>
                  || r.groups[i].channel != r.groups[j].channel || r.groups[i].form != r.groups[j].form
                  || r.groups[i].escapes != r.groups[j].escapes)
            && Sum(r.groups) == r.totals.origins
  {
    hide SafePath;
    assert (forall m :: TotalOf(r.totals, m) >= 0) <==>
           r.totals.modules >= 0 && r.totals.functions >= 0 && r.totals.calls >= 0 && r.totals.origins >= 0 by {
      TotalsMean(r.totals);
    }
    assert (forall p :: p in r.modules ==> SafePath(p)) <==> forall i :: 0 <= i < |r.modules| ==> SafePath(r.modules[i]);
    assert (forall g :: g in r.groups ==> WfGroup(g)) <==> forall i :: 0 <= i < |r.groups| ==> WfGroup(r.groups[i]);
  }

  lemma TotalsMean(t: Totals)
    ensures (forall m :: TotalOf(t, m) >= 0) <==> t.modules >= 0 && t.functions >= 0 && t.calls >= 0 && t.origins >= 0
  {
    assert TotalOf(t, Modules) == t.modules && TotalOf(t, Functions) == t.functions;
    assert TotalOf(t, Calls) == t.calls && TotalOf(t, Origins) == t.origins;
  }

  /** The count of a key is that of the group with its channel, form and escapes, or nothing. */
  lemma {:induction false} CountsMean(groups: seq<Group>, channel: string, form: string, escapes: int)
    requires DistinctKeys(groups)
    ensures forall g :: g in groups && g.channel == channel && g.form == form && g.escapes == escapes ==>
              CountOf(groups, GroupKey(channel, form, escapes)) == g.count
    ensures (forall g :: g in groups ==> !(g.channel == channel && g.form == form && g.escapes == escapes)) ==>
              CountOf(groups, GroupKey(channel, form, escapes)) == 0
  {
    if groups != [] {
      var front, last := groups[..|groups| - 1], groups[|groups| - 1];
      assert groups == front + [last];
      assert forall i :: 0 <= i < |front| ==> front[i] == groups[i];
      CountsMean(front, channel, form, escapes);
    }
  }

  /** The value of decimal digits. */
  function NumberOf(digits: string): int {
    if digits == "" then 0 else 10 * NumberOf(digits[..|digits| - 1]) + (digits[|digits| - 1] as int - '0' as int)
  }

  /** Keys are sorted by channel, form and the decimal escapes with a null character between. */
  lemma {:induction false} DigitsMean(n: nat)
    ensures Digits(n) != "" && NumberOf(Digits(n)) == n && forall i :: 0 <= i < |Digits(n)| ==> '0' <= Digits(n)[i] <= '9'
  {
    if n >= 10 {
      DigitsMean(n / 10);
      var s := Digits(n);
      assert Digits(n % 10) == [('0' as int + n % 10) as char];
      assert s[..|s| - 1] == Digits(n / 10);
    }
  }

  lemma KeyTextMeans(k: GroupKey) returns (digits: string)
    ensures KeyText(k) == k.channel + "\0" + k.form + "\0" + (if k.escapes < 0 then "-" else "") + digits
    ensures digits != "" && (forall i :: 0 <= i < |digits| ==> '0' <= digits[i] <= '9')
    ensures NumberOf(digits) == if k.escapes < 0 then -k.escapes else k.escapes
  {
    digits := Digits(if k.escapes < 0 then -k.escapes else k.escapes);
    DigitsMean(if k.escapes < 0 then -k.escapes else k.escapes);
    assert "\0" == [0 as char];
    assert Digits(k.escapes) == (if k.escapes < 0 then "-" else "") + digits;
  }

  /** The order of the deltas, kind by kind. */
  lemma PrecedesMeans(a: Delta, b: Delta)
    ensures a.TotalDelta? && b.TotalDelta? ==>
              (Precedes(a, b) <==>
               match a.metric
               case Modules => b.metric != Modules
               case Functions => b.metric == Calls || b.metric == Origins
               case Calls => b.metric == Origins
               case Origins => false)
    ensures a.GroupDelta? && b.GroupDelta? ==> (Precedes(a, b) <==> a.key != b.key && StringLe(KeyText(a.key), KeyText(b.key)))
    ensures (a.TotalDelta? && b.TotalDelta?) || (a.GroupDelta? && b.GroupDelta?) || (a.ModulePopulation? && b.ModulePopulation?)
            || (a.SourceModulePopulation? && b.SourceModulePopulation?)
            || (Precedes(a, b) <==> a.TotalDelta? || (a.GroupDelta? && !b.TotalDelta?) || (a.ModulePopulation? && b.SourceModulePopulation?))
    ensures (a.ModulePopulation? && b.ModulePopulation?) || (a.SourceModulePopulation? && b.SourceModulePopulation?) ==> !Precedes(a, b)
  {
    hide KeyText;
    hide StringLe;
    if a.TotalDelta? && b.TotalDelta? {
      match a.metric {
        case _ => assert b.metric.Modules? || b.metric.Functions? || b.metric.Calls? || b.metric.Origins?;
      }
    }
  }
}
