/** Drafting a local-recursion witness from a candidate's delta
    (roster/tezos-local-recursion/prepare-witness.js:14-29, 84-112). */
module WitnessDraft {
  import opened Prelude
  import opened Rows
  import opened NativeEvidence
  import C = Counter
  import W = WitnessLoader

  datatype Refusal =
    | DuplicateArtifact | Malformed | HalfPresent | DuplicateOccurrence | UnknownOccurrence | BadPair | Reused | PartialGroup | Leftovers

  // ---------------------------------------------------------------- what can still be taken

  /** DeltaIndex rows left to account for, and positioned rows left to account for them with. */
  datatype Stock = Stock(counts: multiset<Row>, seats: multiset<PosRow>)

  predicate Has(s: Stock, p: PosRow) {
    s.counts[p.row] > 0 && s.seats[p] > 0
  }

  function Less(s: Stock, p: PosRow): Stock {
    Stock(s.counts - multiset{p.row}, s.seats - multiset{p})
  }

  /** The positioned rows whose canonical row is in the delta. */
  function Seats(rows: seq<Row>, positioned: seq<PosRow>): (r: multiset<PosRow>)
    ensures r <= multiset(positioned)
  {
    if positioned == [] then multiset{}
    else
      var front, last := positioned[..|positioned| - 1], positioned[|positioned| - 1];
      assert positioned == front + [last];
      if last.row in rows then Seats(rows, front) + multiset{last} else Seats(rows, front)
  }

  function StockOf(rows: seq<Row>, positioned: seq<PosRow>): Stock {
    Stock(multiset(rows), Seats(rows, positioned))
  }

  ghost predicate Seated(positions: map<PosRow, seq<PosRow>>, seats: multiset<PosRow>) {
    && (forall p :: (if p in positions then |positions[p]| else 0) == seats[p])
    && (forall p, i :: p in positions && 0 <= i < |positions[p]| ==> positions[p][i] == p)
  }

  lemma SeatedGrows(positions: map<PosRow, seq<PosRow>>, seats: multiset<PosRow>, row: PosRow)
    requires Seated(positions, seats)
    ensures var values := if row in positions then positions[row] else [];
            Seated(positions[row := values + [row]], seats + multiset{row})
  {
  }

  lemma SeatsNext(rows: seq<Row>, positioned: seq<PosRow>, i: nat)
    requires i < |positioned|
    ensures Seats(rows, positioned[..i + 1]) ==
            Seats(rows, positioned[..i]) + (if positioned[i].row in rows then multiset{positioned[i]} else multiset{})
  {
    assert positioned[..i + 1][..i] == positioned[..i];
  }

  /** Lines 20-22: each positioned row of the delta, listed under its position. */
  method SeatAll(rows: seq<Row>, counts: map<Row, nat>, positioned: seq<PosRow>) returns (positions: map<PosRow, seq<PosRow>>)
    requires forall k :: k in counts <==> k in rows
    ensures Seated(positions, Seats(rows, positioned))
  {
    positions := map[];
    for i := 0 to |positioned|
      invariant Seated(positions, Seats(rows, positioned[..i]))
    {
      SeatsNext(rows, positioned, i);
      var row := positioned[i];
      if row.row in counts {
        SeatedGrows(positions, Seats(rows, positioned[..i]), row);
        var values := if row in positions then positions[row] else [];
        positions := positions[row := values + [row]];
      }
    }
    TakeAll(positioned);
  }

  /** The two maps of `positionedDelta`. */
  class DeltaIndex {
    var counts: map<Row, nat>
    var positions: map<PosRow, seq<PosRow>>
    ghost var stock: Stock

    ghost predicate Valid() reads this {
      C.Counts(counts, stock.counts) && Seated(positions, stock.seats)
    }

    constructor (rows: seq<Row>, positioned: seq<PosRow>)
      ensures Valid() && stock == StockOf(rows, positioned)
    {
      var _, m := C.Counted(rows);
      var seated := SeatAll(rows, m, positioned);
      counts, positions, stock := m, seated, StockOf(rows, positioned);
    }

    /** Whether one more copy can be taken (lines 91-92 and 107). */
    method Can(row: PosRow) returns (r: bool)
      requires Valid()
      ensures r == Has(stock, row)
    {
      r := row.row in counts && counts[row.row] > 0 && row in positions && positions[row] != [];
      assert C.Count(counts, row.row) == stock.counts[row.row];
    }

    /** Lines 24-28: one count and the first listed row of that position. */
    method Take(row: PosRow) returns (r: PosRow)
      requires Valid() && Has(stock, row)
      modifies this
      ensures Valid() && stock == Less(old(stock), row) && r == row
    {
      assert C.Count(counts, row.row) == stock.counts[row.row];
      counts := counts[row.row := counts[row.row] - 1];
      r := positions[row][0];
      positions := positions[row := positions[row][1..]];
      stock := Less(stock, row);
    }

    /** Line 29: how many counts are left. */
    method Remaining() returns (n: nat)
      requires Valid()
      ensures n == |stock.counts|
    {
      n := 0;
      var keys := counts.Keys;
      ghost var seen: multiset<Row> := multiset{};
      while keys != {}
        invariant keys <= counts.Keys && n == |seen|
        invariant forall k :: seen[k] == if k in keys then 0 else stock.counts[k]
      {
        var k :| k in keys;
        assert C.Count(counts, k) == stock.counts[k];
        seen := seen[k := counts[k]];
        keys := keys - {k};
        n := n + counts[k];
      }
      assert forall k :: C.Count(counts, k) == stock.counts[k];
      assert seen == stock.counts;
    }
  }

  // ---------------------------------------------------------------- the draft as a function

  /** An admitted application, with the record that holds it. */
  datatype Occurrence = Occurrence(record: Evidence, app: App)

  function Admitted(record: Evidence, apps: seq<App>): (r: seq<Occurrence>)
    ensures forall o :: o in r ==> o.record == record && o.app in apps
  {
    if apps == [] then []
    else
      var front, last := apps[..|apps| - 1], apps[|apps| - 1];
      Admitted(record, front) + (if last.admitted then [Occurrence(record, last)] else [])
  }

  function Occurrences(records: seq<Evidence>): (r: seq<Occurrence>)
    ensures forall o :: o in r ==> o.record in records && o.app in o.record.apps
  {
    if records == [] then []
    else
      var front, last := records[..|records| - 1], records[|records| - 1];
      Occurrences(front) + Admitted(last, last.apps)
  }

  datatype Desk = Desk(removed: Stock, added: Stock, ts: seq<W.Transition>)

  predicate DistinctIndices(apps: seq<App>) {
    forall i, j :: 0 <= i < j < |apps| ==> apps[i].index != apps[j].index
  }

  function Drafted(o: Occurrence): W.Transition {
    W.Transition(W.Head(o.record.cmt, o.app.index), StorageOf(o.record, o.app), true, NativeBefore(o.app), NativeAfter(o.app))
  }

  /** Lines 90-100, for one occurrence: nothing, when neither of its rows is left. */
  ghost function DraftOne(o: Occurrence, d: Desk): Result<Desk, Refusal> {
    var t := Drafted(o);
    if !ValidRow(t.before.row) || !ValidRow(t.after.row) then Err(Malformed)
    else if Has(d.removed, t.before) != Has(d.added, t.after) then Err(HalfPresent)
    else if !Has(d.removed, t.before) then Ok(d)
    else if !DistinctIndices(o.record.apps) then Err(DuplicateOccurrence)
    else if !NativePair(o.record, o.app, t.storage, t.before, t.after) then Err(BadPair)
    else if W.HeadUsed(d.ts, t.head) then Err(Reused)
    else Ok(Desk(Less(d.removed, t.before), Less(d.added, t.after), d.ts + [t]))
  }

  /** Lines 90-100, from occurrence `i` on. */
  ghost function DraftFrom(occurrences: seq<Occurrence>, i: nat, d: Desk): Result<Desk, Refusal>
    requires i <= |occurrences|
    decreases |occurrences| - i
  {
    if i == |occurrences| then Ok(d)
    else
      var next := DraftOne(occurrences[i], d);
      if next.Err? then next else DraftFrom(occurrences, i + 1, next.value)
  }

  datatype Tail = Tail(added: Stock, ws: seq<W.Residual>)

  ghost predicate GroupSeen(ts: seq<W.Transition>, cmt: string, listed: seq<int>) {
    forall i :: i in listed ==> W.HeadUsed(ts, W.Head(cmt, i))
  }

  function Extra(t: W.Transition, app: App): W.Residual {
    W.Residual(t.head, app.arity, app.supplied, ResidualAfter(app))
  }

  /** Lines 104-110, for one transition. */
  ghost function ExtendOne(app: App, ts: seq<W.Transition>, t: W.Transition, tail: Tail): Result<Tail, Refusal> {
    if !GroupSeen(ts, t.head.cmt, app.listed) then Err(PartialGroup)
    else if app.supplied > app.arity && !ValidRow(ResidualAfter(app).row) then Err(Malformed)
    else if app.supplied > app.arity && Has(tail.added, ResidualAfter(app))
    then Ok(Tail(Less(tail.added, ResidualAfter(app)), tail.ws + [Extra(t, app)]))
    else Ok(tail)
  }

  /** Lines 104-110, from transition `i` on. */
  ghost function ExtendFrom(records: seq<Evidence>, ts: seq<W.Transition>, i: nat, tail: Tail): Result<Tail, Refusal>
    requires i <= |ts|
    decreases |ts| - i
  {
    if i == |ts| then Ok(tail)
    else if W.AppOf(records, ts[i].head).None? then Err(UnknownOccurrence)
    else
      var next := ExtendOne(W.AppOf(records, ts[i].head).value, ts, ts[i], tail);
      if next.Err? then next else ExtendFrom(records, ts, i + 1, next.value)
  }

  datatype Draft = Draft(ts: seq<W.Transition>, ws: seq<W.Residual>)

  /** The delta that a candidate reports (its `changes.json`). */
  datatype Changes = Changes(removed: seq<Row>, added: seq<Row>, before: seq<PosRow>, after: seq<PosRow>)

  predicate WellFormed(c: Changes) {
    && (forall r :: r in c.removed ==> ValidRow(r)) && (forall r :: r in c.added ==> ValidRow(r))
    && (forall p :: p in c.before ==> ValidRow(p.row)) && (forall p :: p in c.after ==> ValidRow(p.row))
  }

  /** The accounting loop of `prepare` on values: a draft, or the reason for none. */
  ghost function Plan(records: seq<Evidence>, c: Changes): Result<Draft, Refusal> {
    if !W.DistinctArtifacts(records) then Err(DuplicateArtifact)
    else if !WellFormed(c) then Err(Malformed)
    else
      var desk := DraftFrom(Occurrences(records), 0, StartDesk(c));
      if desk.Err? then Err(desk.error)
      else
        var tail := ExtendFrom(records, desk.value.ts, 0, Tail(desk.value.added, []));
        if tail.Err? then Err(tail.error)
        else if |desk.value.removed.counts| + |tail.value.added.counts| != 0 then Err(Leftovers)
        else Ok(Draft(desk.value.ts, tail.value.ws))
  }

  // ---------------------------------------------------------------- invariants of the run

  /** Every drafted transition comes from the evidence and would pass the loader's checks. */
  ghost predicate FromEvidence(records: seq<Evidence>, ts: seq<W.Transition>) {
    && (forall t :: t in ts ==> W.TransitionOk(records, t))
    && (forall t :: t in ts ==> Drafted(Occurrence(W.FindRecord(records, t.head.cmt).value, W.AppOf(records, t.head).value)) == t)
    && (forall t :: t in ts ==> DistinctIndices(W.FindRecord(records, t.head.cmt).value.apps))
  }

  ghost function BeforeRows(ts: seq<W.Transition>): multiset<Row> {
    if ts == [] then multiset{} else BeforeRows(ts[..|ts| - 1]) + multiset{ts[|ts| - 1].before.row}
  }

  ghost function AfterRows(ts: seq<W.Transition>): multiset<Row> {
    if ts == [] then multiset{} else AfterRows(ts[..|ts| - 1]) + multiset{ts[|ts| - 1].after.row}
  }

  ghost function ExtraRows(ws: seq<W.Residual>): multiset<Row> {
    if ws == [] then multiset{} else ExtraRows(ws[..|ws| - 1]) + multiset{ws[|ws| - 1].after.row}
  }

  /** What is drafted and what is left are together what there was. */
  ghost predicate Conserved(c: Changes, removed: Stock, added: Stock, ts: seq<W.Transition>, ws: seq<W.Residual>) {
    && removed.counts + BeforeRows(ts) == multiset(c.removed)
    && added.counts + AfterRows(ts) + ExtraRows(ws) == multiset(c.added)
    && removed.seats + W.Befores(ts) == Seats(c.removed, c.before)
    && added.seats + W.Afters(ts) + W.Extras(ws) == Seats(c.added, c.after)
  }

  lemma RowsAppend(ts: seq<W.Transition>, t: W.Transition)
    ensures BeforeRows(ts + [t]) == BeforeRows(ts) + multiset{t.before.row}
    ensures AfterRows(ts + [t]) == AfterRows(ts) + multiset{t.after.row}
  {
    assert (ts + [t])[..|ts|] == ts;
  }

  lemma ExtraAppend(ws: seq<W.Residual>, w: W.Residual)
    ensures ExtraRows(ws + [w]) == ExtraRows(ws) + multiset{w.after.row}
    ensures W.Extras(ws + [w]) == W.Extras(ws) + multiset{w.after}
  {
    assert (ws + [w])[..|ws|] == ws;
  }

  lemma MoveOne<T>(left: multiset<T>, used: multiset<T>, all: multiset<T>, x: T)
    requires left + used == all && left[x] > 0
    ensures left - multiset{x} + (used + multiset{x}) == all
  {
  }

  /** Drafting moves one removed and one added row, and their positions, to the draft. */
  lemma DraftMoves(c: Changes, removed: Stock, added: Stock, ts: seq<W.Transition>, t: W.Transition)
    requires Conserved(c, removed, added, ts, []) && Has(removed, t.before) && Has(added, t.after)
    ensures Conserved(c, Less(removed, t.before), Less(added, t.after), ts + [t], [])
  {
    RowsAppend(ts, t);
    W.BeforesAppend(ts, t);
    MoveOne(removed.counts, BeforeRows(ts), multiset(c.removed), t.before.row);
    MoveOne(removed.seats, W.Befores(ts), Seats(c.removed, c.before), t.before);
    W.NoResiduals(ts);
    assert added.counts + AfterRows(ts) + ExtraRows([]) == added.counts + AfterRows(ts);
    assert added.seats + W.Afters(ts) + W.Extras([]) == added.seats + W.Afters(ts);
    MoveOne(added.counts, AfterRows(ts), multiset(c.added), t.after.row);
    MoveOne(added.seats, W.Afters(ts), Seats(c.added, c.after), t.after);
  }

  lemma DraftOneConserves(c: Changes, o: Occurrence, d: Desk)
    requires Conserved(c, d.removed, d.added, d.ts, [])
    ensures var r := DraftOne(o, d); r.Ok? ==> Conserved(c, r.value.removed, r.value.added, r.value.ts, [])
  {
    hide Conserved;
    var t := Drafted(o);
    if DraftOne(o, d).Ok? && Has(d.removed, t.before) {
      DraftMoves(c, d.removed, d.added, d.ts, t);
    }
  }

  lemma {:induction false} FindsItself(records: seq<Evidence>, record: Evidence)
    requires W.DistinctArtifacts(records) && record in records
    ensures W.FindRecord(records, record.cmt) == Some(record)
  {
    if records[0] == record {
    } else {
      var i :| 0 <= i < |records| && records[i] == record;
      assert records[0].cmt != records[i].cmt;
      assert records[1..][i - 1] == record;
      forall i, j | 0 <= i < j < |records[1..]|
        ensures records[1..][i].cmt != records[1..][j].cmt
      {
        assert records[i + 1].cmt != records[j + 1].cmt;
      }
      FindsItself(records[1..], record);
    }
  }

  lemma {:induction false} FindsApp(apps: seq<App>, app: App)
    requires DistinctIndices(apps) && app in apps
    ensures W.FindApp(apps, app.index) == Some(app)
  {
    if apps[0] == app {
    } else {
      var i :| 0 <= i < |apps| && apps[i] == app;
      assert apps[0].index != apps[i].index;
      assert apps[1..][i - 1] == app;
      forall i, j | 0 <= i < j < |apps[1..]|
        ensures apps[1..][i].index != apps[1..][j].index
      {
        assert apps[i + 1].index != apps[j + 1].index;
      }
      FindsApp(apps[1..], app);
    }
  }

  lemma DraftOneFromEvidence(records: seq<Evidence>, o: Occurrence, d: Desk)
    requires W.DistinctArtifacts(records) && o.record in records && o.app in o.record.apps
    requires FromEvidence(records, d.ts) && W.DistinctHeads(d.ts)
    ensures var r := DraftOne(o, d); r.Ok? ==> FromEvidence(records, r.value.ts) && W.DistinctHeads(r.value.ts)
  {
    hide NativePair;
    hide Identified;
    hide GroupExact;
    hide NativeBefore;
    hide NativeAfter;
    var t := Drafted(o);
    if DraftOne(o, d).Ok? && Has(d.removed, t.before) {
      FindsItself(records, o.record);
      FindsApp(o.record.apps, o.app);
      W.DistinctAppend(d.ts, t);
      assert forall u :: u in d.ts + [t] <==> u in d.ts || u == t;
    }
  }

  lemma {:induction false} DraftFromInvariant(records: seq<Evidence>, c: Changes, occurrences: seq<Occurrence>, i: nat, d: Desk)
    requires W.DistinctArtifacts(records) && i <= |occurrences|
    requires forall o :: o in occurrences ==> o.record in records && o.app in o.record.apps
    requires Conserved(c, d.removed, d.added, d.ts, []) && FromEvidence(records, d.ts) && W.DistinctHeads(d.ts)
    ensures var r := DraftFrom(occurrences, i, d);
            r.Ok? ==> && Conserved(c, r.value.removed, r.value.added, r.value.ts, [])
                      && FromEvidence(records, r.value.ts) && W.DistinctHeads(r.value.ts)
    decreases |occurrences| - i
  {
    hide Conserved;
    hide FromEvidence;
    hide DraftOne;
    if i < |occurrences| {
      var next := DraftOne(occurrences[i], d);
      DraftOneConserves(c, occurrences[i], d);
      DraftOneFromEvidence(records, occurrences[i], d);
      if next.Ok? {
        DraftFromInvariant(records, c, occurrences, i + 1, next.value);
      }
    }
  }

  /** What the second loop has checked and added after `i` transitions. */
  ghost predicate Extended(records: seq<Evidence>, ts: seq<W.Transition>, i: nat, ws: seq<W.Residual>) {
    && i <= |ts| && W.DistinctResiduals(ws)
    && (forall k :: 0 <= k < i ==> Checked(records, ts, ts[k]))
    && (forall w :: w in ws ==> exists k :: 0 <= k < i && IsExtra(records, ts[k], w))
  }

  ghost predicate Checked(records: seq<Evidence>, ts: seq<W.Transition>, t: W.Transition) {
    W.AppOf(records, t.head).Some? && GroupSeen(ts, t.head.cmt, W.AppOf(records, t.head).value.listed)
  }

  ghost predicate IsExtra(records: seq<Evidence>, t: W.Transition, w: W.Residual) {
    var app := W.AppOf(records, t.head);
    app.Some? && app.value.supplied > app.value.arity && w == Extra(t, app.value)
  }

  lemma ExtendOneExtends(records: seq<Evidence>, ts: seq<W.Transition>, i: nat, tail: Tail)
    requires W.DistinctHeads(ts) && i < |ts| && W.AppOf(records, ts[i].head).Some? && Extended(records, ts, i, tail.ws)
    ensures var r := ExtendOne(W.AppOf(records, ts[i].head).value, ts, ts[i], tail);
            r.Ok? ==> Extended(records, ts, i + 1, r.value.ws)
  {
    var app := W.AppOf(records, ts[i].head).value;
    var r := ExtendOne(app, ts, ts[i], tail);
    if r.Ok? {
      assert Checked(records, ts, ts[i]);
      if r.value.ws != tail.ws {
        var w := Extra(ts[i], app);
        forall u | u in tail.ws
          ensures u.head != w.head
        {
          var k :| 0 <= k < i && IsExtra(records, ts[k], u);
          assert ts[k].head != ts[i].head;
        }
        W.ResidualsAppend(tail.ws, w);
        assert IsExtra(records, ts[i], w);
      }
    }
  }

  lemma ExtraMoves(c: Changes, removed: Stock, added: Stock, ts: seq<W.Transition>, ws: seq<W.Residual>, w: W.Residual)
    requires Conserved(c, removed, added, ts, ws) && Has(added, w.after)
    ensures Conserved(c, removed, Less(added, w.after), ts, ws + [w])
  {
    ExtraAppend(ws, w);
    MoveExtra(added.counts, AfterRows(ts), ExtraRows(ws), multiset(c.added), w.after.row);
    MoveExtra(added.seats, W.Afters(ts), W.Extras(ws), Seats(c.added, c.after), w.after);
  }

  lemma MoveExtra<T>(left: multiset<T>, used: multiset<T>, more: multiset<T>, all: multiset<T>, x: T)
    requires left + used + more == all && left[x] > 0
    ensures left - multiset{x} + used + (more + multiset{x}) == all
  {
  }

  lemma {:induction false} ExtendFromInvariant(records: seq<Evidence>, c: Changes, removed: Stock, ts: seq<W.Transition>, i: nat, tail: Tail)
    requires i <= |ts| && W.DistinctHeads(ts)
    requires Extended(records, ts, i, tail.ws) && Conserved(c, removed, tail.added, ts, tail.ws)
    ensures var r := ExtendFrom(records, ts, i, tail);
            r.Ok? ==> Extended(records, ts, |ts|, r.value.ws) && Conserved(c, removed, r.value.added, ts, r.value.ws)
    decreases |ts| - i
  {
    hide Conserved;
    hide Extended;
    if i < |ts| && W.AppOf(records, ts[i].head).Some? {
      var app := W.AppOf(records, ts[i].head).value;
      var next := ExtendOne(app, ts, ts[i], tail);
      ExtendOneExtends(records, ts, i, tail);
      if next.Ok? {
        if next.value != tail {
          ExtraMoves(c, removed, tail.added, ts, tail.ws, Extra(ts[i], app));
        }
        ExtendFromInvariant(records, c, removed, ts, i + 1, next.value);
      }
    }
  }

  /** A completed draft accounts for the whole delta, row for row, takes each positioned row
      at most once, and drafts no native occurrence twice. */
  ghost predicate Completed(records: seq<Evidence>, c: Changes, draft: Draft) {
    && BeforeRows(draft.ts) == multiset(c.removed)
    && AfterRows(draft.ts) + ExtraRows(draft.ws) == multiset(c.added)
    && W.Befores(draft.ts) <= multiset(c.before)
    && W.Afters(draft.ts) + W.Extras(draft.ws) <= multiset(c.after)
    && W.DistinctHeads(draft.ts) && FromEvidence(records, draft.ts)
    && Extended(records, draft.ts, |draft.ts|, draft.ws)
  }

  lemma PlanCompletes(records: seq<Evidence>, c: Changes)
    ensures var r := Plan(records, c); r.Ok? ==> W.DistinctArtifacts(records) && Completed(records, c, r.value)
  {
    hide Conserved;
    hide Extended;
    hide FromEvidence;
    var r := Plan(records, c);
    if r.Ok? {
      var start := Desk(StockOf(c.removed, c.before), StockOf(c.added, c.after), []);
      StartConserved(records, c, start);
      DraftFromInvariant(records, c, Occurrences(records), 0, start);
      var desk := DraftFrom(Occurrences(records), 0, start).value;
      NothingExtended(records, desk.ts);
      ExtendFromInvariant(records, c, desk.removed, desk.ts, 0, Tail(desk.added, []));
      var tail := ExtendFrom(records, desk.ts, 0, Tail(desk.added, [])).value;
      NothingLeft(c, desk.removed, tail.added, r.value);
    }
  }

  lemma StartConserved(records: seq<Evidence>, c: Changes, start: Desk)
    requires start == Desk(StockOf(c.removed, c.before), StockOf(c.added, c.after), [])
    ensures Conserved(c, start.removed, start.added, [], []) && FromEvidence(records, [])
  {
  }

  lemma NothingExtended(records: seq<Evidence>, ts: seq<W.Transition>)
    ensures Extended(records, ts, 0, [])
  {
  }

  lemma NothingLeft(c: Changes, removed: Stock, added: Stock, draft: Draft)
    requires Conserved(c, removed, added, draft.ts, draft.ws) && |removed.counts| + |added.counts| == 0
    ensures BeforeRows(draft.ts) == multiset(c.removed) && AfterRows(draft.ts) + ExtraRows(draft.ws) == multiset(c.added)
    ensures W.Befores(draft.ts) <= multiset(c.before) && W.Afters(draft.ts) + W.Extras(draft.ws) <= multiset(c.after)
  {
    assert removed.counts == multiset{} && added.counts == multiset{};
    assert multiset{} + BeforeRows(draft.ts) == BeforeRows(draft.ts);
    Within(removed.seats, W.Befores(draft.ts), Seats(c.removed, c.before));
    Within(added.seats, W.Afters(draft.ts) + W.Extras(draft.ws), Seats(c.added, c.after));
  }

  lemma Within<T>(left: multiset<T>, used: multiset<T>, all: multiset<T>)
    requires left + used == all
    ensures used <= all
  {
  }

  // ---------------------------------------------------------------- nothing left undrafted

  ghost predicate Shrinks(s: Stock, s': Stock) {
    s'.counts <= s.counts && s'.seats <= s.seats
  }

  lemma LessShrinks(s: Stock, p: PosRow)
    ensures Shrinks(s, Less(s, p))
  {
  }

  /** The application of `o` is drafted, or one of its two rows is used up. */
  ghost predicate Spent(o: Occurrence, removed: Stock, added: Stock, ts: seq<W.Transition>) {
    || (exists t :: t in ts && t.head == W.Head(o.record.cmt, o.app.index))
    || !Has(removed, NativeBefore(o.app)) || !Has(added, NativeAfter(o.app))
  }

  lemma SpentStaysSpent(o: Occurrence, d: Desk, d': Desk)
    requires Shrinks(d.removed, d'.removed) && Shrinks(d.added, d'.added) && d.ts <= d'.ts
    requires Spent(o, d.removed, d.added, d.ts)
    ensures Spent(o, d'.removed, d'.added, d'.ts)
  {
    hide NativeBefore;
    hide NativeAfter;
    if t :| t in d.ts && t.head == W.Head(o.record.cmt, o.app.index) {
      assert t in d'.ts;
    }
  }

  lemma DraftOneSpends(o: Occurrence, d: Desk)
    requires DraftOne(o, d).Ok?
    ensures var d' := DraftOne(o, d).value;
            && Shrinks(d.removed, d'.removed) && Shrinks(d.added, d'.added) && d.ts <= d'.ts
            && Spent(o, d'.removed, d'.added, d'.ts)
  {
    hide NativePair;
    hide NativeBefore;
    hide NativeAfter;
    hide ValidRow;
    hide DistinctIndices;
    hide W.HeadUsed;
    hide StorageOf;
    hide Less;
    var t := Drafted(o);
    LessShrinks(d.removed, t.before);
    LessShrinks(d.added, t.after);
    if Has(d.removed, t.before) {
      assert t in d.ts + [t];
    }
  }

  lemma {:induction false} DraftFromSpends(occurrences: seq<Occurrence>, i: nat, d: Desk)
    requires i <= |occurrences| && DraftFrom(occurrences, i, d).Ok?
    ensures var d' := DraftFrom(occurrences, i, d).value;
            && Shrinks(d.removed, d'.removed) && Shrinks(d.added, d'.added) && d.ts <= d'.ts
            && forall k :: i <= k < |occurrences| ==> Spent(occurrences[k], d'.removed, d'.added, d'.ts)
    decreases |occurrences| - i
  {
    hide Spent;
    hide DraftOne;
    if i < |occurrences| {
      var next := DraftOne(occurrences[i], d).value;
      DraftOneSpends(occurrences[i], d);
      DraftFromSpends(occurrences, i + 1, next);
      SpentStaysSpent(occurrences[i], next, DraftFrom(occurrences, i, d).value);
    }
  }

  /** The over-application behind a transition has its residual, or the row is used up. */
  ghost predicate Returned(records: seq<Evidence>, t: W.Transition, added: Stock, ws: seq<W.Residual>) {
    var app := W.AppOf(records, t.head);
    app.Some? && app.value.supplied > app.value.arity ==>
      || (exists w :: w in ws && w.head == t.head)
      || added.counts[ResidualAfter(app.value).row] == 0 || added.seats[ResidualAfter(app.value)] == 0
  }

  lemma ReturnedStays(records: seq<Evidence>, t: W.Transition, tail: Tail, tail': Tail)
    requires Shrinks(tail.added, tail'.added) && tail.ws <= tail'.ws && Returned(records, t, tail.added, tail.ws)
    ensures Returned(records, t, tail'.added, tail'.ws)
  {
    hide ResidualAfter;
    if w :| w in tail.ws && w.head == t.head {
      assert w in tail'.ws;
    }
  }

  lemma ExtendOneReturns(records: seq<Evidence>, ts: seq<W.Transition>, t: W.Transition, tail: Tail)
    requires W.AppOf(records, t.head).Some? && ExtendOne(W.AppOf(records, t.head).value, ts, t, tail).Ok?
    ensures var tail' := ExtendOne(W.AppOf(records, t.head).value, ts, t, tail).value;
            Shrinks(tail.added, tail'.added) && tail.ws <= tail'.ws && Returned(records, t, tail'.added, tail'.ws)
  {
    hide ResidualAfter;
    var app := W.AppOf(records, t.head).value;
    LessShrinks(tail.added, ResidualAfter(app));
    assert Extra(t, app) in tail.ws + [Extra(t, app)];
  }

  lemma {:induction false} ExtendFromReturns(records: seq<Evidence>, ts: seq<W.Transition>, i: nat, tail: Tail)
    requires i <= |ts| && ExtendFrom(records, ts, i, tail).Ok?
    ensures var tail' := ExtendFrom(records, ts, i, tail).value;
            && Shrinks(tail.added, tail'.added) && tail.ws <= tail'.ws
            && forall k :: i <= k < |ts| ==> Returned(records, ts[k], tail'.added, tail'.ws)
    decreases |ts| - i
  {
    hide Returned;
    hide ExtendOne;
    if i < |ts| {
      var next := ExtendOne(W.AppOf(records, ts[i].head).value, ts, ts[i], tail).value;
      ExtendOneReturns(records, ts, ts[i], tail);
      ExtendFromReturns(records, ts, i + 1, next);
      ReturnedStays(records, ts[i], next, ExtendFrom(records, ts, i, tail).value);
    }
  }

  /** Nothing more can be taken: every admitted application is drafted or lacks one of its rows,
      and every drafted over-application has its residual or lacks that row. */
  ghost predicate Exhausted(records: seq<Evidence>, removed: Stock, added: Stock, ts: seq<W.Transition>, ws: seq<W.Residual>) {
    && (forall record, app :: record in records && app in record.apps && app.admitted ==> Spent(Occurrence(record, app), removed, added, ts))
    && forall t :: t in ts ==> Returned(records, t, added, ws)
  }

  lemma {:induction false} AdmittedAre(record: Evidence, apps: seq<App>, app: App)
    ensures Occurrence(record, app) in Admitted(record, apps) <==> app in apps && app.admitted
  {
    if apps != [] {
      AdmittedAre(record, apps[..|apps| - 1], app);
      assert apps == apps[..|apps| - 1] + [apps[|apps| - 1]];
    }
  }

  lemma {:induction false} OccurrencesAre(records: seq<Evidence>, record: Evidence, app: App)
    ensures Occurrence(record, app) in Occurrences(records) <==> record in records && app in record.apps && app.admitted
  {
    if records != [] {
      var front, last := records[..|records| - 1], records[|records| - 1];
      OccurrencesAre(front, record, app);
      AdmittedAre(last, last.apps, app);
      assert records == front + [last];
    }
  }

  lemma {:induction false} DraftFromRefuses(occurrences: seq<Occurrence>, i: nat, d: Desk)
    requires i <= |occurrences| && DraftFrom(occurrences, i, d).Err?
    ensures DraftFrom(occurrences, i, d).error != Leftovers
    decreases |occurrences| - i
  {
    hide NativePair;
    hide NativeBefore;
    hide NativeAfter;
    if i < |occurrences| && DraftOne(occurrences[i], d).Ok? {
      DraftFromRefuses(occurrences, i + 1, DraftOne(occurrences[i], d).value);
    }
  }

  lemma {:induction false} ExtendFromRefuses(records: seq<Evidence>, ts: seq<W.Transition>, i: nat, tail: Tail)
    requires i <= |ts| && ExtendFrom(records, ts, i, tail).Err?
    ensures ExtendFrom(records, ts, i, tail).error != Leftovers
    decreases |ts| - i
  {
    hide ResidualAfter;
    if i < |ts| && W.AppOf(records, ts[i].head).Some? {
      var next := ExtendOne(W.AppOf(records, ts[i].head).value, ts, ts[i], tail);
      if next.Ok? {
        ExtendFromRefuses(records, ts, i + 1, next.value);
      }
    }
  }

  function StartDesk(c: Changes): Desk {
    Desk(StockOf(c.removed, c.before), StockOf(c.added, c.after), [])
  }

  /** The plan went through both loops. */
  lemma LeftoversStages(records: seq<Evidence>, c: Changes)
    requires Plan(records, c) == Err(Leftovers)
    ensures W.DistinctArtifacts(records)
    ensures var desk := DraftFrom(Occurrences(records), 0, StartDesk(c));
            && desk.Ok?
            && var tail := ExtendFrom(records, desk.value.ts, 0, Tail(desk.value.added, []));
               tail.Ok? && (desk.value.removed.counts != multiset{} || tail.value.added.counts != multiset{})
  {
    hide DraftFrom;
    hide ExtendFrom;
    var desk := DraftFrom(Occurrences(records), 0, StartDesk(c));
    if desk.Err? {
      DraftFromRefuses(Occurrences(records), 0, StartDesk(c));
    } else {
      var tail := ExtendFrom(records, desk.value.ts, 0, Tail(desk.value.added, []));
      if tail.Err? {
        ExtendFromRefuses(records, desk.value.ts, 0, Tail(desk.value.added, []));
      }
    }
  }

  lemma StagesKeep(records: seq<Evidence>, c: Changes, desk: Desk, tail: Tail)
    requires W.DistinctArtifacts(records) && DraftFrom(Occurrences(records), 0, StartDesk(c)) == Ok(desk)
    requires ExtendFrom(records, desk.ts, 0, Tail(desk.added, [])) == Ok(tail)
    ensures Conserved(c, desk.removed, tail.added, desk.ts, tail.ws)
    ensures W.DistinctHeads(desk.ts) && FromEvidence(records, desk.ts) && Extended(records, desk.ts, |desk.ts|, tail.ws)
  {
    hide Conserved;
    hide Extended;
    hide FromEvidence;
    hide DraftFrom;
    hide ExtendFrom;
    StartConserved(records, c, StartDesk(c));
    DraftFromInvariant(records, c, Occurrences(records), 0, StartDesk(c));
    NothingExtended(records, desk.ts);
    ExtendFromInvariant(records, c, desk.removed, desk.ts, 0, Tail(desk.added, []));
  }

  lemma StagesExhaust(records: seq<Evidence>, desk0: Desk, desk: Desk, tail: Tail)
    requires DraftFrom(Occurrences(records), 0, desk0) == Ok(desk)
    requires ExtendFrom(records, desk.ts, 0, Tail(desk.added, [])) == Ok(tail)
    ensures Exhausted(records, desk.removed, tail.added, desk.ts, tail.ws)
  {
    hide Returned;
    hide Spent;
    hide DraftFrom;
    hide ExtendFrom;
    DraftFromSpends(Occurrences(records), 0, desk0);
    ExtendFromReturns(records, desk.ts, 0, Tail(desk.added, []));
    forall record, app | record in records && app in record.apps && app.admitted
      ensures Spent(Occurrence(record, app), desk.removed, tail.added, desk.ts)
    {
      OccurrencesAre(records, record, app);
      var k :| 0 <= k < |Occurrences(records)| && Occurrences(records)[k] == Occurrence(record, app);
      SpentStaysSpent(Occurrence(record, app), desk, Desk(desk.removed, tail.added, desk.ts));
    }
  }

  /** What a plan that fails for leftovers could not place: there is a row over, and nothing
      more that could be drafted. */
  lemma LeftoversExhausted(records: seq<Evidence>, c: Changes) returns (removed: Stock, added: Stock, ts: seq<W.Transition>, ws: seq<W.Residual>)
    requires Plan(records, c) == Err(Leftovers)
    ensures Conserved(c, removed, added, ts, ws) && (removed.counts != multiset{} || added.counts != multiset{})
    ensures W.DistinctHeads(ts) && FromEvidence(records, ts) && Extended(records, ts, |ts|, ws)
    ensures Exhausted(records, removed, added, ts, ws)
  {
    hide Conserved;
    hide Extended;
    hide FromEvidence;
    hide Exhausted;
    hide DraftFrom;
    hide ExtendFrom;
    hide Plan;
    LeftoversStages(records, c);
    var desk := DraftFrom(Occurrences(records), 0, StartDesk(c)).value;
    var tail := ExtendFrom(records, desk.ts, 0, Tail(desk.added, [])).value;
    StagesKeep(records, c, desk, tail);
    StagesExhaust(records, StartDesk(c), desk, tail);
    removed, added, ts, ws := desk.removed, tail.added, desk.ts, tail.ws;
  }

  // ---------------------------------------------------------------- the draft, step by step

  predicate There(rows: multiset<Row>, seats: multiset<PosRow>, p: PosRow) {
    rows[p.row] >= 1 && seats[p] >= 1
  }

  /** One admitted application: both of its rows are there and become a transition, or neither is. */
  ghost predicate Step(o: Occurrence, d: Desk, d': Desk) {
    var before, after := NativeBefore(o.app), NativeAfter(o.app);
    var head := W.Head(o.record.cmt, o.app.index);
    && ValidRow(before.row) && ValidRow(after.row)
    && if There(d.removed.counts, d.removed.seats, before) || There(d.added.counts, d.added.seats, after) then
         && There(d.removed.counts, d.removed.seats, before) && There(d.added.counts, d.added.seats, after)
         && (forall i, j :: 0 <= i < j < |o.record.apps| ==> o.record.apps[i].index != o.record.apps[j].index)
         && NativePair(o.record, o.app, StorageOf(o.record, o.app), before, after)
         && (forall t :: t in d.ts ==> t.head != head)
         && d'.ts == d.ts + [W.Transition(head, StorageOf(o.record, o.app), true, before, after)]
         && d'.removed.counts + multiset{before.row} == d.removed.counts && d'.removed.seats + multiset{before} == d.removed.seats
         && d'.added.counts + multiset{after.row} == d.added.counts && d'.added.seats + multiset{after} == d.added.seats
       else
         d' == d
  }

  /** Why an admitted application stops the draft. */
  ghost predicate Stops(o: Occurrence, d: Desk, e: Refusal) {
    var before, after := NativeBefore(o.app), NativeAfter(o.app);
    var first, second := There(d.removed.counts, d.removed.seats, before), There(d.added.counts, d.added.seats, after);
    match e
    case Malformed => !(ValidRow(before.row) && ValidRow(after.row))
    case HalfPresent => first <==> !second
    case DuplicateOccurrence => first && second && exists i, j :: 0 <= i < j < |o.record.apps| && o.record.apps[i].index == o.record.apps[j].index
    case BadPair => first && second && !NativePair(o.record, o.app, StorageOf(o.record, o.app), before, after)
    case Reused => first && second && exists t :: t in d.ts && t.head == W.Head(o.record.cmt, o.app.index)
    case _ => false
  }

  /** One drafted transition: its group is drafted, and its residual row is added if it is there. */
  ghost predicate TailStep(records: seq<Evidence>, ts: seq<W.Transition>, t: W.Transition, tail: Tail, tail': Tail) {
    var found := W.AppOf(records, t.head);
    && found.Some?
    && (forall i :: i in found.value.listed ==> exists u :: u in ts && u.head == W.Head(t.head.cmt, i))
    && var extra := ResidualAfter(found.value);
       if found.value.supplied > found.value.arity && There(tail.added.counts, tail.added.seats, extra) then
         && ValidRow(extra.row)
         && tail'.ws == tail.ws + [W.Residual(t.head, found.value.arity, found.value.supplied, extra)]
         && tail'.added.counts + multiset{extra.row} == tail.added.counts && tail'.added.seats + multiset{extra} == tail.added.seats
       else
         (found.value.supplied > found.value.arity ==> ValidRow(extra.row)) && tail' == tail
  }

  /** Why a drafted transition stops the draft. */
  ghost predicate TailStops(records: seq<Evidence>, ts: seq<W.Transition>, t: W.Transition, e: Refusal) {
    var found := W.AppOf(records, t.head);
    match e
    case UnknownOccurrence => found.None?
    case PartialGroup => found.Some? && exists i :: i in found.value.listed && forall u :: u in ts ==> u.head != W.Head(t.head.cmt, i)
    case Malformed => found.Some? && found.value.supplied > found.value.arity && !ValidRow(ResidualAfter(found.value).row)
    case _ => false
  }

  lemma StepExact(o: Occurrence, d: Desk)
    ensures var r := DraftOne(o, d); if r.Ok? then Step(o, d, r.value) else Stops(o, d, r.error)
  {
    hide DraftOne;
    hide Step;
    hide Stops;
    if DraftOne(o, d).Err? {
      StopIsStop(o, d);
    } else {
      StepIsStep(o, d);
    }
  }

  lemma StopIsStop(o: Occurrence, d: Desk)
    requires DraftOne(o, d).Err?
    ensures Stops(o, d, DraftOne(o, d).error)
  {
    hide NativePair;
    hide NativeBefore;
    hide NativeAfter;
    hide ValidRow;
    hide StorageOf;
    hide W.HeadUsed;
    UsedHead(d.ts, W.Head(o.record.cmt, o.app.index));
  }

  lemma StepIsStep(o: Occurrence, d: Desk)
    requires DraftOne(o, d).Ok?
    ensures Step(o, d, DraftOne(o, d).value)
  {
    hide NativePair;
    hide NativeBefore;
    hide NativeAfter;
    hide ValidRow;
    hide StorageOf;
    hide W.HeadUsed;
    hide Less;
    var t := Drafted(o);
    UsedHead(d.ts, t.head);
    if Has(d.removed, t.before) {
      TakenBack(d.removed, t.before);
      TakenBack(d.added, t.after);
    }
  }

  lemma UsedHead(ts: seq<W.Transition>, h: W.Head)
    ensures W.HeadUsed(ts, h) <==> exists t :: t in ts && t.head == h
  {
  }

  lemma TakenBack(s: Stock, p: PosRow)
    requires Has(s, p)
    ensures Less(s, p).counts + multiset{p.row} == s.counts && Less(s, p).seats + multiset{p} == s.seats
  {
  }

  lemma TailStepExact(records: seq<Evidence>, ts: seq<W.Transition>, t: W.Transition, tail: Tail)
    ensures var found := W.AppOf(records, t.head);
            var r := if found.None? then Err(UnknownOccurrence) else ExtendOne(found.value, ts, t, tail);
            if r.Ok? then TailStep(records, ts, t, tail, r.value) else TailStops(records, ts, t, r.error)
  {
    hide ResidualAfter;
    hide ValidRow;
    hide Less;
    hide W.HeadUsed;
    hide W.AppOf;
    if W.AppOf(records, t.head).Some? {
      var app := W.AppOf(records, t.head).value;
      if Has(tail.added, ResidualAfter(app)) {
        TakenBack(tail.added, ResidualAfter(app));
      }
      GroupSeenMeans(ts, t.head.cmt, app.listed);
    }
  }

  lemma GroupSeenMeans(ts: seq<W.Transition>, cmt: string, listed: seq<int>)
    ensures GroupSeen(ts, cmt, listed) <==> forall i :: i in listed ==> exists u :: u in ts && u.head == W.Head(cmt, i)
  {
  }

  /** The desks before each application; the last one is where the loop ends or stops. */
  ghost predicate Desks(occurrences: seq<Occurrence>, i: nat, desks: seq<Desk>) {
    && 0 < |desks| && i + |desks| - 1 <= |occurrences|
    && forall k :: 0 <= k < |desks| - 1 ==> Step(occurrences[i + k], desks[k], desks[k + 1])
  }

  ghost predicate Tails(records: seq<Evidence>, ts: seq<W.Transition>, i: nat, tails: seq<Tail>) {
    && 0 < |tails| && i + |tails| - 1 <= |ts|
    && forall k :: 0 <= k < |tails| - 1 ==> TailStep(records, ts, ts[i + k], tails[k], tails[k + 1])
  }

  lemma {:induction false} DesksOf(occurrences: seq<Occurrence>, i: nat, d: Desk) returns (desks: seq<Desk>)
    requires i <= |occurrences|
    ensures Desks(occurrences, i, desks) && desks[0] == d
    ensures var r, n := DraftFrom(occurrences, i, d), i + |desks| - 1;
            if r.Ok? then n == |occurrences| && r.value == desks[|desks| - 1]
            else n < |occurrences| && Stops(occurrences[n], desks[|desks| - 1], r.error)
    decreases |occurrences| - i
  {
    hide Step;
    hide Stops;
    hide DraftOne;
    desks := [d];
    if i < |occurrences| {
      StepExact(occurrences[i], d);
      var next := DraftOne(occurrences[i], d);
      if next.Ok? {
        var rest := DesksOf(occurrences, i + 1, next.value);
        desks := [d] + rest;
        forall k | 0 <= k < |desks| - 1
          ensures Step(occurrences[i + k], desks[k], desks[k + 1])
        {
          if k > 0 {
            assert Step(occurrences[i + 1 + (k - 1)], rest[k - 1], rest[k]);
          }
        }
      }
    }
  }

  lemma {:induction false} TailsOf(records: seq<Evidence>, ts: seq<W.Transition>, i: nat, tail: Tail) returns (tails: seq<Tail>)
    requires i <= |ts|
    ensures Tails(records, ts, i, tails) && tails[0] == tail
    ensures var r, n := ExtendFrom(records, ts, i, tail), i + |tails| - 1;
            if r.Ok? then n == |ts| && r.value == tails[|tails| - 1]
            else n < |ts| && TailStops(records, ts, ts[n], r.error)
    decreases |ts| - i
  {
    hide TailStep;
    hide TailStops;
    hide ExtendOne;
    hide W.AppOf;
    tails := [tail];
    if i < |ts| {
      TailStepExact(records, ts, ts[i], tail);
      if W.AppOf(records, ts[i].head).Some? {
        var next := ExtendOne(W.AppOf(records, ts[i].head).value, ts, ts[i], tail);
        if next.Ok? {
          var rest := TailsOf(records, ts, i + 1, next.value);
          tails := [tail] + rest;
          forall k | 0 <= k < |tails| - 1
            ensures TailStep(records, ts, ts[i + k], tails[k], tails[k + 1])
          {
            if k > 0 {
              assert TailStep(records, ts, ts[i + 1 + (k - 1)], rest[k - 1], rest[k]);
            }
          }
        }
      }
    }
  }

  /** What `prepare` answers, with the steps that lead there: every refusal has its reason in
      the evidence, in the delta or in what the steps before it left. */
  ghost predicate Told(records: seq<Evidence>, c: Changes, r: Result<Draft, Refusal>, desks: seq<Desk>, tails: seq<Tail>) {
    var occurrences := Occurrences(records);
    if exists i, j :: 0 <= i < j < |records| && records[i].cmt == records[j].cmt then r == Err(DuplicateArtifact)
    else if (exists row :: row in c.removed + c.added && !ValidRow(row)) || (exists p :: p in c.before + c.after && !ValidRow(p.row)) then r == Err(Malformed)
    else
      && Desks(occurrences, 0, desks) && Start(c, desks[0])
      && var d, n := desks[|desks| - 1], |desks| - 1;
      if n < |occurrences| then r.Err? && Stops(occurrences[n], d, r.error)
      else
        && Tails(records, d.ts, 0, tails) && tails[0] == Tail(d.added, [])
        && var tail, m := tails[|tails| - 1], |tails| - 1;
        if m < |d.ts| then r.Err? && TailStops(records, d.ts, d.ts[m], r.error)
        else if d.removed.counts == multiset{} && tail.added.counts == multiset{} then r == Ok(Draft(d.ts, tail.ws))
        else r == Err(Leftovers)
  }

  /** At the start everything is there: every row, and every positioned row of a row of the delta. */
  ghost predicate Start(c: Changes, d: Desk) {
    && d.removed.counts == multiset(c.removed) && d.added.counts == multiset(c.added) && d.ts == []
    && (forall p :: d.removed.seats[p] == if p.row in c.removed then multiset(c.before)[p] else 0)
    && forall p :: d.added.seats[p] == if p.row in c.added then multiset(c.after)[p] else 0
  }

  lemma {:induction false} SeatsMean(rows: seq<Row>, positioned: seq<PosRow>)
    ensures forall p :: Seats(rows, positioned)[p] == if p.row in rows then multiset(positioned)[p] else 0
  {
    if positioned != [] {
      var front, last := positioned[..|positioned| - 1], positioned[|positioned| - 1];
      assert positioned == front + [last];
      SeatsMean(rows, front);
    }
  }

  lemma WellFormedMeans(c: Changes)
    ensures WellFormed(c) <==> !(exists row :: row in c.removed + c.added && !ValidRow(row)) && !(exists p :: p in c.before + c.after && !ValidRow(p.row))
  {
    hide ValidRow;
    assert forall row :: row in c.removed + c.added <==> row in c.removed || row in c.added;
    assert forall p :: p in c.before + c.after <==> p in c.before || p in c.after;
  }

  lemma PlanTold(records: seq<Evidence>, c: Changes) returns (desks: seq<Desk>, tails: seq<Tail>)
    ensures Told(records, c, Plan(records, c), desks, tails)
  {
    hide Desks;
    hide Tails;
    hide Stops;
    hide TailStops;
    hide ValidRow;
    hide Seats;
    hide DraftFrom;
    hide ExtendFrom;
    WellFormedMeans(c);
    SeatsMean(c.removed, c.before);
    SeatsMean(c.added, c.after);
    desks := DesksOf(Occurrences(records), 0, StartDesk(c));
    var desk := DraftFrom(Occurrences(records), 0, StartDesk(c));
    tails := [];
    if desk.Ok? {
      tails := TailsOf(records, desk.value.ts, 0, Tail(desk.value.added, []));
    }
  }

  // ---------------------------------------------------------------- the draft loads

  /** An occurrence that a drafted group lists belongs to that group, and is drafted too. */
  lemma ListedIsCovered(records: seq<Evidence>, ts: seq<W.Transition>, t: W.Transition, i: int)
    requires FromEvidence(records, ts) && t in ts && Checked(records, ts, t)
    requires i in W.AppOf(records, t.head).value.listed
    ensures W.Covered(records, ts, t.head.cmt, W.AppOf(records, t.head).value.groupKey, i)
  {
    var record, app := W.FindRecord(records, t.head.cmt).value, W.AppOf(records, t.head).value;
    assert W.TransitionOk(records, t);
    AcceptedPair(record, app, t.storage, t.before, t.after);
    var m :| m in record.apps && m.groupKey == app.groupKey && m.index == i;
    FindsApp(record.apps, m);
    assert W.HeadUsed(ts, W.Head(t.head.cmt, i));
  }

  lemma ExtraIsAccepted(records: seq<Evidence>, ts: seq<W.Transition>, t: W.Transition, w: W.Residual)
    requires FromEvidence(records, ts) && t in ts && IsExtra(records, t, w)
    ensures W.ResidualOk(records, ts, w)
  {
    assert Drafted(Occurrence(W.FindRecord(records, t.head.cmt).value, W.AppOf(records, t.head).value)) == t;
    assert W.ResidualMatches(W.AppOf(records, t.head).value, t.after, w.after);
  }

  /** A completed draft is a witness the loader accepts, against any snapshots that hold the
      delta's positioned rows, exactly when the storage status of every head is still open. */
  lemma DraftLoads(records: seq<Evidence>, c: Changes, baseline: seq<PosRow>, candidate: seq<PosRow>)
    requires Plan(records, c).Ok?
    requires multiset(c.before) <= multiset(baseline) && multiset(c.after) <= multiset(candidate)
    ensures var draft := Plan(records, c).value;
            W.Accepts(records, baseline, candidate, draft.ts, draft.ws) <==>
            forall t :: t in draft.ts ==> W.AppOf(records, t.head).Some? && W.AppOf(records, t.head).value.storageUnconfirmed
  {
    PlanCompletes(records, c);
    var draft := Plan(records, c).value;
    var ts, ws := draft.ts, draft.ws;
    assert W.TransitionsFit(records, multiset(baseline), multiset(candidate), ts) by {
      Within(W.Extras(ws), W.Afters(ts), W.Extras(ws) + W.Afters(ts));
    }
    assert W.ResidualsFit(records, multiset(candidate), ts, ws) by {
      ExtrasAccepted(records, ts, ws);
    }
    forall t | t in ts
      ensures W.GroupCovered(records, ts, t) <==> W.AppOf(records, t.head).Some? && W.AppOf(records, t.head).value.storageUnconfirmed
    {
      GroupIsCovered(records, ts, ws, t);
    }
  }

  lemma ExtrasAccepted(records: seq<Evidence>, ts: seq<W.Transition>, ws: seq<W.Residual>)
    requires FromEvidence(records, ts) && Extended(records, ts, |ts|, ws)
    ensures forall w :: w in ws ==> W.ResidualOk(records, ts, w)
  {
    forall w | w in ws
      ensures W.ResidualOk(records, ts, w)
    {
      var k :| 0 <= k < |ts| && IsExtra(records, ts[k], w);
      ExtraIsAccepted(records, ts, ts[k], w);
    }
  }

  lemma GroupIsCovered(records: seq<Evidence>, ts: seq<W.Transition>, ws: seq<W.Residual>, t: W.Transition)
    requires FromEvidence(records, ts) && Extended(records, ts, |ts|, ws) && t in ts
    ensures W.AppOf(records, t.head).Some?
    ensures W.GroupCovered(records, ts, t) <==> W.AppOf(records, t.head).value.storageUnconfirmed
  {
    var k :| 0 <= k < |ts| && ts[k] == t;
    assert Checked(records, ts, ts[k]);
    forall i | i in W.AppOf(records, t.head).value.listed
      ensures W.Covered(records, ts, t.head.cmt, W.AppOf(records, t.head).value.groupKey, i)
    {
      ListedIsCovered(records, ts, t, i);
    }
  }

  // ---------------------------------------------------------------- the loops

  /** Lines 87-89. */
  method CollectOccurrences(records: seq<Evidence>) returns (r: seq<Occurrence>)
    ensures r == Occurrences(records)
  {
    r := [];
    for i := 0 to |records|
      invariant r == Occurrences(records[..i])
    {
      assert records[..i + 1][..i] == records[..i];
      var apps := records[i].apps;
      for j := 0 to |apps|
        invariant r == Occurrences(records[..i]) + Admitted(records[i], apps[..j])
      {
        assert apps[..j + 1][..j] == apps[..j];
        if apps[j].admitted {
          r := r + [Occurrence(records[i], apps[j])];
        }
      }
      TakeAll(apps);
    }
    TakeAll(records);
  }

  ghost predicate Seen(seen: set<W.Head>, ts: seq<W.Transition>) {
    forall h :: h in seen <==> W.HeadUsed(ts, h)
  }

  lemma NothingSeen()
    ensures Seen({}, [])
  {
  }

  lemma SeenGrows(seen: set<W.Head>, ts: seq<W.Transition>, t: W.Transition)
    requires Seen(seen, ts)
    ensures Seen(seen + {t.head}, ts + [t])
  {
    W.BeforesAppend(ts, t);
  }

  /** Lines 90-101. */
  method DraftTransitions(occurrences: seq<Occurrence>, removed: DeltaIndex, added: DeltaIndex) returns (r: Result<seq<W.Transition>, Refusal>)
    requires removed != added && removed.Valid() && added.Valid()
    modifies removed, added
    ensures removed.Valid() && added.Valid()
    ensures var d := DraftFrom(occurrences, 0, Desk(old(removed.stock), old(added.stock), []));
            if d.Ok? then r == Ok(d.value.ts) && removed.stock == d.value.removed && added.stock == d.value.added
            else r == Err(d.error)
  {
    hide Seen;
    hide DraftOne;
    var ts: seq<W.Transition>, seen: set<W.Head> := [], {};
    NothingSeen();
    ghost var start := Desk(removed.stock, added.stock, []);
    for i := 0 to |occurrences|
      invariant removed.Valid() && added.Valid()
      invariant Seen(seen, ts)
      invariant DraftFrom(occurrences, i, Desk(removed.stock, added.stock, ts)) == DraftFrom(occurrences, 0, start)
    {
      var next := DraftNext(occurrences[i], removed, added, ts, seen);
      if next.Err? {
        return Err(next.error);
      }
      if next.value.Some? {
        SeenGrows(seen, ts, next.value.value);
        ts, seen := ts + [next.value.value], seen + {next.value.value.head};
      }
    }
    return Ok(ts);
  }

  /** Lines 91-100: the transition to add, if there is one. */
  method DraftNext(o: Occurrence, removed: DeltaIndex, added: DeltaIndex, ghost ts: seq<W.Transition>, seen: set<W.Head>)
    returns (r: Result<Option<W.Transition>, Refusal>)
    requires removed != added && removed.Valid() && added.Valid()
    requires Seen(seen, ts)
    modifies removed, added
    ensures removed.Valid() && added.Valid()
    ensures var d := DraftOne(o, Desk(old(removed.stock), old(added.stock), ts));
            if d.Err? then r == Err(d.error)
            else r.Ok? && d.value == Desk(removed.stock, added.stock, if r.value.Some? then ts + [r.value.value] else ts)
  {
    var t := Drafted(o);
    if !ValidRow(t.before.row) || !ValidRow(t.after.row) {
      return Err(Malformed);
    }
    var hasBefore := removed.Can(t.before);
    var hasAfter := added.Can(t.after);
    if hasBefore != hasAfter {
      return Err(HalfPresent);
    }
    if !hasBefore {
      return Ok(None);
    }
    if !DistinctIndices(o.record.apps) {
      return Err(DuplicateOccurrence);
    }
    if !NativePair(o.record, o.app, t.storage, t.before, t.after) {
      return Err(BadPair);
    }
    if t.head in seen {
      return Err(Reused);
    }
    var before := removed.Take(t.before);
    var after := added.Take(t.after);
    return Ok(Some(W.Transition(t.head, t.storage, true, before, after)));
  }

  /** Lines 104-111. */
  method DraftResiduals(records: seq<Evidence>, ts: seq<W.Transition>, added: DeltaIndex) returns (r: Result<seq<W.Residual>, Refusal>)
    requires added.Valid()
    modifies added
    ensures added.Valid()
    ensures var tail := ExtendFrom(records, ts, 0, Tail(old(added.stock), []));
            if tail.Ok? then r == Ok(tail.value.ws) && added.stock == tail.value.added else r == Err(tail.error)
  {
    var seen := set t | t in ts :: t.head;
    var ws: seq<W.Residual> := [];
    ghost var start := Tail(added.stock, []);
    for i := 0 to |ts|
      invariant added.Valid()
      invariant ExtendFrom(records, ts, i, Tail(added.stock, ws)) == ExtendFrom(records, ts, 0, start)
    {
      var found := W.AppOf(records, ts[i].head);
      if found.None? {
        return Err(UnknownOccurrence);
      }
      var app := found.value;
      if exists k :: k in app.listed && W.Head(ts[i].head.cmt, k) !in seen {
        return Err(PartialGroup);
      }
      if app.supplied > app.arity {
        var extra := ResidualAfter(app);
        if !ValidRow(extra.row) {
          return Err(Malformed);
        }
        var has := added.Can(extra);
        if has {
          var after := added.Take(extra);
          ws := ws + [W.Residual(ts[i].head, app.arity, app.supplied, after)];
        }
      }
    }
    return Ok(ws);
  }

  /** `prepare`, from parsed evidence and changes to the draft. */
  method Prepare(records: seq<Evidence>, c: Changes) returns (r: Result<Draft, Refusal>)
    ensures r == Plan(records, c)
    ensures r.Ok? ==> Completed(records, c, r.value)
  {
    PlanCompletes(records, c);
    if exists i, j :: 0 <= i < j < |records| && records[i].cmt == records[j].cmt {
      return Err(DuplicateArtifact);
    }
    if !WellFormed(c) {
      return Err(Malformed);
    }
    var removed := new DeltaIndex(c.removed, c.before);
    var added := new DeltaIndex(c.added, c.after);
    var occurrences := CollectOccurrences(records);
    var ts := DraftTransitions(occurrences, removed, added);
    if ts.Err? {
      return Err(ts.error);
    }
    var ws := DraftResiduals(records, ts.value, added);
    if ws.Err? {
      return Err(ws.error);
    }
    var left := removed.Remaining();
    var more := added.Remaining();
    if left + more != 0 {
      return Err(Leftovers);
    }
    return Ok(Draft(ts.value, ws.value));
  }
}
