/** Reporting a change by call group: one pass over each snapshot in place of one pass per
    group (roster/tezos-call-resolution/verify.js:71-87). */
module ChangedGroups {
  import opened Order
  import opened Prelude
  import opened Rows

  datatype Key = Key(callerPath: string, caller: string, callSite: Option<string>, calleeName: string)

  function KeyOf(r: Row): Key {
    Key(r.callerPath, r.caller, r.callSite, r.calleeName)
  }

  /** The slow form: the rows of one group, in snapshot order. */
  function Group(rows: seq<PosRow>, k: Key): (g: seq<PosRow>)
    ensures forall p :: p in g <==> p in rows && KeyOf(p.row) == k
  {
    if rows == [] then []
    else
      var front, last := rows[..|rows| - 1], rows[|rows| - 1];
      assert rows == front + [last];
      Group(front, k) + (if KeyOf(last.row) == k then [last] else [])
  }

  /** The slow form's group, or nothing for a key that was not asked for. */
  ghost predicate Indexed(groups: map<Key, seq<PosRow>>, keys: set<Key>, rows: seq<PosRow>) {
    && groups.Keys <= keys
    && forall k :: k in keys ==> (if k in groups then groups[k] else []) == Group(rows, k)
  }

  /** Lines 75-83. */
  method Index(rows: seq<PosRow>, keys: set<Key>) returns (groups: map<Key, seq<PosRow>>)
    ensures Indexed(groups, keys, rows)
  {
    groups := map[];
    for i := 0 to |rows|
      invariant Indexed(groups, keys, rows[..i])
    {
      assert rows[..i + 1][..i] == rows[..i];
      var key := KeyOf(rows[i].row);
      if key in keys {
        if key !in groups {
          groups := groups[key := []];
        }
        groups := groups[key := groups[key] + [rows[i]]];
      }
    }
    TakeAll(rows);
  }

  datatype Change = Change(key: Key, before: seq<PosRow>, after: seq<PosRow>)

  function ChangedKeys(removed: seq<Row>, added: seq<Row>): set<Key> {
    set r | r in removed + added :: KeyOf(r)
  }

  function KeysIn(r: seq<Change>): (keys: seq<Key>)
    ensures |keys| == |r| && forall i :: 0 <= i < |r| ==> keys[i] == r[i].key
  {
    seq(|r|, i requires 0 <= i < |r| => r[i].key)
  }

  /** `changedGroups`: the changed keys in order, once each. `le` is the order of their JSON
      texts. */
  method Changed(removed: seq<Row>, added: seq<Row>, oldRows: seq<PosRow>, newRows: seq<PosRow>, le: (Key, Key) -> bool) returns (r: seq<Change>)
    requires Preorder(le)
    ensures Sorted(le, KeysIn(r)) && Distinct(KeysIn(r)) && forall k :: k in KeysIn(r) <==> k in ChangedKeys(removed, added)
    ensures forall i :: 0 <= i < |r| ==> r[i] == Change(r[i].key, Group(oldRows, r[i].key), Group(newRows, r[i].key))
  {
    hide Group;
    hide ChangedKeys;
    var keys := ChangedKeys(removed, added);
    var before := Index(oldRows, keys);
    var after := Index(newRows, keys);
    var sorted := SortedSet(keys, le);
    r := [];
    for i := 0 to |sorted|
      invariant |r| == i
      invariant forall j :: 0 <= j < i ==> r[j] == Change(sorted[j], Group(oldRows, sorted[j]), Group(newRows, sorted[j]))
    {
      var k := sorted[i];
      assert k in keys;
      r := r + [Change(k, if k in before then before[k] else [], if k in after then after[k] else [])];
    }
    assert KeysIn(r) == sorted;
  }

  /** A group holds each canonical row of its key as often as the snapshot does. */
  lemma {:induction false} GroupCounts(rows: seq<PosRow>, k: Key, r: Row)
    ensures multiset(Map(RowOf, Group(rows, k)))[r] == if KeyOf(r) == k then multiset(Map(RowOf, rows))[r] else 0
  {
    if rows != [] {
      var front, last := rows[..|rows| - 1], rows[|rows| - 1];
      assert rows == front + [last];
      GroupCounts(front, k, r);
      MapAppend(RowOf, front, last);
      assert Map(RowOf, rows) == Map(RowOf, front) + [last.row];
      if KeyOf(last.row) == k {
        MapAppend(RowOf, Group(front, k), last);
        assert Map(RowOf, Group(rows, k)) == Map(RowOf, Group(front, k)) + [last.row];
      } else {
        assert Group(rows, k) == Group(front, k);
      }
    }
  }

  /** The difference of a group's two sides is the part of the change that falls in it. */
  lemma GroupShowsItsChange(oldRows: seq<PosRow>, newRows: seq<PosRow>, removed: seq<Row>, added: seq<Row>, k: Key, r: Row)
    requires multiset(removed) == multiset(Map(RowOf, oldRows)) - multiset(Map(RowOf, newRows))
    requires multiset(added) == multiset(Map(RowOf, newRows)) - multiset(Map(RowOf, oldRows))
    ensures var before, after := multiset(Map(RowOf, Group(oldRows, k))), multiset(Map(RowOf, Group(newRows, k)));
            && (before - after)[r] == (if KeyOf(r) == k then multiset(removed)[r] else 0)
            && (after - before)[r] == (if KeyOf(r) == k then multiset(added)[r] else 0)
  {
    GroupCounts(oldRows, k, r);
    GroupCounts(newRows, k, r);
  }

  /** A key is reported exactly when its group's canonical rows changed. */
  lemma ReportedIffChanged(oldRows: seq<PosRow>, newRows: seq<PosRow>, removed: seq<Row>, added: seq<Row>, k: Key)
    requires multiset(removed) == multiset(Map(RowOf, oldRows)) - multiset(Map(RowOf, newRows))
    requires multiset(added) == multiset(Map(RowOf, newRows)) - multiset(Map(RowOf, oldRows))
    ensures k in ChangedKeys(removed, added) <==>
            multiset(Map(RowOf, Group(oldRows, k))) != multiset(Map(RowOf, Group(newRows, k)))
  {
    hide Group;
    hide Map;
    hide KeyOf;
    var before, after := multiset(Map(RowOf, Group(oldRows, k))), multiset(Map(RowOf, Group(newRows, k)));
    if k in ChangedKeys(removed, added) {
      var r :| r in removed + added && KeyOf(r) == k;
      GroupShowsItsChange(oldRows, newRows, removed, added, k, r);
      assert r in removed ==> r in multiset(removed);
      assert r in added ==> r in multiset(added);
    } else {
      forall r
        ensures before[r] == after[r]
      {
        GroupShowsItsChange(oldRows, newRows, removed, added, k, r);
        assert r in multiset(removed) ==> r in removed + added;
        assert r in multiset(added) ==> r in removed + added;
        assert (before - after)[r] == 0 && (after - before)[r] == 0;
      }
      assert before == after;
    }
  }

  /** A key stands for a caller, its file, the call site and the callee's name: the rows of a
      group are those of the snapshot with these four fields, in order. */
  lemma {:induction false} GroupMeans(rows: seq<PosRow>, k: Key)
    ensures Group(rows, k) == Only(rows, k.callerPath, k.caller, k.callSite, k.calleeName)
  {
    if rows != [] {
      GroupMeans(rows[..|rows| - 1], k);
    }
  }

  function Only(rows: seq<PosRow>, callerPath: string, caller: string, callSite: Option<string>, calleeName: string): seq<PosRow> {
    if rows == [] then []
    else
      var r := rows[|rows| - 1].row;
      Only(rows[..|rows| - 1], callerPath, caller, callSite, calleeName)
      + (if r.callerPath == callerPath && r.caller == caller && r.callSite == callSite && r.calleeName == calleeName
         then [rows[|rows| - 1]] else [])
  }
}
