/** Checking a submitted plan and selection against the recomputed assignment. */
module ReplaySelection {
  import opened Options
  import opened PartitionSplit
  import opened ReplayEvidence
  import opened ReplayTimetable
  import ReplayAssignment
  import Sets

  /** A row named by its locator, with the partition claimed for it. */
  datatype Entry = Entry(key: Key, locator: nat, partition: Label)

  /** The entry agrees with the recomputed label and with the row's own locator. */
  predicate Agrees(expected: map<Key, Label>, locators: map<Key, nat>, e: Entry) {
    e.key in expected && e.partition == expected[e.key] && e.key in locators && e.locator == locators[e.key]
  }

  function KeysOf(entries: seq<Entry>): set<Key> {
    set e | e in entries :: e.key
  }

  ghost predicate DistinctEntries(entries: seq<Entry>) {
    forall i, j :: 0 <= i < j < |entries| ==> entries[i].key != entries[j].key
  }

  /** Each row of `wanted` is named exactly once and truly. */
  ghost predicate Covers(
    expected: map<Key, Label>, locators: map<Key, nat>, entries: seq<Entry>, wanted: set<Key>)
  {
    && DistinctEntries(entries)
    && (forall e :: e in entries ==> Agrees(expected, locators, e))
    && KeysOf(entries) == wanted
  }

  /** The rows assigned to one of `partitions`. */
  function Within(expected: map<Key, Label>, partitions: seq<Label>): set<Key> {
    set k | k in expected && expected[k] in partitions
  }

  function OpenAmong(partitions: seq<Label>): seq<Label> {
    (if Development in partitions then [Development] else []) +
    (if Calibration in partitions then [Calibration] else [])
  }

  lemma {:induction false} DistinctEntriesCount(entries: seq<Entry>)
    requires DistinctEntries(entries)
    ensures |KeysOf(entries)| == |entries|
  {
    if entries != [] {
      var n := |entries| - 1;
      var rest := entries[..n];
      DistinctEntriesCount(rest);
      assert entries == rest + [entries[n]];
      assert KeysOf(entries) == KeysOf(rest) + {entries[n].key};
    }
  }

  /** As many distinct agreeing entries as there are rows name every row. */
  lemma FullCountCovers(expected: map<Key, Label>, entries: seq<Entry>)
    requires DistinctEntries(entries) && KeysOf(entries) <= expected.Keys
    ensures |entries| == |expected| <==> KeysOf(entries) == expected.Keys
  {
    DistinctEntriesCount(entries);
    if |entries| == |expected| {
      Sets.EquallyLargeSubsetIsEqual(KeysOf(entries), expected.Keys);
    }
  }

  /** Walk the entries, refusing the first that repeats a key or disagrees. */
  method Claim(expected: map<Key, Label>, locators: map<Key, nat>, entries: seq<Entry>)
    returns (ok: bool, claimed: set<Key>)
    ensures ok <==> DistinctEntries(entries) && forall e :: e in entries ==> Agrees(expected, locators, e)
    ensures ok ==> claimed == KeysOf(entries) <= expected.Keys
  {
    claimed := {};
    for i := 0 to |entries|
      invariant claimed == KeysOf(entries[..i]) <= expected.Keys
      invariant DistinctEntries(entries[..i])
      invariant forall k :: 0 <= k < i ==> Agrees(expected, locators, entries[k])
    {
      var e := entries[i];
      assert e in entries;
      if e.key in claimed {
        var k :| 0 <= k < i && entries[k].key == e.key;
        return false, claimed;
      }
      if !Agrees(expected, locators, e) {
        return false, claimed;
      }
      forall k | 0 <= k < i
        ensures entries[k].key != e.key
      {
        assert entries[k] in entries[..i];
      }
      assert entries[..i + 1] == entries[..i] + [e];
      claimed := claimed + {e.key};
    }
    assert entries[..|entries|] == entries;
    ok := true;
  }

  /** A plan that is the whole assignment, and a selection that is all of the requested open
      partitions, which are listed once each and in order. */
  ghost predicate Acceptable(expected: map<Key, Label>, locators: map<Key, nat>, plan: seq<Entry>,
                             partitions: seq<Label>, selected: seq<Entry>)
  {
    && Covers(expected, locators, plan, expected.Keys)
    && partitions != [] && partitions == OpenAmong(partitions)
    && selected != [] && Covers(expected, locators, selected, Within(expected, partitions))
  }

  /** Row `k` is listed once, under its own locator and its recomputed partition. */
  ghost predicate ListedOnce(expected: map<Key, Label>, locators: map<Key, nat>, entries: seq<Entry>, k: Key) {
    && k in expected && k in locators
    && exists i :: 0 <= i < |entries| && entries[i] == Entry(k, locators[k], expected[k]) &&
                   forall j :: 0 <= j < |entries| && entries[j].key == k ==> j == i
  }

  lemma CoversMeansListedOnce(expected: map<Key, Label>, locators: map<Key, nat>, entries: seq<Entry>,
                              wanted: set<Key>)
    requires wanted <= expected.Keys
    ensures Covers(expected, locators, entries, wanted) <==>
            && (forall k :: k in wanted ==> ListedOnce(expected, locators, entries, k))
            && (forall e :: e in entries ==> e.key in wanted)
  {
    if Covers(expected, locators, entries, wanted) {
      forall k | k in wanted
        ensures ListedOnce(expected, locators, entries, k)
      {
        var i :| 0 <= i < |entries| && entries[i].key == k;
        assert Agrees(expected, locators, entries[i]);
      }
    }
    if (forall k :: k in wanted ==> ListedOnce(expected, locators, entries, k)) &&
       (forall e :: e in entries ==> e.key in wanted) {
      forall i | 0 <= i < |entries|
        ensures Agrees(expected, locators, entries[i])
        ensures forall j :: 0 <= j < |entries| && entries[j].key == entries[i].key ==> j == i
      {
        assert entries[i] in entries;
        assert ListedOnce(expected, locators, entries, entries[i].key);
      }
      forall k | k in wanted
        ensures k in KeysOf(entries)
      {
        assert ListedOnce(expected, locators, entries, k);
      }
      assert KeysOf(entries) == wanted;
    }
  }

  /** The plan names every row once and truly; the selection asks for development, calibration or both
      in this order, is not empty, and names every row of those partitions once and truly, and no other. */
  lemma AcceptableMeans(expected: map<Key, Label>, locators: map<Key, nat>, plan: seq<Entry>,
                        partitions: seq<Label>, selected: seq<Entry>)
    ensures Acceptable(expected, locators, plan, partitions, selected) <==>
            && (forall k :: k in expected ==> ListedOnce(expected, locators, plan, k))
            && (forall e :: e in plan ==> e.key in expected)
            && (partitions == [Development] || partitions == [Calibration] ||
                partitions == [Development, Calibration])
            && selected != []
            && (forall k :: k in expected && expected[k] in partitions ==>
                  ListedOnce(expected, locators, selected, k))
            && (forall e :: e in selected ==> e.key in expected && expected[e.key] in partitions)
  {
    CoversMeansListedOnce(expected, locators, plan, expected.Keys);
    CoversMeansListedOnce(expected, locators, selected, Within(expected, partitions));
    OpenListings(partitions);
  }

  lemma OpenListings(partitions: seq<Label>)
    ensures partitions != [] && partitions == OpenAmong(partitions) <==>
            partitions == [Development] || partitions == [Calibration] || partitions == [Development, Calibration]
  {
    if partitions == [Development, Calibration] {
      assert partitions[1] == Calibration;
    }
  }

  /** Accepts exactly what is acceptable; the rows it returns are in no holdout and not quarantined. */
  method ValidateSelection(expected: map<Key, Label>, locators: map<Key, nat>, plan: seq<Entry>,
                           partitions: seq<Label>, selected: seq<Entry>) returns (r: Option<set<Key>>)
    ensures r.Some? <==> Acceptable(expected, locators, plan, partitions, selected)
    ensures r.Some? ==>
              && r.value == Within(expected, partitions) == KeysOf(selected)
              && forall k :: k in r.value ==> k in expected && expected[k] in {Development, Calibration}
  {
    if |plan| != |expected| {
      if Covers(expected, locators, plan, expected.Keys) {
        FullCountCovers(expected, plan);
      }
      return None;
    }
    var planOk, _ := Claim(expected, locators, plan);
    if !planOk {
      return None;
    }
    FullCountCovers(expected, plan);
    if partitions == [] || |partitions| > 2 || partitions != OpenAmong(partitions) {
      return None;
    }
    if selected == [] || |selected| > |expected| {
      if Covers(expected, locators, selected, Within(expected, partitions)) {
        DistinctEntriesCount(selected);
        Sets.SubsetIsNoLarger(Within(expected, partitions), expected.Keys);
      }
      return None;
    }
    var ok, keys := Claim(expected, locators, selected);
    if !ok || keys != Within(expected, partitions) {
      return None;
    }
    return Some(keys);
  }

  function Locators(rows: seq<Row>): map<Key, nat> {
    if rows == [] then map[] else Locators(rows[..|rows| - 1])[rows[|rows| - 1].key := rows[|rows| - 1].locator]
  }

  /** Every row is looked up under its own key. */
  lemma {:induction false} LocatorsAreTheRows(rows: seq<Row>)
    requires ReplayAssignment.DistinctKeys(rows)
    ensures Locators(rows).Keys == RowKeys(rows)
    ensures forall r :: r in rows ==> Locators(rows)[r.key] == r.locator
  {
    if rows != [] {
      var n := |rows| - 1;
      LocatorsAreTheRows(rows[..n]);
      assert rows == rows[..n] + [rows[n]];
    }
  }

  /** The checker recomputes the assignment from the evidence and holds the submission to it. */
  method ValidateReplay(rows: seq<Row>, graph: Graph, w: Window, plan: seq<Entry>,
                        partitions: seq<Label>, selected: seq<Entry>) returns (r: Option<set<Key>>)
    requires ReplayAssignment.DistinctKeys(rows)
    ensures forall expected :: Assignment(rows, graph, w, expected) ==>
              && (r.Some? <==> Acceptable(expected, Locators(rows), plan, partitions, selected))
              && (r.Some? ==> r.value == Within(expected, partitions) == KeysOf(selected))
  {
    var computed := ReplayAssignment.Assign(rows, graph, w);
    r := ValidateSelection(computed, Locators(rows), plan, partitions, selected);
    forall expected | Assignment(rows, graph, w, expected)
      ensures expected == computed
    {
      AssignmentIsUnique(rows, graph, w, expected, computed);
    }
  }

  /** A selected row, and what its label can be. */
  lemma SelectedIsOpen(rows: seq<Row>, expected: map<Key, Label>, plan: seq<Entry>, partitions: seq<Label>,
                       selected: seq<Entry>, k: Key)
    requires Acceptable(expected, Locators(rows), plan, partitions, selected)
    ensures k in KeysOf(selected) <==> k in expected && expected[k] in partitions
    ensures k in KeysOf(selected) ==> expected[k] == Development || expected[k] == Calibration
  {
  }

  /** Whatever any chain of evidence ties to a selected row is selected too. */
  lemma SelectionIsClosed(rows: seq<Row>, graph: Graph, w: Window, expected: map<Key, Label>,
                          plan: seq<Entry>, partitions: seq<Label>, selected: seq<Entry>, r: Row, s: Row)
    requires Assignment(rows, graph, w, expected) && r in rows && s in rows
    requires Acceptable(expected, Locators(rows), plan, partitions, selected) && r.key in KeysOf(selected)
    requires Linked(rows, graph, PrOf(r), PrOf(s))
    ensures s.key in KeysOf(selected)
  {
    LinkedRowsGetOneLabel(rows, graph, w, expected, r, s);
    SelectedIsOpen(rows, expected, plan, partitions, selected, r.key);
    SelectedIsOpen(rows, expected, plan, partitions, selected, s.key);
  }

  /** Every row planned for a holdout, kept there or quarantined, was published after every
      selected one. */
  lemma SelectionPrecedesHoldouts(
    rows: seq<Row>, graph: Graph, w: Window, expected: map<Key, Label>, plan: seq<Entry>,
    partitions: seq<Label>, selected: seq<Entry>, r: Row, s: Row, holdout: Label)
    requires Assignment(rows, graph, w, expected) && r in rows && s in rows
    requires Acceptable(expected, Locators(rows), plan, partitions, selected) && r.key in KeysOf(selected)
    requires PlannedIn(rows, graph, w, s, holdout) && (holdout == ReviewHoldout || holdout == ModelHoldout)
    ensures r.published.Some? && s.published.Some? && r.published.value < s.published.value
  {
    SelectedIsOpen(rows, expected, plan, partitions, selected, r.key);
    KeptRowsAreSeparated(rows, graph, w, expected, r, s, holdout);
  }
}
