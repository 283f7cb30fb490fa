/** The groups the rule admits and their chronological order, independent of how they are found. */
module ReplayTimetable {
  import opened Connectivity
  import opened Options
  import opened ReplayEvidence
  import opened PartitionSplit

  /** A group of linked pull requests with its first and last publication and its lowest
      repository and number. */
  datatype Group = Group(prs: set<Pr>, first: int, last: int, repo: nat, number: nat)

  predicate Below(repo: nat, number: nat, repo': nat, number': nat) {
    repo < repo' || (repo == repo' && number < number')
  }

  ghost predicate Summarizes(rows: seq<Row>, g: Group) {
    && (forall r :: r in rows && PrOf(r) in g.prs ==>
          && r.published.Some? && r.number.Some?
          && g.first <= r.published.value <= g.last
          && !Below(r.repo, r.number.value, g.repo, g.number))
    && (exists r :: r in rows && PrOf(r) in g.prs && r.published == Some(g.first))
    && (exists r :: r in rows && PrOf(r) in g.prs && r.published == Some(g.last))
    && (exists r :: r in rows && PrOf(r) in g.prs && r.repo == g.repo && r.number == Some(g.number))
  }

  /** `prs` is everything linked to one of its members. */
  ghost predicate IsClass(rows: seq<Row>, graph: Graph, prs: set<Pr>) {
    exists p :: p in Universe(rows) && ClassOf(rows, graph, prs, p)
  }

  ghost predicate ClassOf(rows: seq<Row>, graph: Graph, prs: set<Pr>, p: Pr) {
    forall q :: q in prs <==> q in Universe(rows) && Linked(rows, graph, p, q)
  }

  ghost predicate Resolved(rows: seq<Row>, graph: Graph, w: Window, prs: set<Pr>) {
    forall p :: p in prs ==> !Unresolved(rows, graph, w, p)
  }

  ghost predicate Eligible(rows: seq<Row>, graph: Graph, w: Window, g: Group) {
    IsClass(rows, graph, g.prs) && Resolved(rows, graph, w, g.prs) && Summarizes(rows, g)
  }

  predicate Before(g: Group, h: Group) {
    g.first < h.first || (g.first == h.first && Below(g.repo, g.number, h.repo, h.number))
  }

  ghost predicate Sorted(groups: seq<Group>) {
    forall i, j :: 0 <= i < j < |groups| ==> Before(groups[i], groups[j])
  }

  /** Exactly the eligible groups, in strict chronological order. */
  ghost predicate Timetable(rows: seq<Row>, graph: Graph, w: Window, groups: seq<Group>) {
    Sorted(groups) && forall g :: g in groups <==> Eligible(rows, graph, w, g)
  }

  // ------------------------------------------------ ties cannot happen

  lemma LinkedClassesAreEqual(rows: seq<Row>, graph: Graph, a: set<Pr>, b: set<Pr>, p: Pr, q: Pr)
    requires IsClass(rows, graph, a) && IsClass(rows, graph, b) && p in a && q in b
    requires Linked(rows, graph, p, q)
    ensures a == b
  {
    var buckets := Buckets(rows, graph);
    var x :| x in Universe(rows) && ClassOf(rows, graph, a, x);
    var y :| y in Universe(rows) && ClassOf(rows, graph, b, y);
    ConnectedTransitive(buckets, x, p, q);
    ConnectedSymmetric(buckets, y, q);
    ConnectedTransitive(buckets, x, q, y);
    ConnectedSymmetric(buckets, x, y);
    forall z
      ensures z in a <==> z in b
    {
      if z in a {
        ConnectedTransitive(buckets, y, x, z);
      }
      if z in b {
        ConnectedTransitive(buckets, x, y, z);
      }
    }
  }

  lemma PublicNumberLinks(rows: seq<Row>, graph: Graph, r: Row, s: Row)
    requires r in rows && s in rows && r.repo == s.repo && r.number.Some? && r.number == s.number
    ensures Linked(rows, graph, PrOf(r), PrOf(s))
  {
    var e := Public(r.repo, r.number.value);
    InNamed(rows, graph, e, r);
    InNamed(rows, graph, e, s);
    assert Named(rows, graph, e) in Buckets(rows, graph);
    SharedIsConnected(Buckets(rows, graph), PrOf(r), PrOf(s));
  }

  lemma SummaryIsUnique(rows: seq<Row>, g: Group, h: Group)
    requires Summarizes(rows, g) && Summarizes(rows, h) && g.prs == h.prs
    ensures g.first == h.first && g.last == h.last
  {
  }

  /** Groups with one lowest repository and number are one group: sharing a public number links. */
  lemma SameNumberMeansSameGroup(rows: seq<Row>, graph: Graph, w: Window, g: Group, h: Group)
    requires Eligible(rows, graph, w, g) && Eligible(rows, graph, w, h)
    requires g.repo == h.repo && g.number == h.number
    ensures g == h
  {
    var r :| r in rows && PrOf(r) in g.prs && r.repo == g.repo && r.number == Some(g.number);
    var s :| s in rows && PrOf(s) in h.prs && s.repo == h.repo && s.number == Some(h.number);
    PublicNumberLinks(rows, graph, r, s);
    LinkedClassesAreEqual(rows, graph, g.prs, h.prs, PrOf(r), PrOf(s));
    SummaryIsUnique(rows, g, h);
  }

  /** Hence any two eligible groups are ordered, and the timetable is unique. */
  lemma EligibleGroupsAreOrdered(rows: seq<Row>, graph: Graph, w: Window, g: Group, h: Group)
    requires Eligible(rows, graph, w, g) && Eligible(rows, graph, w, h)
    ensures g == h || Before(g, h) || Before(h, g)
  {
    if g.repo == h.repo && g.number == h.number {
      SameNumberMeansSameGroup(rows, graph, w, g, h);
    }
  }

  lemma {:induction false} SortedListingIsUnique(a: seq<Group>, b: seq<Group>)
    requires Sorted(a) && Sorted(b) && forall g :: g in a <==> g in b
    ensures a == b
    decreases |a|
  {
    assert (a != [] ==> a[0] in a) && (b != [] ==> b[0] in b);
    if a != [] && b != [] {
      assert a[0] in b && b[0] in a;
      assert a[0] == b[0];
      forall g
        ensures g in a[1..] <==> g in b[1..]
      {
        assert g in a[1..] <==> g in a && g != a[0];
        assert g in b[1..] <==> g in b && g != b[0];
      }
      SortedListingIsUnique(a[1..], b[1..]);
      assert a == [a[0]] + a[1..] && b == [b[0]] + b[1..];
    }
  }

  lemma TimetableIsUnique(rows: seq<Row>, graph: Graph, w: Window, a: seq<Group>, b: seq<Group>)
    requires Timetable(rows, graph, w, a) && Timetable(rows, graph, w, b)
    ensures a == b
  {
    SortedListingIsUnique(a, b);
  }

  // ------------------------------------------------ the assignment

  function Spans(groups: seq<Group>): (s: seq<Span>)
    ensures |s| == |groups|
    ensures forall i :: 0 <= i < |groups| ==> s[i] == Span(|groups[i].prs|, groups[i].first, groups[i].last)
  {
    if groups == [] then []
    else [Span(|groups[0].prs|, groups[0].first, groups[0].last)] + Spans(groups[1..])
  }

  function RowKeys(rows: seq<Row>): set<Key> {
    set r | r in rows :: r.key
  }

  /** Rows of an eligible group get the group's final label, all others are quarantined. */
  ghost predicate AssignedFrom(rows: seq<Row>, groups: seq<Group>, b: nat, result: map<Key, Label>) {
    && b <= |groups|
    && result.Keys == RowKeys(rows)
    && (forall r, i :: r in rows && 0 <= i < |groups| && PrOf(r) in groups[i].prs ==>
          result[r.key] == Final(Spans(groups), b, i))
    && (forall r :: r in rows && (forall i :: 0 <= i < |groups| ==> PrOf(r) !in groups[i].prs) ==>
          result[r.key] == Quarantine)
  }

  /** The partition plan the protocol prescribes. */
  ghost predicate Assignment(rows: seq<Row>, graph: Graph, w: Window, result: map<Key, Label>) {
    exists groups: seq<Group>, b: nat ::
      && Timetable(rows, graph, w, groups) && HoldoutStartsAt(Spans(groups), b)
      && AssignedFrom(rows, groups, b, result)
  }

  lemma TimetableOf(rows: seq<Row>, graph: Graph, w: Window, result: map<Key, Label>)
    returns (groups: seq<Group>, b: nat)
    requires Assignment(rows, graph, w, result)
    ensures Timetable(rows, graph, w, groups) && HoldoutStartsAt(Spans(groups), b)
    ensures AssignedFrom(rows, groups, b, result)
  {
    groups, b :| Timetable(rows, graph, w, groups) && HoldoutStartsAt(Spans(groups), b) &&
      AssignedFrom(rows, groups, b, result);
  }

  lemma SameTimetableSameLabels(rows: seq<Row>, groups: seq<Group>, b: nat, x: map<Key, Label>, y: map<Key, Label>)
    requires AssignedFrom(rows, groups, b, x) && AssignedFrom(rows, groups, b, y)
    ensures x == y
  {
    assert x.Keys == y.Keys;
    forall k | k in x
      ensures x[k] == y[k]
    {
      var r :| r in rows && r.key == k;
      if exists i :: 0 <= i < |groups| && PrOf(r) in groups[i].prs {
        var i :| 0 <= i < |groups| && PrOf(r) in groups[i].prs;
        assert x[r.key] == Final(Spans(groups), b, i) == y[r.key];
      } else {
        assert x[r.key] == Quarantine == y[r.key];
      }
    }
  }

  /** The rule determines the plan: no iteration order can change a label. */
  lemma AssignmentIsUnique(rows: seq<Row>, graph: Graph, w: Window, x: map<Key, Label>, y: map<Key, Label>)
    requires Assignment(rows, graph, w, x) && Assignment(rows, graph, w, y)
    ensures x == y
  {
    var g, b := TimetableOf(rows, graph, w, x);
    var g', b' := TimetableOf(rows, graph, w, y);
    TimetableIsUnique(rows, graph, w, g, g');
    HoldoutIsUnique(Spans(g), b, b');
    SameTimetableSameLabels(rows, g, b, x, y);
  }

  lemma GroupIsClass(rows: seq<Row>, graph: Graph, w: Window, groups: seq<Group>, i: nat)
    requires Timetable(rows, graph, w, groups) && i < |groups|
    ensures Eligible(rows, graph, w, groups[i])
  {
    assert groups[i] in groups;
  }

  /** Rows of linked pull requests get one label. */
  lemma LinkedRowsGetOneLabel(rows: seq<Row>, graph: Graph, w: Window, result: map<Key, Label>, r: Row, s: Row)
    requires Assignment(rows, graph, w, result) && r in rows && s in rows
    requires Linked(rows, graph, PrOf(r), PrOf(s))
    ensures result[r.key] == result[s.key]
  {
    var groups, b := TimetableOf(rows, graph, w, result);
    forall i | 0 <= i < |groups|
      ensures PrOf(r) in groups[i].prs <==> PrOf(s) in groups[i].prs
    {
      GroupIsClass(rows, graph, w, groups, i);
      ClassHoldsBoth(rows, graph, groups[i].prs, PrOf(r), PrOf(s));
    }
    SameGroupSameLabel(rows, groups, b, result, r, s);
  }

  lemma ClassHoldsBoth(rows: seq<Row>, graph: Graph, prs: set<Pr>, p: Pr, q: Pr)
    requires IsClass(rows, graph, prs) && p in Universe(rows) && q in Universe(rows) && Linked(rows, graph, p, q)
    ensures p in prs <==> q in prs
  {
    var buckets := Buckets(rows, graph);
    var x :| x in Universe(rows) && ClassOf(rows, graph, prs, x);
    ConnectedSymmetric(buckets, p, q);
    if p in prs {
      ConnectedTransitive(buckets, x, p, q);
    }
    if q in prs {
      ConnectedTransitive(buckets, x, q, p);
    }
  }

  lemma SameGroupSameLabel(rows: seq<Row>, groups: seq<Group>, b: nat, result: map<Key, Label>, r: Row, s: Row)
    requires AssignedFrom(rows, groups, b, result) && r in rows && s in rows
    requires forall i :: 0 <= i < |groups| ==> (PrOf(r) in groups[i].prs <==> PrOf(s) in groups[i].prs)
    ensures result[r.key] == result[s.key]
  {
    if exists i :: 0 <= i < |groups| && PrOf(r) in groups[i].prs {
      var i :| 0 <= i < |groups| && PrOf(r) in groups[i].prs;
      assert result[r.key] == Final(Spans(groups), b, i) == result[s.key];
    }
  }

  /** One unresolved reason anywhere quarantines everything linked to it. */
  lemma UnresolvedQuarantinesTheGroup(rows: seq<Row>, graph: Graph, w: Window, result: map<Key, Label>, r: Row, q: Pr)
    requires Assignment(rows, graph, w, result) && r in rows && q in Universe(rows)
    requires Linked(rows, graph, PrOf(r), q) && Unresolved(rows, graph, w, q)
    ensures result[r.key] == Quarantine
  {
    var groups, b := TimetableOf(rows, graph, w, result);
    forall i | 0 <= i < |groups|
      ensures PrOf(r) !in groups[i].prs
    {
      GroupIsClass(rows, graph, w, groups, i);
      ClassHoldsBoth(rows, graph, groups[i].prs, PrOf(r), q);
    }
  }

  /** The partition a row's group was planned in, before overlaps were quarantined. */
  ghost predicate PlannedIn(rows: seq<Row>, graph: Graph, w: Window, s: Row, partition: Label) {
    exists groups: seq<Group>, b: nat, j: nat :: PlannedAt(rows, graph, w, s, partition, groups, b, j)
  }

  ghost predicate PlannedAt(
    rows: seq<Row>, graph: Graph, w: Window, s: Row, partition: Label, groups: seq<Group>, b: nat, j: nat)
  {
    && Timetable(rows, graph, w, groups) && HoldoutStartsAt(Spans(groups), b)
    && j < |groups| && PrOf(s) in groups[j].prs && partition == Planned(Spans(groups), b, j)
  }

  /** A kept row is labelled as it was planned. */
  lemma KeptAsPlanned(rows: seq<Row>, graph: Graph, w: Window, result: map<Key, Label>, s: Row)
    requires Assignment(rows, graph, w, result) && s in rows && result[s.key] != Quarantine
    ensures PlannedIn(rows, graph, w, s, result[s.key])
  {
    var groups, b := TimetableOf(rows, graph, w, result);
    var j := GroupOf(rows, groups, b, result, s);
    FinalIsPlanned(Spans(groups), b, j);
    assert PlannedAt(rows, graph, w, s, result[s.key], groups, b, j);
  }

  /** Every kept publication precedes every publication planned in a later partition, whether it
      was kept there or quarantined in its turn. */
  lemma KeptRowsAreSeparated(
    rows: seq<Row>, graph: Graph, w: Window, result: map<Key, Label>, r: Row, s: Row, later: Label)
    requires Assignment(rows, graph, w, result) && r in rows && s in rows
    requires PlannedIn(rows, graph, w, s, later) && Rank(result[r.key]) < Rank(later)
    ensures r.published.Some? && s.published.Some? && r.published.value < s.published.value
  {
    var groups, b := TimetableOf(rows, graph, w, result);
    var groups', b', j: nat :| PlannedAt(rows, graph, w, s, later, groups', b', j);
    TimetableIsUnique(rows, graph, w, groups, groups');
    HoldoutIsUnique(Spans(groups), b, b');
    RowsOfGroupsAreSeparated(rows, graph, w, groups, b, result, r, s, j);
  }

  lemma RowsOfGroupsAreSeparated(rows: seq<Row>, graph: Graph, w: Window, groups: seq<Group>, b: nat,
                                 result: map<Key, Label>, r: Row, s: Row, j: nat)
    requires Timetable(rows, graph, w, groups) && AssignedFrom(rows, groups, b, result)
    requires r in rows && s in rows && j < |groups| && PrOf(s) in groups[j].prs
    requires Rank(result[r.key]) < Rank(Planned(Spans(groups), b, j))
    ensures r.published.Some? && s.published.Some? && r.published.value < s.published.value
  {
    PlannedIsRanked(Spans(groups), b, j);
    var i := GroupOf(rows, groups, b, result, r);
    GroupsAreSeparated(groups, b, i, j);
    RowIsWithin(rows, graph, w, groups, i, r);
    RowIsWithin(rows, graph, w, groups, j, s);
  }

  lemma {:induction false} GroupsAreSeparated(groups: seq<Group>, b: nat, i: nat, j: nat)
    requires i < |groups| && j < |groups| && b <= |groups|
    requires Rank(Final(Spans(groups), b, i)) < Rank(Planned(Spans(groups), b, j))
    ensures groups[i].last < groups[j].first
  {
    KeptPartitionsAreSeparated(Spans(groups), b, i, j);
  }

  /** A row that is not quarantined has a group, whose final label it carries. */
  lemma GroupOf(rows: seq<Row>, groups: seq<Group>, b: nat, result: map<Key, Label>, r: Row) returns (i: nat)
    requires AssignedFrom(rows, groups, b, result) && r in rows && result[r.key] != Quarantine
    ensures i < |groups| && PrOf(r) in groups[i].prs && result[r.key] == Final(Spans(groups), b, i)
  {
    i :| i < |groups| && PrOf(r) in groups[i].prs;
  }

  lemma RowIsWithin(rows: seq<Row>, graph: Graph, w: Window, groups: seq<Group>, i: nat, r: Row)
    requires Timetable(rows, graph, w, groups) && i < |groups| && r in rows && PrOf(r) in groups[i].prs
    ensures r.published.Some? && groups[i].first <= r.published.value <= groups[i].last
  {
    GroupIsClass(rows, graph, w, groups, i);
  }
}
