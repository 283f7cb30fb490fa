/** What the partition plan means in terms of the rows alone: who is tied to whom, who is
    unresolved, how the groups are ordered and counted, and exactly who is quarantined. */
module ReplayLaws {
  import opened Connectivity
  import opened Options
  import opened PartitionSplit
  import opened ReplayEvidence
  import opened ReplayTimetable
  import opened ReplayAssignment
  import Sets

  // ------------------------------------------------ who is tied to whom

  predicate HasAlias(r: Row, a: nat) {
    a in r.aliases || (r.legacy && a == r.sourceId)
  }

  /** The two rows have a public number, a stack, a source, a provider review or an alias in common. */
  ghost predicate Tied(graph: Graph, r: Row, s: Row) {
    || (r.number.Some? && r.repo == s.repo && r.number == s.number)
    || (exists g :: g in graph && Pr(r.repo, r.prId) in graph[g] && Pr(s.repo, s.prId) in graph[g])
    || (r.legacy == s.legacy && r.sourceId == s.sourceId)
    || (r.provider.Some? && r.repo == s.repo && r.provider == s.provider)
    || (exists a :: HasAlias(r, a) && HasAlias(s, a))
  }

  lemma TiedMeansSharedEvidence(graph: Graph, r: Row, s: Row)
    ensures Tied(graph, r, s) <==> EvidenceOf(graph, r) * EvidenceOf(graph, s) != {}
  {
    var both := EvidenceOf(graph, r) * EvidenceOf(graph, s);
    if Tied(graph, r, s) {
      var e := SharedEvidence(graph, r, s);
      assert e in both;
    }
    if both != {} {
      var e := Sets.Element(both);
      EvidenceTies(graph, r, s, e);
    }
  }

  lemma SharedEvidence(graph: Graph, r: Row, s: Row) returns (e: Evidence)
    requires Tied(graph, r, s)
    ensures e in EvidenceOf(graph, r) && e in EvidenceOf(graph, s)
  {
    if r.number.Some? && r.repo == s.repo && r.number == s.number {
      e := Public(r.repo, r.number.value);
    } else if g :| g in graph && Pr(r.repo, r.prId) in graph[g] && Pr(s.repo, s.prId) in graph[g] {
      e := Stack(g);
    } else if r.legacy == s.legacy && r.sourceId == s.sourceId {
      e := Source(r.legacy, r.sourceId);
    } else if r.provider.Some? && r.repo == s.repo && r.provider == s.provider {
      e := Provider(r.repo, r.provider.value);
    } else {
      var a :| HasAlias(r, a) && HasAlias(s, a);
      e := Alias(a);
    }
  }

  /** What a row says when it brings a piece of evidence. */
  predicate Brings(graph: Graph, e: Evidence, r: Row) {
    match e
    case Public(repo, number) => r.repo == repo && r.number == Some(number)
    case Stack(g) => g in graph && Pr(r.repo, r.prId) in graph[g]
    case Source(legacy, id) => r.legacy == legacy && r.sourceId == id
    case Provider(repo, review) => r.repo == repo && r.provider == Some(review)
    case Alias(a) => HasAlias(r, a)
  }

  lemma EvidenceIsBrought(graph: Graph, r: Row, e: Evidence)
    ensures e in EvidenceOf(graph, r) <==> Brings(graph, e, r)
  {
  }

  lemma EvidenceTies(graph: Graph, r: Row, s: Row, e: Evidence)
    requires e in EvidenceOf(graph, r) && e in EvidenceOf(graph, s)
    ensures Tied(graph, r, s)
  {
    EvidenceIsBrought(graph, r, e);
    EvidenceIsBrought(graph, s, e);
    BroughtTies(graph, r, s, e);
  }

  lemma BroughtTies(graph: Graph, r: Row, s: Row, e: Evidence)
    requires Brings(graph, e, r) && Brings(graph, e, s)
    ensures Tied(graph, r, s)
  {
    match e
    case Stack(g) => assert Pr(r.repo, r.prId) in graph[g];
    case Alias(a) => assert HasAlias(r, a) && HasAlias(s, a);
    case _ =>
  }

  /** A walk over rows: each step stays with the pull request or follows a tie. */
  ghost predicate Walk(rows: seq<Row>, graph: Graph, path: seq<Row>, p: Pr, q: Pr) {
    && |path| > 0 && PrOf(path[0]) == p && PrOf(path[|path| - 1]) == q
    && (forall i :: 0 <= i < |path| ==> path[i] in rows)
    && (forall i :: 0 < i < |path| ==> PrOf(path[i - 1]) == PrOf(path[i]) || Tied(graph, path[i - 1], path[i]))
  }

  lemma {:induction false} ChainIsWalked(rows: seq<Row>, graph: Graph, chain: seq<Pr>, p: Pr, q: Pr)
    returns (path: seq<Row>)
    requires ChainFrom(Buckets(rows, graph), chain, p, q) && p in Universe(rows)
    ensures Walk(rows, graph, path, p, q)
    decreases |chain|
  {
    if |chain| == 1 {
      var r :| r in rows && PrOf(r) == p;
      path := [r];
    } else {
      var rest := chain[..|chain| - 1];
      var mid := rest[|rest| - 1];
      assert ChainFrom(Buckets(rows, graph), rest, p, mid);
      path := ChainIsWalked(rows, graph, rest, p, mid);
      assert Share(Buckets(rows, graph), mid, q);
      if mid != q {
        var r, s := SharedIsTied(rows, graph, mid, q);
        WalkExtends(rows, graph, path, p, r, s);
        path := path + [r, s];
      }
    }
  }

  lemma SharedIsTied(rows: seq<Row>, graph: Graph, p: Pr, q: Pr) returns (r: Row, s: Row)
    requires Share(Buckets(rows, graph), p, q) && p != q
    ensures r in rows && s in rows && PrOf(r) == p && PrOf(s) == q && Tied(graph, r, s)
  {
    var e :| e in AllEvidence(rows, graph) && p in Named(rows, graph, e) && q in Named(rows, graph, e);
    r :| r in rows && e in EvidenceOf(graph, r) && PrOf(r) == p;
    s :| s in rows && e in EvidenceOf(graph, s) && PrOf(s) == q;
    EvidenceTies(graph, r, s, e);
  }

  lemma WalkExtends(rows: seq<Row>, graph: Graph, path: seq<Row>, p: Pr, r: Row, s: Row)
    requires Walk(rows, graph, path, p, PrOf(r)) && r in rows && s in rows && Tied(graph, r, s)
    ensures Walk(rows, graph, path + [r, s], p, PrOf(s))
  {
  }

  lemma {:induction false} WalkIsChained(rows: seq<Row>, graph: Graph, path: seq<Row>, p: Pr, q: Pr)
    requires Walk(rows, graph, path, p, q)
    ensures Linked(rows, graph, p, q)
    decreases |path|
  {
    var buckets := Buckets(rows, graph);
    if |path| == 1 {
      SharedIsConnected(buckets, p, q);
    } else {
      var rest := path[..|path| - 1];
      var r, s := path[|path| - 2], path[|path| - 1];
      WalkIsChained(rows, graph, rest, p, PrOf(r));
      if PrOf(r) != q {
        var e := SharedEvidence(graph, r, s);
        InNamed(rows, graph, e, r);
        InNamed(rows, graph, e, s);
        assert Named(rows, graph, e) in buckets;
      }
      SharedIsConnected(buckets, PrOf(r), q);
      ConnectedTransitive(buckets, p, PrOf(r), q);
    }
  }

  /** Being linked is being reached by a walk over tied rows. */
  lemma LinkedMeansWalked(rows: seq<Row>, graph: Graph, p: Pr, q: Pr)
    requires p in Universe(rows)
    ensures Linked(rows, graph, p, q) <==> exists path :: Walk(rows, graph, path, p, q)
  {
    if Linked(rows, graph, p, q) {
      var chain :| ChainFrom(Buckets(rows, graph), chain, p, q);
      var path := ChainIsWalked(rows, graph, chain, p, q);
      assert Walk(rows, graph, path, p, q);
    }
    if path :| Walk(rows, graph, path, p, q) {
      WalkIsChained(rows, graph, path, p, q);
    }
  }

  // ------------------------------------------------ who is resolved

  /** Everything about the row is known, it was published inside the window and its whole
      stack is present. */
  predicate Known(rows: seq<Row>, graph: Graph, w: Window, s: Row) {
    && s.prId.Some? && s.number.Some? && s.headKnown && s.publicationKeyKnown && s.provider.Some?
    && s.published.Some? && w.start <= s.published.value < w.until
    && (exists g :: g in graph && Pr(s.repo, s.prId) in graph[g])
    && (forall g, p :: g in graph && Pr(s.repo, s.prId) in graph[g] && p in graph[g] ==>
          exists t :: t in rows && Pr(t.repo, t.prId) == p)
  }

  /** No two rows that must say the same contradict each other. */
  predicate Consistent(s: Row, t: Row) {
    && (t.repo == s.repo && t.prId == s.prId ==> t.number == s.number)
    && (t.repo == s.repo && t.number.Some? && t.number == s.number ==> t.prId == s.prId)
    && (t.legacy == s.legacy && t.sourceId == s.sourceId ==> t.content == s.content)
    && (t.repo == s.repo && t.provider.Some? && t.provider == s.provider ==>
          t.legacy == s.legacy && t.sourceId == s.sourceId)
  }

  ghost predicate Sound(rows: seq<Row>, graph: Graph, w: Window, s: Row) {
    Known(rows, graph, w, s) && forall t :: t in rows ==> Consistent(s, t)
  }

  lemma PresentStackAgrees(rows: seq<Row>, graph: Graph, g: nat)
    requires g in graph && forall p :: p in graph[g] ==> exists t :: t in rows && Pr(t.repo, t.prId) == p
    ensures Named(rows, graph, Stack(g)) == graph[g]
  {
    forall p | p in graph[g]
      ensures p in Named(rows, graph, Stack(g))
    {
      var t :| t in rows && Pr(t.repo, t.prId) == p;
      InNamed(rows, graph, Stack(g), t);
    }
  }

  lemma ConsistentAgree(graph: Graph, s: Row, e: Evidence, r: Row, t: Row)
    requires Consistent(s, r) && Consistent(s, t) && !e.Stack? && !e.Alias?
    requires Brings(graph, e, s) && Brings(graph, e, r) && Brings(graph, e, t)
    ensures !Disagree(e, r, t)
  {
  }

  lemma SoundHasNoConflict(rows: seq<Row>, graph: Graph, w: Window, s: Row, e: Evidence)
    requires s in rows && Sound(rows, graph, w, s) && e in EvidenceOf(graph, s)
    ensures !Conflicts(rows, graph, e)
  {
    if e.Stack? {
      PresentStackAgrees(rows, graph, e.id);
    } else if !e.Alias? {
      forall r, t | r in rows && t in rows && e in EvidenceOf(graph, r) && e in EvidenceOf(graph, t)
        ensures !Disagree(e, r, t)
      {
        EvidenceIsBrought(graph, s, e);
        EvidenceIsBrought(graph, r, e);
        EvidenceIsBrought(graph, t, e);
        ConsistentAgree(graph, s, e, r, t);
      }
    }
  }

  lemma UnknownIsUnresolved(rows: seq<Row>, graph: Graph, w: Window, s: Row)
    requires s in rows && !Known(rows, graph, w, s)
    ensures Unresolved(rows, graph, w, PrOf(s))
  {
    if !RowUnresolved(rows, graph, w, s) {
      var g, p :| g in graph && PrOf(s) in graph[g] && p in graph[g] && !(exists t :: t in rows && PrOf(t) == p);
      assert p !in Named(rows, graph, Stack(g));
      assert Stack(g) in EvidenceOf(graph, s);
    }
  }

  lemma ContradictionIsUnresolved(rows: seq<Row>, graph: Graph, w: Window, s: Row, t: Row)
    requires s in rows && t in rows && !Consistent(s, t)
    ensures Unresolved(rows, graph, w, PrOf(s))
  {
    if !RowUnresolved(rows, graph, w, s) {
      assert PrOf(t) == PrOf(s) ==> s.number == t.number;
      var e :=
        if t.repo == s.repo && t.number == s.number && t.prId != s.prId then Public(s.repo, s.number.value)
        else if t.legacy == s.legacy && t.sourceId == s.sourceId && t.content != s.content
        then Source(s.legacy, s.sourceId)
        else Provider(s.repo, s.provider.value);
      assert e in EvidenceOf(graph, s) && e in EvidenceOf(graph, t) && Disagree(e, s, t);
      assert Conflicts(rows, graph, e);
    }
  }

  /** A pull request is resolved exactly when each of its rows is sound. */
  lemma ResolvedMeansSound(rows: seq<Row>, graph: Graph, w: Window, p: Pr)
    ensures !Unresolved(rows, graph, w, p) <==> forall s :: s in rows && PrOf(s) == p ==> Sound(rows, graph, w, s)
  {
    if forall s :: s in rows && PrOf(s) == p ==> Sound(rows, graph, w, s) {
      forall s, e | s in rows && PrOf(s) == p && e in EvidenceOf(graph, s)
        ensures !Conflicts(rows, graph, e)
      {
        SoundHasNoConflict(rows, graph, w, s, e);
      }
      forall s | s in rows && PrOf(s) == p
        ensures !RowUnresolved(rows, graph, w, s)
      {
        assert Sound(rows, graph, w, s);
        assert forall t :: t in rows ==> Consistent(s, t);
      }
    } else {
      var s :| s in rows && PrOf(s) == p && !Sound(rows, graph, w, s);
      if Known(rows, graph, w, s) {
        var t :| t in rows && !Consistent(s, t);
        ContradictionIsUnresolved(rows, graph, w, s, t);
      } else {
        UnknownIsUnresolved(rows, graph, w, s);
      }
    }
  }

  // ------------------------------------------------ every resolved class has its group

  lemma {:induction false} SummaryOf(rows: seq<Row>, prs: set<Pr>) returns (g: Group, any: bool)
    requires forall r :: r in rows && PrOf(r) in prs ==> r.published.Some? && r.number.Some?
    ensures g.prs == prs && SummarizesSome(rows, g, any)
    decreases |rows|
  {
    if rows == [] {
      g, any := Group(prs, 0, 0, 0, 0), false;
    } else {
      var n := |rows| - 1;
      g, any := SummaryOf(rows[..n], prs);
      SummaryExtends(rows[..n], rows[n], g, any);
      assert rows == rows[..n] + [rows[n]];
      if PrOf(rows[n]) in prs {
        g, any := Include(g, any, rows[n]), true;
      }
    }
  }

  ghost function ClassFrom(rows: seq<Row>, graph: Graph, p: Pr): set<Pr> {
    set q | q in Universe(rows) && Linked(rows, graph, p, q)
  }

  lemma ResolvedClassIsScheduled(rows: seq<Row>, graph: Graph, w: Window, groups: seq<Group>, p: Pr) returns (i: nat)
    requires Timetable(rows, graph, w, groups) && p in Universe(rows)
    requires Resolved(rows, graph, w, ClassFrom(rows, graph, p))
    ensures i < |groups| && groups[i].prs == ClassFrom(rows, graph, p) && p in groups[i].prs
  {
    var prs := ClassFrom(rows, graph, p);
    assert ClassOf(rows, graph, prs, p);
    ResolvedRowsAreComplete(rows, graph, w, prs);
    ClassHasRows(rows, graph, prs);
    var g, any := SummaryOf(rows, prs);
    assert Eligible(rows, graph, w, g);
    i :| i < |groups| && groups[i] == g;
    SharedIsConnected(Buckets(rows, graph), p, p);
  }

  lemma ScheduledIsResolved(rows: seq<Row>, graph: Graph, w: Window, groups: seq<Group>, i: nat, r: Row, s: Row)
    requires Timetable(rows, graph, w, groups) && i < |groups| && PrOf(r) in groups[i].prs
    requires r in rows && s in rows && Linked(rows, graph, PrOf(r), PrOf(s))
    ensures PrOf(s) in groups[i].prs && Sound(rows, graph, w, s)
  {
    GroupIsClass(rows, graph, w, groups, i);
    ClassHoldsBoth(rows, graph, groups[i].prs, PrOf(r), PrOf(s));
    ResolvedMeansSound(rows, graph, w, PrOf(s));
  }

  /** A kept row, and every row tied to it however far, has a known request, number, stack,
      head, publication key and provider review, was published inside the window and is
      contradicted by no other row. */
  lemma KeptRowIsSound(rows: seq<Row>, graph: Graph, w: Window, result: map<Key, Label>, r: Row, s: Row)
    requires Assignment(rows, graph, w, result) && r in rows && result[r.key] != Quarantine
    requires s in rows && Linked(rows, graph, PrOf(r), PrOf(s))
    ensures s.prId.Some? && s.number.Some? && s.headKnown && s.publicationKeyKnown && s.provider.Some?
    ensures s.published.Some? && w.start <= s.published.value < w.until
    ensures exists g :: g in graph && PrOf(s) in graph[g] && graph[g] <= Universe(rows)
    ensures forall t :: t in rows ==> Consistent(s, t)
  {
    var groups, b := TimetableOf(rows, graph, w, result);
    var i := GroupOf(rows, groups, b, result, r);
    ScheduledIsResolved(rows, graph, w, groups, i, r, s);
    var g :| g in graph && Pr(s.repo, s.prId) in graph[g];
    forall p | p in graph[g]
      ensures p in Universe(rows)
    {
      var t :| t in rows && Pr(t.repo, t.prId) == p;
    }
  }

  // ------------------------------------------------ exactly who is quarantined

  /** Something tied to the row is not sound. */
  ghost predicate Tainted(rows: seq<Row>, graph: Graph, w: Window, r: Row) {
    exists s :: s in rows && Linked(rows, graph, PrOf(r), PrOf(s)) && !Sound(rows, graph, w, s)
  }

  /** The row's group was planned in `own`, and a row `t` planned in a later partition was published
      no later than the row `s` of the group. */
  ghost predicate Reaches(rows: seq<Row>, graph: Graph, w: Window, r: Row, own: Label, s: Row, t: Row, later: Label) {
    && s in rows && t in rows && Linked(rows, graph, PrOf(r), PrOf(s))
    && PlannedIn(rows, graph, w, r, own) && PlannedIn(rows, graph, w, t, later) && Rank(own) < Rank(later)
    && s.published.Some? && t.published.Some? && t.published.value <= s.published.value
  }

  /** A row is quarantined if and only if something tied to it is not sound, or a row planned in
      a later partition was published no later than the last publication of its group. */
  lemma QuarantinedExactlyWhen(rows: seq<Row>, graph: Graph, w: Window, result: map<Key, Label>, r: Row)
    requires Assignment(rows, graph, w, result) && r in rows
    ensures result[r.key] == Quarantine <==>
            || Tainted(rows, graph, w, r)
            || exists own, s, t, later :: Reaches(rows, graph, w, r, own, s, t, later)
  {
    var groups, b := TimetableOf(rows, graph, w, result);
    if Tainted(rows, graph, w, r) {
      var s :| s in rows && Linked(rows, graph, PrOf(r), PrOf(s)) && !Sound(rows, graph, w, s);
      ResolvedMeansSound(rows, graph, w, PrOf(s));
      UnresolvedQuarantinesTheGroup(rows, graph, w, result, r, PrOf(s));
    } else {
      UntaintedIsResolved(rows, graph, w, r);
      var i := ResolvedClassIsScheduled(rows, graph, w, groups, PrOf(r));
      if own, s, t, later :| Reaches(rows, graph, w, r, own, s, t, later) {
        ReachingIsQuarantined(rows, graph, w, groups, b, i, result, r, own, s, t, later);
      }
      if result[r.key] == Quarantine {
        var s, t, later := QuarantinedReaches(rows, graph, w, groups, b, i, r);
        assert Reaches(rows, graph, w, r, Planned(Spans(groups), b, i), s, t, later);
      }
    }
  }

  lemma UntaintedIsResolved(rows: seq<Row>, graph: Graph, w: Window, r: Row)
    requires r in rows && !Tainted(rows, graph, w, r)
    ensures Resolved(rows, graph, w, ClassFrom(rows, graph, PrOf(r)))
  {
    forall p | p in ClassFrom(rows, graph, PrOf(r))
      ensures !Unresolved(rows, graph, w, p)
    {
      forall s | s in rows && PrOf(s) == p
        ensures Sound(rows, graph, w, s)
      {
        assert Linked(rows, graph, PrOf(r), PrOf(s));
      }
      ResolvedMeansSound(rows, graph, w, p);
    }
  }

  lemma PlannedWhere(rows: seq<Row>, graph: Graph, w: Window, groups: seq<Group>, b: nat, s: Row, partition: Label)
    returns (j: nat)
    requires Timetable(rows, graph, w, groups) && HoldoutStartsAt(Spans(groups), b)
    requires PlannedIn(rows, graph, w, s, partition)
    ensures j < |groups| && PrOf(s) in groups[j].prs && partition == Planned(Spans(groups), b, j)
  {
    var groups', b', k: nat :| PlannedAt(rows, graph, w, s, partition, groups', b', k);
    TimetableIsUnique(rows, graph, w, groups, groups');
    HoldoutIsUnique(Spans(groups), b, b');
    j := k;
  }

  lemma ReachingIsQuarantined(
    rows: seq<Row>, graph: Graph, w: Window, groups: seq<Group>, b: nat, i: nat, result: map<Key, Label>,
    r: Row, own: Label, s: Row, t: Row, later: Label)
    requires Timetable(rows, graph, w, groups) && HoldoutStartsAt(Spans(groups), b)
    requires AssignedFrom(rows, groups, b, result) && r in rows && i < |groups| && PrOf(r) in groups[i].prs
    requires Reaches(rows, graph, w, r, own, s, t, later)
    ensures result[r.key] == Quarantine
  {
    var j := PlannedWhere(rows, graph, w, groups, b, t, later);
    var k := PlannedWhere(rows, graph, w, groups, b, r, own);
    GroupsAreDisjoint(rows, graph, w, groups, i, k, PrOf(r));
    ScheduledIsResolved(rows, graph, w, groups, i, r, s);
    RowIsWithin(rows, graph, w, groups, i, s);
    RowIsWithin(rows, graph, w, groups, j, t);
    OverlapQuarantines(Spans(groups), b, i, j);
  }

  lemma OverlapQuarantines(spans: seq<Span>, b: nat, i: nat, j: nat)
    requires b <= |spans| && i < |spans| && j < |spans|
    requires Rank(Planned(spans, b, i)) < Rank(Planned(spans, b, j)) && spans[j].first <= spans[i].last
    ensures Final(spans, b, i) == Quarantine
  {
  }

  lemma QuarantinedOverlaps(spans: seq<Span>, b: nat, i: nat) returns (j: nat)
    requires b <= |spans| && i < |spans| && Final(spans, b, i) == Quarantine
    ensures j < |spans| && Rank(Planned(spans, b, i)) < Rank(Planned(spans, b, j)) && spans[j].first <= spans[i].last
  {
    PlannedIsRanked(spans, b, i);
    j :| 0 <= j < |spans| && Rank(Planned(spans, b, j)) > Rank(Planned(spans, b, i)) &&
      spans[j].first <= spans[i].last;
  }

  lemma QuarantinedReaches(rows: seq<Row>, graph: Graph, w: Window, groups: seq<Group>, b: nat, i: nat, r: Row)
    returns (s: Row, t: Row, later: Label)
    requires Timetable(rows, graph, w, groups) && HoldoutStartsAt(Spans(groups), b)
    requires i < |groups| && groups[i].prs == ClassFrom(rows, graph, PrOf(r)) && PrOf(r) in groups[i].prs
    requires Final(Spans(groups), b, i) == Quarantine
    ensures Reaches(rows, graph, w, r, Planned(Spans(groups), b, i), s, t, later)
  {
    var j := QuarantinedOverlaps(Spans(groups), b, i);
    GroupIsClass(rows, graph, w, groups, i);
    GroupIsClass(rows, graph, w, groups, j);
    s :| s in rows && PrOf(s) in groups[i].prs && s.published == Some(groups[i].last);
    t :| t in rows && PrOf(t) in groups[j].prs && t.published == Some(groups[j].first);
    later := Planned(Spans(groups), b, j);
    assert PlannedAt(rows, graph, w, r, Planned(Spans(groups), b, i), groups, b, i);
    assert PlannedAt(rows, graph, w, t, later, groups, b, j);
  }

  // ------------------------------------------------ order and proportions

  /** A group precedes another when it was published first, and at one time when it has the lowest
      repository and number. */
  lemma TimetableIsChronological(rows: seq<Row>, graph: Graph, w: Window, groups: seq<Group>, i: nat, j: nat)
    returns (earliest: Row, lowest: Row)
    requires Timetable(rows, graph, w, groups) && i < j < |groups|
    ensures earliest in rows && lowest in rows && PrOf(earliest) in groups[i].prs && PrOf(lowest) in groups[i].prs
    ensures earliest.published.Some? && lowest.number.Some?
    ensures forall s :: s in rows && PrOf(s) in groups[j].prs ==>
              s.published.Some? && s.number.Some? && earliest.published.value <= s.published.value
    ensures (exists s :: s in rows && PrOf(s) in groups[j].prs && s.published == earliest.published) ==>
              forall s :: s in rows && PrOf(s) in groups[j].prs ==>
                lowest.repo < s.repo || (lowest.repo == s.repo && lowest.number.value < s.number.value)
  {
    GroupIsClass(rows, graph, w, groups, i);
    GroupIsClass(rows, graph, w, groups, j);
    earliest :| earliest in rows && PrOf(earliest) in groups[i].prs && earliest.published == Some(groups[i].first);
    lowest :| lowest in rows && PrOf(lowest) in groups[i].prs && lowest.repo == groups[i].repo &&
      lowest.number == Some(groups[i].number);
    assert Before(groups[i], groups[j]);
  }

  function Members(groups: seq<Group>): set<Pr> {
    set g, p | g in groups && p in g.prs :: p
  }

  /** How many pull requests the groups hold. */
  function Count(groups: seq<Group>): nat {
    |Members(groups)|
  }

  ghost predicate Apart(groups: seq<Group>) {
    forall i, j, p :: 0 <= i < |groups| && 0 <= j < |groups| && p in groups[i].prs && p in groups[j].prs ==> i == j
  }

  lemma {:induction false} TotalCountsMembers(groups: seq<Group>)
    requires Apart(groups)
    ensures Total(Spans(groups)) == Count(groups)
  {
    if groups != [] {
      var rest := groups[1..];
      TotalCountsMembers(rest);
      assert groups == [groups[0]] + rest;
      assert Members(groups) == groups[0].prs + Members(rest);
      assert groups[0].prs * Members(rest) == {};
      assert Spans(groups)[1..] == Spans(rest);
    }
  }

  lemma SuffixCountsMembers(groups: seq<Group>, i: nat)
    requires Apart(groups) && i <= |groups|
    ensures Total(Spans(groups)[i..]) == Count(groups[i..])
  {
    SpansOfSuffix(groups, i);
    TotalCountsMembers(groups[i..]);
  }

  lemma {:induction false} SpansOfPrefix(groups: seq<Group>, i: nat)
    requires i <= |groups|
    ensures Spans(groups[..i]) == Spans(groups)[..i]
  {
    var spans, head := Spans(groups), Spans(groups[..i]);
    forall k | 0 <= k < i
      ensures head[k] == spans[k]
    {
      assert groups[..i][k] == groups[k];
    }
  }

  lemma {:induction false} SpansOfSuffix(groups: seq<Group>, i: nat)
    requires i <= |groups|
    ensures Spans(groups[i..]) == Spans(groups)[i..]
  {
    var spans, tail := Spans(groups), Spans(groups[i..]);
    forall k | 0 <= k < |groups| - i
      ensures tail[k] == spans[i + k]
    {
      assert groups[i..][k] == groups[i + k];
    }
  }

  lemma PrefixCountsMembers(groups: seq<Group>, i: nat)
    requires Apart(groups) && i <= |groups|
    ensures Total(Spans(groups)[..i]) == Count(groups[..i])
  {
    SpansOfPrefix(groups, i);
    TotalCountsMembers(groups[..i]);
  }

  /** The proportions hold over pull requests: the latest groups that together hold a fifth of all
      scheduled pull requests are the model holdout, and of what is left the groups within three
      fifths are development and those within four fifths calibration. */
  lemma ProportionsAreOfPullRequests(rows: seq<Row>, graph: Graph, w: Window, groups: seq<Group>, b: nat, i: nat)
    requires Timetable(rows, graph, w, groups) && HoldoutStartsAt(Spans(groups), b) && i < |groups|
    ensures i >= b <==> 5 * Count(groups[i + 1..]) < Count(groups)
    ensures Planned(Spans(groups), b, i) ==
            if i >= b then ModelHoldout
            else if 5 * Count(groups[..i + 1]) <= 3 * Count(groups[..b]) then Development
            else if 5 * Count(groups[..i + 1]) <= 4 * Count(groups[..b]) then Calibration
            else ReviewHoldout
  {
    GroupsAreApart(rows, graph, w, groups);
    TotalCountsMembers(groups);
    SuffixCountsMembers(groups, i + 1);
    PrefixCountsMembers(groups, i + 1);
    PrefixCountsMembers(groups, b);
    SuffixTotalsShrink(Spans(groups), i + 1, b);
    PlannedMeans(Spans(groups), b, i);
  }

  lemma PlannedMeans(spans: seq<Span>, b: nat, i: nat)
    requires HoldoutStartsAt(spans, b) && i < |spans|
    requires i + 1 <= b ==> Total(spans[i + 1..]) >= Total(spans[b..])
    ensures i >= b <==> 5 * Total(spans[i + 1..]) < Total(spans)
    ensures Planned(spans, b, i) ==
            if i >= b then ModelHoldout
            else if 5 * Total(spans[..i + 1]) <= 3 * Total(spans[..b]) then Development
            else if 5 * Total(spans[..i + 1]) <= 4 * Total(spans[..b]) then Calibration
            else ReviewHoldout
  {
  }

  lemma GroupsAreApart(rows: seq<Row>, graph: Graph, w: Window, groups: seq<Group>)
    requires Timetable(rows, graph, w, groups)
    ensures Apart(groups)
  {
    forall k, m, p | 0 <= k < |groups| && 0 <= m < |groups| && p in groups[k].prs && p in groups[m].prs
      ensures k == m
    {
      GroupsAreDisjoint(rows, graph, w, groups, k, m, p);
    }
  }

  lemma SuffixTotalsShrink(spans: seq<Span>, i: nat, b: nat)
    requires i <= |spans| && b <= |spans|
    ensures i <= b ==> Total(spans[i..]) >= Total(spans[b..])
  {
    if i <= b {
      TotalSplits(spans, i);
      TotalSplits(spans, b);
      PrefixTotalsGrow(spans, i, b);
    }
  }
}
