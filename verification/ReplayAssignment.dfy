/** The assignment as it is computed: collect evidence, join, mark, gather, sort, split. */
module ReplayAssignment {
  import opened Connectivity
  import opened Options
  import opened PartitionSplit
  import opened ReplayEvidence
  import opened ReplayTimetable
  import opened UnionFind
  import Sets

  ghost predicate Collected(rows: seq<Row>, graph: Graph, named: map<Evidence, set<Pr>>) {
    && named.Keys == AllEvidence(rows, graph)
    && forall e :: e in named ==> named[e] == Named(rows, graph, e)
  }

  /** Which pull requests each piece of evidence names. */
  method CollectEvidence(rows: seq<Row>, graph: Graph) returns (named: map<Evidence, set<Pr>>)
    ensures Collected(rows, graph, named)
  {
    named := map[];
    for i := 0 to |rows|
      invariant Collected(rows[..i], graph, named)
    {
      named := CollectRow(rows, i, graph, named);
    }
    assert rows[..|rows|] == rows;
  }

  method CollectRow(rows: seq<Row>, i: nat, graph: Graph, named: map<Evidence, set<Pr>>)
    returns (more: map<Evidence, set<Pr>>)
    requires i < |rows| && Collected(rows[..i], graph, named)
    ensures Collected(rows[..i + 1], graph, more)
  {
    more := Note(named, EvidenceOf(graph, rows[i]), PrOf(rows[i]));
    CollectedExtends(rows[..i], graph, rows[i], named);
    assert rows[..i + 1] == rows[..i] + [rows[i]];
  }

  /** Add one row's pull request under each piece of its evidence. */
  function Note(named: map<Evidence, set<Pr>>, evidence: set<Evidence>, pr: Pr): map<Evidence, set<Pr>> {
    map e | e in named.Keys + evidence ::
      (if e in named then named[e] else {}) + (if e in evidence then {pr} else {})
  }

  lemma CollectedExtends(rows: seq<Row>, graph: Graph, r: Row, named: map<Evidence, set<Pr>>)
    requires Collected(rows, graph, named)
    ensures Collected(rows + [r], graph, Note(named, EvidenceOf(graph, r), PrOf(r)))
  {
    var more := Note(named, EvidenceOf(graph, r), PrOf(r));
    AllEvidenceExtends(rows, graph, r);
    forall e | e in more
      ensures more[e] == Named(rows + [r], graph, e)
    {
      NamedExtends(rows, graph, r, e);
    }
  }

  lemma AllEvidenceExtends(rows: seq<Row>, graph: Graph, r: Row)
    ensures AllEvidence(rows + [r], graph) == AllEvidence(rows, graph) + EvidenceOf(graph, r)
  {
    forall e
      ensures e in AllEvidence(rows + [r], graph) <==> e in AllEvidence(rows, graph) + EvidenceOf(graph, r)
    {
      if e in AllEvidence(rows, graph) {
        var s :| s in rows && e in EvidenceOf(graph, s);
        assert s in rows + [r];
      }
      if e in EvidenceOf(graph, r) {
        assert r in rows + [r];
      }
    }
  }

  lemma NamedExtends(rows: seq<Row>, graph: Graph, r: Row, e: Evidence)
    ensures Named(rows + [r], graph, e) ==
            Named(rows, graph, e) + (if e in EvidenceOf(graph, r) then {PrOf(r)} else {})
    ensures e !in AllEvidence(rows, graph) ==> Named(rows, graph, e) == {}
  {
    forall p
      ensures p in Named(rows + [r], graph, e) <==>
              p in Named(rows, graph, e) + (if e in EvidenceOf(graph, r) then {PrOf(r)} else {})
    {
      if p in Named(rows, graph, e) {
        var s :| s in rows && e in EvidenceOf(graph, s) && PrOf(s) == p;
        assert s in rows + [r];
      }
    }
  }

  /** The rows whose own fields leave them unresolved. */
  method MarkRows(rows: seq<Row>, graph: Graph, w: Window) returns (marked: set<Pr>)
    ensures forall p :: p in marked <==> exists r :: r in rows && PrOf(r) == p && RowUnresolved(rows, graph, w, r)
  {
    marked := {};
    for i := 0 to |rows|
      invariant forall p :: p in marked <==>
        exists k :: 0 <= k < i && PrOf(rows[k]) == p && RowUnresolved(rows, graph, w, rows[k])
    {
      if RowUnresolved(rows, graph, w, rows[i]) {
        marked := marked + {PrOf(rows[i])};
      }
    }
  }

  /** The buckets joined once only the evidence in `rest` is left. */
  ghost function JoinedSoFar(rows: seq<Row>, graph: Graph, named: map<Evidence, set<Pr>>, rest: set<Evidence>)
    : set<Bucket<Pr>>
  {
    set e | e in named && e !in rest && Joins(rows, graph, e) :: named[e]
  }

  lemma JoinedStep(rows: seq<Row>, graph: Graph, named: map<Evidence, set<Pr>>, rest: set<Evidence>, e: Evidence)
    requires e in named && e in rest
    ensures JoinedSoFar(rows, graph, named, rest - {e}) ==
            JoinedSoFar(rows, graph, named, rest) + (if Joins(rows, graph, e) then {named[e]} else {})
  {
  }

  lemma JoinedEverything(rows: seq<Row>, graph: Graph, named: map<Evidence, set<Pr>>)
    requires Collected(rows, graph, named)
    ensures JoinedSoFar(rows, graph, named, {}) == JoinedBuckets(rows, graph)
  {
  }

  /** The pull requests named by conflicting evidence outside `rest`. */
  ghost predicate MarkedBy(
    rows: seq<Row>, graph: Graph, named: map<Evidence, set<Pr>>, rest: set<Evidence>, marked: set<Pr>)
  {
    forall p :: p in marked <==>
      exists e :: e in named && e !in rest && Conflicts(rows, graph, e) && p in named[e]
  }

  lemma MarkStep(
    rows: seq<Row>, graph: Graph, named: map<Evidence, set<Pr>>, rest: set<Evidence>, marked: set<Pr>, e: Evidence)
    requires e in named && e in rest && MarkedBy(rows, graph, named, rest, marked)
    ensures MarkedBy(rows, graph, named, rest - {e},
                     marked + (if Conflicts(rows, graph, e) then named[e] else {}))
  {
    var more := marked + (if Conflicts(rows, graph, e) then named[e] else {});
    forall p
      ensures p in more <==>
        exists f :: f in named && f !in rest - {e} && Conflicts(rows, graph, f) && p in named[f]
    {
      if p in marked {
        var f :| f in named && f !in rest && Conflicts(rows, graph, f) && p in named[f];
        assert f !in rest - {e};
      }
    }
  }

  /** Join what each piece of evidence names, marking those it leaves in conflict. */
  method JoinAll(rows: seq<Row>, graph: Graph, named: map<Evidence, set<Pr>>)
    returns (forest: Forest<Pr>, marked: set<Pr>)
    requires Collected(rows, graph, named)
    ensures fresh(forest) && forest.Valid() && forest.parent.Keys == Universe(rows)
    ensures forest.joined == JoinedBuckets(rows, graph)
    ensures MarkedBy(rows, graph, named, {}, marked)
  {
    forest := new Forest(Universe(rows));
    marked := {};
    var rest := named.Keys;
    while rest != {}
      invariant rest <= named.Keys
      invariant fresh(forest) && forest.Valid() && forest.parent.Keys == Universe(rows)
      invariant forest.joined == JoinedSoFar(rows, graph, named, rest)
      invariant MarkedBy(rows, graph, named, rest, marked)
    {
      ghost var _ := Sets.Element(rest);
      var e :| e in rest;
      marked := JoinOne(rows, graph, named, rest, forest, marked, e);
      rest := rest - {e};
    }
    JoinedEverything(rows, graph, named);
  }

  method JoinOne(rows: seq<Row>, graph: Graph, named: map<Evidence, set<Pr>>, rest: set<Evidence>,
                 forest: Forest<Pr>, marked: set<Pr>, e: Evidence) returns (more: set<Pr>)
    requires e in named && e in rest && named[e] <= forest.parent.Keys
    requires forest.Valid() && forest.joined == JoinedSoFar(rows, graph, named, rest)
    requires MarkedBy(rows, graph, named, rest, marked)
    modifies forest
    ensures forest.Valid() && forest.parent.Keys == old(forest.parent.Keys)
    ensures forest.joined == JoinedSoFar(rows, graph, named, rest - {e})
    ensures MarkedBy(rows, graph, named, rest - {e}, more)
  {
    JoinedStep(rows, graph, named, rest, e);
    if Joins(rows, graph, e) {
      JoinBucket(forest, named[e]);
    }
    MarkStep(rows, graph, named, rest, marked, e);
    more := marked + (if Conflicts(rows, graph, e) then named[e] else {});
  }

  method JoinBucket(forest: Forest<Pr>, bucket: set<Pr>)
    requires forest.Valid() && bucket <= forest.parent.Keys
    modifies forest
    ensures forest.Valid() && forest.parent.Keys == old(forest.parent.Keys)
    ensures forest.joined == old(forest.joined) + {bucket}
  {
    var prs := Sets.Enumerate(bucket);
    forall p | p in prs
      ensures p in forest.parent
    {
      assert p in set x | x in prs;
    }
    forest.Join(prs);
  }

  /** `grouped` holds, under each root, the elements outside `rest` that lead to it. */
  ghost predicate GroupedBy(root: map<Pr, Pr>, rest: set<Pr>, grouped: map<Pr, set<Pr>>) {
    && (forall p :: p in root && p !in rest ==> root[p] in grouped && p in grouped[root[p]])
    && (forall r, p :: r in grouped && p in grouped[r] ==> p in root && p !in rest && root[p] == r)
    && (forall r :: r in grouped ==> grouped[r] != {})
  }

  /** The trees of the forest, by root. */
  method Gather(forest: Forest<Pr>) returns (grouped: map<Pr, set<Pr>>)
    requires forest.Valid()
    modifies forest
    ensures GroupedBy(old(forest.links.root), {}, grouped)
  {
    grouped := map[];
    var rest := forest.parent.Keys;
    ghost var root := forest.links.root;
    while rest != {}
      invariant forest.Valid() && forest.links.root == root && rest <= forest.parent.Keys
      invariant GroupedBy(root, rest, grouped)
    {
      ghost var _ := Sets.Element(rest);
      var p :| p in rest;
      var r := forest.Find(p);
      GroupStep(root, rest, grouped, p);
      grouped := grouped[r := (if r in grouped then grouped[r] else {}) + {p}];
      rest := rest - {p};
    }
  }

  lemma GroupStep(root: map<Pr, Pr>, rest: set<Pr>, grouped: map<Pr, set<Pr>>, p: Pr)
    requires GroupedBy(root, rest, grouped) && p in rest && p in root
    ensures GroupedBy(root, rest - {p},
                      grouped[root[p] := (if root[p] in grouped then grouped[root[p]] else {}) + {p}])
  {
  }

  // ------------------------------------------------ from trees to eligible groups

  lemma SameRootMeansLinked(rows: seq<Row>, graph: Graph, root: map<Pr, Pr>, p: Pr, q: Pr)
    requires root.Keys == Universe(rows) && Grouped(root, JoinedBuckets(rows, graph)) && p in root && q in root
    ensures root[p] == root[q] <==> Linked(rows, graph, p, q)
  {
    SameRootMeansConnected(root, JoinedBuckets(rows, graph), p, q);
    JoinedMeansLinked(rows, graph, p, q);
  }

  /** The trees are exactly the classes of linked pull requests. */
  lemma TreesAreClasses(rows: seq<Row>, graph: Graph, root: map<Pr, Pr>, grouped: map<Pr, set<Pr>>)
    requires root.Keys == Universe(rows) && Grouped(root, JoinedBuckets(rows, graph))
    requires GroupedBy(root, {}, grouped)
    ensures forall prs :: IsClass(rows, graph, prs) <==> prs in grouped.Values
  {
    forall prs | IsClass(rows, graph, prs)
      ensures prs in grouped.Values
    {
      ClassIsTree(rows, graph, root, grouped, prs);
    }
    forall r | r in grouped
      ensures IsClass(rows, graph, grouped[r])
    {
      TreeIsClass(rows, graph, root, grouped, r);
    }
  }

  lemma ClassIsTree(rows: seq<Row>, graph: Graph, root: map<Pr, Pr>, grouped: map<Pr, set<Pr>>, prs: set<Pr>)
    requires root.Keys == Universe(rows) && Grouped(root, JoinedBuckets(rows, graph))
    requires GroupedBy(root, {}, grouped) && IsClass(rows, graph, prs)
    ensures exists r :: r in grouped && grouped[r] == prs
  {
    var p :| p in Universe(rows) && ClassOf(rows, graph, prs, p);
    TreeOf(rows, graph, root, grouped, p);
    assert prs == grouped[root[p]];
  }

  lemma TreeIsClass(rows: seq<Row>, graph: Graph, root: map<Pr, Pr>, grouped: map<Pr, set<Pr>>, r: Pr)
    requires root.Keys == Universe(rows) && Grouped(root, JoinedBuckets(rows, graph))
    requires GroupedBy(root, {}, grouped) && r in grouped
    ensures IsClass(rows, graph, grouped[r])
  {
    var p := Sets.Element(grouped[r]);
    TreeOf(rows, graph, root, grouped, p);
  }

  lemma TreeOf(rows: seq<Row>, graph: Graph, root: map<Pr, Pr>, grouped: map<Pr, set<Pr>>, p: Pr)
    requires root.Keys == Universe(rows) && Grouped(root, JoinedBuckets(rows, graph))
    requires GroupedBy(root, {}, grouped) && p in root
    ensures root[p] in grouped && ClassOf(rows, graph, grouped[root[p]], p)
  {
    forall q
      ensures q in grouped[root[p]] <==> q in Universe(rows) && Linked(rows, graph, p, q)
    {
      if q in root {
        SameRootMeansLinked(rows, graph, root, p, q);
      }
    }
  }

  function Include(g: Group, any: bool, r: Row): Group
    requires r.published.Some? && r.number.Some?
  {
    var at, number := r.published.value, r.number.value;
    if !any then Group(g.prs, at, at, r.repo, number)
    else
      var lower := Below(r.repo, number, g.repo, g.number);
      Group(g.prs, if at < g.first then at else g.first, if at > g.last then at else g.last,
            if lower then r.repo else g.repo, if lower then number else g.number)
  }

  /** `g` summarizes those of `rows` that belong to it, if `any` do. */
  ghost predicate SummarizesSome(rows: seq<Row>, g: Group, any: bool) {
    && (any <==> exists r :: r in rows && PrOf(r) in g.prs)
    && (any ==> Summarizes(rows, g))
  }

  lemma SummaryExtends(rows: seq<Row>, r: Row, g: Group, any: bool)
    requires SummarizesSome(rows, g, any)
    requires PrOf(r) in g.prs ==> r.published.Some? && r.number.Some?
    ensures PrOf(r) in g.prs ==> SummarizesSome(rows + [r], Include(g, any, r), true)
    ensures PrOf(r) !in g.prs ==> SummarizesSome(rows + [r], g, any)
  {
    var more := rows + [r];
    assert forall s :: s in more <==> s in rows || s == r;
    if any {
      var a :| a in rows && PrOf(a) in g.prs && a.published == Some(g.first);
      var b :| b in rows && PrOf(b) in g.prs && b.published == Some(g.last);
      var c :| c in rows && PrOf(c) in g.prs && c.repo == g.repo && c.number == Some(g.number);
      assert a in more && b in more && c in more && r in more;
    }
    assert r in more;
  }

  /** First and last publication and lowest repository and number of a group's rows. */
  method Summarize(rows: seq<Row>, prs: set<Pr>) returns (g: Group)
    requires exists r :: r in rows && PrOf(r) in prs
    requires forall r :: r in rows && PrOf(r) in prs ==> r.published.Some? && r.number.Some?
    ensures g.prs == prs && Summarizes(rows, g)
  {
    var any := false;
    g := Group(prs, 0, 0, 0, 0);
    for i := 0 to |rows|
      invariant g.prs == prs && SummarizesSome(rows[..i], g, any)
    {
      SummaryExtends(rows[..i], rows[i], g, any);
      assert rows[..i + 1] == rows[..i] + [rows[i]];
      if PrOf(rows[i]) in prs {
        g := Include(g, any, rows[i]);
        any := true;
      }
    }
    assert rows[..|rows|] == rows;
  }

  lemma ResolvedRowsAreComplete(rows: seq<Row>, graph: Graph, w: Window, prs: set<Pr>)
    requires Resolved(rows, graph, w, prs)
    ensures forall r :: r in rows && PrOf(r) in prs ==> r.published.Some? && r.number.Some?
  {
    forall r | r in rows && PrOf(r) in prs
      ensures r.published.Some? && r.number.Some?
    {
      assert !Unresolved(rows, graph, w, PrOf(r));
      assert !RowUnresolved(rows, graph, w, r);
    }
  }

  ghost predicate MarksUnresolved(rows: seq<Row>, graph: Graph, w: Window, unresolved: set<Pr>) {
    forall p :: p in unresolved <==> p in Universe(rows) && Unresolved(rows, graph, w, p)
  }

  /** The marks of rows and of evidence together are the unresolved pull requests. */
  lemma MarksAreComplete(rows: seq<Row>, graph: Graph, w: Window, named: map<Evidence, set<Pr>>,
                         byRow: set<Pr>, byEvidence: set<Pr>)
    requires Collected(rows, graph, named) && MarkedBy(rows, graph, named, {}, byEvidence)
    requires forall p :: p in byRow <==> exists r :: r in rows && PrOf(r) == p && RowUnresolved(rows, graph, w, r)
    ensures MarksUnresolved(rows, graph, w, byRow + byEvidence)
  {
    forall p
      ensures p in byRow + byEvidence <==> p in Universe(rows) && Unresolved(rows, graph, w, p)
    {
      if p in byEvidence {
        var e :| e in named && e !in {} && Conflicts(rows, graph, e) && p in named[e];
        var r :| r in rows && e in EvidenceOf(graph, r) && PrOf(r) == p;
        assert Unresolved(rows, graph, w, p);
      }
      if Unresolved(rows, graph, w, p) && p !in byRow {
        var r :| r in rows && PrOf(r) == p &&
          (RowUnresolved(rows, graph, w, r) || exists e :: e in EvidenceOf(graph, r) && Conflicts(rows, graph, e));
        var e :| e in EvidenceOf(graph, r) && Conflicts(rows, graph, e);
        InNamed(rows, graph, e, r);
        assert e in named && e !in {} && p in named[e];
      }
    }
  }

  /** Summaries of the trees nothing in is unresolved. */
  method EligibleGroups(rows: seq<Row>, graph: Graph, w: Window, trees: set<set<Pr>>, unresolved: set<Pr>)
    returns (eligible: set<Group>)
    requires forall prs :: IsClass(rows, graph, prs) <==> prs in trees
    requires MarksUnresolved(rows, graph, w, unresolved)
    ensures forall g :: g in eligible <==> Eligible(rows, graph, w, g)
  {
    eligible := {};
    var rest := trees;
    while rest != {}
      invariant rest <= trees
      invariant forall g :: g in eligible <==> g.prs !in rest && Eligible(rows, graph, w, g)
    {
      ghost var _ := Sets.Element(rest);
      var prs :| prs in rest;
      rest := rest - {prs};
      ClassIsResolved(rows, graph, w, prs, unresolved);
      if prs * unresolved == {} {
        ResolvedRowsAreComplete(rows, graph, w, prs);
        ClassHasRows(rows, graph, prs);
        var g := Summarize(rows, prs);
        forall h | Eligible(rows, graph, w, h) && h.prs == prs
          ensures h == g
        {
          SummaryIsUnique(rows, g, h);
        }
        eligible := eligible + {g};
      }
    }
  }

  lemma ClassIsResolved(rows: seq<Row>, graph: Graph, w: Window, prs: set<Pr>, unresolved: set<Pr>)
    requires IsClass(rows, graph, prs) && MarksUnresolved(rows, graph, w, unresolved)
    ensures prs * unresolved == {} <==> Resolved(rows, graph, w, prs)
  {
    if p :| p in prs && Unresolved(rows, graph, w, p) {
      assert p in prs * unresolved;
    }
  }

  lemma ClassHasRows(rows: seq<Row>, graph: Graph, prs: set<Pr>)
    requires IsClass(rows, graph, prs)
    ensures exists r :: r in rows && PrOf(r) in prs
  {
    var p :| p in Universe(rows) && ClassOf(rows, graph, prs, p);
    SharedIsConnected(Buckets(rows, graph), p, p);
    var r :| r in rows && PrOf(r) == p;
  }

  // ------------------------------------------------ sorting and labelling

  method Earliest(groups: set<Group>) returns (g: Group)
    requires groups != {}
    requires forall a, b :: a in groups && b in groups ==> a == b || Before(a, b) || Before(b, a)
    ensures g in groups && forall h :: h in groups ==> h == g || Before(g, h)
  {
    ghost var _ := Sets.Element(groups);
    g :| g in groups;
    var rest := groups - {g};
    while rest != {}
      invariant g in groups && rest <= groups
      invariant forall h :: h in groups && h !in rest ==> h == g || Before(g, h)
    {
      ghost var _ := Sets.Element(rest);
      var h :| h in rest;
      rest := rest - {h};
      if Before(h, g) {
        g := h;
      }
    }
  }

  method Sort(groups: set<Group>) returns (sorted: seq<Group>)
    requires forall a, b :: a in groups && b in groups ==> a == b || Before(a, b) || Before(b, a)
    ensures Sorted(sorted) && forall g :: g in sorted <==> g in groups
  {
    sorted := [];
    var rest := groups;
    while rest != {}
      invariant rest <= groups && Sorted(sorted)
      invariant forall g :: g in sorted <==> g in groups && g !in rest
      invariant forall a, b :: a in sorted && b in rest ==> Before(a, b)
    {
      var g := Earliest(rest);
      sorted := sorted + [g];
      rest := rest - {g};
    }
  }

  /** The label of the last of the first `n` groups that holds `p`. */
  function LabelOf(groups: seq<Group>, labels: seq<Label>, n: nat, p: Pr): Label
    requires n <= |groups| == |labels|
  {
    if n == 0 then Quarantine
    else if p in groups[n - 1].prs then labels[n - 1]
    else LabelOf(groups, labels, n - 1, p)
  }

  predicate DistinctKeys(rows: seq<Row>) {
    forall i, j :: 0 <= i < j < |rows| ==> rows[i].key != rows[j].key
  }

  /** Every row starts quarantined; then each group's rows get its label. */
  method LabelRows(rows: seq<Row>, groups: seq<Group>, labels: seq<Label>) returns (result: map<Key, Label>)
    requires |groups| == |labels| && DistinctKeys(rows)
    ensures result.Keys == RowKeys(rows)
    ensures forall r :: r in rows ==> result[r.key] == LabelOf(groups, labels, |groups|, PrOf(r))
  {
    result := map r | r in rows :: r.key := Quarantine;
    assert result.Keys == RowKeys(rows);
    for i := 0 to |groups|
      invariant result.Keys == RowKeys(rows)
      invariant forall m :: 0 <= m < |rows| ==> result[rows[m].key] == LabelOf(groups, labels, i, PrOf(rows[m]))
    {
      result := LabelGroup(rows, groups[i].prs, labels[i], result);
    }
  }

  method LabelGroup(rows: seq<Row>, prs: set<Pr>, partition: Label, before: map<Key, Label>)
    returns (result: map<Key, Label>)
    requires DistinctKeys(rows) && forall m :: 0 <= m < |rows| ==> rows[m].key in before
    ensures result.Keys == before.Keys
    ensures forall m :: 0 <= m < |rows| ==>
              result[rows[m].key] == if PrOf(rows[m]) in prs then partition else before[rows[m].key]
  {
    result := before;
    for k := 0 to |rows|
      invariant result.Keys == before.Keys
      invariant forall m :: 0 <= m < |rows| ==>
        result[rows[m].key] == if m < k && PrOf(rows[m]) in prs then partition else before[rows[m].key]
    {
      if PrOf(rows[k]) in prs {
        result := result[rows[k].key := partition];
      }
    }
  }

  lemma {:induction false} LabelOfMember(groups: seq<Group>, labels: seq<Label>, n: nat, p: Pr, i: nat)
    requires i < n <= |groups| == |labels| && p in groups[i].prs
    requires forall j :: 0 <= j < |groups| && j != i ==> p !in groups[j].prs
    ensures LabelOf(groups, labels, n, p) == labels[i]
  {
    if n - 1 != i {
      LabelOfMember(groups, labels, n - 1, p, i);
    }
  }

  lemma {:induction false} LabelOfStranger(groups: seq<Group>, labels: seq<Label>, n: nat, p: Pr)
    requires n <= |groups| == |labels| && forall j :: 0 <= j < |groups| ==> p !in groups[j].prs
    ensures LabelOf(groups, labels, n, p) == Quarantine
  {
    if n > 0 {
      LabelOfStranger(groups, labels, n - 1, p);
    }
  }

  /** No pull request is in two groups of the timetable. */
  lemma GroupsAreDisjoint(rows: seq<Row>, graph: Graph, w: Window, groups: seq<Group>, i: nat, j: nat, p: Pr)
    requires Timetable(rows, graph, w, groups) && i < |groups| && j < |groups|
    requires p in groups[i].prs && p in groups[j].prs
    ensures i == j
  {
    var g, h := groups[i], groups[j];
    assert (i < j ==> Before(g, h)) && (j < i ==> Before(h, g));
    GroupIsClass(rows, graph, w, groups, i);
    GroupIsClass(rows, graph, w, groups, j);
    SharedIsConnected(Buckets(rows, graph), p, p);
    LinkedClassesAreEqual(rows, graph, g.prs, h.prs, p, p);
    SameClassSameGroup(rows, g, h);
  }

  lemma SameClassSameGroup(rows: seq<Row>, g: Group, h: Group)
    requires Summarizes(rows, g) && Summarizes(rows, h) && g.prs == h.prs
    ensures g == h
  {
    SummaryIsUnique(rows, g, h);
    var r :| r in rows && PrOf(r) in g.prs && r.repo == g.repo && r.number == Some(g.number);
    var s :| s in rows && PrOf(s) in h.prs && s.repo == h.repo && s.number == Some(h.number);
  }

  lemma LabelsAreTheAssignment(rows: seq<Row>, graph: Graph, w: Window, groups: seq<Group>, b: nat,
                               labels: seq<Label>, result: map<Key, Label>)
    requires Timetable(rows, graph, w, groups) && |labels| == |groups| && b <= |groups|
    requires forall i :: 0 <= i < |groups| ==> labels[i] == Final(Spans(groups), b, i)
    requires result.Keys == RowKeys(rows)
    requires forall r :: r in rows ==> result[r.key] == LabelOf(groups, labels, |groups|, PrOf(r))
    ensures AssignedFrom(rows, groups, b, result)
  {
    forall r, i | r in rows && 0 <= i < |groups| && PrOf(r) in groups[i].prs
      ensures result[r.key] == Final(Spans(groups), b, i)
    {
      forall j | 0 <= j < |groups| && j != i
        ensures PrOf(r) !in groups[j].prs
      {
        if PrOf(r) in groups[j].prs {
          GroupsAreDisjoint(rows, graph, w, groups, i, j, PrOf(r));
        }
      }
      LabelOfMember(groups, labels, |groups|, PrOf(r), i);
    }
    forall r | r in rows && (forall i :: 0 <= i < |groups| ==> PrOf(r) !in groups[i].prs)
      ensures result[r.key] == Quarantine
    {
      LabelOfStranger(groups, labels, |groups|, PrOf(r));
    }
  }

  /** The eligible groups in chronological order. */
  method BuildTimetable(rows: seq<Row>, graph: Graph, w: Window) returns (groups: seq<Group>)
    ensures Timetable(rows, graph, w, groups)
  {
    var named := CollectEvidence(rows, graph);
    var byRow := MarkRows(rows, graph, w);
    var forest, byEvidence := JoinAll(rows, graph, named);
    MarksAreComplete(rows, graph, w, named, byRow, byEvidence);
    ghost var root := forest.links.root;
    var grouped := Gather(forest);
    TreesAreClasses(rows, graph, root, grouped);
    var eligible := EligibleGroups(rows, graph, w, grouped.Values, byRow + byEvidence);
    forall a, b | a in eligible && b in eligible
      ensures a == b || Before(a, b) || Before(b, a)
    {
      EligibleGroupsAreOrdered(rows, graph, w, a, b);
    }
    groups := Sort(eligible);
  }

  /** The partition label of every row, recomputed from the rows and the stack graph. */
  method Assign(rows: seq<Row>, graph: Graph, w: Window) returns (result: map<Key, Label>)
    requires DistinctKeys(rows)
    ensures Assignment(rows, graph, w, result)
  {
    var groups := BuildTimetable(rows, graph, w);
    var labels, b := Split(Spans(groups));
    result := LabelRows(rows, groups, labels);
    LabelsAreTheAssignment(rows, graph, w, groups, b, labels, result);
  }
}
