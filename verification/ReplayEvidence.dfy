/** What the exported rows say about pull requests: which evidence they share and what about
    them is unresolved. */
module ReplayEvidence {
  import opened Connectivity
  import opened Options

  type Key = nat  // a row's locator key

  datatype Pr = Pr(repo: nat, id: Option<nat>)

  /** A validated observation; identities, digests and times are plain numbers. */
  datatype Row = Row(
    key: Key,
    locator: nat,
    repo: nat,
    prId: Option<nat>,
    number: Option<nat>,
    legacy: bool,
    sourceId: nat,
    provider: Option<nat>,
    published: Option<int>,
    headKnown: bool,
    publicationKeyKnown: bool,
    aliases: set<nat>,
    content: nat)

  function PrOf(r: Row): Pr {
    Pr(r.repo, r.prId)
  }

  /** Complete stacks by identity; no pull request is in two of them. */
  type Graph = map<nat, set<Pr>>

  datatype Window = Window(start: int, until: int)

  /** One piece of evidence that can tie pull requests together. */
  datatype Evidence =
    | Public(repo: nat, number: nat)
    | Stack(id: nat)
    | Source(legacy: bool, id: nat)
    | Provider(repo: nat, review: nat)
    | Alias(id: nat)

  function EvidenceOf(graph: Graph, r: Row): set<Evidence> {
    (if r.number.Some? then {Public(r.repo, r.number.value)} else {}) +
    (set g | g in graph && PrOf(r) in graph[g] :: Stack(g)) +
    {Source(r.legacy, r.sourceId)} +
    (if r.provider.Some? then {Provider(r.repo, r.provider.value)} else {}) +
    (if r.legacy then {Alias(r.sourceId)} else {}) +
    (set a | a in r.aliases :: Alias(a))
  }

  function Universe(rows: seq<Row>): set<Pr> {
    set r | r in rows :: PrOf(r)
  }

  function AllEvidence(rows: seq<Row>, graph: Graph): set<Evidence> {
    set r, e | r in rows && e in EvidenceOf(graph, r) :: e
  }

  /** The pull requests one piece of evidence names. */
  function Named(rows: seq<Row>, graph: Graph, e: Evidence): set<Pr> {
    set r | r in rows && e in EvidenceOf(graph, r) :: PrOf(r)
  }

  function Buckets(rows: seq<Row>, graph: Graph): set<Bucket<Pr>> {
    set e | e in AllEvidence(rows, graph) :: Named(rows, graph, e)
  }

  /** A chain of evidence links the two. */
  ghost predicate Linked(rows: seq<Row>, graph: Graph, p: Pr, q: Pr) {
    Connected(Buckets(rows, graph), p, q)
  }

  // ------------------------------------------------ what is unresolved

  predicate InSomeStack(graph: Graph, p: Pr) {
    exists g :: g in graph && p in graph[g]
  }

  predicate RowUnresolved(rows: seq<Row>, graph: Graph, w: Window, r: Row) {
    || r.prId.None? || r.number.None?
    || !InSomeStack(graph, PrOf(r))
    || r.published.None? || r.provider.None? || !r.headKnown || !r.publicationKeyKnown
    || !(w.start <= r.published.value < w.until)
    || exists s :: s in rows && PrOf(s) == PrOf(r) && s.number != r.number
  }

  /** Two rows bring the evidence but disagree about what must be one. */
  predicate Conflicts(rows: seq<Row>, graph: Graph, e: Evidence) {
    match e
    case Stack(g) => g in graph && Named(rows, graph, e) != graph[g]
    case Alias(_) => false
    case _ =>
      exists r, s :: r in rows && s in rows && e in EvidenceOf(graph, r) && e in EvidenceOf(graph, s) &&
        Disagree(e, r, s)
  }

  predicate Disagree(e: Evidence, r: Row, s: Row) {
    match e
    case Public(_, _) => PrOf(r) != PrOf(s)
    case Source(_, _) => r.content != s.content
    case Provider(_, _) => (r.legacy, r.sourceId) != (s.legacy, s.sourceId)
    case _ => false
  }

  ghost predicate Unresolved(rows: seq<Row>, graph: Graph, w: Window, p: Pr) {
    exists r :: r in rows && PrOf(r) == p &&
      (RowUnresolved(rows, graph, w, r) || exists e :: e in EvidenceOf(graph, r) && Conflicts(rows, graph, e))
  }

  // ------------------------------------------------ shared-review evidence joins nothing new

  /** The code joins the rows of one provider review only when they have different sources. */
  predicate Joins(rows: seq<Row>, graph: Graph, e: Evidence) {
    e.Provider? ==> Conflicts(rows, graph, e)
  }

  function JoinedBuckets(rows: seq<Row>, graph: Graph): set<Bucket<Pr>> {
    set e | e in AllEvidence(rows, graph) && Joins(rows, graph, e) :: Named(rows, graph, e)
  }

  lemma InNamed(rows: seq<Row>, graph: Graph, e: Evidence, r: Row)
    requires r in rows && e in EvidenceOf(graph, r)
    ensures PrOf(r) in Named(rows, graph, e) && e in AllEvidence(rows, graph)
  {
  }

  lemma AgreeingReviewSharesSource(rows: seq<Row>, graph: Graph, e: Evidence, p: Pr, q: Pr) returns (source: Evidence)
    requires e.Provider? && !Conflicts(rows, graph, e)
    requires p in Named(rows, graph, e) && q in Named(rows, graph, e)
    ensures source.Source? && source in AllEvidence(rows, graph)
    ensures p in Named(rows, graph, source) && q in Named(rows, graph, source)
  {
    var r :| r in rows && e in EvidenceOf(graph, r) && PrOf(r) == p;
    var s :| s in rows && e in EvidenceOf(graph, s) && PrOf(s) == q;
    assert !Disagree(e, r, s);
    source := Source(r.legacy, r.sourceId);
    InNamed(rows, graph, source, r);
    InNamed(rows, graph, source, s);
  }

  lemma SharedBucketIsJoined(rows: seq<Row>, graph: Graph, p: Pr, q: Pr)
    requires Share(Buckets(rows, graph), p, q)
    ensures Share(JoinedBuckets(rows, graph), p, q)
  {
    if p != q {
      var e :| e in AllEvidence(rows, graph) && p in Named(rows, graph, e) && q in Named(rows, graph, e);
      var f := e;
      if !Joins(rows, graph, e) {
        f := AgreeingReviewSharesSource(rows, graph, e, p, q);
      }
      assert Named(rows, graph, f) in JoinedBuckets(rows, graph);
    }
  }

  /** So skipping such joins links exactly the same pull requests. */
  lemma JoinedMeansLinked(rows: seq<Row>, graph: Graph, p: Pr, q: Pr)
    ensures Connected(JoinedBuckets(rows, graph), p, q) <==> Linked(rows, graph, p, q)
  {
    var joined, all := JoinedBuckets(rows, graph), Buckets(rows, graph);
    if Connected(joined, p, q) {
      assert joined <= all;
      MoreBucketsConnectMore(joined, all, p, q);
    }
    if Connected(all, p, q) {
      forall a, b | Share(all, a, b)
        ensures Connected(joined, a, b)
      {
        SharedBucketIsJoined(rows, graph, a, b);
        SharedIsConnected(joined, a, b);
      }
      ConnectedTransfers(all, joined, p, q);
    }
  }
}
