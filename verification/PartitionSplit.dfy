/** Splitting the chronologically sorted groups into replay partitions. */
module PartitionSplit {

  datatype Label = Development | Calibration | ReviewHoldout | ModelHoldout | Quarantine

  /** Chronological order of the partitions. */
  function Rank(l: Label): nat {
    match l
    case Development => 0
    case Calibration => 1
    case ReviewHoldout => 2
    case ModelHoldout => 3
    case Quarantine => 4
  }

  /** What splitting looks at: how many pull requests a group has and when it was published. */
  datatype Span = Span(size: nat, first: int, last: int)

  function Total(spans: seq<Span>): nat {
    if spans == [] then 0 else spans[0].size + Total(spans[1..])
  }

  lemma {:induction false} TotalAppend(a: seq<Span>, b: seq<Span>)
    ensures Total(a + b) == Total(a) + Total(b)
  {
    if a == [] {
      assert a + b == b;
    } else {
      assert (a + b)[1..] == a[1..] + b;
      TotalAppend(a[1..], b);
    }
  }

  lemma TotalExtends(spans: seq<Span>, i: nat)
    requires i < |spans|
    ensures Total(spans[..i + 1]) == Total(spans[..i]) + spans[i].size
    ensures Total(spans[i..]) == spans[i].size + Total(spans[i + 1..])
    ensures Total(spans) == Total(spans[..i]) + Total(spans[i..])
  {
    TotalSplits(spans, i);
    assert spans[i..][1..] == spans[i + 1..];
    PrefixExtends(spans, i);
  }

  lemma PrefixExtends(spans: seq<Span>, i: nat)
    requires i < |spans|
    ensures Total(spans[..i + 1]) == Total(spans[..i]) + spans[i].size
  {
    TotalSplits(spans[..i + 1], i);
    assert spans[..i + 1][..i] == spans[..i];
    TotalOfOne(spans[..i + 1][i..]);
  }

  lemma TotalOfOne(spans: seq<Span>)
    requires |spans| == 1
    ensures Total(spans) == spans[0].size
  {
    assert spans[1..] == [];
  }

  lemma TotalSplits(spans: seq<Span>, i: nat)
    requires i <= |spans|
    ensures Total(spans) == Total(spans[..i]) + Total(spans[i..])
  {
    TotalAppend(spans[..i], spans[i..]);
    assert spans == spans[..i] + spans[i..];
  }

  // ------------------------------------------------ the rule, stated

  /** The model holdout `spans[b..]` is the smallest suffix of whole groups that reaches a fifth
      of all pull requests. */
  ghost predicate HoldoutStartsAt(spans: seq<Span>, b: nat) {
    && b <= |spans|
    && 5 * Total(spans[b..]) >= Total(spans)
    && forall c :: b < c <= |spans| ==> 5 * Total(spans[c..]) < Total(spans)
  }

  /** The label before overlaps are quarantined. */
  function Planned(spans: seq<Span>, b: nat, i: nat): Label
    requires i < |spans| && b <= |spans|
  {
    if i >= b then ModelHoldout else OpenLabel(Total(spans[..i + 1]), Total(spans[..b]))
  }

  function OpenLabel(cumulative: nat, remaining: nat): Label {
    if 5 * cumulative <= 3 * remaining then Development
    else if 5 * cumulative <= 4 * remaining then Calibration
    else ReviewHoldout
  }

  /** A later partition starts no later than the group's last publication. */
  predicate Overlaps(spans: seq<Span>, b: nat, i: nat)
    requires i < |spans| && b <= |spans|
  {
    exists j :: 0 <= j < |spans| && Rank(Planned(spans, b, j)) > Rank(Planned(spans, b, i)) &&
                spans[j].first <= spans[i].last
  }

  function Final(spans: seq<Span>, b: nat, i: nat): Label
    requires i < |spans| && b <= |spans|
  {
    if Overlaps(spans, b, i) then Quarantine else Planned(spans, b, i)
  }

  // ------------------------------------------------ consequences

  lemma HoldoutIsUnique(spans: seq<Span>, a: nat, b: nat)
    requires HoldoutStartsAt(spans, a) && HoldoutStartsAt(spans, b)
    ensures a == b
  {
  }

  lemma {:induction false} PrefixTotalsGrow(spans: seq<Span>, i: nat, j: nat)
    requires i <= j <= |spans|
    ensures Total(spans[..i]) <= Total(spans[..j])
  {
    if i < j {
      PrefixTotalsGrow(spans, i, j - 1);
      TotalExtends(spans, j - 1);
    }
  }

  /** Labels are ordered along the groups. */
  lemma LabelsAreOrdered(spans: seq<Span>, b: nat, i: nat, j: nat)
    requires i <= j < |spans| && b <= |spans|
    ensures Rank(Planned(spans, b, i)) <= Rank(Planned(spans, b, j))
  {
    PrefixTotalsGrow(spans, i + 1, j + 1);
  }

  /** Development is the largest prefix of whole groups within three fifths of what the model
      holdout leaves, and development with calibration the largest within four fifths. */
  lemma OpenPartitionsAreLargestPrefixes(spans: seq<Span>, b: nat, n: nat)
    requires b <= |spans| && n <= b
    ensures (forall i :: 0 <= i < n ==> Planned(spans, b, i) == Development) <==>
            (n > 0 ==> 5 * Total(spans[..n]) <= 3 * Total(spans[..b]))
    ensures (forall i :: 0 <= i < n ==> Planned(spans, b, i).Development? || Planned(spans, b, i).Calibration?) <==>
            (n > 0 ==> 5 * Total(spans[..n]) <= 4 * Total(spans[..b]))
  {
    if n > 0 {
      var last := Planned(spans, b, n - 1);
      assert spans[..n - 1 + 1] == spans[..n];
      assert last == Development <==> 5 * Total(spans[..n]) <= 3 * Total(spans[..b]);
      forall i | 0 <= i < n
        ensures Rank(Planned(spans, b, i)) <= Rank(Planned(spans, b, n - 1))
      {
        LabelsAreOrdered(spans, b, i, n - 1);
      }
    }
  }

  lemma PlannedIsRanked(spans: seq<Span>, b: nat, i: nat)
    requires i < |spans| && b <= |spans|
    ensures Rank(Planned(spans, b, i)) < Rank(Quarantine)
  {
  }

  lemma FinalIsPlanned(spans: seq<Span>, b: nat, i: nat)
    requires i < |spans| && b <= |spans| && Final(spans, b, i) != Quarantine
    ensures Final(spans, b, i) == Planned(spans, b, i)
  {
  }

  /** Every publication of a kept group is strictly before every publication of a group planned
      in a later partition, be that one kept or itself quarantined, whatever the groups were and
      however they were ordered. */
  lemma KeptPartitionsAreSeparated(spans: seq<Span>, b: nat, i: nat, j: nat)
    requires i < |spans| && j < |spans| && b <= |spans|
    requires Rank(Final(spans, b, i)) < Rank(Planned(spans, b, j))
    ensures spans[i].last < spans[j].first
  {
  }

  /** And it is kept whenever it ends before every group planned later begins: no embargo applies. */
  lemma KeptExactlyWhenApart(spans: seq<Span>, b: nat, i: nat)
    requires i < |spans| && b <= |spans|
    ensures Final(spans, b, i) == Planned(spans, b, i) <==>
            forall j :: 0 <= j < |spans| && Rank(Planned(spans, b, j)) > Rank(Planned(spans, b, i)) ==>
              spans[i].last < spans[j].first
    ensures Final(spans, b, i) == Quarantine <==> Final(spans, b, i) != Planned(spans, b, i)
  {
    PlannedIsRanked(spans, b, i);
  }

  // ------------------------------------------------ the loops

  /** Reserve whole groups from the latest backwards until a fifth is reached. */
  method Reserve(spans: seq<Span>) returns (boundary: nat, reserved: nat)
    ensures HoldoutStartsAt(spans, boundary) && reserved == Total(spans[boundary..])
    ensures 5 * reserved >= Total(spans) && (boundary < |spans| ==> 5 * Total(spans[boundary + 1..]) < Total(spans))
  {
    var total := Total(spans);
    reserved, boundary := 0, |spans|;
    while boundary > 0 && 5 * reserved < total
      invariant boundary <= |spans| && reserved == Total(spans[boundary..])
      invariant forall c :: boundary < c <= |spans| ==> 5 * Total(spans[c..]) < total
    {
      boundary := boundary - 1;
      TotalExtends(spans, boundary);
      reserved := reserved + spans[boundary].size;
    }
    assert spans[0..] == spans;
  }

  /** Label the groups before overlaps are looked at. */
  method Plan(spans: seq<Span>) returns (planned: seq<Label>, ghost b: nat)
    ensures HoldoutStartsAt(spans, b) && |planned| == |spans|
    ensures forall i :: 0 <= i < |spans| ==> planned[i] == Planned(spans, b, i)
  {
    var boundary, reserved := Reserve(spans);
    b := boundary;
    var remaining, cumulative := Total(spans) - reserved, 0;
    TotalSplits(spans, b);
    planned := [];
    for i := 0 to boundary
      invariant |planned| == i && cumulative == Total(spans[..i])
      invariant forall k :: 0 <= k < i ==> planned[k] == Planned(spans, b, k)
    {
      PrefixExtends(spans, i);
      cumulative := cumulative + spans[i].size;
      planned := planned + [OpenLabel(cumulative, remaining)];
    }
    planned := planned + seq(|spans| - boundary, _ => ModelHoldout);
  }

  /** Label the groups, then quarantine those that reach into a later partition. */
  method Split(spans: seq<Span>) returns (labels: seq<Label>, ghost b: nat)
    ensures HoldoutStartsAt(spans, b) && |labels| == |spans|
    ensures forall i :: 0 <= i < |spans| ==> labels[i] == Final(spans, b, i)
    // A group keeps its planned label exactly when it ends before every group planned later begins.
    ensures forall i :: 0 <= i < |spans| ==> labels[i] in {Planned(spans, b, i), Quarantine}
    ensures forall i :: 0 <= i < |spans| ==>
              (labels[i] == Planned(spans, b, i) <==>
               forall j :: 0 <= j < |spans| && Rank(Planned(spans, b, j)) > Rank(Planned(spans, b, i)) ==>
                 spans[i].last < spans[j].first)
  {
    var planned;
    planned, b := Plan(spans);
    labels := QuarantineOverlaps(spans, planned, b);
    forall i | 0 <= i < |spans|
      ensures labels[i] == Planned(spans, b, i) <==>
              forall j :: 0 <= j < |spans| && Rank(Planned(spans, b, j)) > Rank(Planned(spans, b, i)) ==>
                spans[i].last < spans[j].first
    {
      KeptExactlyWhenApart(spans, b, i);
    }
  }

  method QuarantineOverlaps(spans: seq<Span>, planned: seq<Label>, ghost b: nat) returns (labels: seq<Label>)
    requires b <= |spans| == |planned| && forall i :: 0 <= i < |spans| ==> planned[i] == Planned(spans, b, i)
    ensures |labels| == |spans| && forall i :: 0 <= i < |spans| ==> labels[i] == Final(spans, b, i)
  {
    labels := [];
    for i := 0 to |spans|
      invariant |labels| == i && forall k :: 0 <= k < i ==> labels[k] == Final(spans, b, k)
    {
      var cutoff, any := EarliestAfter(spans, planned, planned[i]);
      assert any && spans[i].last >= cutoff ==> Overlaps(spans, b, i);
      labels := labels + [if any && spans[i].last >= cutoff then Quarantine else planned[i]];
    }
  }

  /** The earliest first publication among the partitions after `l`, if there are any. */
  method EarliestAfter(spans: seq<Span>, planned: seq<Label>, l: Label) returns (cutoff: int, any: bool)
    requires |planned| == |spans|
    ensures any <==> exists j :: 0 <= j < |spans| && Rank(planned[j]) > Rank(l)
    ensures any ==> exists j :: 0 <= j < |spans| && Rank(planned[j]) > Rank(l) && spans[j].first == cutoff
    ensures forall j :: 0 <= j < |spans| && Rank(planned[j]) > Rank(l) ==> cutoff <= spans[j].first
  {
    cutoff, any := 0, false;
    for i := 0 to |spans|
      invariant any <==> exists j :: 0 <= j < i && Rank(planned[j]) > Rank(l)
      invariant any ==> exists j :: 0 <= j < i && Rank(planned[j]) > Rank(l) && spans[j].first == cutoff
      invariant forall j :: 0 <= j < i && Rank(planned[j]) > Rank(l) ==> cutoff <= spans[j].first
    {
      if Rank(planned[i]) > Rank(l) && (!any || spans[i].first < cutoff) {
        cutoff, any := spans[i].first, true;
      }
    }
  }
}
