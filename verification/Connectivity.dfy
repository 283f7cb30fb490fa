/** Being linked by a chain of evidence: each bucket holds everything one piece of evidence
    names, and a chain steps from element to element within a bucket. */
module Connectivity {

  type Bucket<!T> = set<T>

  ghost predicate Share<T(!new)>(buckets: set<Bucket<T>>, p: T, q: T) {
    p == q || exists b :: b in buckets && p in b && q in b
  }

  ghost predicate Chain<T(!new)>(buckets: set<Bucket<T>>, chain: seq<T>) {
    |chain| > 0 && forall i :: 0 < i < |chain| ==> Share(buckets, chain[i - 1], chain[i])
  }

  ghost predicate ChainFrom<T(!new)>(buckets: set<Bucket<T>>, chain: seq<T>, p: T, q: T) {
    Chain(buckets, chain) && chain[0] == p && chain[|chain| - 1] == q
  }

  ghost predicate Connected<T(!new)>(buckets: set<Bucket<T>>, p: T, q: T) {
    exists chain :: ChainFrom(buckets, chain, p, q)
  }

  lemma SharedIsConnected<T(!new)>(buckets: set<Bucket<T>>, p: T, q: T)
    requires Share(buckets, p, q)
    ensures Connected(buckets, p, q)
  {
    assert ChainFrom(buckets, [p, q], p, q);
  }

  lemma ConnectedTransitive<T(!new)>(buckets: set<Bucket<T>>, p: T, q: T, r: T)
    requires Connected(buckets, p, q) && Connected(buckets, q, r)
    ensures Connected(buckets, p, r)
  {
    var a :| ChainFrom(buckets, a, p, q);
    var b :| ChainFrom(buckets, b, q, r);
    assert Share(buckets, q, q);
    assert ChainFrom(buckets, a + b, p, r);
  }

  lemma {:induction false} ChainReverses<T(!new)>(buckets: set<Bucket<T>>, chain: seq<T>, p: T, q: T)
    requires ChainFrom(buckets, chain, p, q)
    ensures Connected(buckets, q, p)
    decreases |chain|
  {
    if |chain| == 1 {
      assert ChainFrom(buckets, [q], q, p);
    } else {
      var rest := chain[..|chain| - 1];
      var mid := rest[|rest| - 1];
      assert ChainFrom(buckets, rest, p, mid);
      ChainReverses(buckets, rest, p, mid);
      SharedIsConnected(buckets, q, mid);
      ConnectedTransitive(buckets, q, mid, p);
    }
  }

  lemma ConnectedSymmetric<T(!new)>(buckets: set<Bucket<T>>, p: T, q: T)
    requires Connected(buckets, p, q)
    ensures Connected(buckets, q, p)
  {
    var chain :| ChainFrom(buckets, chain, p, q);
    ChainReverses(buckets, chain, p, q);
  }

  /** Buckets whose members are all connected by `strong` connect nothing more than it does. */
  lemma {:induction false} ChainTransfers<T(!new)>(
    weak: set<Bucket<T>>, strong: set<Bucket<T>>, chain: seq<T>, p: T, q: T)
    requires forall a, b :: Share(weak, a, b) ==> Connected(strong, a, b)
    requires ChainFrom(weak, chain, p, q)
    ensures Connected(strong, p, q)
    decreases |chain|
  {
    if |chain| == 1 {
      assert ChainFrom(strong, [p], p, q);
    } else {
      var rest := chain[..|chain| - 1];
      var mid := rest[|rest| - 1];
      assert ChainFrom(weak, rest, p, mid);
      ChainTransfers(weak, strong, rest, p, mid);
      assert Share(weak, mid, q);
      ConnectedTransitive(strong, p, mid, q);
    }
  }

  lemma ConnectedTransfers<T(!new)>(weak: set<Bucket<T>>, strong: set<Bucket<T>>, p: T, q: T)
    requires forall a, b :: Share(weak, a, b) ==> Connected(strong, a, b)
    requires Connected(weak, p, q)
    ensures Connected(strong, p, q)
  {
    var chain :| ChainFrom(weak, chain, p, q);
    ChainTransfers(weak, strong, chain, p, q);
  }

  lemma MoreBucketsConnectMore<T(!new)>(weak: set<Bucket<T>>, strong: set<Bucket<T>>, p: T, q: T)
    requires weak <= strong && Connected(weak, p, q)
    ensures Connected(strong, p, q)
  {
    forall a, b | Share(weak, a, b)
      ensures Connected(strong, a, b)
    {
      SharedIsConnected(strong, a, b);
    }
    ConnectedTransfers(weak, strong, p, q);
  }

  /** A labelling that agrees within every bucket agrees along every chain. */
  lemma {:induction false} ChainKeepsLabel<T(!new), L>(
    buckets: set<Bucket<T>>, mark: map<T, L>, chain: seq<T>, p: T, q: T)
    requires ChainFrom(buckets, chain, p, q) && p in mark && forall b :: b in buckets ==> b <= mark.Keys
    requires forall b, x, y :: b in buckets && x in b && y in b ==> mark[x] == mark[y]
    ensures q in mark && mark[q] == mark[p]
    decreases |chain|
  {
    if |chain| > 1 {
      var rest := chain[..|chain| - 1];
      var mid := rest[|rest| - 1];
      assert ChainFrom(buckets, rest, p, mid);
      ChainKeepsLabel(buckets, mark, rest, p, mid);
      assert Share(buckets, mid, q);
    }
  }
}
