/** Union-find with path halving, as used to group pull requests. */
module UnionFind {
  import opened Connectivity

  /** A forest and what is known about it: the root each element leads to, a height that
      strictly grows on the way there, and a bound on heights. */
  datatype Links<!T> = Links(parent: map<T, T>, root: map<T, T>, height: map<T, nat>, top: nat)

  ghost predicate SameKeys<T>(l: Links<T>) {
    l.parent.Keys == l.root.Keys == l.height.Keys
  }

  ghost predicate Node<T>(l: Links<T>, p: T)
    requires SameKeys(l) && p in l.parent
  {
    var q, r := l.parent[p], l.root[p];
    && q in l.parent && r in l.parent
    && l.root[q] == r && l.root[r] == r && l.parent[r] == r
    && (q == p <==> r == p)
    && l.height[p] <= l.top
    && (q != p ==> l.height[p] < l.height[q])
  }

  ghost predicate Tree<T(!new)>(l: Links<T>) {
    SameKeys(l) && forall p {:trigger Node(l, p)} :: p in l.parent ==> Node(l, p)
  }

  /** Skipping a generation keeps every root. */
  lemma HalvingKeepsTree<T(!new)>(l: Links<T>, p: T) returns (h: Links<T>)
    requires Tree(l) && p in l.parent
    ensures l.parent[p] in l.parent
    ensures h == l.(parent := l.parent[p := l.parent[l.parent[p]]]) && Tree(h)
    ensures h.parent[p] in l.parent && l.root[h.parent[p]] == l.root[p]
    ensures l.parent[p] != p ==> l.height[p] < l.height[h.parent[p]] <= l.top
  {
    assert Node(l, p);
    var q := l.parent[p];
    assert Node(l, q);
    assert Node(l, l.parent[q]);
    h := l.(parent := l.parent[p := l.parent[q]]);
    forall x | x in h.parent
      ensures Node(h, x)
    {
      assert Node(l, x);
      assert Node(l, l.root[x]);
    }
  }

  function Merged<T>(root: map<T, T>, below: T, above: T): map<T, T> {
    map p | p in root :: if root[p] == below then above else root[p]
  }

  /** Hanging one root under another merges exactly the two trees. */
  lemma HangingKeepsTree<T(!new)>(l: Links<T>, below: T, above: T) returns (h: Links<T>)
    requires Tree(l) && below in l.parent && above in l.parent
    requires l.root[below] == below && l.root[above] == above
    ensures h.parent == l.parent[below := above] && h.root == Merged(l.root, below, above) && Tree(h)
  {
    assert Node(l, below) && Node(l, above);
    if below == above {
      h := l.(parent := l.parent[below := above], root := Merged(l.root, below, above));
      assert h.parent == l.parent && h.root == l.root;
    } else {
      var lifted := if l.height[above] > l.height[below] then l.height[above] else l.height[below] + 1;
      h := Links(l.parent[below := above], Merged(l.root, below, above),
                 l.height[above := lifted], if l.top > lifted then l.top else lifted);
      assert SameKeys(h);
      forall x | x in h.parent
        ensures Node(h, x)
      {
        assert Node(l, x);
        assert Node(l, l.parent[x]);
        assert Node(l, l.root[x]);
      }
    }
  }

  /** Elements are grouped as the joined buckets demand and no further. */
  ghost predicate Grouped<T(!new)>(root: map<T, T>, joined: set<Bucket<T>>) {
    && (forall b :: b in joined ==> b <= root.Keys)
    && (forall p, q :: p in root && q in root && root[p] == root[q] ==> Connected(joined, p, q))
    && (forall b, p, q :: b in joined && p in b && q in b ==> root[p] == root[q])
  }

  /** One root exactly when a chain of joined buckets links them. */
  lemma SameRootMeansConnected<T(!new)>(root: map<T, T>, joined: set<Bucket<T>>, p: T, q: T)
    requires Grouped(root, joined) && p in root && q in root
    ensures root[p] == root[q] <==> Connected(joined, p, q)
  {
    if Connected(joined, p, q) {
      var chain :| ChainFrom(joined, chain, p, q);
      ChainKeepsLabel(joined, root, chain, p, q);
    }
  }

  /** While a bucket is being joined: the older buckets are whole, and nothing is merged that
      the older buckets and this one do not connect. */
  ghost predicate Joining<T(!new)>(root: map<T, T>, joined: set<Bucket<T>>, after: set<Bucket<T>>) {
    && (forall b :: b in joined ==> b <= root.Keys)
    && (forall p, q :: p in root && q in root && root[p] == root[q] ==> Connected(after, p, q))
    && (forall b, p, q :: b in joined && p in b && q in b ==> root[p] == root[q])
  }

  lemma StartJoining<T(!new)>(root: map<T, T>, joined: set<Bucket<T>>, after: set<Bucket<T>>)
    requires Grouped(root, joined) && joined <= after
    ensures Joining(root, joined, after)
  {
    forall p, q | p in root && q in root && root[p] == root[q]
      ensures Connected(after, p, q)
    {
      MoreBucketsConnectMore(joined, after, p, q);
    }
  }

  lemma MergeKeepsJoining<T(!new)>(root: map<T, T>, joined: set<Bucket<T>>, after: set<Bucket<T>>, first: T, pr: T)
    requires Joining(root, joined, after) && first in root && pr in root && Share(after, first, pr)
    ensures Joining(Merged(root, root[pr], root[first]), joined, after)
  {
    var merged := Merged(root, root[pr], root[first]);
    forall p, q | p in merged && q in merged && merged[p] == merged[q]
      ensures Connected(after, p, q)
    {
      SharedIsConnected(after, first, pr);
      ConnectedSymmetric(after, first, pr);
      if root[p] == root[pr] && root[q] != root[pr] {
        ConnectedTransitive(after, p, pr, first);
        ConnectedTransitive(after, p, first, q);
      } else if root[p] != root[pr] && root[q] == root[pr] {
        ConnectedTransitive(after, p, first, pr);
        ConnectedTransitive(after, p, pr, q);
      }
    }
  }

  class Forest<!T(!new, ==)> {
    var parent: map<T, T>
    ghost var links: Links<T>
    ghost var joined: set<Bucket<T>>

    ghost predicate Valid()
      reads this
    {
      Tree(links) && links.parent == parent && Grouped(links.root, joined)
    }

    constructor (universe: set<T>)
      ensures Valid() && parent.Keys == universe && joined == {}
    {
      var self := map p | p in universe :: p;
      parent, links, joined := self, Links(self, self, map p | p in universe :: 0, 0), {};
      new;
      forall p | p in parent
        ensures Node(links, p)
      {
      }
      forall p, q | p in self && q in self && self[p] == self[q]
        ensures Connected(joined, p, q)
      {
        SharedIsConnected(joined, p, q);
      }
    }

    /** Walks to the root, pointing every visited element at its grandparent. */
    method Root(start: T) returns (pr: T)
      requires Tree(links) && links.parent == parent && start in parent
      modifies this`parent, this`links
      ensures Tree(links) && links.parent == parent && parent.Keys == old(parent.Keys)
      ensures links.root == old(links.root) && pr in parent && pr == links.root[start] == links.root[pr]
    {
      pr := start;
      assert Node(links, start);
      while parent[pr] != pr
        invariant Tree(links) && links.parent == parent && parent.Keys == old(parent.Keys)
        invariant links == old(links).(parent := parent)
        invariant pr in parent && links.root[pr] == links.root[start]
        decreases links.top - links.height[pr]
      {
        ghost var halved := HalvingKeepsTree(links, pr);
        parent := parent[pr := parent[parent[pr]]];
        links := halved;
        pr := parent[pr];
      }
      assert Node(links, pr);
    }

    method Find(p: T) returns (r: T)
      requires Valid() && p in parent
      modifies this`parent, this`links
      ensures Valid() && parent.Keys == old(parent.Keys)
      ensures links.root == old(links.root) && r in links.root && r == links.root[p] == links.root[r]
    {
      r := Root(p);
    }

    /** Hang the root of `pr` under the root of `first`. */
    method Union(first: T, pr: T)
      requires Tree(links) && links.parent == parent && first in parent && pr in parent
      modifies this`parent, this`links
      ensures Tree(links) && links.parent == parent && parent.Keys == old(parent.Keys)
      ensures links.root == Merged(old(links.root), old(links.root)[pr], old(links.root)[first])
    {
      var above := Root(first);
      var below := Root(pr);
      ghost var hung := HangingKeepsTree(links, below, above);
      parent := parent[below := above];
      links := hung;
    }

    /** Put all of `prs`, in whatever order they come, into one tree. */
    method Join(prs: seq<T>)
      requires Valid() && forall p :: p in prs ==> p in parent
      modifies this
      ensures Valid() && parent.Keys == old(parent.Keys)
      ensures joined == old(joined) + {set p | p in prs}
    {
      ghost var bucket := set p | p in prs;
      ghost var after := joined + {bucket};
      StartJoining(links.root, joined, after);
      var i := 1;
      while i < |prs|
        invariant 1 <= i && joined == old(joined)
        invariant Tree(links) && links.parent == parent && parent.Keys == old(parent.Keys)
        invariant Joining(links.root, joined, after)
        invariant OneRoot(links.root, prs, i)
      {
        assert Share(after, prs[0], prs[i]) by {
          assert prs[0] in bucket && prs[i] in bucket && bucket in after;
        }
        MergeKeepsJoining(links.root, joined, after, prs[0], prs[i]);
        MergeKeepsOneRoot(links.root, prs, i);
        Union(prs[0], prs[i]);
        i := i + 1;
      }
      FinishJoining(links.root, joined, prs);
      joined := after;
    }
  }

  /** The first `n` of `prs` lead to one root. */
  ghost predicate OneRoot<T>(root: map<T, T>, prs: seq<T>, n: nat) {
    && (forall p :: p in prs ==> p in root)
    && (forall k :: 0 <= k < n && k < |prs| ==> root[prs[k]] == root[prs[0]])
  }

  lemma MergeKeepsOneRoot<T>(root: map<T, T>, prs: seq<T>, i: nat)
    requires 1 <= i < |prs| && OneRoot(root, prs, i)
    ensures OneRoot(Merged(root, root[prs[i]], root[prs[0]]), prs, i + 1)
  {
  }

  lemma FinishJoining<T(!new)>(root: map<T, T>, joined: set<Bucket<T>>, prs: seq<T>)
    requires Joining(root, joined, joined + {set p | p in prs}) && OneRoot(root, prs, |prs|)
    ensures Grouped(root, joined + {set p | p in prs})
  {
    var bucket := set p | p in prs;
    forall p, q | p in bucket && q in bucket
      ensures root[p] == root[q]
    {
    }
  }
}
