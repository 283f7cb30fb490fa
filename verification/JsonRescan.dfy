/** Rescanning a span later agrees with the first pass: nesting only ever makes the scanner
    refuse, and the children it walks over are the same. */
module JsonRescan {
  import opened JsonGrammar
  import opened JsonScan
  import opened Options

  /** What was accepted deep inside a document is accepted, with the same end, nearer the top. */
  lemma {:induction false} ShallowerAgrees(data: string, i: nat, depth: nat, shallow: nat)
    requires i <= |data| && shallow <= depth && ScanValue(data, i, depth).Some?
    ensures ScanValue(data, i, shallow) == ScanValue(data, i, depth)
    decreases |data| - i, 0
  {
    if data[i] == '{' || data[i] == '[' {
      ShallowerContainerAgrees(data, i, depth, shallow);
    }
  }

  lemma {:induction false} ShallowerContainerAgrees(data: string, i: nat, depth: nat, shallow: nat)
    requires i < |data| && (data[i] == '{' || data[i] == '[')
    requires shallow <= depth && ScanContainer(data, i, depth).Some?
    ensures ScanContainer(data, i, shallow) == ScanContainer(data, i, depth)
    decreases |data| - i, 0, 0
  {
    var j := SkipSpace(data, i + 1);
    if data[j] != Close(data[i] == '{') {
      ShallowerEntriesAgree(data, j, depth, shallow, data[i] == '{', {});
    }
  }

  lemma {:induction false} ShallowerEntriesAgree(
    data: string, i: nat, depth: nat, shallow: nat, named: bool, seen: set<seq<nat>>)
    requires i <= |data| && shallow <= depth && ScanEntries(data, i, depth, named, seen).Some?
    ensures ScanEntries(data, i, shallow, named, seen) == ScanEntries(data, i, depth, named, seen)
    decreases |data| - i, 2
  {
    ShallowerEntryAgrees(data, i, depth, shallow, named, seen);
    var t := ScanEntry(data, i, depth, named, seen);
    if t.More? {
      ShallowerEntriesAgree(data, t.next, depth, shallow, named, seen + {t.child.name});
    }
  }

  lemma {:induction false} ShallowerEntryAgrees(
    data: string, i: nat, depth: nat, shallow: nat, named: bool, seen: set<seq<nat>>)
    requires i <= |data| && shallow <= depth && !ScanEntry(data, i, depth, named, seen).Refuse?
    ensures ScanEntry(data, i, shallow, named, seen) == ScanEntry(data, i, depth, named, seen)
    decreases |data| - i, 1
  {
    ShallowerAgrees(data, ScanName(data, i, named, seen).value, depth + 1, shallow + 1);
  }

  /** Children lie in order, apart from each other and inside `lo..hi`. */
  ghost predicate InOrder(children: seq<Child>, lo: nat, hi: nat) {
    && (forall k :: 0 <= k < |children| ==> lo <= children[k].start < children[k].end < hi)
    && (forall k, m :: 0 <= k < m < |children| ==> children[k].end < children[m].start)
  }

  /** Names are new and distinct, as far as members have names. */
  ghost predicate NewNames(children: seq<Child>, named: bool, seen: set<seq<nat>>) {
    named ==>
      && (forall k :: 0 <= k < |children| ==> children[k].name !in seen)
      && (forall k, m :: 0 <= k < m < |children| ==> children[k].name != children[m].name)
  }

  lemma PrependKeepsNames(c: Child, rest: seq<Child>, named: bool, seen: set<seq<nat>>)
    requires NewNames(rest, named, seen + {c.name}) && (named ==> c.name !in seen)
    ensures NewNames([c] + rest, named, seen)
  {
  }

  /** Each child is itself a value the first pass scanned, one level down. */
  ghost predicate AreValues(data: string, children: seq<Child>, depth: nat) {
    forall c :: c in children ==> c.start <= |data| && ScanValue(data, c.start, depth + 1) == Some(c.end)
  }

  lemma {:induction false} ChildrenAreInOrder(data: string, i: nat, depth: nat, named: bool, seen: set<seq<nat>>)
    requires i <= |data| && ScanEntries(data, i, depth, named, seen).Some?
    ensures var frame := ScanEntries(data, i, depth, named, seen).value;
            && InOrder(frame.children, i, frame.end) && AreValues(data, frame.children, depth)
            && NewNames(frame.children, named, seen)
    decreases |data| - i
  {
    var t := ScanEntry(data, i, depth, named, seen);
    EntryIsValue(data, i, depth, named, seen);
    if t.More? {
      ChildrenAreInOrder(data, t.next, depth, named, seen + {t.child.name});
      var rest := ScanEntries(data, t.next, depth, named, seen + {t.child.name}).value;
      PrependKeepsOrder(t.child, rest.children, i, t.next, rest.end);
      PrependKeepsNames(t.child, rest.children, named, seen);
    }
  }

  lemma EntryIsValue(data: string, i: nat, depth: nat, named: bool, seen: set<seq<nat>>)
    requires i <= |data| && !ScanEntry(data, i, depth, named, seen).Refuse?
    ensures var c := ScanEntry(data, i, depth, named, seen).child;
            && c.start <= |data| && ScanValue(data, c.start, depth + 1) == Some(c.end)
            && (named ==> c.name !in seen)
  {
  }

  lemma PrependKeepsOrder(c: Child, rest: seq<Child>, lo: nat, mid: nat, hi: nat)
    requires lo <= c.start < c.end < mid && mid < hi && InOrder(rest, mid, hi)
    ensures InOrder([c] + rest, lo, hi)
  {
    var all := [c] + rest;
    forall k, m | 0 <= k < m < |all|
      ensures all[k].end < all[m].start
    {
      assert all[m] == rest[m - 1];
      assert k > 0 ==> all[k] == rest[k - 1];
    }
  }

  /** Any container span the first pass scanned, at whatever depth: its children are ordered,
      disjoint, inside it, distinctly named, and are again spans of the first pass. */
  lemma ContainerChildren(data: string, i: nat, depth: nat)
    requires i < |data| && (data[i] == '{' || data[i] == '[') && ScanContainer(data, i, depth).Some?
    ensures var frame := ScanContainer(data, i, depth).value;
            && InOrder(frame.children, i + 1, frame.end) && AreValues(data, frame.children, depth)
            && NewNames(frame.children, data[i] == '{', {})
  {
    var j := SkipSpace(data, i + 1);
    if data[j] != Close(data[i] == '{') {
      ChildrenAreInOrder(data, j, depth, data[i] == '{', {});
    }
  }
}
