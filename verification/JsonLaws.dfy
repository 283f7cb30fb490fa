/** What the scanner decides, in terms of the names that were written and of the nesting. */
module JsonLaws {
  import opened JsonGrammar
  import opened JsonScan
  import opened JsonLanguage
  import opened JsonNames
  import opened JsonSoundness
  import opened Options

  // ------------------------------------------------ names

  /** The scanner stops at a name it has seen. */
  lemma SeenNameIsRefused(data: string, i: nat, entries: seq<Entry>, end: nat, depth: nat, seen: set<seq<nat>>)
    requires EntriesPlaced(data, i, true, entries, end) && LegalEntry(true, entries[0], depth)
    requires EntryName(true, entries[0]) in seen
    ensures i <= |data| && ScanEntries(data, SkipSpace(data, i), depth, true, seen) == None
  {
    var p := NamePlaced(data, i, entries, end);
    SeenTextIsRefused(data, p, p + |entries[0].name|, depth, seen);
  }

  lemma NamePlaced(data: string, i: nat, entries: seq<Entry>, end: nat) returns (p: nat)
    requires EntriesPlaced(data, i, true, entries, end) && IsText(entries[0].name) && AllSpace(entries[0].before)
    ensures i <= |data| && p == SkipSpace(data, i) && ScanText(data, p) == Some(p + |entries[0].name|)
    ensures data[p..p + |entries[0].name|] == entries[0].name
  {
    var s := PartsOf(true, entries);
    var v, w, k;
    p, v, w, k := FiveParts(data, i, s.before, NameText(true, s), s.value, s.after, s.rest, end);
    AtAppend(data, p, s.name, s.gap + (":" + s.lead));
    TextScans(data, p, s.name);
    SpacesAreSkipped(data, i, s.before);
  }

  lemma SeenTextIsRefused(data: string, p: nat, end: nat, depth: nat, seen: set<seq<nat>>)
    requires p <= |data| && ScanText(data, p) == Some(end) && NameOf(data[p..end]) in seen
    ensures ScanEntries(data, p, depth, true, seen) == None
  {
    assert ScanName(data, p, true, seen) == None;
  }

  lemma {:induction false} RepeatIsRefused(
    data: string, i: nat, entries: seq<Entry>, end: nat, depth: nat, seen: set<seq<nat>>)
    requires EntriesPlaced(data, i, true, entries, end)
    requires forall e :: e in entries ==> LegalEntry(true, e, depth)
    requires !LegalEntries(true, entries, depth, seen)
    ensures i <= |data| && ScanEntries(data, SkipSpace(data, i), depth, true, seen) == None
    decreases |entries|
  {
    assert entries[0] in entries;
    var next, name := AfterFirst(true, entries[0], i), EntryName(true, entries[0]);
    if name in seen {
      SeenNameIsRefused(data, i, entries, end, depth, seen);
    } else {
      FirstScans(data, i, true, entries, end, depth, seen);
      assert !LegalEntries(true, entries[1..], depth, seen + {name});
      RestPlace(data, i, true, entries, end);
      RepeatIsRefused(data, next, entries[1..], end, depth, seen + {name});
      RefusedRest(data, SkipSpace(data, i), depth, seen, FirstChild(true, entries[0], i), SkipSpace(data, next));
    }
  }

  lemma RefusedRest(data: string, p: nat, depth: nat, seen: set<seq<nat>>, child: Child, next: nat)
    requires p <= |data| && next <= |data| && ScanEntry(data, p, depth, true, seen) == More(child, next)
    requires ScanEntries(data, next, depth, true, seen + {child.name}) == None
    ensures ScanEntries(data, p, depth, true, seen) == None
  {
  }

  /** Each entry is well formed and named in some spelling of the given name. */
  ghost predicate Named(entries: seq<Entry>, names: seq<seq<nat>>, styles: seq<seq<Style>>, depth: nat) {
    && |entries| == |names| == |styles|
    && forall k :: 0 <= k < |entries| ==>
         && LegalEntry(true, entries[k], depth) && IsName(names[k]) && CanSpell(names[k], styles[k])
         && entries[k].name == Quoted(Spell(names[k], styles[k]))
  }

  ghost predicate AllDiffer(names: seq<seq<nat>>) {
    forall k, m :: 0 <= k < m < |names| ==> names[k] != names[m]
  }

  lemma NamesAreGiven(entries: seq<Entry>, names: seq<seq<nat>>, styles: seq<seq<Style>>, depth: nat)
    requires Named(entries, names, styles, depth)
    ensures forall k :: 0 <= k < |entries| ==> EntryName(true, entries[k]) == names[k]
    ensures LegalEntries(true, entries, depth, {}) <==> AllDiffer(names)
  {
    forall k | 0 <= k < |entries|
      ensures EntryName(true, entries[k]) == names[k]
    {
      QuotedGivesName(names[k], styles[k]);
    }
    LegalEntriesMeans(true, entries, depth, {});
  }

  lemma {:induction false} ChildNames(named: bool, entries: seq<Entry>, i: nat, k: nat)
    requires k < |entries|
    ensures |ChildSpans(named, entries, i)| == |entries|
    ensures ChildSpans(named, entries, i)[k].name == EntryName(named, entries[k])
    decreases |entries|
  {
    if |entries| > 1 {
      ChildNames(named, entries[1..], AfterFirst(named, entries[0], i), if k == 0 then 0 else k - 1);
    } else {
      assert entries[1..] == [];
    }
  }

  /** An object of well-formed members is accepted, wherever it stands, exactly when the names its
      members spell all differ, in whatever way each was spelled; and those are the names it gives
      its members. */
  lemma ObjectIsAcceptedExactlyWhenNamesDiffer(
    data: string, i: nat, pad: string, entries: seq<Entry>, names: seq<seq<nat>>, styles: seq<seq<Style>>, depth: nat)
    requires entries != [] && depth <= 64 && AllSpace(pad) && Named(entries, names, styles, depth)
    requires At(data, i, Print(Container(true, pad, entries)))
    ensures i < |data| && data[i] == '{'
    ensures ScanValue(data, i, depth).Some? <==> AllDiffer(names)
    ensures AllDiffer(names) ==>
              && ScanContainer(data, i, depth).Some?
              && var children := ScanContainer(data, i, depth).value.children;
                 |children| == |names| && forall k :: 0 <= k < |names| ==> children[k].name == names[k]
  {
    NamesAreGiven(entries, names, styles, depth);
    ContainerText(data, i, i + |Print(Container(true, pad, entries))|, Container(true, pad, entries));
    if AllDiffer(names) {
      DifferingNamesAreRead(data, i, pad, entries, names, depth);
    } else {
      RepeatedNameIsRefused(data, i, pad, entries, depth);
    }
  }

  lemma DifferingNamesAreRead(
    data: string, i: nat, pad: string, entries: seq<Entry>, names: seq<seq<nat>>, depth: nat)
    requires entries != [] && Legal(Container(true, pad, entries), depth) && |names| == |entries|
    requires forall k :: 0 <= k < |entries| ==> EntryName(true, entries[k]) == names[k]
    requires At(data, i, Print(Container(true, pad, entries)))
    ensures i < |data| && data[i] == '{' && ScanValue(data, i, depth).Some? && ScanContainer(data, i, depth).Some?
    ensures var children := ScanContainer(data, i, depth).value.children;
            |children| == |names| && forall k :: 0 <= k < |names| ==> children[k].name == names[k]
  {
    var j := Container(true, pad, entries);
    var end, children := i + |Print(j)|, ChildSpans(true, entries, i + 1);
    ContainerScans(data, i, end, j, depth);
    ContainerIsValue(data, i, depth, end, children);
    ChildNames(true, entries, i + 1, 0);
    forall k | 0 <= k < |names|
      ensures children[k].name == names[k]
    {
      ChildNames(true, entries, i + 1, k);
    }
  }

  lemma RepeatedNameIsRefused(data: string, i: nat, pad: string, entries: seq<Entry>, depth: nat)
    requires entries != [] && (forall e :: e in entries ==> LegalEntry(true, e, depth))
    requires At(data, i, Print(Container(true, pad, entries))) && !LegalEntries(true, entries, depth, {})
    ensures i < |data| && ScanValue(data, i, depth) == None
  {
    var j := Container(true, pad, entries);
    var end := i + |Print(j)|;
    ContainerText(data, i, end, j);
    assert entries[0] in entries;
    RepeatIsRefused(data, i + 1, entries, end - 1, depth, {});
    FirstIsNoBracket(data, i + 1, entries, end - 1, depth);
    RefusedContainer(data, i, true, depth);
  }

  lemma RefusedContainer(data: string, i: nat, named: bool, depth: nat)
    requires i < |data| && data[i] == Open(named)
    requires SkipSpace(data, i + 1) < |data| && data[SkipSpace(data, i + 1)] != Close(named)
    requires ScanEntries(data, SkipSpace(data, i + 1), depth, named, {}) == None
    ensures ScanValue(data, i, depth) == None
  {
  }

  lemma FirstIsNoBracket(data: string, i: nat, entries: seq<Entry>, end: nat, depth: nat)
    requires EntriesPlaced(data, i, true, entries, end) && LegalEntry(true, entries[0], depth)
    ensures i <= |data| && SkipSpace(data, i) < |data| && data[SkipSpace(data, i)] != Close(true)
  {
    FirstScans(data, i, true, entries, end, depth, {});
  }

  lemma StandsBetween(data: string, before: string, s: string, after: string)
    requires data == before + (s + after)
    ensures At(data, 0, before) && At(data, |before|, s)
  {
    assert data[0..|data|] == data;
    AtAppend(data, 0, before, s + after);
    AtAppend(data, |before|, s, after);
  }

  /** A whole text: two spellings of one name in one object are refused. */
  lemma TwoSpellingsAreRefused(
    data: string, before: string, pad: string, entries: seq<Entry>, after: string,
    names: seq<seq<nat>>, styles: seq<seq<Style>>, k: nat, m: nat)
    requires AllSpace(before) && AllSpace(pad) && Named(entries, names, styles, 0)
    requires data == before + (Print(Container(true, pad, entries)) + after)
    requires k < m < |entries| && names[k] == names[m]
    ensures !Accepts(data)
  {
    var j := Container(true, pad, entries);
    StandsBetween(data, before, Print(j), after);
    ObjectIsAcceptedExactlyWhenNamesDiffer(data, |before|, pad, entries, names, styles, 0);
    SpacesAreSkipped(data, 0, before);
  }

  // ------------------------------------------------ nesting

  /** More than 64 levels of nesting are refused, whatever they hold. */
  lemma {:induction false} DeepNestingIsRefused(data: string, i: nat, n: nat, depth: nat)
    requires i + n < |data| && depth + n > 64
    requires forall k :: i <= k <= i + n ==> data[k] == '['
    ensures ScanValue(data, i, depth) == None
    decreases n
  {
    if n > 0 && depth <= 64 {
      DeepNestingIsRefused(data, i + 1, n - 1, depth + 1);
      assert data[i + 1] == '[';
      assert SkipSpace(data, i + 1) == i + 1;
      assert ScanEntry(data, i + 1, depth, false, {}) == Refuse;
      RefusedContainer(data, i, false, depth);
    }
  }

  /** `n` arrays inside each other. */
  function Nested(n: nat): Json {
    Container(false, "", if n == 0 then [] else [Entry("", "", "", "", Nested(n - 1), "")])
  }

  lemma {:induction false} NestingIsLegal(n: nat, depth: nat)
    requires depth + n <= 64
    ensures Legal(Nested(n), depth)
  {
    if n > 0 {
      NestingIsLegal(n - 1, depth + 1);
      var entries := [Entry("", "", "", "", Nested(n - 1), "")];
      assert LegalEntry(false, entries[0], depth);
      assert entries[1..] == [];
      assert LegalEntries(false, entries, depth, {});
    }
  }

  lemma {:induction false} NestingOpens(n: nat)
    ensures |Print(Nested(n))| > n && forall k :: 0 <= k <= n ==> Print(Nested(n))[k] == '['
  {
    if n > 0 {
      NestingOpens(n - 1);
      var inner := Print(Nested(n - 1));
      OneElement(Nested(n - 1));
      assert Print(Nested(n)) == ['['] + (inner + [']']);
    }
  }

  lemma OneElement(j: Json)
    ensures PrintEntries(false, [Entry("", "", "", "", j, "")]) == Print(j)
  {
    var entries := [Entry("", "", "", "", j, "")];
    assert entries[1..] == [];
  }

  /** The limit is exactly 64. */
  lemma NestingIsAcceptedExactlyTo64(n: nat)
    ensures Accepts(Print(Nested(n))) <==> n <= 64
  {
    var data := Print(Nested(n));
    NestingOpens(n);
    assert SkipSpace(data, 0) == 0;
    if n <= 64 {
      NestingIsLegal(n, 0);
      assert data == "" + (Print(Nested(n)) + "");
      DocumentIsAccepted(data, "", Nested(n), "");
    } else {
      DeepNestingIsRefused(data, 0, n, 0);
    }
  }
}
