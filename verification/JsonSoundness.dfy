/** What the scanner accepts was printed by the grammar; with the converse, its language. */
module JsonSoundness {
  import opened JsonGrammar
  import opened JsonLanguage
  import opened JsonScan
  import opened Options

  lemma Slices(data: string, a: nat, b: nat, c: nat)
    requires a <= b <= c <= |data|
    ensures data[a..b] + data[b..c] == data[a..c]
  {
  }

  lemma {:induction false} SkippedIsSpace(data: string, i: nat)
    requires i <= |data|
    ensures AllSpace(data[i..SkipSpace(data, i)])
    decreases |data| - i
  {
    var r := SkipSpace(data, i);
    if r > i {
      SkippedIsSpace(data, i + 1);
      Slices(data, i, i + 1, r);
      assert data[i..i + 1] == [data[i]];
    }
  }

  lemma {:induction false} BodyIsLegal(data: string, i: nat)
    requires i <= |data| && ScanBody(data, i).Some?
    ensures var end := ScanBody(data, i).value - 1;
            i <= end < |data| && data[end] == '\"' && IsBody(data[i..end])
    decreases |data| - i
  {
    var end := ScanBody(data, i).value - 1;
    if data[i] != '\"' {
      var n := if data[i] != '\\' then 1 else if data[i + 1] == 'u' then 6 else 2;
      BodyIsLegal(data, i + n);
      var s := data[i..end];
      assert s[n..] == data[i + n..end];
      assert s[0] == data[i];
      if n == 6 {
        assert s[2..6] == data[i + 2..i + 6];
      }
    }
  }

  lemma TextIsLegal(data: string, i: nat)
    requires i <= |data| && ScanText(data, i).Some?
    ensures IsText(data[i..ScanText(data, i).value])
  {
    var end := ScanText(data, i).value;
    BodyIsLegal(data, i + 1);
    var s := data[i..end];
    assert s[1..|s| - 1] == data[i + 1..end - 1];
  }

  lemma {:induction false} SkippedAreDigits(data: string, i: nat)
    requires i <= |data|
    ensures forall c :: c in data[i..SkipDigits(data, i)] ==> IsDigit(c)
    decreases |data| - i
  {
    var r := SkipDigits(data, i);
    if r > i {
      SkippedAreDigits(data, i + 1);
      Slices(data, i, i + 1, r);
      assert data[i..i + 1] == [data[i]];
    }
  }

  lemma FractionIsLegal(data: string, i: nat)
    requires i <= |data|
    ensures IsFraction(data[i..ScanFraction(data, i)])
  {
    var end := ScanFraction(data, i);
    if end > i {
      SkippedAreDigits(data, i + 1);
      assert data[i..end][1..] == data[i + 1..end];
    }
  }

  lemma ExponentIsLegal(data: string, i: nat)
    requires i <= |data|
    ensures IsExponent(data[i..ScanExponent(data, i)])
  {
    var end := ScanExponent(data, i);
    if end > i {
      var n := if IsDigit(data[i + 1]) then 1 else 2;
      SkippedAreDigits(data, i + n);
      assert data[i..end][n..] == data[i + n..end];
      assert data[i..end][1] == data[i + 1];
    }
  }

  lemma IntegerIsLegal(data: string, i: nat)
    requires i <= |data| && ScanInteger(data, i).Some?
    ensures IsInteger(data[i..ScanInteger(data, i).value])
  {
    if data[i] == '0' {
      assert data[i..i + 1] == "0";
    } else {
      SkippedAreDigits(data, i);
    }
  }

  lemma NumberIsPrinted(data: string, i: nat) returns (n: Number)
    requires i <= |data| && ScanNumber(data, i).Some?
    ensures ValidNumber(n) && PrintNumber(n) == data[i..ScanNumber(data, i).value]
  {
    var start := if i < |data| && data[i] == '-' then i + 1 else i;
    var k := ScanInteger(data, start).value;
    var f := ScanFraction(data, k);
    var end := ScanExponent(data, f);
    n := Number(data[i..start], data[start..k], data[k..f], data[f..end]);
    IntegerIsLegal(data, start);
    FractionIsLegal(data, k);
    ExponentIsLegal(data, f);
    Slices(data, k, f, end);
    Slices(data, start, k, end);
    Slices(data, i, start, end);
  }

  lemma PrimitiveIsPrinted(data: string, i: nat, depth: nat) returns (j: Json)
    requires i <= |data| && ScanPrimitive(data, i).Some? && depth <= MAX_DEPTH
    ensures Legal(j, depth) && Print(j) == data[i..ScanPrimitive(data, i).value]
  {
    if At(data, i, "null") {
      j := Word("null");
    } else if At(data, i, "true") {
      j := Word("true");
    } else if At(data, i, "false") {
      j := Word("false");
    } else {
      var n := NumberIsPrinted(data, i);
      j := Num(n);
    }
  }

  lemma {:induction false} ValueIsPrinted(data: string, i: nat, depth: nat) returns (j: Json)
    requires i <= |data| && ScanValue(data, i, depth).Some?
    ensures Legal(j, depth) && Print(j) == data[i..ScanValue(data, i, depth).value]
    decreases |data| - i, 0
  {
    if data[i] == '\"' {
      TextIsLegal(data, i);
      j := Text(data[i..ScanText(data, i).value]);
    } else if data[i] == '{' || data[i] == '[' {
      j := ContainerIsPrinted(data, i, depth);
    } else {
      j := PrimitiveIsPrinted(data, i, depth);
    }
  }

  lemma {:induction false} ContainerIsPrinted(data: string, i: nat, depth: nat) returns (j: Json)
    requires i < |data| && (data[i] == '{' || data[i] == '[') && depth <= MAX_DEPTH
    requires ScanContainer(data, i, depth).Some?
    ensures Legal(j, depth) && Print(j) == data[i..ScanContainer(data, i, depth).value.end]
    decreases |data| - i, 0, 0
  {
    var named := data[i] == '{';
    var p := SkipSpace(data, i + 1);
    SkippedIsSpace(data, i + 1);
    if data[p] == Close(named) {
      j := Container(named, data[i + 1..p], []);
      Enclose(data, i, p, j, data[i + 1..p]);
    } else {
      var entries, end := EntriesArePrinted(data, p, depth, named, {});
      var padded := Indent(named, entries, data[i + 1..p], depth, {});
      j := Container(named, "", padded);
      Slices(data, i + 1, p, end);
      Enclose(data, i, end, j, PrintEntries(named, padded));
    }
  }

  lemma Enclose(data: string, i: nat, end: nat, j: Json, inner: string)
    requires j.Container? && inner == if j.entries == [] then j.pad else PrintEntries(j.named, j.entries)
    requires i < end < |data| && data[i] == Open(j.named) && data[end] == Close(j.named)
    requires inner == data[i + 1..end]
    ensures Print(j) == data[i..end + 1]
  {
    assert Print(j) == [Open(j.named)] + (inner + [Close(j.named)]);
    assert data[i..i + 1] == [Open(j.named)] && data[end..end + 1] == [Close(j.named)];
    Slices(data, i + 1, end, end + 1);
    Slices(data, i, i + 1, end + 1);
  }

  /** Put spaces in front of the first entry. */
  lemma Indent(named: bool, entries: seq<Entry>, spaces: string, depth: nat, seen: set<seq<nat>>)
    returns (padded: seq<Entry>)
    requires entries != [] && entries[0].before == "" && AllSpace(spaces) && LegalEntries(named, entries, depth, seen)
    ensures padded != [] && LegalEntries(named, padded, depth, seen)
    ensures PrintEntries(named, padded) == spaces + PrintEntries(named, entries)
  {
    var e := entries[0];
    var f := e.(before := spaces);
    padded := [f] + entries[1..];
    assert padded[1..] == entries[1..];
    assert PrintName(named, f) == PrintName(named, e);
    var tail := PrintName(named, e) + (Print(e.value) + (e.after + PrintRest(named, entries[1..])));
    assert PrintEntries(named, entries) == "" + tail == tail;
  }

  lemma MemberNameIsPrinted(data: string, i: nat, v: nat, seen: set<seq<nat>>)
    returns (name: string, gap: string, lead: string)
    requires i <= |data| && ScanName(data, i, true, seen) == Some(v)
    ensures IsText(name) && AllSpace(gap) && AllSpace(lead) && v <= |data|
    ensures NameOf(name) == NameAt(data, i, true) && NameOf(name) !in seen
    ensures name + (gap + (":" + lead)) == data[i..v]
  {
    var end := ScanText(data, i).value;
    var colon := SkipSpace(data, end);
    name, gap, lead := data[i..end], data[end..colon], data[colon + 1..v];
    TextIsLegal(data, i);
    SkippedIsSpace(data, end);
    SkippedIsSpace(data, colon + 1);
    NameSlices(data, i, end, colon, v);
  }

  lemma NameSlices(data: string, i: nat, end: nat, colon: nat, v: nat)
    requires i <= end <= colon < v <= |data| && data[colon] == ':'
    ensures data[i..end] + (data[end..colon] + (":" + data[colon + 1..v])) == data[i..v]
  {
    assert data[colon..colon + 1] == ":";
    Slices(data, colon, colon + 1, v);
    Slices(data, end, colon, v);
    Slices(data, i, end, v);
  }

  /** The entry read at `i`, with no spaces before it. */
  lemma EntryIsPrinted(
    data: string, i: nat, v: nat, w: nat, k: nat, named: bool, seen: set<seq<nat>>, value: Json, depth: nat)
    returns (e: Entry)
    requires i <= |data| && ScanName(data, i, named, seen) == Some(v)
    requires v <= w <= k <= |data| && AllSpace(data[w..k]) && Legal(value, depth + 1)
    ensures e.before == "" && LegalEntry(named, e, depth) && (named ==> EntryName(named, e) !in seen)
    ensures EntryName(named, e) == NameAt(data, i, named) && e.value == value && e.after == data[w..k]
    ensures PrintName(named, e) == data[i..v]
  {
    if named {
      var name, gap, lead := MemberNameIsPrinted(data, i, v, seen);
      e := Entry("", name, gap, lead, value, data[w..k]);
    } else {
      e := Entry("", "", "", "", value, data[w..k]);
    }
  }

  lemma {:induction false} EntriesArePrinted(data: string, i: nat, depth: nat, named: bool, seen: set<seq<nat>>)
    returns (entries: seq<Entry>, end: nat)
    requires i <= |data| && ScanEntries(data, i, depth, named, seen).Some?
    ensures end + 1 == ScanEntries(data, i, depth, named, seen).value.end
    ensures entries != [] && entries[0].before == "" && LegalEntries(named, entries, depth, seen)
    ensures i <= end < |data| && data[end] == Close(named) && PrintEntries(named, entries) == data[i..end]
    decreases |data| - i, 1
  {
    var t := ScanEntry(data, i, depth, named, seen);
    EntriesUnfold(data, i, depth, named, seen);
    var value := ValueIsPrinted(data, t.child.start, depth + 1);
    if t.Last? {
      entries, end := FinishLast(data, i, depth, named, seen, value);
    } else {
      var rest;
      rest, end := EntriesArePrinted(data, t.next, depth, named, seen + {t.child.name});
      entries := FinishMore(data, i, depth, named, seen, value, rest, end);
    }
  }

  lemma FinishLast(data: string, i: nat, depth: nat, named: bool, seen: set<seq<nat>>, value: Json)
    returns (entries: seq<Entry>, end: nat)
    requires i <= |data| && ScanEntry(data, i, depth, named, seen).Last? && Legal(value, depth + 1)
    requires var c := ScanEntry(data, i, depth, named, seen).child; Print(value) == data[c.start..c.end]
    ensures entries != [] && entries[0].before == "" && LegalEntries(named, entries, depth, seen)
    ensures end + 1 == ScanEntry(data, i, depth, named, seen).end
    ensures i <= end < |data| && data[end] == Close(named) && PrintEntries(named, entries) == data[i..end]
  {
    var v, w, k := TurnPlaces(data, i, depth, named, seen);
    var e := EntryIsPrinted(data, i, v, w, k, named, seen, value, depth);
    entries, end := [e], k;
    assert [e] + [] == [e];
    PrependLegal(named, e, [], depth, seen);
    JoinLast(data, i, v, w, k, named, e);
  }

  lemma FinishMore(data: string, i: nat, depth: nat, named: bool, seen: set<seq<nat>>, value: Json,
                   rest: seq<Entry>, end: nat)
    returns (entries: seq<Entry>)
    requires i <= |data| && ScanEntry(data, i, depth, named, seen).More? && Legal(value, depth + 1)
    requires var t := ScanEntry(data, i, depth, named, seen);
             && Print(value) == data[t.child.start..t.child.end]
             && LegalEntries(named, rest, depth, seen + {t.child.name})
             && t.next <= end < |data| && rest != [] && rest[0].before == ""
             && PrintEntries(named, rest) == data[t.next..end]
    ensures entries != [] && entries[0].before == "" && LegalEntries(named, entries, depth, seen)
    ensures i <= end && PrintEntries(named, entries) == data[i..end]
  {
    var v, w, k := TurnPlaces(data, i, depth, named, seen);
    entries := FirstAndRest(data, i, v, w, k, depth, named, seen, value, rest, end);
  }

  /** An entry whose parts stand at `i`, `v`, `w` and `k`, and the entries after it. */
  lemma FirstAndRest(data: string, i: nat, v: nat, w: nat, k: nat, depth: nat, named: bool, seen: set<seq<nat>>,
                     value: Json, rest: seq<Entry>, end: nat)
    returns (entries: seq<Entry>)
    requires i <= v <= w <= k < |data| && ScanName(data, i, named, seen) == Some(v)
    requires AllSpace(data[w..k]) && data[k] == ',' && Legal(value, depth + 1) && Print(value) == data[v..w]
    requires LegalEntries(named, rest, depth, seen + {NameAt(data, i, named)})
    requires SkipSpace(data, k + 1) <= end < |data| && rest != [] && rest[0].before == ""
    requires PrintEntries(named, rest) == data[SkipSpace(data, k + 1)..end]
    ensures entries != [] && entries[0].before == "" && LegalEntries(named, entries, depth, seen)
    ensures i <= end && PrintEntries(named, entries) == data[i..end]
  {
    var e := EntryIsPrinted(data, i, v, w, k, named, seen, value, depth);
    var padded := RestIsPrinted(data, k + 1, end, named, rest, depth, seen + {NameAt(data, i, named)});
    entries := [e] + padded;
    PrependLegal(named, e, padded, depth, seen);
    JoinMore(data, i, v, w, k, end, named, e, padded);
  }

  lemma EntriesUnfold(data: string, i: nat, depth: nat, named: bool, seen: set<seq<nat>>)
    requires i <= |data| && ScanEntries(data, i, depth, named, seen).Some?
    ensures var t := ScanEntry(data, i, depth, named, seen);
            && !t.Refuse?
            && (t.Last? ==> ScanEntries(data, i, depth, named, seen).value.end == t.end)
            && (t.More? ==>
                  && ScanEntries(data, t.next, depth, named, seen + {t.child.name}).Some?
                  && ScanEntries(data, i, depth, named, seen).value.end ==
                     ScanEntries(data, t.next, depth, named, seen + {t.child.name}).value.end)
  {
  }

  /** The entries after a comma at `i - 1`, with the spaces that follow it. */
  lemma RestIsPrinted(
    data: string, i: nat, end: nat, named: bool, rest: seq<Entry>, depth: nat, seen: set<seq<nat>>)
    returns (padded: seq<Entry>)
    requires i <= |data| && SkipSpace(data, i) <= end <= |data|
    requires rest != [] && rest[0].before == "" && LegalEntries(named, rest, depth, seen)
    requires PrintEntries(named, rest) == data[SkipSpace(data, i)..end]
    ensures padded != [] && LegalEntries(named, padded, depth, seen) && PrintEntries(named, padded) == data[i..end]
  {
    SkippedIsSpace(data, i);
    padded := Indent(named, rest, data[i..SkipSpace(data, i)], depth, seen);
    Slices(data, i, SkipSpace(data, i), end);
  }

  lemma PrependLegal(named: bool, e: Entry, rest: seq<Entry>, depth: nat, seen: set<seq<nat>>)
    requires LegalEntry(named, e, depth) && (named ==> EntryName(named, e) !in seen)
    requires LegalEntries(named, rest, depth, seen + {EntryName(named, e)})
    ensures LegalEntries(named, [e] + rest, depth, seen)
  {
    assert ([e] + rest)[1..] == rest;
  }

  /** Where a turn's value and separator stand. */
  lemma TurnPlaces(data: string, i: nat, depth: nat, named: bool, seen: set<seq<nat>>)
    returns (v: nat, w: nat, k: nat)
    requires i <= |data| && !ScanEntry(data, i, depth, named, seen).Refuse?
    ensures var t := ScanEntry(data, i, depth, named, seen);
            && ScanName(data, i, named, seen) == Some(v) && i <= v <= w <= k < |data|
            && ScanValue(data, v, depth + 1) == Some(w) && AllSpace(data[w..k])
            && t.child == Child(NameAt(data, i, named), v, w)
            && (t.Last? ==> t.end == k + 1 && data[k] == Close(named))
            && (t.More? ==> data[k] == ',' && t.next == SkipSpace(data, k + 1))
  {
    v := ScanName(data, i, named, seen).value;
    w := ScanValue(data, v, depth + 1).value;
    k := SkipSpace(data, w);
    SkippedIsSpace(data, w);
  }

  lemma JoinLast(data: string, i: nat, v: nat, w: nat, k: nat, named: bool, e: Entry)
    requires i <= v <= w <= k <= |data| && e.before == ""
    requires PrintName(named, e) == data[i..v] && Print(e.value) == data[v..w] && e.after == data[w..k]
    ensures PrintEntries(named, [e]) == data[i..k]
  {
    Slices(data, v, w, k);
    Slices(data, i, v, k);
    assert PrintRest(named, [e][1..]) == "";
    assert e.after + "" == e.after;
  }

  lemma JoinMore(
    data: string, i: nat, v: nat, w: nat, k: nat, end: nat, named: bool, e: Entry, rest: seq<Entry>)
    requires i <= v <= w <= k < end <= |data| && e.before == "" && data[k] == ',' && rest != []
    requires PrintName(named, e) == data[i..v] && Print(e.value) == data[v..w] && e.after == data[w..k]
    requires PrintEntries(named, rest) == data[k + 1..end]
    ensures PrintEntries(named, [e] + rest) == data[i..end]
  {
    assert data[k..k + 1] == ",";
    Slices(data, k, k + 1, end);
    assert PrintRest(named, rest) == data[k..end];
    PrintMore(named, e, rest);
    JoinFour(data, i, v, w, k, end);
  }

  lemma JoinFour(data: string, i: nat, v: nat, w: nat, k: nat, end: nat)
    requires i <= v <= w <= k < end <= |data|
    ensures data[i..v] + (data[v..w] + (data[w..k] + data[k..end])) == data[i..end]
  {
    Slices(data, w, k, end);
    Slices(data, v, w, end);
    Slices(data, i, v, end);
  }

  lemma PrintMore(named: bool, e: Entry, rest: seq<Entry>)
    requires e.before == ""
    ensures PrintEntries(named, [e] + rest) ==
            PrintName(named, e) + (Print(e.value) + (e.after + PrintRest(named, rest)))
  {
    assert ([e] + rest)[1..] == rest;
  }

  // ------------------------------------------------ the language

  /** A legal value with nothing but space around it. */
  ghost predicate IsDocument(data: string) {
    exists before, j, after ::
      AllSpace(before) && AllSpace(after) && Legal(j, 0) && data == before + (Print(j) + after)
  }

  lemma DocumentIsAccepted(data: string, before: string, j: Json, after: string)
    requires AllSpace(before) && AllSpace(after) && Legal(j, 0) && data == before + (Print(j) + after)
    ensures Accepts(data)
  {
    var i := |before|;
    var end := i + |Print(j)|;
    assert At(data, 0, data);
    AtAppend(data, 0, before, Print(j) + after);
    AtAppend(data, i, Print(j), after);
    PrintStarts(j, 0);
    AtChar(data, i, Print(j), 0);
    if after != "" {
      AtChar(data, end, after, 0);
      assert after[0] in after;
    }
    SpacesAreSkipped(data, 0, before);
    ValueScans(data, i, end, j, 0);
    SpacesAreSkipped(data, end, after);
  }

  /** The scanner accepts a text if and only if it is a legal document: well-formed, no two
      members of an object with one decoded name, nesting within bounds. */
  lemma AcceptsExactlyDocuments(data: string)
    ensures Accepts(data) <==> IsDocument(data)
  {
    if Accepts(data) {
      var i := SkipSpace(data, 0);
      var end := ScanValue(data, i, 0).value;
      var j := ValueIsPrinted(data, i, 0);
      SkippedIsSpace(data, 0);
      SkippedIsSpace(data, end);
      Slices(data, i, end, |data|);
      Slices(data, 0, i, |data|);
      assert data[0..|data|] == data;
      assert data == data[0..i] + (Print(j) + data[end..|data|]);
    }
    if IsDocument(data) {
      var before, j, after :|
        AllSpace(before) && AllSpace(after) && Legal(j, 0) && data == before + (Print(j) + after);
      DocumentIsAccepted(data, before, j, after);
    }
  }
}
