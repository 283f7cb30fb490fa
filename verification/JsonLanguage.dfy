/** The scanner accepts exactly the texts the grammar prints. */
module JsonLanguage {
  import opened JsonGrammar
  import opened JsonScan
  import opened Options

  lemma AtAppend(data: string, i: nat, a: string, b: string)
    ensures At(data, i, a + b) <==> At(data, i, a) && At(data, i + |a|, b)
  {
    if i + |a| + |b| <= |data| {
      var both := data[i..i + |a| + |b|];
      assert both == data[i..i + |a|] + data[i + |a|..i + |a| + |b|];
      assert both[..|a|] == data[i..i + |a|] && both[|a|..] == data[i + |a|..i + |a| + |b|];
      assert (a + b)[..|a|] == a && (a + b)[|a|..] == b;
    }
  }

  lemma AtChar(data: string, i: nat, s: string, k: nat)
    requires At(data, i, s) && k < |s|
    ensures data[i + k] == s[k]
  {
    assert data[i..i + |s|][k] == s[k];
  }

  // ------------------------------------------------ printed texts scan

  lemma {:induction false} SpacesAreSkipped(data: string, i: nat, w: string)
    requires At(data, i, w) && AllSpace(w) && (i + |w| == |data| || !IsSpace(data[i + |w|]))
    ensures SkipSpace(data, i) == i + |w|
    decreases |w|
  {
    if w != "" {
      AtChar(data, i, w, 0);
      AtAppend(data, i, [w[0]], w[1..]);
      assert w == [w[0]] + w[1..];
      SpacesAreSkipped(data, i + 1, w[1..]);
    }
  }

  lemma {:induction false} BodyScans(data: string, i: nat, s: string)
    requires IsBody(s) && At(data, i, s) && i + |s| < |data| && data[i + |s|] == '\"'
    ensures ScanBody(data, i) == Some(i + |s| + 1)
    decreases |s|
  {
    if s != "" {
      AtChar(data, i, s, 0);
      var n := if s[0] != '\\' then 1 else if s[1] == 'u' then 6 else 2;
      assert s == s[..n] + s[n..];
      AtAppend(data, i, s[..n], s[n..]);
      BodyScans(data, i + n, s[n..]);
      if n >= 2 {
        AtChar(data, i, s, 1);
      }
      if n == 6 {
        assert data[i + 2..i + 6] == data[i..i + |s|][2..6] == s[2..6];
      }
    }
  }

  lemma TextScans(data: string, i: nat, t: string)
    requires IsText(t) && At(data, i, t)
    ensures ScanText(data, i) == Some(i + |t|) && data[i..i + |t|] == t && data[i] == '\"'
  {
    var body := t[1..|t| - 1];
    AtChar(data, i, t, 0);
    AtChar(data, i, t, |t| - 1);
    assert t == ['\"'] + (body + ['\"']);
    AtAppend(data, i, ['\"'], body + ['\"']);
    AtAppend(data, i + 1, body, ['\"']);
    BodyScans(data, i + 1, body);
  }

  lemma {:induction false} DigitsScan(data: string, i: nat, s: string)
    requires At(data, i, s) && (forall c :: c in s ==> IsDigit(c))
    requires i + |s| == |data| || !IsDigit(data[i + |s|])
    ensures SkipDigits(data, i) == i + |s|
    decreases |s|
  {
    if s != "" {
      AtChar(data, i, s, 0);
      assert s[0] in s;
      assert s == [s[0]] + s[1..];
      AtAppend(data, i, [s[0]], s[1..]);
      DigitsScan(data, i + 1, s[1..]);
    }
  }

  /** No number goes on here. */
  predicate Delimited(data: string, k: nat) {
    k >= |data| || !(IsDigit(data[k]) || data[k] == '.' || data[k] == 'e' || data[k] == 'E')
  }

  lemma ExponentScans(data: string, i: nat, s: string)
    requires IsExponent(s) && At(data, i, s) && Delimited(data, i + |s|)
    ensures ScanExponent(data, i) == i + |s|
    ensures i == |data| || !(IsDigit(data[i]) || data[i] == '.')
  {
    if s != "" {
      AtChar(data, i, s, 0);
      AtChar(data, i, s, 1);
      var n := if AllDigits(s[1..]) then 1 else 2;
      TailDigitsScan(data, i, s, n);
      if n == 1 {
        assert s[1] in s[1..];
      }
    }
  }

  lemma TailDigitsScan(data: string, i: nat, s: string, n: nat)
    requires At(data, i, s) && Delimited(data, i + |s|) && n < |s| && AllDigits(s[n..])
    ensures i + n < |data| && IsDigit(data[i + n]) && SkipDigits(data, i + n) == i + |s|
  {
    assert s == s[..n] + s[n..];
    AtAppend(data, i, s[..n], s[n..]);
    AtChar(data, i, s, n);
    assert s[n] in s[n..];
    DigitsScan(data, i + n, s[n..]);
  }

  lemma FractionScans(data: string, i: nat, s: string)
    requires IsFraction(s) && At(data, i, s)
    requires i + |s| == |data| || !(IsDigit(data[i + |s|]) || data[i + |s|] == '.')
    ensures ScanFraction(data, i) == i + |s|
    ensures i == |data| || !IsDigit(data[i])
  {
    if s != "" {
      AtChar(data, i, s, 0);
      AtChar(data, i, s, 1);
      assert s == s[..1] + s[1..] && s[1] in s[1..];
      AtAppend(data, i, s[..1], s[1..]);
      DigitsScan(data, i + 1, s[1..]);
    }
  }

  lemma IntegerScans(data: string, i: nat, s: string)
    requires IsInteger(s) && At(data, i, s) && (i + |s| == |data| || !IsDigit(data[i + |s|]))
    ensures ScanInteger(data, i) == Some(i + |s|) && IsDigit(data[i])
  {
    AtChar(data, i, s, 0);
    assert s[0] in s;
    if s != "0" {
      DigitsScan(data, i, s);
    }
  }

  lemma {:induction false} UnsignedScans(data: string, i: nat, integer: string, fraction: string, exponent: string)
    requires IsInteger(integer) && IsFraction(fraction) && IsExponent(exponent)
    requires At(data, i, integer + (fraction + exponent))
    requires Delimited(data, i + |integer| + |fraction| + |exponent|)
    ensures ScanInteger(data, i) == Some(i + |integer|) && IsDigit(data[i])
    ensures ScanFraction(data, i + |integer|) == i + |integer| + |fraction|
    ensures ScanExponent(data, i + |integer| + |fraction|) == i + |integer| + |fraction| + |exponent|
  {
    var k := i + |integer|;
    AtAppend(data, i, integer, fraction + exponent);
    FractionAndExponentScan(data, k, fraction, exponent);
    IntegerScans(data, i, integer);
  }

  lemma {:induction false} FractionAndExponentScan(data: string, k: nat, fraction: string, exponent: string)
    requires IsFraction(fraction) && IsExponent(exponent) && At(data, k, fraction + exponent)
    requires Delimited(data, k + |fraction| + |exponent|)
    ensures ScanFraction(data, k) == k + |fraction|
    ensures ScanExponent(data, k + |fraction|) == k + |fraction| + |exponent|
    ensures k == |data| || !IsDigit(data[k])
  {
    AtAppend(data, k, fraction, exponent);
    ExponentScans(data, k + |fraction|, exponent);
    FractionScans(data, k, fraction);
  }

  lemma ScanNumberByParts(data: string, i: nat, start: nat, k: nat, f: nat, end: nat)
    requires i < |data| && start == (if data[i] == '-' then i + 1 else i) && start <= |data|
    requires ScanInteger(data, start) == Some(k) && ScanFraction(data, k) == f && ScanExponent(data, f) == end
    ensures ScanNumber(data, i) == Some(end)
  {
  }

  lemma NumberScans(data: string, i: nat, end: nat, n: Number)
    requires ValidNumber(n) && At(data, i, PrintNumber(n)) && end == i + |PrintNumber(n)| && Delimited(data, end)
    ensures ScanNumber(data, i) == Some(end)
    ensures i < |data| && (IsDigit(data[i]) || data[i] == '-')
  {
    var digits := n.integer + (n.fraction + n.exponent);
    assert PrintNumber(n) == n.sign + digits;
    assert |digits| == |n.integer| + |n.fraction| + |n.exponent|;
    if n.sign == "" {
      assert n.sign + digits == digits;
      UnsignedNumberScans(data, i, i, end, n);
    } else {
      AtAppend(data, i, "-", digits);
      AtChar(data, i, "-", 0);
      UnsignedNumberScans(data, i, i + 1, end, n);
    }
  }

  lemma UnsignedNumberScans(data: string, i: nat, start: nat, end: nat, n: Number)
    requires ValidNumber(n) && At(data, start, n.integer + (n.fraction + n.exponent))
    requires end == start + |n.integer| + |n.fraction| + |n.exponent| && Delimited(data, end)
    requires start == i || (start == i + 1 <= |data| && data[i] == '-')
    ensures i < |data| && (IsDigit(data[i]) || data[i] == '-')
    ensures ScanNumber(data, i) == Some(end)
  {
    UnsignedScans(data, start, n.integer, n.fraction, n.exponent);
    var k := start + |n.integer|;
    ScanNumberByParts(data, i, start, k, k + |n.fraction|, end);
  }

  lemma WordScans(data: string, i: nat, w: string)
    requires (w == "null" || w == "true" || w == "false") && At(data, i, w)
    ensures ScanPrimitive(data, i) == Some(i + |w|) && i < |data| && data[i] == w[0]
  {
    AtChar(data, i, w, 0);
    if At(data, i, "null") {
      AtChar(data, i, "null", 0);
    }
    if At(data, i, "true") {
      AtChar(data, i, "true", 0);
    }
  }

  lemma NumberIsNotAWord(data: string, i: nat)
    requires i < |data| && (IsDigit(data[i]) || data[i] == '-')
    ensures ScanPrimitive(data, i) == ScanNumber(data, i)
  {
    if At(data, i, "null") {
      AtChar(data, i, "null", 0);
    }
    if At(data, i, "true") {
      AtChar(data, i, "true", 0);
    }
    if At(data, i, "false") {
      AtChar(data, i, "false", 0);
    }
  }

  /** A value's first character is not a space, and says which kind of value it is. */
  lemma PrintStarts(j: Json, depth: nat)
    requires Legal(j, depth)
    ensures |Print(j)| > 0 && !IsSpace(Print(j)[0]) && Print(j)[0] != ']' && Print(j)[0] != '}'
  {
    if j.Num? {
      var n := j.number;
      assert n.integer[0] in n.integer;
      assert Print(j)[0] == (n.sign + n.integer)[0];
    }
  }

  function ValueStart(named: bool, e: Entry, i: nat): nat {
    i + |e.before| + |PrintName(named, e)|
  }

  /** The span of an entry printed from `i` on, and the position past its separator. */
  function FirstChild(named: bool, e: Entry, i: nat): Child {
    Child(EntryName(named, e), ValueStart(named, e, i), ValueStart(named, e, i) + |Print(e.value)|)
  }

  function AfterFirst(named: bool, e: Entry, i: nat): nat {
    ValueStart(named, e, i) + |Print(e.value)| + |e.after| + 1
  }

  /** Where the children of a container printed from `i` on lie. */
  function ChildSpans(named: bool, entries: seq<Entry>, i: nat): seq<Child> {
    if entries == [] then []
    else [FirstChild(named, entries[0], i)] + ChildSpans(named, entries[1..], AfterFirst(named, entries[0], i))
  }

  lemma CloseDelimits(named: bool)
    ensures !IsSpace(Close(named)) && Close(named) != ','
    ensures !(IsDigit(Close(named)) || Close(named) == '.' || Close(named) == 'e' || Close(named) == 'E')
  {
  }

  lemma ScanNameByParts(data: string, i: nat, end: nat, k: nat, v: nat, seen: set<seq<nat>>)
    requires i <= |data| && ScanText(data, i) == Some(end) && NameOf(data[i..end]) !in seen
    requires SkipSpace(data, end) == k < |data| && data[k] == ':' && SkipSpace(data, k + 1) == v
    ensures ScanName(data, i, true, seen) == Some(v) && NameAt(data, i, true) == NameOf(data[i..end])
  {
  }

  /** A member's name, colon and spaces lead to its value. */
  lemma MemberNameScans(data: string, i: nat, name: string, gap: string, lead: string, v: nat, seen: set<seq<nat>>)
    requires IsText(name) && AllSpace(gap) && AllSpace(lead) && NameOf(name) !in seen
    requires At(data, i, name + (gap + (":" + lead))) && v == i + |name| + |gap| + 1 + |lead|
    requires v < |data| && !IsSpace(data[v])
    ensures data[i] == '\"' && ScanName(data, i, true, seen) == Some(v) && NameAt(data, i, true) == NameOf(name)
  {
    var end := i + |name|;
    var k := end + |gap|;
    AtAppend(data, i, name, gap + (":" + lead));
    TextScans(data, i, name);
    AtAppend(data, end, gap, ":" + lead);
    AtAppend(data, k, ":", lead);
    ColonAndSpaces(data, end, k, v, gap, lead);
    ScanNameByParts(data, i, end, k, v, seen);
  }

  lemma ColonAndSpaces(data: string, end: nat, k: nat, v: nat, gap: string, lead: string)
    requires AllSpace(gap) && AllSpace(lead) && k == end + |gap| && v == k + 1 + |lead|
    requires At(data, end, gap) && At(data, k, ":") && At(data, k + 1, lead)
    requires v < |data| && !IsSpace(data[v])
    ensures SkipSpace(data, end) == k && data[k] == ':' && SkipSpace(data, k + 1) == v
  {
    AtChar(data, k, ":", 0);
    SpacesAreSkipped(data, end, gap);
    SpacesAreSkipped(data, k + 1, lead);
  }

  /** A separator: the closing bracket or a comma. */
  predicate Separates(named: bool, c: char) {
    c == Close(named) || c == ','
  }

  lemma SpaceThenSeparator(data: string, w: nat, k: nat, after: string, named: bool)
    requires AllSpace(after) && At(data, w, after) && k == w + |after| < |data| && Separates(named, data[k])
    ensures Delimited(data, w) && SkipSpace(data, w) == k
  {
    if after != "" {
      AtChar(data, w, after, 0);
      assert after[0] in after;
    }
    SpacesAreSkipped(data, w, after);
  }

  lemma FiveParts(data: string, i: nat, a: string, b: string, c: string, d: string, e: string, end: nat)
    returns (p: nat, v: nat, w: nat, k: nat)
    requires At(data, i, a + (b + (c + (d + e)))) && end == i + |a + (b + (c + (d + e)))|
    ensures p == i + |a| && v == p + |b| && w == v + |c| && k == w + |d| && end == k + |e|
    ensures At(data, i, a) && At(data, p, b) && At(data, v, c) && At(data, w, d) && At(data, k, e)
  {
    p := i + |a|;
    v := p + |b|;
    w := v + |c|;
    k := w + |d|;
    AtAppend(data, i, a, b + (c + (d + e)));
    AtAppend(data, p, b, c + (d + e));
    AtAppend(data, v, c, d + e);
    AtAppend(data, w, d, e);
  }

  /** An entry's parts: spaces, name with its colon, value, spaces, and what follows. */
  datatype Parts = Parts(
    before: string, name: string, gap: string, lead: string, value: string, after: string, rest: string)

  function NameText(named: bool, s: Parts): string {
    if named then s.name + (s.gap + (":" + s.lead)) else ""
  }

  predicate LegalParts(named: bool, s: Parts, seen: set<seq<nat>>) {
    && AllSpace(s.before) && AllSpace(s.after)
    && (named ==> IsText(s.name) && AllSpace(s.gap) && AllSpace(s.lead) && NameOf(s.name) !in seen)
    && |s.value| > 0 && !IsSpace(s.value[0]) && s.value[0] != ']' && s.value[0] != '}'
    && (s.rest != "" ==> s.rest[0] == ',')
  }

  function Joined(named: bool, s: Parts): string {
    s.before + (NameText(named, s) + (s.value + (s.after + s.rest)))
  }

  /** Where the parts stand and what the scanner makes of all but the value. */
  lemma PartsStand(data: string, i: nat, named: bool, s: Parts, end: nat, seen: set<seq<nat>>)
    returns (p: nat, v: nat, w: nat, k: nat)
    requires LegalParts(named, s, seen) && At(data, i, Joined(named, s))
    requires end == i + |Joined(named, s)| < |data| && data[end] == Close(named)
    ensures v == i + |s.before| + |NameText(named, s)| && w == v + |s.value|
    ensures k == w + |s.after| && end == k + |s.rest|
    ensures At(data, v, s.value) && Delimited(data, w) && SkipSpace(data, w) == k && At(data, k, s.rest)
    ensures k < |data| && (if s.rest == "" then data[k] == Close(named) else data[k] == ',')
    ensures p == SkipSpace(data, i) < |data| && data[p] != Close(named)
    ensures ScanName(data, p, named, seen) == Some(v)
    ensures NameAt(data, p, named) == if named then NameOf(s.name) else []
  {
    p, v, w, k := FiveParts(data, i, s.before, NameText(named, s), s.value, s.after, s.rest, end);
    if s.rest != "" {
      AtChar(data, k, s.rest, 0);
    }
    SpaceThenSeparator(data, w, k, s.after, named);
    AtChar(data, v, s.value, 0);
    NameStands(data, i, p, v, named, s, seen);
  }

  lemma NameStands(data: string, i: nat, p: nat, v: nat, named: bool, s: Parts, seen: set<seq<nat>>)
    requires LegalParts(named, s, seen) && At(data, i, s.before) && At(data, p, NameText(named, s))
    requires p == i + |s.before| && v == p + |NameText(named, s)| < |data| && data[v] == s.value[0]
    ensures p == SkipSpace(data, i) < |data| && data[p] != Close(named)
    ensures ScanName(data, p, named, seen) == Some(v)
    ensures NameAt(data, p, named) == if named then NameOf(s.name) else []
  {
    if named {
      MemberNameScans(data, p, s.name, s.gap, s.lead, v, seen);
    }
    SpacesAreSkipped(data, i, s.before);
  }

  lemma EntryByParts(
    data: string, p: nat, v: nat, w: nat, k: nat, named: bool, depth: nat, seen: set<seq<nat>>, name: seq<nat>)
    requires p <= |data| && ScanName(data, p, named, seen) == Some(v) && NameAt(data, p, named) == name
    requires ScanValue(data, v, depth + 1) == Some(w) && SkipSpace(data, w) == k < |data|
    requires Separates(named, data[k])
    ensures ScanEntry(data, p, depth, named, seen) ==
            if data[k] == Close(named) then Last(Child(name, v, w), k + 1)
            else More(Child(name, v, w), SkipSpace(data, k + 1))
  {
  }

  lemma {:induction false} ValueScans(data: string, i: nat, end: nat, j: Json, depth: nat)
    requires Legal(j, depth) && At(data, i, Print(j)) && end == i + |Print(j)| && Delimited(data, end)
    ensures ScanValue(data, i, depth) == Some(end)
    decreases j
  {
    match j
    case Text(text) => TextScans(data, i, text);
    case Word(word) => WordScans(data, i, word);
    case Num(n) =>
      NumberScans(data, i, end, n);
      NumberIsNotAWord(data, i);
    case Container(named, pad, entries) =>
      ContainerScans(data, i, end, j, depth);
      ContainerIsValue(data, i, depth, end, ChildSpans(named, entries, i + 1));
  }

  lemma ContainerIsValue(data: string, i: nat, depth: nat, end: nat, children: seq<Child>)
    requires depth <= MAX_DEPTH && i < |data| && (data[i] == '{' || data[i] == '[')
    requires ScanContainer(data, i, depth) == Some(Frame(end, children))
    ensures ScanValue(data, i, depth) == Some(end)
  {
  }

  /** A printed container scans to its end with exactly the children it was printed from. */
  lemma {:induction false} ContainerScans(data: string, i: nat, end: nat, j: Json, depth: nat)
    requires j.Container? && Legal(j, depth) && At(data, i, Print(j)) && end == i + |Print(j)|
    ensures i < |data| && data[i] == Open(j.named)
    ensures ScanContainer(data, i, depth) == Some(Frame(end, ChildSpans(j.named, j.entries, i + 1)))
    decreases j, 0
  {
    ContainerText(data, i, end, j);
    if j.entries == [] {
      EmptyContainerScans(data, i, end, depth, j.named, j.pad);
    } else {
      FullContainerScans(data, i, end, depth, j.named, j.entries);
    }
  }

  /** What stands between the brackets. */
  function Inner(j: Json): string
    requires j.Container?
  {
    if j.entries == [] then j.pad else PrintEntries(j.named, j.entries)
  }

  lemma ContainerText(data: string, i: nat, end: nat, j: Json)
    requires j.Container? && At(data, i, Print(j)) && end == i + |Print(j)|
    ensures end == i + 1 + |Inner(j)| + 1 <= |data|
    ensures data[i] == Open(j.named) && data[end - 1] == Close(j.named) && At(data, i + 1, Inner(j))
  {
    assert Print(j) == [Open(j.named)] + (Inner(j) + [Close(j.named)]);
    Bracketed(data, i, Open(j.named), Inner(j), Close(j.named));
  }

  lemma {:induction false} FullContainerScans(
    data: string, i: nat, end: nat, depth: nat, named: bool, entries: seq<Entry>)
    requires entries != [] && LegalEntries(named, entries, depth, {}) && At(data, i + 1, PrintEntries(named, entries))
    requires end == i + 1 + |PrintEntries(named, entries)| + 1 <= |data|
    requires data[i] == Open(named) && data[end - 1] == Close(named)
    ensures ScanContainer(data, i, depth) == Some(Frame(end, ChildSpans(named, entries, i + 1)))
    decreases entries, 2
  {
    EntriesScan(data, i + 1, named, entries, end - 1, depth, {});
    ContainerByParts(data, i, SkipSpace(data, i + 1), depth, named, end, ChildSpans(named, entries, i + 1));
  }

  lemma EmptyContainerScans(data: string, i: nat, end: nat, depth: nat, named: bool, pad: string)
    requires end == i + 1 + |pad| + 1 <= |data| && data[i] == Open(named) && data[i + 1 + |pad|] == Close(named)
    requires AllSpace(pad) && At(data, i + 1, pad)
    ensures ScanContainer(data, i, depth) == Some(Frame(end, ChildSpans(named, [], i + 1)))
  {
    SpacesAreSkipped(data, i + 1, pad);
  }

  lemma Bracketed(data: string, i: nat, open: char, inner: string, close: char)
    requires At(data, i, [open] + (inner + [close]))
    ensures i + 1 + |inner| < |data| && data[i] == open && data[i + 1 + |inner|] == close
    ensures At(data, i + 1, inner)
  {
    AtAppend(data, i, [open], inner + [close]);
    AtChar(data, i, [open], 0);
    AtAppend(data, i + 1, inner, [close]);
    AtChar(data, i + 1 + |inner|, [close], 0);
  }

  lemma ContainerByParts(data: string, i: nat, p: nat, depth: nat, named: bool, end: nat,
                         children: seq<Child>)
    requires i < |data| && data[i] == Open(named)
    requires p == SkipSpace(data, i + 1) < |data| && data[p] != Close(named)
    requires ScanEntries(data, p, depth, named, {}) == Some(Frame(end, children))
    ensures ScanContainer(data, i, depth) == Some(Frame(end, children))
  {
  }

  /** The scanner reads a name at `p` and finds, past a value from `v` to `w`, a separator at `k`. */
  ghost predicate Reads(
    data: string, p: nat, v: nat, w: nat, k: nat, named: bool, seen: set<seq<nat>>, name: seq<nat>)
  {
    && p <= |data| && w <= |data| && ScanName(data, p, named, seen) == Some(v) && NameAt(data, p, named) == name
    && SkipSpace(data, w) == k < |data| && Separates(named, data[k])
  }

  /** The first entry is legal and its name is new. */
  predicate LegalFirst(named: bool, entries: seq<Entry>, depth: nat, seen: set<seq<nat>>) {
    && entries != [] && LegalEntry(named, entries[0], depth)
    && (named ==> EntryName(named, entries[0]) !in seen)
  }

  /** Some entries are printed from `i` up to the closing bracket at `end`. */
  ghost predicate EntriesPlaced(data: string, i: nat, named: bool, entries: seq<Entry>, end: nat) {
    && entries != [] && At(data, i, PrintEntries(named, entries))
    && end == i + |PrintEntries(named, entries)| < |data| && data[end] == Close(named)
  }

  /** The first of some printed entries, and where the others stand. */
  lemma FirstEntry(
    data: string, i: nat, named: bool, entries: seq<Entry>, end: nat, depth: nat, seen: set<seq<nat>>)
    returns (p: nat, v: nat, w: nat, k: nat)
    requires EntriesPlaced(data, i, named, entries, end) && LegalFirst(named, entries, depth, seen)
    ensures p == SkipSpace(data, i) < |data| && data[p] != Close(named)
    ensures Reads(data, p, v, w, k, named, seen, EntryName(named, entries[0]))
    ensures At(data, v, Print(entries[0].value)) && w == v + |Print(entries[0].value)| && Delimited(data, w)
    ensures Child(EntryName(named, entries[0]), v, w) == FirstChild(named, entries[0], i)
    ensures k + 1 == AfterFirst(named, entries[0], i)
    ensures if |entries| == 1 then k == end
            else && data[k] == ',' && At(data, k + 1, PrintEntries(named, entries[1..]))
                 && end == k + 1 + |PrintEntries(named, entries[1..])|
  {
    var s := PartsOf(named, entries);
    PartsAreLegal(named, entries, depth, seen);
    p, v, w, k := PartsStand(data, i, named, s, end, seen);
    RestParts(data, k, named, entries, end);
  }

  lemma RestParts(data: string, k: nat, named: bool, entries: seq<Entry>, end: nat)
    requires entries != [] && At(data, k, PrintRest(named, entries[1..])) && end == k + |PrintRest(named, entries[1..])|
    ensures if |entries| == 1 then k == end
            else && At(data, k + 1, PrintEntries(named, entries[1..]))
                 && end == k + 1 + |PrintEntries(named, entries[1..])|
  {
    if |entries| == 1 {
      assert entries[1..] == [];
    } else {
      AtAppend(data, k, ",", PrintEntries(named, entries[1..]));
    }
  }

  /** Some legal entries are printed from `i` up to the closing bracket at `end`. */
  ghost predicate EntriesStand(
    data: string, i: nat, named: bool, entries: seq<Entry>, end: nat, depth: nat, seen: set<seq<nat>>)
  {
    EntriesPlaced(data, i, named, entries, end) && LegalEntries(named, entries, depth, seen)
  }

  /** The scanner reads them from `i` on, past the bracket, with the children they were printed from. */
  ghost predicate EntriesRead(
    data: string, i: nat, named: bool, entries: seq<Entry>, end: nat, depth: nat, seen: set<seq<nat>>)
  {
    && i <= |data| && SkipSpace(data, i) < |data| && data[SkipSpace(data, i)] != Close(named)
    && ScanEntries(data, SkipSpace(data, i), depth, named, seen) ==
       Some(Frame(end + 1, ChildSpans(named, entries, i)))
  }

  lemma {:induction false} EntriesScan(
    data: string, i: nat, named: bool, entries: seq<Entry>, end: nat, depth: nat, seen: set<seq<nat>>)
    requires EntriesStand(data, i, named, entries, end, depth, seen)
    ensures EntriesRead(data, i, named, entries, end, depth, seen)
    decreases entries, 1
  {
    var next, name := AfterFirst(named, entries[0], i), EntryName(named, entries[0]);
    FirstIsLegal(named, entries, depth, seen);
    FirstScans(data, i, named, entries, end, depth, seen);
    if |entries| == 1 {
      OneEntryScans(data, i, named, entries, end, depth, seen);
    } else {
      RestStands(data, i, named, entries, end, depth, seen);
      EntriesScan(data, next, named, entries[1..], end, depth, seen + {name});
      MoreEntriesScan(data, i, named, entries, end, depth, seen);
    }
  }

  /** The scanner's turn at the first of the entries: it finds the child that was printed, and the
      bracket or the next entry after it. */
  ghost predicate FirstRead(
    data: string, i: nat, named: bool, entries: seq<Entry>, end: nat, depth: nat, seen: set<seq<nat>>)
    requires entries != []
  {
    var next := AfterFirst(named, entries[0], i);
    && i <= |data| && next <= |data| && SkipSpace(data, i) < |data| && data[SkipSpace(data, i)] != Close(named)
    && ScanEntry(data, SkipSpace(data, i), depth, named, seen) ==
       if |entries| == 1 then Last(FirstChild(named, entries[0], i), end + 1)
       else More(FirstChild(named, entries[0], i), SkipSpace(data, next))
  }

  lemma {:induction false} FirstScans(
    data: string, i: nat, named: bool, entries: seq<Entry>, end: nat, depth: nat, seen: set<seq<nat>>)
    requires EntriesPlaced(data, i, named, entries, end) && LegalFirst(named, entries, depth, seen)
    ensures FirstRead(data, i, named, entries, end, depth, seen)
    decreases entries, 0
  {
    var p, v, w, k := FirstEntry(data, i, named, entries, end, depth, seen);
    ValueScans(data, v, w, entries[0].value, depth + 1);
    TurnByParts(data, i, named, entries, end, depth, seen, p, v, w, k);
  }

  lemma TurnByParts(data: string, i: nat, named: bool, entries: seq<Entry>, end: nat, depth: nat,
                    seen: set<seq<nat>>, p: nat, v: nat, w: nat, k: nat)
    requires entries != [] && i <= |data| && p == SkipSpace(data, i) < |data| && data[p] != Close(named)
    requires Reads(data, p, v, w, k, named, seen, EntryName(named, entries[0]))
    requires ScanValue(data, v, depth + 1) == Some(w)
    requires Child(EntryName(named, entries[0]), v, w) == FirstChild(named, entries[0], i)
    requires k + 1 == AfterFirst(named, entries[0], i)
    requires if |entries| == 1 then k == end && data[k] == Close(named) else data[k] == ','
    ensures FirstRead(data, i, named, entries, end, depth, seen)
  {
    CloseDelimits(named);
    EntryByParts(data, p, v, w, k, named, depth, seen, EntryName(named, entries[0]));
  }

  lemma RestStands(
    data: string, i: nat, named: bool, entries: seq<Entry>, end: nat, depth: nat, seen: set<seq<nat>>)
    requires |entries| > 1 && EntriesStand(data, i, named, entries, end, depth, seen)
    ensures EntriesStand(data, AfterFirst(named, entries[0], i), named, entries[1..], end, depth,
                         seen + {EntryName(named, entries[0])})
  {
    RestPlace(data, i, named, entries, end);
    FirstIsLegal(named, entries, depth, seen);
  }

  /** Where the entries after the first stand. */
  lemma RestPlace(data: string, i: nat, named: bool, entries: seq<Entry>, end: nat)
    requires |entries| > 1 && At(data, i, PrintEntries(named, entries))
    requires end == i + |PrintEntries(named, entries)|
    ensures At(data, AfterFirst(named, entries[0], i), PrintEntries(named, entries[1..]))
    ensures end == AfterFirst(named, entries[0], i) + |PrintEntries(named, entries[1..])|
  {
    var s := PartsOf(named, entries);
    var p, v, w, k := FiveParts(data, i, s.before, NameText(named, s), s.value, s.after, s.rest, end);
    assert k + 1 == AfterFirst(named, entries[0], i);
    RestParts(data, k, named, entries, end);
  }

  lemma FirstIsLegal(named: bool, entries: seq<Entry>, depth: nat, seen: set<seq<nat>>)
    requires entries != [] && LegalEntries(named, entries, depth, seen)
    ensures LegalFirst(named, entries, depth, seen) && Legal(entries[0].value, depth + 1)
    ensures LegalEntries(named, entries[1..], depth, seen + {EntryName(named, entries[0])})
  {
  }

  lemma OneEntryScans(
    data: string, i: nat, named: bool, entries: seq<Entry>, end: nat, depth: nat, seen: set<seq<nat>>)
    requires |entries| == 1 && FirstRead(data, i, named, entries, end, depth, seen)
    ensures EntriesRead(data, i, named, entries, end, depth, seen)
  {
    LastTurn(data, SkipSpace(data, i), depth, named, seen, FirstChild(named, entries[0], i), end + 1);
    FrameOfOne(named, entries, i, FirstChild(named, entries[0], i), end);
  }

  lemma LastTurn(data: string, p: nat, depth: nat, named: bool, seen: set<seq<nat>>, child: Child, end: nat)
    requires p <= |data| && ScanEntry(data, p, depth, named, seen) == Last(child, end)
    ensures ScanEntries(data, p, depth, named, seen) == Some(Frame(end, [child]))
  {
  }

  lemma MoreEntriesScan(
    data: string, i: nat, named: bool, entries: seq<Entry>, end: nat, depth: nat, seen: set<seq<nat>>)
    requires |entries| > 1 && FirstRead(data, i, named, entries, end, depth, seen)
    requires EntriesRead(data, AfterFirst(named, entries[0], i), named, entries[1..], end, depth,
                         seen + {EntryName(named, entries[0])})
    ensures EntriesRead(data, i, named, entries, end, depth, seen)
  {
    var child, next := FirstChild(named, entries[0], i), AfterFirst(named, entries[0], i);
    var more := Frame(end + 1, ChildSpans(named, entries[1..], next));
    NextTurn(data, SkipSpace(data, i), depth, named, seen, child, SkipSpace(data, next), more);
    FrameOfMore(named, entries, i, child, next - 1, more, end);
  }

  lemma NextTurn(data: string, p: nat, depth: nat, named: bool, seen: set<seq<nat>>, child: Child, next: nat,
                 more: Frame)
    requires p <= |data| && next <= |data| && ScanEntry(data, p, depth, named, seen) == More(child, next)
    requires ScanEntries(data, next, depth, named, seen + {child.name}) == Some(more)
    ensures ScanEntries(data, p, depth, named, seen) == Some(Frame(more.end, [child] + more.children))
  {
  }

  lemma FrameOfOne(named: bool, entries: seq<Entry>, i: nat, child: Child, k: nat)
    requires |entries| == 1 && child == FirstChild(named, entries[0], i)
    ensures Frame(k + 1, [child]) == Frame(k + 1, ChildSpans(named, entries, i))
  {
    assert ChildSpans(named, entries[1..], AfterFirst(named, entries[0], i)) == [];
  }

  lemma FrameOfMore(named: bool, entries: seq<Entry>, i: nat, child: Child, k: nat, rest: Frame, end: nat)
    requires entries != [] && child == FirstChild(named, entries[0], i) && k + 1 == AfterFirst(named, entries[0], i)
    requires rest == Frame(end + 1, ChildSpans(named, entries[1..], k + 1))
    ensures Frame(rest.end, [child] + rest.children) == Frame(end + 1, ChildSpans(named, entries, i))
  {
  }

  function PartsOf(named: bool, entries: seq<Entry>): (s: Parts)
    requires entries != []
    ensures Joined(named, s) == PrintEntries(named, entries)
  {
    var e := entries[0];
    Parts(e.before, e.name, e.gap, e.lead, Print(e.value), e.after, PrintRest(named, entries[1..]))
  }

  lemma PartsAreLegal(named: bool, entries: seq<Entry>, depth: nat, seen: set<seq<nat>>)
    requires LegalFirst(named, entries, depth, seen)
    ensures LegalParts(named, PartsOf(named, entries), seen)
    ensures Legal(entries[0].value, depth + 1)
  {
    PrintStarts(entries[0].value, depth + 1);
  }
}
