/** JSON text as sections 2, 6 and 7 of RFC 8259 write it: values with every space they were
    printed with. */
module JsonGrammar {

  const MAX_DEPTH := 64

  predicate IsSpace(c: char) {
    c == ' ' || c == '\r' || c == '\n' || c == '\t'
  }

  predicate AllSpace(s: string) {
    forall c :: c in s ==> IsSpace(c)
  }

  predicate IsDigit(c: char) {
    '0' <= c <= '9'
  }

  predicate IsHex(c: char) {
    IsDigit(c) || 'a' <= c <= 'f' || 'A' <= c <= 'F'
  }

  // ------------------------------------------------ strings

  /** What may stand between the quotes of a string. */
  predicate IsBody(s: string)
    decreases |s|
  {
    if s == "" then true
    else if s[0] == '\\' then
      && |s| >= 2
      && (if s[1] == 'u' then |s| >= 6 && AllHex(s[2..6]) && IsBody(s[6..])
          else s[1] in "\\\"/bfnrt" && IsBody(s[2..]))
    else s[0] != '\"' && s[0] >= ' ' && IsBody(s[1..])
  }

  predicate AllHex(s: string) {
    forall c :: c in s ==> IsHex(c)
  }

  predicate IsText(s: string) {
    |s| >= 2 && s[0] == '\"' && s[|s| - 1] == '\"' && IsBody(s[1..|s| - 1])
  }

  function HexValue(c: char): nat
    ensures HexValue(c) < 16
  {
    if IsDigit(c) then (c - '0') as nat
    else if 'a' <= c <= 'f' then 10 + (c - 'a') as nat
    else if 'A' <= c <= 'F' then 10 + (c - 'A') as nat
    else 0
  }

  function Hex4(s: string): nat
    requires |s| == 4
  {
    ((HexValue(s[0]) * 16 + HexValue(s[1])) * 16 + HexValue(s[2])) * 16 + HexValue(s[3])
  }

  function Unescaped(c: char): nat {
    match c
    case 'b' => 8
    case 'f' => 12
    case 'n' => 10
    case 'r' => 13
    case 't' => 9
    case _ => c as nat
  }

  /** A low surrogate, written by its number, comes next. */
  predicate StartsLow(s: string) {
    |s| >= 6 && s[0] == '\\' && s[1] == 'u' && 0xDC00 <= Hex4(s[2..6]) <= 0xDFFF
  }

  /** The first code point of a string body and the length it is written in. */
  function First(s: string): (r: (nat, nat))
    requires s != ""
    ensures 0 < r.1 <= |s|
  {
    if s[0] == '\\' && |s| >= 6 && s[1] == 'u' then
      var high := Hex4(s[2..6]);
      if 0xD800 <= high <= 0xDBFF && StartsLow(s[6..])
      then (0x10000 + (high - 0xD800) * 0x400 + (Hex4(s[6..][2..6]) - 0xDC00), 12)
      else (high, 6)
    else if s[0] == '\\' && |s| >= 2 then (Unescaped(s[1]), 2)
    else (s[0] as nat, 1)
  }

  /** The code points a string body stands for; a surrogate pair stands for one. */
  function Decode(s: string): seq<nat>
    decreases |s|
  {
    if s == "" then [] else [First(s).0] + Decode(s[First(s).1..])
  }

  /** The name a quoted string gives. */
  function NameOf(text: string): seq<nat> {
    if |text| < 2 then [] else Decode(text[1..|text| - 1])
  }

  // ------------------------------------------------ primitives

  predicate AllDigits(s: string) {
    |s| > 0 && forall c :: c in s ==> IsDigit(c)
  }

  predicate IsInteger(s: string) {
    s == "0" || (AllDigits(s) && s[0] != '0')
  }

  predicate IsFraction(s: string) {
    s == "" || (|s| > 1 && s[0] == '.' && AllDigits(s[1..]))
  }

  predicate IsExponent(s: string) {
    || s == ""
    || (&& |s| > 1 && (s[0] == 'e' || s[0] == 'E')
        && (AllDigits(s[1..]) || (|s| > 2 && (s[1] == '+' || s[1] == '-') && AllDigits(s[2..]))))
  }

  /** sign, integer part, fraction, exponent */
  datatype Number = Number(sign: string, integer: string, fraction: string, exponent: string)

  predicate ValidNumber(n: Number) {
    (n.sign == "" || n.sign == "-") && IsInteger(n.integer) && IsFraction(n.fraction) && IsExponent(n.exponent)
  }

  function PrintNumber(n: Number): string {
    n.sign + (n.integer + (n.fraction + n.exponent))
  }

  // ------------------------------------------------ values

  datatype Json =
    | Text(text: string)
    | Word(word: string)
    | Num(number: Number)
    | Container(named: bool, pad: string, entries: seq<Entry>)

  /** A member or an element. Elements have no name; `pad` of a container is used when it is empty. */
  datatype Entry = Entry(before: string, name: string, gap: string, lead: string, value: Json, after: string)

  function Open(named: bool): char {
    if named then '{' else '['
  }

  function Close(named: bool): char {
    if named then '}' else ']'
  }

  function Print(j: Json): string
    decreases j
  {
    match j
    case Text(text) => text
    case Word(word) => word
    case Num(n) => PrintNumber(n)
    case Container(named, pad, entries) =>
      [Open(named)] + ((if entries == [] then pad else PrintEntries(named, entries)) + [Close(named)])
  }

  function PrintName(named: bool, e: Entry): string {
    if named then e.name + (e.gap + (":" + e.lead)) else ""
  }

  function PrintEntries(named: bool, entries: seq<Entry>): string
    requires entries != []
    decreases entries, 0
  {
    var e := entries[0];
    e.before + (PrintName(named, e) + (Print(e.value) + (e.after + PrintRest(named, entries[1..]))))
  }

  function PrintRest(named: bool, entries: seq<Entry>): string
    decreases entries, 1
  {
    if entries == [] then "" else "," + PrintEntries(named, entries)
  }

  /** Legal at nesting `depth`: names are distinct once decoded, spaces are spaces. */
  predicate Legal(j: Json, depth: nat)
    decreases j
  {
    && depth <= MAX_DEPTH
    && match j
       case Text(text) => IsText(text)
       case Word(word) => word == "null" || word == "true" || word == "false"
       case Num(n) => ValidNumber(n)
       case Container(named, pad, entries) => AllSpace(pad) && LegalEntries(named, entries, depth, {})
  }

  predicate LegalEntry(named: bool, e: Entry, depth: nat)
    decreases e
  {
    && AllSpace(e.before) && AllSpace(e.after)
    && (named ==> IsText(e.name) && AllSpace(e.gap) && AllSpace(e.lead))
    && Legal(e.value, depth + 1)
  }

  function EntryName(named: bool, e: Entry): seq<nat> {
    if named then NameOf(e.name) else []
  }

  /** Every entry is legal and, in an object, each name differs from those before it and in `seen`. */
  predicate LegalEntries(named: bool, entries: seq<Entry>, depth: nat, seen: set<seq<nat>>)
    decreases entries
  {
    entries == [] ||
    (&& LegalEntry(named, entries[0], depth)
     && (named ==> EntryName(named, entries[0]) !in seen)
     && LegalEntries(named, entries[1..], depth, seen + {EntryName(named, entries[0])}))
  }

  /** That is: all entries are legal and all names are distinct and new. */
  lemma {:induction false} LegalEntriesMeans(named: bool, entries: seq<Entry>, depth: nat, seen: set<seq<nat>>)
    ensures LegalEntries(named, entries, depth, seen) <==>
            && (forall k :: 0 <= k < |entries| ==>
                  LegalEntry(named, entries[k], depth) && (named ==> EntryName(named, entries[k]) !in seen))
            && (named ==> forall k, m :: 0 <= k < m < |entries| ==>
                  EntryName(named, entries[k]) != EntryName(named, entries[m]))
    decreases |entries|
  {
    if entries != [] {
      var rest := entries[1..];
      LegalEntriesMeans(named, rest, depth, seen + {EntryName(named, entries[0])});
      assert forall k :: 0 <= k < |rest| ==> rest[k] == entries[k + 1];
      assert forall k :: 0 < k < |entries| ==> entries[k] == rest[k - 1];
    }
  }
}
