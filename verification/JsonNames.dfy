/** What name a string gives: every way of writing a sequence of code points, and that reading is
    its inverse. */
module JsonNames {
  import opened JsonGrammar

  /** The letter case of four hexadecimal digits, where it makes a difference. */
  datatype Cases = Cases(a: bool, b: bool, c: bool, d: bool)

  /** How one code point is written: as itself, by a letter, by its number, or by two surrogates. */
  datatype Style = Plain | Short | Numeric(cases: Cases) | Pair(high: Cases, low: Cases)

  function HexDigit(v: nat, upper: bool): char
    requires v < 16
  {
    if v < 10 then '0' + v as char else if upper then 'A' + (v - 10) as char else 'a' + (v - 10) as char
  }

  function HexText(v: nat, cases: Cases): (s: string)
    requires v < 0x10000
    ensures |s| == 4
  {
    [HexDigit(v / 4096, cases.a), HexDigit(v / 256 % 16, cases.b),
     HexDigit(v / 16 % 16, cases.c), HexDigit(v % 16, cases.d)]
  }

  function Escaped(v: nat, cases: Cases): (s: string)
    requires v < 0x10000
    ensures |s| == 6
  {
    ['\\', 'u'] + HexText(v, cases)
  }

  predicate HasLetter(n: nat) {
    n in {8, 9, 10, 12, 13, 0x22, 0x2F, 0x5C}
  }

  function Letter(n: nat): char {
    if n == 8 then 'b' else if n == 9 then 't' else if n == 10 then 'n' else if n == 12 then 'f'
    else if n == 13 then 'r' else if n == 0x22 then '\"' else if n == 0x2F then '/' else '\\'
  }

  predicate IsHigh(n: nat) {
    0xD800 <= n <= 0xDBFF
  }

  predicate IsLow(n: nat) {
    0xDC00 <= n <= 0xDFFF
  }

  /** The styles a code point can be written in. Surrogates have no character of their own. */
  predicate CanWrite(n: nat, style: Style) {
    match style
    case Plain => 0x20 <= n <= 0x10FFFF && !IsHigh(n) && !IsLow(n) && n != 0x22 && n != 0x5C
    case Short => HasLetter(n)
    case Numeric(_) => n < 0x10000
    case Pair(_, _) => 0x10000 <= n <= 0x10FFFF
  }

  function WriteOne(n: nat, style: Style): string
    requires CanWrite(n, style)
  {
    match style
    case Plain => [n as char]
    case Short => ['\\', Letter(n)]
    case Numeric(cases) => Escaped(n, cases)
    case Pair(high, low) =>
      Escaped(0xD800 + (n - 0x10000) / 0x400, high) + Escaped(0xDC00 + (n - 0x10000) % 0x400, low)
  }

  predicate CanSpell(name: seq<nat>, styles: seq<Style>) {
    |name| == |styles| && forall k :: 0 <= k < |name| ==> CanWrite(name[k], styles[k])
  }

  function Spell(name: seq<nat>, styles: seq<Style>): string
    requires CanSpell(name, styles)
  {
    if name == [] then "" else WriteOne(name[0], styles[0]) + Spell(name[1..], styles[1..])
  }

  /** A high surrogate before a low one is not two code points but one. */
  predicate IsName(name: seq<nat>) {
    forall k :: 0 <= k < |name| - 1 ==> !(IsHigh(name[k]) && IsLow(name[k + 1]))
  }

  // ------------------------------------------------ reading what was written

  lemma DigitReads(v: nat, upper: bool)
    requires v < 16
    ensures HexValue(HexDigit(v, upper)) == v && IsHex(HexDigit(v, upper))
  {
  }

  lemma HexReads(v: nat, cases: Cases)
    requires v < 0x10000
    ensures Hex4(HexText(v, cases)) == v && AllHex(HexText(v, cases))
  {
    DigitReads(v / 4096, cases.a);
    DigitReads(v / 256 % 16, cases.b);
    DigitReads(v / 16 % 16, cases.c);
    DigitReads(v % 16, cases.d);
    DigitsMake(v);
  }

  lemma DigitsMake(v: nat)
    requires v < 0x10000
    ensures ((v / 4096 * 16 + v / 256 % 16) * 16 + v / 16 % 16) * 16 + v % 16 == v
  {
  }

  lemma LetterReads(n: nat)
    requires HasLetter(n)
    ensures Letter(n) in "\\\"/bfnrt" && Letter(n) != 'u' && Unescaped(Letter(n)) == n
  {
    assert "\\\"/bfnrt" == ['\\', '\"', '/', 'b', 'f', 'n', 'r', 't'];
  }

  lemma NumericParts(n: nat, cases: Cases, rest: string)
    requires n < 0x10000
    ensures var s := Escaped(n, cases) + rest;
            |s| >= 6 && s[0] == '\\' && s[1] == 'u' && s[2..6] == HexText(n, cases) && s[6..] == rest
  {
  }

  /** A written code point that starts with a number escape. */
  lemma NumericStart(n: nat, style: Style, rest: string)
    requires CanWrite(n, style)
    ensures var s := WriteOne(n, style) + rest;
            |s| >= 2 && s[0] == '\\' && s[1] == 'u' <==> style.Numeric? || style.Pair?
    ensures var s := WriteOne(n, style) + rest;
            style.Numeric? || style.Pair? ==>
              |s| >= 6 && (IsLow(Hex4(s[2..6])) ==> style.Numeric? && IsLow(n))
  {
    var s := WriteOne(n, style) + rest;
    match style
    case Plain =>
    case Short => LetterReads(n);
    case Numeric(cases) =>
      NumericParts(n, cases, rest);
      HexReads(n, cases);
    case Pair(high, low) =>
      var h, l := 0xD800 + (n - 0x10000) / 0x400, 0xDC00 + (n - 0x10000) % 0x400;
      assert s == Escaped(h, high) + (Escaped(l, low) + rest);
      HighStart(h, high, Escaped(l, low) + rest);
  }

  lemma HighStart(h: nat, high: Cases, rest: string)
    requires IsHigh(h)
    ensures var s := Escaped(h, high) + rest;
            |s| >= 6 && s[0] == '\\' && s[1] == 'u' && !IsLow(Hex4(s[2..6]))
  {
    NumericParts(h, high, rest);
    HexReads(h, high);
  }

  lemma PlainReads(n: nat, rest: string)
    requires CanWrite(n, Plain)
    ensures Decode(WriteOne(n, Plain) + rest) == [n] + Decode(rest)
    ensures IsBody(rest) ==> IsBody(WriteOne(n, Plain) + rest)
  {
    assert ([n as char] + rest)[1..] == rest;
  }

  lemma ShortReads(n: nat, rest: string)
    requires CanWrite(n, Short)
    ensures Decode(WriteOne(n, Short) + rest) == [n] + Decode(rest)
    ensures IsBody(rest) ==> IsBody(WriteOne(n, Short) + rest)
  {
    LetterReads(n);
    assert (['\\', Letter(n)] + rest)[2..] == rest;
  }

  lemma NumberDecodes(s: string)
    requires |s| >= 6 && s[0] == '\\' && s[1] == 'u' && !(IsHigh(Hex4(s[2..6])) && StartsLow(s[6..]))
    ensures Decode(s) == [Hex4(s[2..6])] + Decode(s[6..])
  {
    assert First(s) == (Hex4(s[2..6]), 6);
  }

  lemma PairDecodes(s: string)
    requires |s| >= 6 && s[0] == '\\' && s[1] == 'u' && IsHigh(Hex4(s[2..6])) && StartsLow(s[6..])
    ensures Decode(s) ==
            [0x10000 + (Hex4(s[2..6]) - 0xD800) * 0x400 + (Hex4(s[6..][2..6]) - 0xDC00)] + Decode(s[6..][6..])
  {
    assert First(s).1 == 12 && s[12..] == s[6..][6..];
  }

  lemma NumberIsBody(s: string)
    requires |s| >= 6 && s[0] == '\\' && s[1] == 'u' && AllHex(s[2..6])
    ensures IsBody(s) <==> IsBody(s[6..])
  {
  }

  lemma NumericReads(n: nat, cases: Cases, rest: string)
    requires n < 0x10000 && !(IsHigh(n) && StartsLow(rest))
    ensures Decode(Escaped(n, cases) + rest) == [n] + Decode(rest)
    ensures IsBody(rest) ==> IsBody(Escaped(n, cases) + rest)
  {
    NumericParts(n, cases, rest);
    HexReads(n, cases);
    NumberDecodes(Escaped(n, cases) + rest);
    NumberIsBody(Escaped(n, cases) + rest);
  }

  lemma SurrogatesRead(h: nat, l: nat, high: Cases, low: Cases, rest: string)
    requires IsHigh(h) && IsLow(l)
    ensures var s := Escaped(h, high) + (Escaped(l, low) + rest);
            && Decode(s) == [0x10000 + (h - 0xD800) * 0x400 + (l - 0xDC00)] + Decode(rest)
            && (IsBody(rest) ==> IsBody(s))
  {
    var tail := Escaped(l, low) + rest;
    var s := Escaped(h, high) + tail;
    NumericParts(h, high, tail);
    NumericParts(l, low, rest);
    HexReads(h, high);
    HexReads(l, low);
    PairDecodes(s);
    NumberIsBody(tail);
    NumberIsBody(s);
  }

  lemma PairReads(n: nat, high: Cases, low: Cases, rest: string)
    requires CanWrite(n, Pair(high, low))
    ensures Decode(WriteOne(n, Pair(high, low)) + rest) == [n] + Decode(rest)
    ensures IsBody(rest) ==> IsBody(WriteOne(n, Pair(high, low)) + rest)
  {
    var h, l := 0xD800 + (n - 0x10000) / 0x400, 0xDC00 + (n - 0x10000) % 0x400;
    PairMakes(n);
    PairSplits(n, h, l, high, low, rest);
    SurrogatesRead(h, l, high, low, rest);
  }

  lemma PairSplits(n: nat, h: nat, l: nat, high: Cases, low: Cases, rest: string)
    requires 0x10000 <= n <= 0x10FFFF
    requires h == 0xD800 + (n - 0x10000) / 0x400 && l == 0xDC00 + (n - 0x10000) % 0x400
    ensures WriteOne(n, Pair(high, low)) + rest == Escaped(h, high) + (Escaped(l, low) + rest)
  {
    var a, b := Escaped(h, high), Escaped(l, low);
    assert a + b + rest == a + (b + rest);
  }

  lemma PairMakes(n: nat)
    requires 0x10000 <= n <= 0x10FFFF
    ensures var h, l := 0xD800 + (n - 0x10000) / 0x400, 0xDC00 + (n - 0x10000) % 0x400;
            IsHigh(h) && IsLow(l) && 0x10000 + (h - 0xD800) * 0x400 + (l - 0xDC00) == n
  {
  }

  /** Reading undoes writing, whatever the style of each code point. */
  lemma {:induction false} SpelledIsRead(name: seq<nat>, styles: seq<Style>)
    requires IsName(name) && CanSpell(name, styles)
    ensures Decode(Spell(name, styles)) == name && IsBody(Spell(name, styles))
  {
    if name != [] {
      var n, style, rest := name[0], styles[0], Spell(name[1..], styles[1..]);
      SpelledIsRead(name[1..], styles[1..]);
      assert name == [n] + name[1..];
      match style
      case Plain => PlainReads(n, rest);
      case Short => ShortReads(n, rest);
      case Pair(high, low) => PairReads(n, high, low, rest);
      case Numeric(cases) =>
        NoLowFollows(name, styles);
        NumericReads(n, cases, rest);
    }
  }

  lemma NoLowFollows(name: seq<nat>, styles: seq<Style>)
    requires IsName(name) && CanSpell(name, styles) && name != []
    ensures var rest := Spell(name[1..], styles[1..]);
            !(IsHigh(name[0]) && StartsLow(rest))
  {
    if |name| > 1 {
      var n, style := name[1..][0], styles[1..][0];
      NumericStart(n, style, Spell(name[1..][1..], styles[1..][1..]));
    }
  }

  // ------------------------------------------------ every string was written

  lemma DigitWrites(c: char) returns (upper: bool)
    requires IsHex(c)
    ensures HexDigit(HexValue(c), upper) == c
  {
    upper := 'A' <= c <= 'F';
  }

  lemma HexWrites(s: string) returns (cases: Cases)
    requires |s| == 4 && AllHex(s)
    ensures Hex4(s) < 0x10000 && HexText(Hex4(s), cases) == s
  {
    assert s[0] in s && s[1] in s && s[2] in s && s[3] in s;
    var a := DigitWrites(s[0]);
    var b := DigitWrites(s[1]);
    var c := DigitWrites(s[2]);
    var d := DigitWrites(s[3]);
    cases := Cases(a, b, c, d);
    DigitsOf(HexValue(s[0]), HexValue(s[1]), HexValue(s[2]), HexValue(s[3]));
  }

  lemma DigitsOf(a: nat, b: nat, c: nat, d: nat)
    requires a < 16 && b < 16 && c < 16 && d < 16
    ensures var v := ((a * 16 + b) * 16 + c) * 16 + d;
            v < 0x10000 && v / 4096 == a && v / 256 % 16 == b && v / 16 % 16 == c && v % 16 == d
  {
  }

  lemma LetterWrites(c: char)
    requires c in "\\\"/bfnrt"
    ensures HasLetter(Unescaped(c)) && Letter(Unescaped(c)) == c
  {
    assert "\\\"/bfnrt" == ['\\', '\"', '/', 'b', 'f', 'n', 'r', 't'];
  }

  /** The code points of the surrogates `h` and `l`. */
  lemma PairWrites(h: nat, l: nat)
    requires IsHigh(h) && IsLow(l)
    ensures var n := 0x10000 + (h - 0xD800) * 0x400 + (l - 0xDC00);
            && 0x10000 <= n <= 0x10FFFF
            && 0xD800 + (n - 0x10000) / 0x400 == h && 0xDC00 + (n - 0x10000) % 0x400 == l
  {
  }

  /** The first code point of a string and the style it is written in. */
  lemma FirstWritten(s: string) returns (n: nat, style: Style, rest: string)
    requires IsBody(s) && s != ""
    ensures CanWrite(n, style) && s == WriteOne(n, style) + rest && |rest| < |s| && IsBody(rest)
    ensures Decode(s) == [n] + Decode(rest)
    ensures IsHigh(n) && rest != "" && IsBody(rest) ==> !IsLow(Decode(rest)[0])
  {
    if s[0] != '\\' {
      n, style, rest := s[0] as nat, Plain, s[1..];
    } else if s[1] != 'u' {
      LetterWrites(s[1]);
      n, style, rest := Unescaped(s[1]), Short, s[2..];
      assert s == s[..2] + s[2..];
    } else {
      n, style, rest := FirstNumber(s);
    }
  }

  lemma FirstNumber(s: string) returns (n: nat, style: Style, rest: string)
    requires IsBody(s) && |s| >= 2 && s[0] == '\\' && s[1] == 'u'
    ensures CanWrite(n, style) && s == WriteOne(n, style) + rest && |rest| < |s| && IsBody(rest)
    ensures Decode(s) == [n] + Decode(rest)
    ensures IsHigh(n) && rest != "" && IsBody(rest) ==> !IsLow(Decode(rest)[0])
  {
    var high := Hex4(s[2..6]);
    var cases := HexWrites(s[2..6]);
    assert s == ['\\', 'u'] + s[2..6] + s[6..];
    if IsHigh(high) && StartsLow(s[6..]) {
      n, style, rest := FirstPair(s, cases);
    } else {
      n, style, rest := high, Numeric(cases), s[6..];
      NumberDecodes(s);
      if rest != "" {
        LowStarts(rest);
      }
    }
  }

  lemma LowStarts(s: string)
    requires IsBody(s) && s != ""
    ensures Decode(s) != [] && (IsLow(Decode(s)[0]) ==> StartsLow(s))
  {
    if s[0] == '\\' && s[1] != 'u' {
      LetterWrites(s[1]);
    }
  }

  lemma FirstPair(s: string, cases: Cases) returns (n: nat, style: Style, rest: string)
    requires IsBody(s) && |s| >= 6 && s[0] == '\\' && s[1] == 'u' && AllHex(s[2..6])
    requires IsHigh(Hex4(s[2..6])) && HexText(Hex4(s[2..6]), cases) == s[2..6] && StartsLow(s[6..])
    ensures CanWrite(n, style) && s == WriteOne(n, style) + rest && |rest| < |s| && IsBody(rest)
    ensures Decode(s) == [n] + Decode(rest) && !IsHigh(n)
  {
    var tail := s[6..];
    TailIsBody(s);
    PairDecodes(s);
    var lower := HexWrites(tail[2..6]);
    n, style, rest := PairText(s, cases, lower);
  }

  lemma TailIsBody(s: string)
    requires IsBody(s) && |s| >= 6 && s[0] == '\\' && s[1] == 'u' && AllHex(s[2..6]) && StartsLow(s[6..])
    ensures AllHex(s[6..][2..6]) && IsBody(s[6..][6..])
  {
    NumberIsBody(s);
    LowIsHex(s[6..]);
    NumberIsBody(s[6..]);
  }

  lemma PairText(s: string, high: Cases, low: Cases) returns (n: nat, style: Style, rest: string)
    requires |s| >= 6 && s[0] == '\\' && s[1] == 'u' && IsHigh(Hex4(s[2..6])) && StartsLow(s[6..])
    requires HexText(Hex4(s[2..6]), high) == s[2..6] && HexText(Hex4(s[6..][2..6]), low) == s[6..][2..6]
    ensures n == 0x10000 + (Hex4(s[2..6]) - 0xD800) * 0x400 + (Hex4(s[6..][2..6]) - 0xDC00)
    ensures rest == s[6..][6..] && CanWrite(n, style) && !IsHigh(n) && s == WriteOne(n, style) + rest
  {
    var h, l := Hex4(s[2..6]), Hex4(s[6..][2..6]);
    n, style, rest := 0x10000 + (h - 0xD800) * 0x400 + (l - 0xDC00), Pair(high, low), s[6..][6..];
    PairWritten(h, l, high, low, rest);
    EscapedInFront(s[6..], low);
    EscapedInFront(s, high);
  }

  lemma EscapedInFront(s: string, cases: Cases)
    requires |s| >= 6 && s[0] == '\\' && s[1] == 'u'
    requires Hex4(s[2..6]) < 0x10000 && HexText(Hex4(s[2..6]), cases) == s[2..6]
    ensures s == Escaped(Hex4(s[2..6]), cases) + s[6..]
  {
  }

  lemma LowIsHex(s: string)
    requires IsBody(s) && StartsLow(s)
    ensures AllHex(s[2..6])
  {
  }

  lemma PairWritten(h: nat, l: nat, high: Cases, low: Cases, rest: string)
    requires IsHigh(h) && IsLow(l)
    ensures var n := 0x10000 + (h - 0xD800) * 0x400 + (l - 0xDC00);
            && CanWrite(n, Pair(high, low)) && !IsHigh(n)
            && WriteOne(n, Pair(high, low)) + rest ==
               Escaped(h, high) + (Escaped(l, low) + rest)
  {
    PairWrites(h, l);
  }

  /** Every string body is its code points written in some styles. */
  lemma {:induction false} BodyIsSpelled(s: string) returns (styles: seq<Style>)
    requires IsBody(s)
    ensures IsName(Decode(s)) && CanSpell(Decode(s), styles) && Spell(Decode(s), styles) == s
    decreases |s|
  {
    if s == "" {
      styles := [];
    } else {
      var n, style, rest := FirstWritten(s);
      var more := BodyIsSpelled(rest);
      styles := [style] + more;
      SpelledInFront(n, style, rest, more);
    }
  }

  lemma SpelledInFront(n: nat, style: Style, rest: string, more: seq<Style>)
    requires CanWrite(n, style) && IsName(Decode(rest)) && CanSpell(Decode(rest), more)
    requires Spell(Decode(rest), more) == rest
    requires IsHigh(n) && rest != "" ==> |Decode(rest)| > 0 && !IsLow(Decode(rest)[0])
    ensures var name := [n] + Decode(rest);
            && IsName(name) && CanSpell(name, [style] + more)
            && Spell(name, [style] + more) == WriteOne(n, style) + rest
  {
    var name, styles := [n] + Decode(rest), [style] + more;
    assert name[1..] == Decode(rest) && styles[1..] == more;
    if rest == "" {
      assert Decode(rest) == [];
    }
  }

  /** A string gives a name exactly when it is one of the ways of writing it. */
  lemma ReadExactlyWhenSpelled(s: string, name: seq<nat>)
    requires IsName(name)
    ensures IsBody(s) && Decode(s) == name <==> exists styles :: CanSpell(name, styles) && Spell(name, styles) == s
  {
    if IsBody(s) && Decode(s) == name {
      var styles := BodyIsSpelled(s);
      assert CanSpell(name, styles) && Spell(name, styles) == s;
    }
    if styles :| CanSpell(name, styles) && Spell(name, styles) == s {
      SpelledIsRead(name, styles);
    }
  }

  /** So no two names share a way of writing them. */
  lemma SpellingsNeverCollide(a: seq<nat>, b: seq<nat>, s: seq<Style>, t: seq<Style>)
    requires IsName(a) && IsName(b) && CanSpell(a, s) && CanSpell(b, t) && Spell(a, s) == Spell(b, t)
    ensures a == b
  {
    SpelledIsRead(a, s);
    SpelledIsRead(b, t);
  }

  function Quoted(body: string): string {
    ['\"'] + body + ['\"']
  }

  lemma QuotedGivesName(name: seq<nat>, styles: seq<Style>)
    requires IsName(name) && CanSpell(name, styles)
    ensures IsText(Quoted(Spell(name, styles))) && NameOf(Quoted(Spell(name, styles))) == name
  {
    var body := Spell(name, styles);
    SpelledIsRead(name, styles);
    assert Quoted(body)[1..|Quoted(body)| - 1] == body;
  }
}
