/** The scanner's regular expression for words and numbers, and that the grammar prints exactly
    what it matches. */
module JsonPrimitive {
  import opened JsonGrammar

  datatype Regex =
    | Nothing
    | Range(low: char, high: char)
    | Then(first: Regex, second: Regex)
    | Or(left: Regex, right: Regex)
    | Many(one: Regex)

  ghost predicate Matches(r: Regex, s: string)
    decreases r, |s|
  {
    match r
    case Nothing => s == ""
    case Range(low, high) => |s| == 1 && low <= s[0] <= high
    case Then(a, b) => exists k :: 0 <= k <= |s| && Matches(a, s[..k]) && Matches(b, s[k..])
    case Or(a, b) => Matches(a, s) || Matches(b, s)
    case Many(a) => s == "" || exists k :: 0 < k <= |s| && Matches(a, s[..k]) && Matches(r, s[k..])
  }

  function Optional(r: Regex): Regex {
    Or(Nothing, r)
  }

  function One(c: char): Regex {
    Range(c, c)
  }

  function Literal(s: string): Regex {
    if s == "" then Nothing else Then(One(s[0]), Literal(s[1..]))
  }

  const DIGIT := Range('0', '9')
  const DIGITS := Then(DIGIT, Many(DIGIT))
  const INTEGER := Or(One('0'), Then(Range('1', '9'), Many(DIGIT)))
  const FRACTION := Optional(Then(One('.'), DIGITS))
  const SIGN := Or(One('+'), One('-'))
  const EXPONENT := Optional(Then(Or(One('e'), One('E')), Then(Optional(SIGN), DIGITS)))
  const NUMBER := Then(Optional(One('-')), Then(INTEGER, Then(FRACTION, EXPONENT)))
  const PRIMITIVE := Or(Literal("null"), Or(Literal("true"), Or(Literal("false"), NUMBER)))

  /** A match of one part and then another, given the parts. */
  lemma Consists(a: Regex, b: Regex, x: string, y: string)
    requires Matches(a, x) && Matches(b, y)
    ensures Matches(Then(a, b), x + y)
  {
    assert (x + y)[..|x|] == x && (x + y)[|x|..] == y;
  }

  lemma Splits(a: Regex, b: Regex, s: string) returns (x: string, y: string)
    requires Matches(Then(a, b), s)
    ensures s == x + y && Matches(a, x) && Matches(b, y)
  {
    var k :| 0 <= k <= |s| && Matches(a, s[..k]) && Matches(b, s[k..]);
    x, y := s[..k], s[k..];
  }

  lemma OptionalMatches(r: Regex, s: string)
    ensures Matches(Optional(r), s) <==> s == "" || Matches(r, s)
  {
  }

  lemma EitherMatches(a: char, b: char, s: string)
    ensures Matches(Or(One(a), One(b)), s) <==> s == [a] || s == [b]
  {
    assert Matches(One(a), s) <==> s == [a];
    assert Matches(One(b), s) <==> s == [b];
  }

  lemma OrMatches(a: Regex, b: Regex, s: string)
    ensures Matches(Or(a, b), s) <==> Matches(a, s) || Matches(b, s)
  {
  }

  lemma {:induction false} LiteralMatches(w: string, s: string)
    ensures Matches(Literal(w), s) <==> s == w
    decreases |w|
  {
    if w != "" {
      if Matches(Literal(w), s) {
        var x, y := Splits(One(w[0]), Literal(w[1..]), s);
        LiteralMatches(w[1..], y);
        assert x == [w[0]] && w == [w[0]] + w[1..];
      }
      if s == w {
        LiteralMatches(w[1..], w[1..]);
        Consists(One(w[0]), Literal(w[1..]), [w[0]], w[1..]);
        assert w == [w[0]] + w[1..];
      }
    }
  }

  lemma {:induction false} ManyDigits(s: string)
    ensures Matches(Many(DIGIT), s) <==> forall c :: c in s ==> IsDigit(c)
    decreases |s|
  {
    if s != "" {
      ManyDigits(s[1..]);
      assert s == [s[0]] + s[1..];
      if Matches(Many(DIGIT), s) {
        var k :| 0 < k <= |s| && Matches(DIGIT, s[..k]) && Matches(Many(DIGIT), s[k..]);
        assert k == 1 && s[..1][0] == s[0];
      }
      if forall c :: c in s ==> IsDigit(c) {
        assert s[0] in s && Matches(DIGIT, s[..1]);
      }
    }
  }

  lemma DigitsMatch(s: string)
    ensures Matches(DIGITS, s) <==> AllDigits(s)
  {
    if Matches(DIGITS, s) {
      var x, y := Splits(DIGIT, Many(DIGIT), s);
      ManyDigits(y);
    }
    if AllDigits(s) {
      assert s == [s[0]] + s[1..] && s[0] in s;
      ManyDigits(s[1..]);
      Consists(DIGIT, Many(DIGIT), [s[0]], s[1..]);
    }
  }

  lemma IntegerMatches(s: string)
    ensures Matches(INTEGER, s) <==> IsInteger(s)
  {
    var positive := Then(Range('1', '9'), Many(DIGIT));
    if Matches(positive, s) {
      var x, y := Splits(Range('1', '9'), Many(DIGIT), s);
      ManyDigits(y);
    }
    if AllDigits(s) && s[0] != '0' {
      assert s == [s[0]] + s[1..] && s[0] in s;
      ManyDigits(s[1..]);
      Consists(Range('1', '9'), Many(DIGIT), [s[0]], s[1..]);
    }
    assert Matches(One('0'), s) <==> s == "0";
  }

  lemma FractionMatches(s: string)
    ensures Matches(FRACTION, s) <==> IsFraction(s)
  {
    if Matches(Then(One('.'), DIGITS), s) {
      var x, y := Splits(One('.'), DIGITS, s);
      DigitsMatch(y);
      assert s[1..] == y;
    }
    if s != "" && IsFraction(s) {
      DigitsMatch(s[1..]);
      Consists(One('.'), DIGITS, [s[0]], s[1..]);
      assert s == [s[0]] + s[1..];
    }
  }

  predicate IsSigned(s: string) {
    AllDigits(s) || (|s| > 1 && (s[0] == '+' || s[0] == '-') && AllDigits(s[1..]))
  }

  lemma SignedMatches(s: string)
    ensures Matches(Then(Optional(SIGN), DIGITS), s) <==> IsSigned(s)
  {
    if Matches(Then(Optional(SIGN), DIGITS), s) {
      var x, y := Splits(Optional(SIGN), DIGITS, s);
      DigitsMatch(y);
      OptionalMatches(SIGN, x);
      EitherMatches('+', '-', x);
      if x != "" {
        assert s[1..] == y && s[0] == x[0];
      } else {
        assert s == y;
      }
    }
    if AllDigits(s) {
      DigitsMatch(s);
      OptionalMatches(SIGN, "");
      Consists(Optional(SIGN), DIGITS, "", s);
      assert "" + s == s;
    } else if IsSigned(s) {
      DigitsMatch(s[1..]);
      EitherMatches('+', '-', [s[0]]);
      OptionalMatches(SIGN, [s[0]]);
      Consists(Optional(SIGN), DIGITS, [s[0]], s[1..]);
      assert s == [s[0]] + s[1..];
    }
  }

  lemma ExponentMatches(s: string)
    ensures Matches(EXPONENT, s) <==> IsExponent(s)
  {
    var mark, tail := Or(One('e'), One('E')), Then(Optional(SIGN), DIGITS);
    OptionalMatches(Then(mark, tail), s);
    if s != "" && Matches(EXPONENT, s) {
      var x, y := Splits(mark, tail, s);
      SignedMatches(y);
      EitherMatches('e', 'E', x);
      assert s[1..] == y && s[2..] == y[1..];
    }
    if s != "" && IsExponent(s) {
      assert s[1..][1..] == s[2..];
      SignedMatches(s[1..]);
      EitherMatches('e', 'E', [s[0]]);
      Consists(mark, tail, [s[0]], s[1..]);
      assert s == [s[0]] + s[1..];
    }
  }

  lemma MinusMatches(s: string)
    ensures Matches(Optional(One('-')), s) <==> s == "" || s == "-"
  {
    OptionalMatches(One('-'), s);
    assert Matches(One('-'), s) <==> s == "-";
  }

  lemma NumberMatches(s: string)
    ensures Matches(NUMBER, s) <==> exists n :: ValidNumber(n) && PrintNumber(n) == s
  {
    if Matches(NUMBER, s) {
      var sign, rest := Splits(Optional(One('-')), Then(INTEGER, Then(FRACTION, EXPONENT)), s);
      var integer, tail := Splits(INTEGER, Then(FRACTION, EXPONENT), rest);
      var fraction, exponent := Splits(FRACTION, EXPONENT, tail);
      IntegerMatches(integer);
      FractionMatches(fraction);
      ExponentMatches(exponent);
      MinusMatches(sign);
      var n := Number(sign, integer, fraction, exponent);
      assert ValidNumber(n) && PrintNumber(n) == s;
    }
    if n :| ValidNumber(n) && PrintNumber(n) == s {
      IntegerMatches(n.integer);
      FractionMatches(n.fraction);
      ExponentMatches(n.exponent);
      Consists(FRACTION, EXPONENT, n.fraction, n.exponent);
      Consists(INTEGER, Then(FRACTION, EXPONENT), n.integer, n.fraction + n.exponent);
      MinusMatches(n.sign);
      Consists(Optional(One('-')), Then(INTEGER, Then(FRACTION, EXPONENT)), n.sign,
               n.integer + (n.fraction + n.exponent));
    }
  }

  /** The expression matches exactly the legal words and the printed numbers. */
  lemma PrimitiveMatches(s: string)
    ensures Matches(PRIMITIVE, s) <==>
            Legal(Word(s), 0) || exists n :: Legal(Num(n), 0) && Print(Num(n)) == s
  {
    LiteralMatches("null", s);
    LiteralMatches("true", s);
    LiteralMatches("false", s);
    NumberMatches(s);
    OrMatches(Literal("false"), NUMBER, s);
    OrMatches(Literal("true"), Or(Literal("false"), NUMBER), s);
    OrMatches(Literal("null"), Or(Literal("true"), Or(Literal("false"), NUMBER)), s);
    if n :| ValidNumber(n) && PrintNumber(n) == s {
      assert Legal(Num(n), 0) && Print(Num(n)) == s;
    }
  }
}
