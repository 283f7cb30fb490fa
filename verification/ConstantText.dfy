/** The text of a constant by plain substitution, from left to right: an evaluation that knows
    no tables and no recursion. */
module ConstantText {
  import opened Options
  import opened StringConstants

  /** What has been written, and what is still to be. */
  datatype State = State(written: string, todo: seq<Expr>)

  /** Write the first of what is to do, or replace it by its parts or by its declaration. */
  function Step(decls: seq<Decl>, s: State): State
    requires s.todo != []
  {
    var rest := s.todo[1..];
    match s.todo[0]
    case Literal(text) => State(s.written + text, rest)
    case Opaque => State(s.written + "<dynamic>", rest)
    case Paren(inner) => State(s.written, [inner] + rest)
    case Concat(left, right) => State(s.written, [left, right] + rest)
    case Name(n) =>
      match Lookup(decls, n)
      case None => State(s.written + "<dynamic>", rest)
      case Some(e) => State(s.written, [e] + rest)
  }

  function Run(decls: seq<Decl>, s: State, n: nat): State
    decreases n
  {
    if n == 0 || s.todo == [] then s else Run(decls, Step(decls, s), n - 1)
  }

  lemma {:induction false} RunOn(decls: seq<Decl>, s: State, n: nat, m: nat)
    requires Run(decls, s, n).todo != [] || m == 0
    ensures Run(decls, s, n + m) == Run(decls, Run(decls, s, n), m)
    decreases n
  {
    if n > 0 && s.todo != [] {
      RunOn(decls, Step(decls, s), n - 1, m);
    }
  }

  /** A constant that resolves is written, whatever stands before and after it. */
  lemma {:induction false} ResolvedIsWritten(decls: seq<Decl>, e: Expr, fuel: nat, written: string, rest: seq<Expr>)
    returns (n: nat)
    requires Eval(decls, e, fuel).Some?
    ensures n > 0
    ensures Run(decls, State(written, [e] + rest), n) == State(written + Eval(decls, e, fuel).value, rest)
    decreases fuel, e
  {
    var start := State(written, [e] + rest);
    assert ([e] + rest)[1..] == rest;
    match e
    case Literal(_) => n := WrittenAtOnce(decls, start);
    case Opaque => n := WrittenAtOnce(decls, start);
    case Paren(inner) =>
      n := ResolvedIsWritten(decls, inner, fuel, written, rest);
      n := n + 1;
    case Concat(left, right) => n := SumIsWritten(decls, left, right, fuel, written, rest);
    case Name(m) =>
      if Lookup(decls, m).None? {
        n := WrittenAtOnce(decls, start);
      } else {
        n := ResolvedIsWritten(decls, Lookup(decls, m).value, fuel - 1, written, rest);
        n := n + 1;
      }
  }

  lemma WrittenAtOnce(decls: seq<Decl>, s: State) returns (n: nat)
    requires s.todo != []
    ensures n == 1 && Run(decls, s, n) == Step(decls, s)
  {
    n := 1;
    assert Run(decls, Step(decls, s), 0) == Step(decls, s);
  }

  lemma {:induction false} SumIsWritten(
    decls: seq<Decl>, left: Expr, right: Expr, fuel: nat, written: string, rest: seq<Expr>) returns (n: nat)
    requires Eval(decls, Concat(left, right), fuel).Some?
    ensures n > 0
    ensures Run(decls, State(written, [Concat(left, right)] + rest), n) ==
            State(written + Eval(decls, Concat(left, right), fuel).value, rest)
    decreases fuel, Concat(left, right), 0
  {
    var a, b := Eval(decls, left, fuel).value, Eval(decls, right, fuel).value;
    var i := ResolvedIsWritten(decls, left, fuel, written, [right] + rest);
    var j := ResolvedIsWritten(decls, right, fuel, written + a, rest);
    var start := State(written, [Concat(left, right)] + rest);
    assert ([Concat(left, right)] + rest)[1..] == rest;
    assert [left] + ([right] + rest) == [left, right] + rest;
    assert Step(decls, start) == State(written, [left] + ([right] + rest));
    RunOn(decls, Step(decls, start), i, j);
    assert written + a + b == written + (a + b);
    n := 1 + (i + j);
  }

  /** So the value of a constant is what substituting its names from left to right writes. */
  lemma ValueIsTheSubstitutedText(decls: seq<Decl>, n: string, fuel: nat) returns (steps: nat)
    requires Eval(decls, Name(n), fuel).Some?
    ensures Run(decls, State("", [Name(n)]), steps) == State(Eval(decls, Name(n), fuel).value, [])
  {
    steps := ResolvedIsWritten(decls, Name(n), fuel, "", []);
    assert [Name(n)] + [] == [Name(n)];
    assert "" + Eval(decls, Name(n), fuel).value == Eval(decls, Name(n), fuel).value;
  }
}
