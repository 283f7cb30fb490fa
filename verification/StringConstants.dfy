/** Package-level string constants: what they mean, and tables that are right about them. */
module StringConstants {
  import opened Options
  import Sets

  const DYNAMIC := "<dynamic>"
  const BLANK := "_"

  /** An initializer, as far as it can be a string: anything else is opaque. */
  datatype Expr =
    | Literal(text: string)
    | Opaque
    | Name(name: string)
    | Concat(left: Expr, right: Expr)
    | Paren(inner: Expr)

  /** One declared name with its initializer, in file order. */
  datatype Decl = Decl(name: string, expr: Expr)

  type Values = map<string, string>

  function ConstantString(e: Expr, constants: Values): string {
    match e
    case Literal(text) => text
    case Opaque => DYNAMIC
    case Name(n) => if n in constants then constants[n] else DYNAMIC
    case Concat(l, r) => ConstantString(l, constants) + ConstantString(r, constants)
    case Paren(x) => ConstantString(x, constants)
  }

  // ------------------------------------------------ what a constant means

  predicate Mentions(e: Expr, n: string) {
    match e
    case Name(m) => m == n
    case Concat(l, r) => Mentions(l, n) || Mentions(r, n)
    case Paren(x) => Mentions(x, n)
    case _ => false
  }

  /** Names are declared once, except the blank one, which nothing can refer to. */
  ghost predicate WellNamed(decls: seq<Decl>) {
    && (forall i, j :: 0 <= i < j < |decls| && decls[i].name == decls[j].name ==> decls[i].name == BLANK)
    && (forall d :: d in decls ==> !Mentions(d.expr, BLANK))
  }

  function Names(decls: seq<Decl>): set<string> {
    set d | d in decls :: d.name
  }

  function Lookup(decls: seq<Decl>, n: string): Option<Expr> {
    if decls == [] then None
    else if decls[0].name == n then Some(decls[0].expr)
    else Lookup(decls[1..], n)
  }

  /** The recursive evaluation of `e`, following names at most `fuel` deep; none when that is
      not deep enough, as it never is around a cycle. */
  ghost function Eval(decls: seq<Decl>, e: Expr, fuel: nat): Option<string>
    decreases fuel, e
  {
    match e
    case Literal(text) => Some(text)
    case Opaque => Some(DYNAMIC)
    case Paren(x) => Eval(decls, x, fuel)
    case Concat(l, r) =>
      var a, b := Eval(decls, l, fuel), Eval(decls, r, fuel);
      if a.Some? && b.Some? then Some(a.value + b.value) else None
    case Name(n) =>
      match Lookup(decls, n)
      case None => Some(DYNAMIC)
      case Some(x) => if fuel == 0 then None else Eval(decls, x, fuel - 1)
  }

  lemma {:induction false} LookupFinds(decls: seq<Decl>, d: Decl)
    requires d in decls && d.name != BLANK
    requires forall i, j :: 0 <= i < j < |decls| && decls[i].name == decls[j].name ==> decls[i].name == BLANK
    ensures Lookup(decls, d.name) == Some(d.expr)
  {
    if decls[0] != d {
      var k :| 0 <= k < |decls| && decls[k] == d;
      assert decls[1..][k - 1] == d;
      assert decls[0].name != d.name;
      LookupFinds(decls[1..], d);
    }
  }

  lemma {:induction false} LookupIsDeclared(decls: seq<Decl>, n: string)
    ensures Lookup(decls, n).Some? <==> n in Names(decls)
    ensures Lookup(decls, n).Some? ==> Decl(n, Lookup(decls, n).value) in decls
  {
    if decls != [] {
      LookupIsDeclared(decls[1..], n);
      assert decls == [decls[0]] + decls[1..];
      if n in Names(decls) && decls[0].name != n {
        var d :| d in decls && d.name == n;
        assert d in decls[1..];
      }
    }
  }

  lemma {:induction false} MoreFuelAgrees(decls: seq<Decl>, e: Expr, fuel: nat, more: nat)
    requires fuel <= more && Eval(decls, e, fuel).Some?
    ensures Eval(decls, e, more) == Eval(decls, e, fuel)
    decreases fuel, e
  {
    match e
    case Concat(l, r) =>
      MoreFuelAgrees(decls, l, fuel, more);
      MoreFuelAgrees(decls, r, fuel, more);
    case Paren(x) => MoreFuelAgrees(decls, x, fuel, more);
    case Name(n) =>
      if Lookup(decls, n).Some? {
        MoreFuelAgrees(decls, Lookup(decls, n).value, fuel - 1, more - 1);
      }
    case _ =>
  }

  // ------------------------------------------------ names resolved within a depth

  /** The table is right about every name that resolves within `fuel`. */
  ghost predicate Correct(decls: seq<Decl>, values: Values, fuel: nat) {
    && values.Keys <= Names(decls)
    && forall n :: n in Names(decls) && n != BLANK && Eval(decls, Name(n), fuel).Some? ==>
         n in values && Some(values[n]) == Eval(decls, Name(n), fuel)
  }

  lemma {:induction false} CorrectTableEvaluates(decls: seq<Decl>, values: Values, e: Expr, fuel: nat)
    requires Correct(decls, values, fuel) && !Mentions(e, BLANK) && Eval(decls, e, fuel).Some?
    ensures Some(ConstantString(e, values)) == Eval(decls, e, fuel)
    decreases e
  {
    match e
    case Concat(l, r) =>
      CorrectTableEvaluates(decls, values, l, fuel);
      CorrectTableEvaluates(decls, values, r, fuel);
    case Paren(x) => CorrectTableEvaluates(decls, values, x, fuel);
    case Name(n) => LookupIsDeclared(decls, n);
    case _ =>
  }

  lemma EmptyTableIsCorrect(decls: seq<Decl>)
    ensures Correct(decls, map[], 0)
  {
    forall n | n in Names(decls)
      ensures Eval(decls, Name(n), 0).None?
    {
      LookupIsDeclared(decls, n);
    }
  }

  lemma CorrectBelow(decls: seq<Decl>, values: Values, fuel: nat)
    requires Correct(decls, values, fuel + 1)
    ensures Correct(decls, values, fuel)
  {
    forall n | n in Names(decls) && n != BLANK && Eval(decls, Name(n), fuel).Some?
      ensures n in values && Some(values[n]) == Eval(decls, Name(n), fuel)
    {
      MoreFuelAgrees(decls, Name(n), fuel, fuel + 1);
    }
  }

  /** Recomputing one declaration keeps the table right, and makes it right one level deeper there. */
  lemma UpdateKeepsCorrect(decls: seq<Decl>, values: Values, d: Decl, fuel: nat)
    requires WellNamed(decls) && d in decls && Correct(decls, values, fuel)
    ensures Correct(decls, values[d.name := ConstantString(d.expr, values)], fuel)
    ensures d.name != BLANK && Eval(decls, Name(d.name), fuel + 1).Some? ==>
              Some(ConstantString(d.expr, values)) == Eval(decls, Name(d.name), fuel + 1)
  {
    if d.name != BLANK {
      LookupFinds(decls, d);
      if Eval(decls, Name(d.name), fuel + 1).Some? {
        CorrectTableEvaluates(decls, values, d.expr, fuel);
      }
      if Eval(decls, Name(d.name), fuel).Some? {
        MoreFuelAgrees(decls, Name(d.name), fuel, fuel + 1);
      }
    }
  }

  // ------------------------------------------------ cycles stay dynamic

  ghost predicate Contains(s: string, t: string) {
    exists a, b :: s == a + t + b
  }

  lemma ContainsItself(t: string)
    ensures Contains(t, t)
  {
    assert t == "" + t + "";
  }

  lemma ContainsAppend(x: string, y: string, t: string)
    requires Contains(x, t) || Contains(y, t)
    ensures Contains(x + y, t)
  {
    if Contains(x, t) {
      var a, b :| x == a + t + b;
      assert x + y == a + t + (b + y);
    } else {
      var a, b :| y == a + t + b;
      assert x + y == (x + a) + t + b;
    }
  }

  /** No depth resolves it. */
  ghost predicate Cyclic(decls: seq<Decl>, e: Expr) {
    forall fuel: nat :: Eval(decls, e, fuel).None?
  }

  /** Every unresolvable name the table holds is marked dynamic. */
  ghost predicate Marked(decls: seq<Decl>, values: Values) {
    forall n :: n in values && n != BLANK && Cyclic(decls, Name(n)) ==> Contains(values[n], DYNAMIC)
  }

  lemma {:induction false} CyclicPart(decls: seq<Decl>, l: Expr, r: Expr)
    requires Cyclic(decls, Concat(l, r))
    ensures Cyclic(decls, l) || Cyclic(decls, r)
  {
    if !Cyclic(decls, l) && !Cyclic(decls, r) {
      var a: nat :| Eval(decls, l, a).Some?;
      var b: nat :| Eval(decls, r, b).Some?;
      BothResolve(decls, l, r, a, b);
    }
  }

  lemma BothResolve(decls: seq<Decl>, l: Expr, r: Expr, a: nat, b: nat)
    requires Eval(decls, l, a).Some? && Eval(decls, r, b).Some?
    ensures Eval(decls, Concat(l, r), if a < b then b else a).Some?
  {
    var c := if a < b then b else a;
    MoreFuelAgrees(decls, l, a, c);
    MoreFuelAgrees(decls, r, b, c);
  }

  lemma LiteralResolves(decls: seq<Decl>, e: Expr)
    ensures e.Literal? ==> Eval(decls, e, 0).Some?
  {
  }

  lemma {:induction false} CyclicIsDynamic(decls: seq<Decl>, values: Values, e: Expr)
    requires Marked(decls, values) && !Mentions(e, BLANK) && Cyclic(decls, e)
    ensures Contains(ConstantString(e, values), DYNAMIC)
  {
    LiteralResolves(decls, e);
    ContainsItself(DYNAMIC);
    match e
    case Literal(_) =>
    case Opaque =>
    case Name(_) =>
    case Concat(l, r) =>
      CyclicPart(decls, l, r);
      if Cyclic(decls, l) {
        CyclicIsDynamic(decls, values, l);
      } else {
        CyclicIsDynamic(decls, values, r);
      }
      ContainsAppend(ConstantString(l, values), ConstantString(r, values), DYNAMIC);
    case Paren(x) =>
      forall fuel: nat
        ensures Eval(decls, x, fuel).None?
      {
        assert Eval(decls, e, fuel) == Eval(decls, x, fuel);
      }
      CyclicIsDynamic(decls, values, x);
  }

  lemma UpdateKeepsMarked(decls: seq<Decl>, values: Values, d: Decl)
    requires WellNamed(decls) && d in decls && Marked(decls, values)
    ensures Marked(decls, values[d.name := ConstantString(d.expr, values)])
  {
    if d.name != BLANK && Cyclic(decls, Name(d.name)) {
      LookupFinds(decls, d);
      forall fuel: nat
        ensures Eval(decls, d.expr, fuel).None?
      {
        assert Eval(decls, Name(d.name), fuel + 1) == Eval(decls, d.expr, fuel);
      }
      CyclicIsDynamic(decls, values, d.expr);
    }
  }

  // ------------------------------------------------ when names resolve

  /** Every declared name refers only to declared names of smaller rank: there is no cycle. */
  ghost predicate Ranked(decls: seq<Decl>, rank: map<string, nat>) {
    && rank.Keys == Names(decls)
    && forall d, n :: d in decls && Mentions(d.expr, n) && n in rank ==> rank[n] < rank[d.name]
  }

  lemma {:induction false} RankedExprResolves(decls: seq<Decl>, rank: map<string, nat>, e: Expr, bound: nat)
    requires Ranked(decls, rank)
    requires forall n :: Mentions(e, n) && n in rank ==> rank[n] < bound
    ensures Eval(decls, e, bound).Some?
    decreases bound, e
  {
    match e
    case Concat(l, r) =>
      assert forall n :: Mentions(l, n) || Mentions(r, n) ==> Mentions(e, n);
      RankedExprResolves(decls, rank, l, bound);
      RankedExprResolves(decls, rank, r, bound);
    case Paren(x) =>
      assert forall n :: Mentions(x, n) ==> Mentions(e, n);
      RankedExprResolves(decls, rank, x, bound);
    case Name(n) =>
      LookupIsDeclared(decls, n);
      if Lookup(decls, n).Some? {
        assert Mentions(e, n);
        var x := Lookup(decls, n).value;
        assert Decl(n, x) in decls;
        RankedExprResolves(decls, rank, x, rank[n]);
        MoreFuelAgrees(decls, x, rank[n], bound - 1);
      }
    case _ =>
  }

  /** Without cycles every name resolves. */
  lemma AcyclicNamesResolve(decls: seq<Decl>, rank: map<string, nat>, n: string)
    requires Ranked(decls, rank) && n in rank
    ensures Eval(decls, Name(n), rank[n] + 1).Some?
  {
    RankedExprResolves(decls, rank, Name(n), rank[n] + 1);
  }

  lemma {:induction false} SameDeclsSameEval(a: seq<Decl>, b: seq<Decl>, e: Expr, fuel: nat)
    requires WellNamed(a) && WellNamed(b) && (forall d :: d in a <==> d in b) && !Mentions(e, BLANK)
    ensures Eval(a, e, fuel) == Eval(b, e, fuel)
    decreases fuel, e
  {
    match e
    case Concat(l, r) =>
      SameDeclsSameEval(a, b, l, fuel);
      SameDeclsSameEval(a, b, r, fuel);
    case Paren(x) => SameDeclsSameEval(a, b, x, fuel);
    case Name(n) =>
      LookupIsDeclared(a, n);
      LookupIsDeclared(b, n);
      if Lookup(a, n).Some? {
        var d := Decl(n, Lookup(a, n).value);
        LookupFinds(b, d);
        if fuel > 0 {
          SameDeclsSameEval(a, b, d.expr, fuel - 1);
        }
      }
    case _ =>
  }

  // ------------------------------------------------ depth is bounded by the declarations

  ghost function Resolved(decls: seq<Decl>, fuel: nat): set<string> {
    set n | n in Names(decls) && Eval(decls, Name(n), fuel).Some?
  }

  lemma {:induction false} SameResolvedSameEval(decls: seq<Decl>, e: Expr, a: nat, b: nat)
    requires a <= b && Resolved(decls, a) == Resolved(decls, b)
    ensures Eval(decls, e, a).Some? <==> Eval(decls, e, b).Some?
    decreases e
  {
    match e
    case Concat(l, r) =>
      SameResolvedSameEval(decls, l, a, b);
      SameResolvedSameEval(decls, r, a, b);
    case Paren(x) => SameResolvedSameEval(decls, x, a, b);
    case Name(n) =>
      LookupIsDeclared(decls, n);
      assert n in Names(decls) ==> (n in Resolved(decls, a) <==> Eval(decls, e, a).Some?);
      assert n in Names(decls) ==> (n in Resolved(decls, b) <==> Eval(decls, e, b).Some?);
    case _ =>
  }

  lemma ResolvedStalls(decls: seq<Decl>, fuel: nat)
    requires Resolved(decls, fuel) == Resolved(decls, fuel + 1)
    ensures Resolved(decls, fuel + 1) == Resolved(decls, fuel + 2)
  {
    forall n | n in Names(decls)
      ensures Eval(decls, Name(n), fuel + 1).Some? <==> Eval(decls, Name(n), fuel + 2).Some?
    {
      LookupIsDeclared(decls, n);
      SameResolvedSameEval(decls, Lookup(decls, n).value, fuel, fuel + 1);
    }
  }

  lemma ResolvedGrows(decls: seq<Decl>, fuel: nat)
    ensures Resolved(decls, fuel) <= Resolved(decls, fuel + 1)
  {
    forall n | n in Resolved(decls, fuel)
      ensures n in Resolved(decls, fuel + 1)
    {
      MoreFuelAgrees(decls, Name(n), fuel, fuel + 1);
    }
  }

  /** Each further level resolves a new name until none is left to resolve. */
  lemma {:induction false} EachLevelResolves(decls: seq<Decl>, fuel: nat)
    ensures Resolved(decls, fuel) == Resolved(decls, fuel + 1) || |Resolved(decls, fuel + 1)| > fuel
  {
    ResolvedGrows(decls, fuel);
    if fuel > 0 {
      EachLevelResolves(decls, fuel - 1);
      if Resolved(decls, fuel - 1) == Resolved(decls, fuel) {
        ResolvedStalls(decls, fuel - 1);
      }
    }
    if n :| n in Resolved(decls, fuel + 1) && n !in Resolved(decls, fuel) {
      Sets.ProperSubsetIsSmaller(Resolved(decls, fuel), Resolved(decls, fuel + 1), n);
    }
  }

  lemma {:induction false} NamesAreFew(decls: seq<Decl>)
    ensures |Names(decls)| <= |decls|
  {
    if decls != [] {
      NamesAreFew(decls[1..]);
      assert Names(decls) == Names(decls[1..]) + {decls[0].name};
    }
  }

  lemma {:induction false} StalledForGood(decls: seq<Decl>, fuel: nat, more: nat)
    requires Resolved(decls, fuel) == Resolved(decls, fuel + 1) && fuel <= more
    ensures Resolved(decls, more) == Resolved(decls, more + 1) == Resolved(decls, fuel)
    decreases more - fuel
  {
    if fuel < more {
      ResolvedStalls(decls, fuel);
      StalledForGood(decls, fuel + 1, more);
    }
  }

  /** A name that resolves at all resolves within as many levels as there are declarations. */
  lemma DepthIsBounded(decls: seq<Decl>, n: string, fuel: nat)
    requires n in Names(decls) && Eval(decls, Name(n), fuel).Some?
    ensures Eval(decls, Name(n), |decls|) == Eval(decls, Name(n), fuel)
  {
    var bound := |decls|;
    if fuel <= bound {
      MoreFuelAgrees(decls, Name(n), fuel, bound);
    } else {
      EachLevelResolves(decls, bound);
      NamesAreFew(decls);
      Sets.SubsetIsNoLarger(Resolved(decls, bound + 1), Names(decls));
      StalledForGood(decls, bound, fuel);
      assert n in Resolved(decls, fuel);
      MoreFuelAgrees(decls, Name(n), bound, fuel);
    }
  }
}
