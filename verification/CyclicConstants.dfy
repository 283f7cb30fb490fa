/** What a constant that refers to itself is worth. */
module CyclicConstants {
  import opened Options
  import opened StringConstants

  /** Following bare references from `e`, at most `fuel` of them, the first sum met. */
  function FirstSum(decls: seq<Decl>, e: Expr, fuel: nat): Option<(Expr, Expr)>
    decreases fuel, e
  {
    match e
    case Concat(l, r) => Some((l, r))
    case Paren(x) => FirstSum(decls, x, fuel)
    case Name(n) =>
      if Lookup(decls, n).None? || fuel == 0 then None else FirstSum(decls, Lookup(decls, n).value, fuel - 1)
    case _ => None
  }

  lemma {:induction false} MoreFuelSameSum(decls: seq<Decl>, e: Expr, fuel: nat, more: nat)
    requires fuel <= more && FirstSum(decls, e, fuel).Some?
    ensures FirstSum(decls, e, more) == FirstSum(decls, e, fuel)
    decreases fuel, e
  {
    match e
    case Concat(_, _) =>
    case Paren(x) => MoreFuelSameSum(decls, x, fuel, more);
    case Name(n) => MoreFuelSameSum(decls, Lookup(decls, n).value, fuel - 1, more - 1);
  }

  /** The expression with its sums replaced by literals. */
  function Flat(e: Expr): Expr {
    match e
    case Concat(_, _) => Literal("")
    case Paren(x) => Paren(Flat(x))
    case _ => e
  }

  function FlatAll(decls: seq<Decl>): (f: seq<Decl>)
    ensures |f| == |decls| && forall i :: 0 <= i < |f| ==> f[i] == Decl(decls[i].name, Flat(decls[i].expr))
  {
    if decls == [] then [] else [Decl(decls[0].name, Flat(decls[0].expr))] + FlatAll(decls[1..])
  }

  lemma {:induction false} LookupFlat(decls: seq<Decl>, n: string)
    ensures Lookup(FlatAll(decls), n) == if Lookup(decls, n).Some? then Some(Flat(Lookup(decls, n).value)) else None
  {
    if decls != [] {
      LookupFlat(decls[1..], n);
      assert FlatAll(decls)[1..] == FlatAll(decls[1..]);
    }
  }

  /** On a cyclic expression, meeting a sum is resolving in the flattened declarations. */
  lemma {:induction false} SumMeansFlatResolves(decls: seq<Decl>, e: Expr, fuel: nat)
    requires Cyclic(decls, e)
    ensures FirstSum(decls, e, fuel).Some? <==> Eval(FlatAll(decls), Flat(e), fuel).Some?
    decreases fuel, e
  {
    CyclicIsNoLeaf(decls, e);
    match e
    case Concat(_, _) =>
    case Paren(x) =>
      CyclicInside(decls, x);
      SumMeansFlatResolves(decls, x, fuel);
    case Name(n) =>
      LookupFlat(decls, n);
      if fuel > 0 {
        CyclicName(decls, n);
        SumMeansFlatResolves(decls, Lookup(decls, n).value, fuel - 1);
      }
    case _ =>
  }

  lemma CyclicIsNoLeaf(decls: seq<Decl>, e: Expr)
    requires Cyclic(decls, e)
    ensures e.Concat? || e.Paren? || (e.Name? && Lookup(decls, e.name).Some?)
  {
    assert Eval(decls, e, 0).None?;
  }

  lemma CyclicInside(decls: seq<Decl>, x: Expr)
    requires Cyclic(decls, Paren(x))
    ensures Cyclic(decls, x)
  {
    forall fuel: nat
      ensures Eval(decls, x, fuel).None?
    {
      assert Eval(decls, Paren(x), fuel) == Eval(decls, x, fuel);
    }
  }

  lemma CyclicName(decls: seq<Decl>, n: string)
    requires Cyclic(decls, Name(n)) && Lookup(decls, n).Some?
    ensures Cyclic(decls, Lookup(decls, n).value)
  {
    forall fuel: nat
      ensures Eval(decls, Lookup(decls, n).value, fuel).None?
    {
      assert Eval(decls, Name(n), fuel + 1) == Eval(decls, Lookup(decls, n).value, fuel);
    }
  }

  /** A cyclic name that leads to a sum at all does so within as many references as there are
      declarations. */
  lemma SumIsNear(decls: seq<Decl>, n: string, fuel: nat)
    requires n in Names(decls) && Cyclic(decls, Name(n)) && FirstSum(decls, Name(n), fuel).Some?
    ensures FirstSum(decls, Name(n), |decls|) == FirstSum(decls, Name(n), fuel)
  {
    var flat, bound := FlatAll(decls), |decls|;
    SumMeansFlatResolves(decls, Name(n), fuel);
    LookupIsDeclared(decls, n);
    LookupFlat(decls, n);
    LookupIsDeclared(flat, n);
    DepthIsBounded(flat, n, fuel);
    SumMeansFlatResolves(decls, Name(n), bound);
    MoreFuelSameSum(decls, Name(n), if fuel < bound then fuel else bound, if fuel < bound then bound else fuel);
  }

  ghost predicate ResolvesEmpty(decls: seq<Decl>, e: Expr) {
    exists fuel: nat :: Eval(decls, e, fuel) == Some("")
  }

  /** Neither operand resolves to the empty text. */
  ghost predicate Solid(decls: seq<Decl>, s: (Expr, Expr)) {
    !ResolvesEmpty(decls, s.0) && !ResolvesEmpty(decls, s.1)
  }

  /** Only a name that resolves to the empty text is ever empty in the table. */
  ghost predicate EmptyIsReal(decls: seq<Decl>, values: Values) {
    forall n :: n in values && n != BLANK && values[n] == "" ==> ResolvesEmpty(decls, Name(n))
  }

  /** A cyclic name that leads to no sum is the marker. */
  ghost predicate Bare(decls: seq<Decl>, values: Values) {
    forall n :: n in values && n != BLANK && Cyclic(decls, Name(n)) && NoSum(decls, Name(n)) ==>
      values[n] == DYNAMIC
  }

  ghost predicate NoSum(decls: seq<Decl>, e: Expr) {
    forall fuel: nat :: FirstSum(decls, e, fuel).None?
  }

  /** A cyclic name that leads to a solid sum within `fuel` references has outgrown the marker. */
  ghost predicate Outgrown(decls: seq<Decl>, values: Values, fuel: nat) {
    forall n :: n in Names(decls) && n != BLANK && LeadsToSolid(decls, Name(n), fuel) ==>
      n in values && |values[n]| > |DYNAMIC|
  }

  ghost predicate LeadsToSolid(decls: seq<Decl>, e: Expr, fuel: nat) {
    && Cyclic(decls, e)
    && FirstSum(decls, e, fuel).Some? && Solid(decls, FirstSum(decls, e, fuel).value)
  }

  lemma {:induction false} EmptyTextIsReal(decls: seq<Decl>, values: Values, e: Expr)
    requires EmptyIsReal(decls, values) && !Mentions(e, BLANK) && ConstantString(e, values) == ""
    ensures ResolvesEmpty(decls, e)
  {
    match e
    case Literal(_) => assert Eval(decls, e, 0) == Some("");
    case Concat(l, r) =>
      EmptyTextIsReal(decls, values, l);
      EmptyTextIsReal(decls, values, r);
      var a: nat :| Eval(decls, l, a) == Some("");
      var b: nat :| Eval(decls, r, b) == Some("");
      var c := if a < b then b else a;
      MoreFuelAgrees(decls, l, a, c);
      MoreFuelAgrees(decls, r, b, c);
      assert Eval(decls, e, c) == Some("");
    case Paren(x) =>
      EmptyTextIsReal(decls, values, x);
      var a: nat :| Eval(decls, x, a) == Some("");
      assert Eval(decls, e, a) == Some("");
    case Name(_) =>
    case Opaque =>
  }

  lemma {:induction false} BareIsTheMarker(decls: seq<Decl>, values: Values, e: Expr)
    requires Bare(decls, values) && !Mentions(e, BLANK) && Cyclic(decls, e) && NoSum(decls, e)
    ensures ConstantString(e, values) == DYNAMIC
  {
    CyclicIsNoLeaf(decls, e);
    assert FirstSum(decls, e, 0).None?;
    match e
    case Paren(x) =>
      CyclicInside(decls, x);
      forall fuel: nat
        ensures FirstSum(decls, x, fuel).None?
      {
        assert FirstSum(decls, e, fuel) == FirstSum(decls, x, fuel);
      }
      BareIsTheMarker(decls, values, x);
    case _ =>
  }

  lemma ContainsIsLong(s: string, t: string)
    requires Contains(s, t)
    ensures |s| >= |t|
  {
  }

  lemma {:induction false} SolidOutgrows(decls: seq<Decl>, values: Values, e: Expr, fuel: nat)
    requires Marked(decls, values) && EmptyIsReal(decls, values) && Outgrown(decls, values, fuel)
    requires !Mentions(e, BLANK) && LeadsToSolid(decls, e, fuel)
    ensures |ConstantString(e, values)| > |DYNAMIC|
    decreases e
  {
    CyclicIsNoLeaf(decls, e);
    match e
    case Concat(l, r) => SolidSumIsLong(decls, values, l, r);
    case Paren(x) =>
      CyclicInside(decls, x);
      SolidOutgrows(decls, values, x, fuel);
    case Name(n) => LookupIsDeclared(decls, n);
    case _ =>
  }

  lemma SolidSumIsLong(decls: seq<Decl>, values: Values, l: Expr, r: Expr)
    requires Marked(decls, values) && EmptyIsReal(decls, values)
    requires !Mentions(l, BLANK) && !Mentions(r, BLANK) && Cyclic(decls, Concat(l, r)) && Solid(decls, (l, r))
    ensures |ConstantString(l, values) + ConstantString(r, values)| > |DYNAMIC|
  {
    CyclicPart(decls, l, r);
    if ConstantString(l, values) == "" {
      EmptyTextIsReal(decls, values, l);
    }
    if ConstantString(r, values) == "" {
      EmptyTextIsReal(decls, values, r);
    }
    if Cyclic(decls, l) {
      CyclicIsDynamic(decls, values, l);
      ContainsIsLong(ConstantString(l, values), DYNAMIC);
    } else {
      CyclicIsDynamic(decls, values, r);
      ContainsIsLong(ConstantString(r, values), DYNAMIC);
    }
  }
}
