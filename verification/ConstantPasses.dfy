/** Resolving package-level string constants to a fixed point. */
module ConstantPasses {
  import opened Options
  import opened StringConstants
  import opened CyclicConstants

  /** The rest of a pass, from declaration `i` on, each value used as soon as known. */
  function SweepFrom(decls: seq<Decl>, values: Values, i: nat): Values
    requires i <= |decls|
    decreases |decls| - i
  {
    if i == |decls| then values
    else SweepFrom(decls, values[decls[i].name := ConstantString(decls[i].expr, values)], i + 1)
  }

  function Sweep(decls: seq<Decl>, values: Values): Values {
    SweepFrom(decls, values, 0)
  }

  function Sweeps(decls: seq<Decl>, k: nat): Values {
    if k == 0 then map[] else Sweep(decls, Sweeps(decls, k - 1))
  }

  /** No declaration would change the table. */
  ghost predicate Stable(decls: seq<Decl>, values: Values) {
    forall d :: d in decls ==> d.name in values && values[d.name] == ConstantString(d.expr, values)
  }

  lemma {:induction false} StableSweep(decls: seq<Decl>, values: Values, i: nat)
    requires Stable(decls, values) && i <= |decls|
    ensures SweepFrom(decls, values, i) == values
    decreases |decls| - i
  {
    if i < |decls| {
      assert decls[i] in decls;
      assert values[decls[i].name := ConstantString(decls[i].expr, values)] == values;
      StableSweep(decls, values, i + 1);
    }
  }

  /** What holds of every table on the way, with names resolved and outgrown up to a depth. */
  ghost predicate Sound(decls: seq<Decl>, values: Values, fuel: nat) {
    && Correct(decls, values, fuel) && Outgrown(decls, values, fuel)
    && Marked(decls, values) && EmptyIsReal(decls, values) && Bare(decls, values)
  }

  /** The entry of declaration `d` is right one level deeper. */
  ghost predicate Deeper(decls: seq<Decl>, values: Values, d: Decl, fuel: nat) {
    && d.name in values
    && (d.name != BLANK && Eval(decls, Name(d.name), fuel).Some? ==>
          Some(values[d.name]) == Eval(decls, Name(d.name), fuel))
    && (d.name != BLANK && LeadsToSolid(decls, Name(d.name), fuel) ==> |values[d.name]| > |DYNAMIC|)
  }

  lemma UpdateKeepsSound(decls: seq<Decl>, values: Values, d: Decl, fuel: nat)
    requires WellNamed(decls) && d in decls && Sound(decls, values, fuel)
    ensures var after := values[d.name := ConstantString(d.expr, values)];
            Sound(decls, after, fuel) && Deeper(decls, after, d, fuel + 1)
  {
    UpdateKeepsCorrect(decls, values, d, fuel);
    UpdateKeepsMarked(decls, values, d);
    UpdateKeepsEmptyReal(decls, values, d);
    UpdateKeepsBare(decls, values, d);
    UpdateKeepsOutgrown(decls, values, d, fuel);
  }

  lemma UpdateKeepsEmptyReal(decls: seq<Decl>, values: Values, d: Decl)
    requires WellNamed(decls) && d in decls && EmptyIsReal(decls, values)
    ensures EmptyIsReal(decls, values[d.name := ConstantString(d.expr, values)])
  {
    if d.name != BLANK && ConstantString(d.expr, values) == "" {
      LookupFinds(decls, d);
      EmptyTextIsReal(decls, values, d.expr);
      var a: nat :| Eval(decls, d.expr, a) == Some("");
      assert Eval(decls, Name(d.name), a + 1) == Some("");
    }
  }

  lemma UpdateKeepsBare(decls: seq<Decl>, values: Values, d: Decl)
    requires WellNamed(decls) && d in decls && Bare(decls, values)
    ensures Bare(decls, values[d.name := ConstantString(d.expr, values)])
  {
    if d.name != BLANK && Cyclic(decls, Name(d.name)) && NoSum(decls, Name(d.name)) {
      LookupFinds(decls, d);
      CyclicName(decls, d.name);
      forall fuel: nat
        ensures FirstSum(decls, d.expr, fuel).None?
      {
        assert FirstSum(decls, Name(d.name), fuel + 1) == FirstSum(decls, d.expr, fuel);
      }
      BareIsTheMarker(decls, values, d.expr);
    }
  }

  lemma UpdateKeepsOutgrown(decls: seq<Decl>, values: Values, d: Decl, fuel: nat)
    requires WellNamed(decls) && d in decls && Outgrown(decls, values, fuel)
    requires Marked(decls, values) && EmptyIsReal(decls, values)
    ensures Outgrown(decls, values[d.name := ConstantString(d.expr, values)], fuel)
    ensures d.name != BLANK && LeadsToSolid(decls, Name(d.name), fuel + 1) ==>
              |ConstantString(d.expr, values)| > |DYNAMIC|
  {
    if d.name != BLANK {
      LookupFinds(decls, d);
      if LeadsToSolid(decls, Name(d.name), fuel + 1) {
        CyclicName(decls, d.name);
        SolidOutgrows(decls, values, d.expr, fuel);
      }
      if LeadsToSolid(decls, Name(d.name), fuel) {
        MoreFuelSameSum(decls, Name(d.name), fuel, fuel + 1);
      }
    }
  }

  ghost predicate DeeperUpTo(decls: seq<Decl>, values: Values, i: nat, fuel: nat)
    requires i <= |decls|
  {
    forall k :: 0 <= k < i ==> Deeper(decls, values, decls[k], fuel)
  }

  /** One pass keeps the table sound and reaches every declaration one level deeper. */
  lemma {:induction false} SweepReaches(decls: seq<Decl>, values: Values, fuel: nat, i: nat)
    requires WellNamed(decls) && i <= |decls| && Sound(decls, values, fuel) && DeeperUpTo(decls, values, i, fuel + 1)
    ensures Sound(decls, SweepFrom(decls, values, i), fuel)
    ensures DeeperUpTo(decls, SweepFrom(decls, values, i), |decls|, fuel + 1)
    decreases |decls| - i
  {
    if i < |decls| {
      OneMoreUpdate(decls, values, fuel, i);
      SweepReaches(decls, values[decls[i].name := ConstantString(decls[i].expr, values)], fuel, i + 1);
    }
  }

  lemma OneMoreUpdate(decls: seq<Decl>, values: Values, fuel: nat, i: nat)
    requires WellNamed(decls) && i < |decls| && Sound(decls, values, fuel) && DeeperUpTo(decls, values, i, fuel + 1)
    ensures var after := values[decls[i].name := ConstantString(decls[i].expr, values)];
            Sound(decls, after, fuel) && DeeperUpTo(decls, after, i + 1, fuel + 1)
  {
    UpdateKeepsSound(decls, values, decls[i], fuel);
    UpdateKeepsDeeperUpTo(decls, values, i, ConstantString(decls[i].expr, values), fuel + 1);
  }

  lemma UpdateKeepsDeeperUpTo(decls: seq<Decl>, values: Values, i: nat, value: string, fuel: nat)
    requires WellNamed(decls) && i < |decls| && DeeperUpTo(decls, values, i, fuel)
    requires Deeper(decls, values[decls[i].name := value], decls[i], fuel)
    ensures DeeperUpTo(decls, values[decls[i].name := value], i + 1, fuel)
  {
    forall k | 0 <= k < i
      ensures Deeper(decls, values[decls[i].name := value], decls[k], fuel)
    {
      UpdateKeepsDeeper(decls, values, i, k, value, fuel);
    }
  }

  /** Names are declared once, so a later declaration leaves the entry of an earlier one alone. */
  lemma UpdateKeepsDeeper(decls: seq<Decl>, values: Values, i: nat, k: nat, value: string, fuel: nat)
    requires WellNamed(decls) && k < i < |decls| && Deeper(decls, values, decls[k], fuel)
    ensures Deeper(decls, values[decls[i].name := value], decls[k], fuel)
  {
  }

  lemma ReachedIsSound(decls: seq<Decl>, values: Values, fuel: nat)
    requires Sound(decls, values, fuel) && DeeperUpTo(decls, values, |decls|, fuel + 1)
    ensures Sound(decls, values, fuel + 1) && values.Keys == Names(decls)
  {
    forall n | n in Names(decls)
      ensures Deeper(decls, values, Decl(n, Opaque), fuel + 1)
    {
      var d :| d in decls && d.name == n;
      var k :| 0 <= k < |decls| && decls[k] == d;
      assert Deeper(decls, values, decls[k], fuel + 1);
    }
    assert forall n :: n in Names(decls) ==> Deeper(decls, values, Decl(n, Opaque), fuel + 1);
  }

  lemma {:induction false} SweepsAreSound(decls: seq<Decl>, k: nat)
    requires WellNamed(decls)
    ensures Sound(decls, Sweeps(decls, k), k)
    ensures k > 0 ==> Sweeps(decls, k).Keys == Names(decls)
  {
    if k == 0 {
      NothingIsSound(decls);
    } else {
      SweepsAreSound(decls, k - 1);
      SweepIsSound(decls, Sweeps(decls, k - 1), k - 1);
    }
  }

  lemma SweepIsSound(decls: seq<Decl>, values: Values, fuel: nat)
    requires WellNamed(decls) && Sound(decls, values, fuel)
    ensures Sound(decls, Sweep(decls, values), fuel + 1) && Sweep(decls, values).Keys == Names(decls)
  {
    SweepReaches(decls, values, fuel, 0);
    ReachedIsSound(decls, Sweep(decls, values), fuel);
  }

  lemma NothingIsSound(decls: seq<Decl>)
    ensures Sound(decls, map[], 0)
  {
    EmptyTableIsCorrect(decls);
  }

  /** A table no pass changes is sound at every depth. */
  lemma {:induction false} StableIsSound(decls: seq<Decl>, values: Values, fuel: nat, more: nat)
    requires WellNamed(decls) && Sound(decls, values, fuel) && fuel <= more && Stable(decls, values)
    ensures Sound(decls, values, more)
    decreases more - fuel
  {
    if fuel < more {
      StableSweep(decls, values, 0);
      SweepIsSound(decls, values, fuel);
      StableIsSound(decls, values, fuel + 1, more);
    }
  }

  lemma {:induction false} SoundBelow(decls: seq<Decl>, values: Values, fuel: nat, less: nat)
    requires Sound(decls, values, fuel) && less <= fuel
    ensures Sound(decls, values, less)
    decreases fuel
  {
    if less < fuel {
      CorrectBelow(decls, values, fuel - 1);
      forall n | n in Names(decls) && n != BLANK && LeadsToSolid(decls, Name(n), fuel - 1)
        ensures n in values && |values[n]| > |DYNAMIC|
      {
        MoreFuelSameSum(decls, Name(n), fuel - 1, fuel);
      }
      SoundBelow(decls, values, fuel - 1, less);
    }
  }

  // ------------------------------------------------ the loops

  /** One pass over all declarations, in file order. */
  method Pass(decls: seq<Decl>, before: Values) returns (values: Values, changed: bool)
    ensures values == Sweep(decls, before)
    ensures changed <==> !Stable(decls, before)
  {
    values, changed := before, false;
    for i := 0 to |decls|
      invariant SweepFrom(decls, values, i) == Sweep(decls, before)
      invariant !changed ==> values == before && forall k :: 0 <= k < i ==>
        decls[k].name in before && before[decls[k].name] == ConstantString(decls[k].expr, before)
      invariant changed ==> !Stable(decls, before)
    {
      var d := decls[i];
      var value := ConstantString(d.expr, values);
      if d.name !in values || values[d.name] != value {
        assert !changed ==> !Stable(decls, before) by {
          assert d in decls;
        }
        changed := true;
        values := values[d.name := value];
      } else {
        assert values[d.name := value] == values;
      }
    }
    assert !changed ==> Stable(decls, before);
  }

  /** The table the loop ends with: passes until one changes nothing, at most one more than there
      are initializers. `extra` counts those that have no name of their own. */
  ghost predicate Finished(decls: seq<Decl>, extra: nat, values: Values, passes: nat) {
    && 0 < passes <= |decls| + extra + 1
    && values == Sweeps(decls, passes)
    && (forall k :: 0 <= k < passes - 1 ==> !Stable(decls, Sweeps(decls, k)))
    && (passes <= |decls| + extra ==> Stable(decls, Sweeps(decls, passes - 1)))
  }

  method PackageStringConstants(decls: seq<Decl>, extra: nat) returns (values: Values, passes: nat)
    ensures Finished(decls, extra, values, passes)
    ensures WellNamed(decls) ==> Resolution(decls, values)
  {
    var valueCount := |decls| + extra;
    values, passes := map[], 0;
    var changed := true;
    while passes <= valueCount && changed
      invariant passes <= valueCount + 1 && values == Sweeps(decls, passes)
      invariant passes == 0 ==> changed
      invariant forall k :: 0 <= k < passes - 1 ==> !Stable(decls, Sweeps(decls, k))
      invariant passes > 0 ==> (changed <==> !Stable(decls, Sweeps(decls, passes - 1)))
    {
      values, changed := Pass(decls, values);
      passes := passes + 1;
    }
    if WellNamed(decls) {
      FinishedResolves(decls, extra, values, passes);
    }
  }

  // ------------------------------------------------ what the table means

  /** Exact for every name that resolves at any depth, and marked dynamic for every other. */
  ghost predicate Resolution(decls: seq<Decl>, values: Values) {
    && values.Keys == Names(decls)
    && Marked(decls, values)
    && forall n, fuel: nat :: n in values && n != BLANK && Eval(decls, Name(n), fuel).Some? ==>
         Eval(decls, Name(n), fuel) == Some(values[n])
  }

  lemma FinishedIsSound(decls: seq<Decl>, extra: nat, values: Values, passes: nat)
    requires WellNamed(decls) && Finished(decls, extra, values, passes)
    ensures Sound(decls, values, |decls|) && values.Keys == Names(decls)
  {
    SweepsAreSound(decls, passes);
    if passes > |decls| {
      SoundBelow(decls, values, passes, |decls|);
    } else {
      StableSweep(decls, Sweeps(decls, passes - 1), 0);
      StableIsSound(decls, values, passes, |decls|);
    }
  }

  lemma FinishedResolves(decls: seq<Decl>, extra: nat, values: Values, passes: nat)
    requires WellNamed(decls) && Finished(decls, extra, values, passes)
    ensures Resolution(decls, values)
  {
    FinishedIsSound(decls, extra, values, passes);
    forall n, fuel: nat | n in values && n != BLANK && Eval(decls, Name(n), fuel).Some?
      ensures Eval(decls, Name(n), fuel) == Some(values[n])
    {
      DepthIsBounded(decls, n, fuel);
    }
  }

  /** A cyclic name ends as the marker itself if and only if following bare references from it
      meets no sum, provided neither operand of the sum it meets resolves to the empty text. */
  lemma CyclicIsTheMarkerExactlyWhen(decls: seq<Decl>, extra: nat, values: Values, passes: nat, n: string)
    requires WellNamed(decls) && Finished(decls, extra, values, passes)
    requires n in Names(decls) && n != BLANK && Cyclic(decls, Name(n))
    requires var s := FirstSum(decls, Name(n), |decls|); s.Some? ==> Solid(decls, s.value)
    ensures n in values
    ensures values[n] == DYNAMIC <==> FirstSum(decls, Name(n), |decls|).None?
  {
    FinishedIsSound(decls, extra, values, passes);
    if FirstSum(decls, Name(n), |decls|).None? {
      forall fuel: nat
        ensures FirstSum(decls, Name(n), fuel).None?
      {
        if FirstSum(decls, Name(n), fuel).Some? {
          SumIsNear(decls, n, fuel);
        }
      }
    } else {
      assert LeadsToSolid(decls, Name(n), |decls|);
    }
  }

  /** The smallest such name: its own value followed by a letter. */
  lemma SelfSumOutgrowsTheMarker(values: Values, passes: nat)
    requires Finished([Decl("a", Concat(Name("a"), Literal("x")))], 0, values, passes)
    ensures values == map["a" := "<dynamic>xx"]
    ensures Cyclic([Decl("a", Concat(Name("a"), Literal("x")))], Name("a"))
  {
    var decls := [Decl("a", Concat(Name("a"), Literal("x")))];
    forall fuel: nat
      ensures Eval(decls, Name("a"), fuel).None?
    {
      SelfSumIsCyclic(decls, fuel);
    }
    assert Sweeps(decls, 0) == map[];
    assert Sweeps(decls, 1) == Sweep(decls, map[]) == map["a" := "<dynamic>x"] by {
      assert ConstantString(decls[0].expr, map[]) == "<dynamic>x";
      assert SweepFrom(decls, map["a" := "<dynamic>x"], 1) == map["a" := "<dynamic>x"];
    }
    assert Sweeps(decls, 2) == Sweep(decls, Sweeps(decls, 1)) == map["a" := "<dynamic>xx"] by {
      assert ConstantString(decls[0].expr, Sweeps(decls, 1)) == "<dynamic>xx";
      assert SweepFrom(decls, map["a" := "<dynamic>xx"], 1) == map["a" := "<dynamic>xx"];
    }
    assert decls[0] in decls;
    assert !Stable(decls, Sweeps(decls, 0));
  }

  lemma {:induction false} SelfSumIsCyclic(decls: seq<Decl>, fuel: nat)
    requires decls == [Decl("a", Concat(Name("a"), Literal("x")))]
    ensures Eval(decls, Name("a"), fuel).None?
  {
    assert Lookup(decls, "a") == Some(Concat(Name("a"), Literal("x")));
    if fuel > 0 {
      SelfSumIsCyclic(decls, fuel - 1);
    }
  }

  /** With an operand that resolves to the empty text the outcome depends on file order: the same
      two declarations leave a cyclic name twice the marker in one order and the marker in the other. */
  lemma EmptyOperandDependsOnOrder()
    ensures var sum, blank := Decl("a", Concat(Name("a"), Name("b"))), Decl("b", Literal(""));
            && Finished([sum, blank], 0, map["a" := DYNAMIC + DYNAMIC, "b" := ""], 2)
            && Finished([blank, sum], 0, map["a" := DYNAMIC, "b" := ""], 2)
  {
    var sum, blank := Decl("a", Concat(Name("a"), Name("b"))), Decl("b", Literal(""));
    TwoSweeps([sum, blank], map["a" := DYNAMIC + DYNAMIC], map["a" := DYNAMIC + DYNAMIC, "b" := ""]);
    assert DYNAMIC + "" == DYNAMIC;
    TwoSweeps([blank, sum], map["b" := ""], map["a" := DYNAMIC, "b" := ""]);
  }

  /** Two declarations whose first pass gives a stable table. */
  lemma TwoSweeps(decls: seq<Decl>, half: Values, table: Values)
    requires |decls| == 2 && decls[0].name != decls[1].name
    requires half == map[decls[0].name := ConstantString(decls[0].expr, map[])]
    requires table == half[decls[1].name := ConstantString(decls[1].expr, half)]
    requires Stable(decls, table)
    ensures Finished(decls, 0, table, 2)
  {
    assert SweepFrom(decls, table, 2) == table;
    assert SweepFrom(decls, half, 1) == table;
    assert Sweeps(decls, 0) == map[];
    assert Sweeps(decls, 1) == SweepFrom(decls, map[], 0) == table;
    StableSweep(decls, table, 0);
    assert Sweeps(decls, 2) == table;
    assert decls[0] in decls && decls[0].name !in Sweeps(decls, 0);
  }

  /** Acyclic declarations resolve to one table, whatever the order of files and declarations. */
  lemma FileOrderDoesNotMatter(a: seq<Decl>, b: seq<Decl>, va: Values, vb: Values, rank: map<string, nat>)
    requires WellNamed(a) && WellNamed(b) && (forall d :: d in a <==> d in b) && Ranked(a, rank)
    requires Resolution(a, va) && Resolution(b, vb)
    ensures va - {BLANK} == vb - {BLANK}
  {
    AllAlike(a, b, rank);
    AgreeOnAll(a, b, va, vb, rank);
  }

  lemma AllAlike(a: seq<Decl>, b: seq<Decl>, rank: map<string, nat>)
    requires WellNamed(a) && WellNamed(b) && (forall d :: d in a <==> d in b) && Ranked(a, rank)
    ensures Names(a) == Names(b)
    ensures forall n :: n in rank && n != BLANK ==> Alike(a, b, n, rank[n] + 1)
  {
    forall n | n in rank && n != BLANK
      ensures Alike(a, b, n, rank[n] + 1)
    {
      AcyclicNamesResolve(a, rank, n);
      SameDeclsSameEval(a, b, Name(n), rank[n] + 1);
    }
  }

  /** The name resolves, and to the same text. */
  ghost predicate Alike(a: seq<Decl>, b: seq<Decl>, n: string, fuel: nat) {
    Eval(a, Name(n), fuel).Some? && Eval(a, Name(n), fuel) == Eval(b, Name(n), fuel)
  }

  lemma AgreeOnAll(a: seq<Decl>, b: seq<Decl>, va: Values, vb: Values, rank: map<string, nat>)
    requires Resolution(a, va) && Resolution(b, vb) && va.Keys == vb.Keys == rank.Keys
    requires forall n :: n in rank && n != BLANK ==> Alike(a, b, n, rank[n] + 1)
    ensures va - {BLANK} == vb - {BLANK}
  {
    forall n | n in va && n != BLANK
      ensures va[n] == vb[n]
    {
      assert Alike(a, b, n, rank[n] + 1);
      AgreeOnName(a, b, va, vb, n, rank[n] + 1);
    }
  }

  lemma AgreeOnName(a: seq<Decl>, b: seq<Decl>, va: Values, vb: Values, n: string, fuel: nat)
    requires Resolution(a, va) && Resolution(b, vb) && n in va && n in vb && n != BLANK
    requires Eval(a, Name(n), fuel).Some? && Eval(a, Name(n), fuel) == Eval(b, Name(n), fuel)
    ensures va[n] == vb[n]
  {
    ResolvedValue(a, va, n, fuel);
    ResolvedValue(b, vb, n, fuel);
  }

  lemma ResolvedValue(decls: seq<Decl>, values: Values, n: string, fuel: nat)
    requires Resolution(decls, values) && n in values && n != BLANK && Eval(decls, Name(n), fuel).Some?
    ensures Eval(decls, Name(n), fuel) == Some(values[n])
  {
  }
}
