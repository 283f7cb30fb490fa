/** Whole runs of quota observations and readings by any number of processes, with older
    binaries rewriting the shared scalar whenever they like. */
module QuotaRuns {
  import opened Quota
  import Sets

  datatype Store = Store(families: Families, legacy: Scalar)

  datatype Step =
    | Observe(now: nat, reset: int, limit: int, remaining: int)
    | Consult(now: nat)                    // the head of a background admission
    | OldBinary(now: nat, scalar: Scalar)  // writes, or lets expire, the shared scalar
    | Expire(now: nat)                     // Redis drops the families hash

  predicate Reads(s: Step) {
    s.Consult? || (s.Observe? && ValidObservation(s.now, s.reset, s.limit, s.remaining))
  }

  function Next(st: Store, s: Step): Store {
    match s
    case Observe(now, reset, limit, remaining) =>
      if !ValidObservation(now, reset, limit, remaining) then st
      else Store(Merge(Load(st.families, now, st.legacy), now, reset, remaining),
                 if ReplacesScalar(st.legacy, now, reset, remaining)
                 then Scalar(reset, limit, remaining) else st.legacy)
    case Consult(now) => st.(families := Load(st.families, now, st.legacy))
    case OldBinary(_, scalar) => st.(legacy := scalar)
    case Expire(_) => st.(families := NO_FAMILIES)
  }

  /** The hash is retained until its latest reset, so it expires no earlier. */
  ghost predicate Enabled(st: Store, s: Step) {
    s.Expire? ==>
      && (forall r :: r in st.families.windows ==> r <= s.now)
      && (st.families.overflow.Summary? ==> st.families.overflow.reset <= s.now)
  }

  ghost predicate IsStep(states: seq<Store>, steps: seq<Step>, i: nat)
    requires i < |steps| < |states|
  {
    Enabled(states[i], steps[i]) && states[i + 1] == Next(states[i], steps[i])
  }

  ghost predicate IsRun(states: seq<Store>, steps: seq<Step>) {
    && |states| == |steps| + 1
    && (forall i {:trigger IsStep(states, steps, i)} :: 0 <= i < |steps| ==> IsStep(states, steps, i))
    && (forall a, b :: 0 <= a <= b < |steps| ==> steps[a].now <= steps[b].now)
  }

  lemma StepInto(states: seq<Store>, steps: seq<Step>, n: nat)
    requires IsRun(states, steps) && 0 < n <= |steps|
    ensures states[n] == Next(states[n - 1], steps[n - 1])
  {
    assert IsStep(states, steps, n - 1);
  }

  /** A reset window some source reported and the remaining quota it reported for it. */
  type Report = (int, int)

  function ScalarReports(legacy: Scalar, now: nat): set<Report> {
    if Usable(legacy) && Accepts(now, legacy.reset, legacy.remaining)
    then {(legacy.reset, legacy.remaining)} else {}
  }

  /** The valid reports a step brings in. */
  function Reports(st: Store, s: Step): set<Report> {
    if !Reads(s) then {}
    else ScalarReports(st.legacy, s.now) + (if s.Observe? then {(s.reset, s.remaining)} else {})
  }

  /** Everything reported before state `n`. */
  ghost function History(states: seq<Store>, steps: seq<Step>, n: nat): set<Report>
    requires n <= |steps| < |states|
  {
    if n == 0 then {} else History(states, steps, n - 1) + Reports(states[n - 1], steps[n - 1])
  }

  // ------------------------------------------------ never too high

  /** The table or the summary still accounts for `e`. */
  predicate Covers(f: Families, e: Report) {
    || (e.0 in f.windows && f.windows[e.0] <= e.1)
    || (f.overflow.Summary? && f.overflow.reset >= e.0 && f.overflow.remaining <= e.1)
  }

  lemma MergeCovers(f: Families, now: nat, reset: int, remaining: int)
    ensures Accepts(now, reset, remaining) ==> Covers(Merge(f, now, reset, remaining), (reset, remaining))
    ensures forall e: Report :: Covers(f, e) ==> Covers(Merge(f, now, reset, remaining), e)
  {
  }

  /** Negative remainders are never stored, so purging removes only what has passed. */
  ghost predicate Sane(f: Families) {
    && (forall r :: r in f.windows ==> f.windows[r] >= 0)
    && (f.overflow.Summary? ==> f.overflow.remaining >= 0)
    && |f.windows| <= MAX_FAMILIES
  }

  lemma PurgeStaysSane(f: Families, now: nat)
    requires Sane(f)
    ensures Sane(Purge(f, now))
  {
    assert Purge(f, now).windows.Keys <= f.windows.Keys;
    Sets.SubsetIsNoLarger(Purge(f, now).windows.Keys, f.windows.Keys);
  }

  lemma StepStaysSane(st: Store, s: Step)
    requires Sane(st.families)
    ensures Sane(Next(st, s).families)
  {
    PurgeStaysSane(st.families, s.now);
  }

  lemma LoadCovers(f: Families, now: nat, legacy: Scalar, e: Report)
    requires Sane(f) && e.0 > now
    requires Covers(f, e) || e in ScalarReports(legacy, now)
    ensures Covers(Load(f, now, legacy), e)
  {
    var p := Purge(f, now);
    if Covers(f, e) {
      assert Covers(p, e);
    }
    MergeCovers(p, now, legacy.reset, legacy.remaining);
  }

  lemma StepCovers(st: Store, s: Step, e: Report)
    requires Sane(st.families) && Enabled(st, s) && e.0 > s.now
    requires Covers(st.families, e) || e in Reports(st, s)
    ensures Covers(Next(st, s).families, e)
  {
    if Reads(s) {
      if Covers(st.families, e) || e in ScalarReports(st.legacy, s.now) {
        LoadCovers(st.families, s.now, st.legacy, e);
      }
      if s.Observe? {
        MergeCovers(Load(st.families, s.now, st.legacy), s.now, s.reset, s.remaining);
      }
    }
  }

  lemma {:induction false} HistoryIsCovered(states: seq<Store>, steps: seq<Step>, n: nat, e: Report)
    requires IsRun(states, steps) && Sane(states[0].families) && n <= |steps|
    requires e in History(states, steps, n) && n > 0 && e.0 > steps[n - 1].now
    ensures Covers(states[n].families, e)
  {
    if e in History(states, steps, n - 1) {
      if n - 1 > 0 {
        assert steps[n - 2].now <= steps[n - 1].now;
      }
      HistoryIsCovered(states, steps, n - 1, e);
    }
    StaysCovered(states, steps, n, e);
  }

  lemma StaysCovered(states: seq<Store>, steps: seq<Step>, n: nat, e: Report)
    requires IsRun(states, steps) && Sane(states[0].families) && 0 < n <= |steps| && e.0 > steps[n - 1].now
    requires Covers(states[n - 1].families, e) || e in Reports(states[n - 1], steps[n - 1])
    ensures Covers(states[n].families, e)
  {
    RunStaysSane(states, steps, n - 1);
    assert IsStep(states, steps, n - 1);
    StepCovers(states[n - 1], steps[n - 1], e);
  }

  /** At most sixteen families are ever stored. */
  lemma {:induction false} RunStaysSane(states: seq<Store>, steps: seq<Step>, n: nat)
    requires IsRun(states, steps) && Sane(states[0].families) && n <= |steps|
    ensures Sane(states[n].families)
  {
    if n > 0 {
      StepInto(states, steps, n);
      RunStaysSane(states, steps, n - 1);
      StepStaysSane(states[n - 1], steps[n - 1]);
    }
  }

  /** The quota a reading computes is at most what any report whose reset is still ahead
      said was left, however many families there were and whatever was folded. */
  lemma LowestIsConservative(states: seq<Store>, steps: seq<Step>, n: nat, lowest: Lowest, e: Report)
    requires IsRun(states, steps) && Sane(states[0].families) && 0 < n <= |steps|
    requires IsLowest(states[n].families, lowest)
    requires e in History(states, steps, n) && e.0 > steps[n - 1].now
    ensures lowest.Known? && lowest.remaining <= e.1
  {
    HistoryIsCovered(states, steps, n, e);
  }

  // ------------------------------------------------ never invented

  /** Every stored number is one that was reported. */
  ghost predicate Witnessed(f: Families, h: set<Report>) {
    && (forall r :: r in f.windows ==> (r, f.windows[r]) in h)
    && (f.overflow.Summary? ==>
          && (exists e :: e in h && e.0 == f.overflow.reset)
          && (exists e :: e in h && e.1 == f.overflow.remaining))
  }

  lemma MergeWitnessed(f: Families, now: nat, reset: int, remaining: int, h: set<Report>, k: set<Report>)
    requires Witnessed(f, h) && h <= k
    requires Accepts(now, reset, remaining) ==> (reset, remaining) in k
    ensures Witnessed(Merge(f, now, reset, remaining), k)
  {
    var g := Merge(f, now, reset, remaining);
    if f.overflow.Summary? {
      var e :| e in h && e.0 == f.overflow.reset;
      var e' :| e' in h && e'.1 == f.overflow.remaining;
      assert e in k && e' in k;
    }
    if g.overflow != f.overflow {
      var e := (reset, remaining);
      assert e in k && e.0 == reset && e.1 == remaining;
    }
  }

  lemma LoadWitnessed(f: Families, now: nat, legacy: Scalar, h: set<Report>)
    requires Witnessed(f, h)
    ensures Witnessed(Load(f, now, legacy), h + ScalarReports(legacy, now))
  {
    MergeWitnessed(Purge(f, now), now, legacy.reset, legacy.remaining, h,
                   h + (if Accepts(now, legacy.reset, legacy.remaining)
                        then {(legacy.reset, legacy.remaining)} else {}));
    MergeWitnessed(Purge(f, now), now, 0, 0, h, h + ScalarReports(legacy, now));
  }

  lemma StepWitnessed(st: Store, s: Step, h: set<Report>)
    requires Witnessed(st.families, h)
    ensures Witnessed(Next(st, s).families, h + Reports(st, s))
  {
    if Reads(s) {
      LoadWitnessed(st.families, s.now, st.legacy, h);
      var k := h + ScalarReports(st.legacy, s.now);
      if s.Observe? {
        MergeWitnessed(
          Load(st.families, s.now, st.legacy), s.now, s.reset, s.remaining, k, k + {(s.reset, s.remaining)});
        assert k + {(s.reset, s.remaining)} == h + Reports(st, s);
      } else {
        assert k == h + Reports(st, s);
      }
    } else {
      assert h + Reports(st, s) == h;
    }
  }

  lemma {:induction false} RunWitnessed(states: seq<Store>, steps: seq<Step>, n: nat)
    requires IsRun(states, steps) && states[0].families == NO_FAMILIES && n <= |steps|
    ensures Witnessed(states[n].families, History(states, steps, n))
  {
    if n > 0 {
      StepInto(states, steps, n);
      RunWitnessed(states, steps, n - 1);
      StepWitnessed(states[n - 1], steps[n - 1], History(states, steps, n - 1));
    }
  }

  // ------------------------------------------------ what the summary stands for

  /** The report, if merging it finds the table full and its window absent. */
  function FoldedBy(f: Families, now: nat, reset: int, remaining: int): set<Report> {
    if Accepts(now, reset, remaining) && reset !in f.windows && |f.windows| >= MAX_FAMILIES
    then {(reset, remaining)} else {}
  }

  function FoldedByLoad(f: Families, now: nat, legacy: Scalar): set<Report> {
    if Usable(legacy) then FoldedBy(Purge(f, now), now, legacy.reset, legacy.remaining) else {}
  }

  /** The reports a step folds into the summary. */
  function Folds(st: Store, s: Step): set<Report> {
    if !Reads(s) then {}
    else
      FoldedByLoad(st.families, s.now, st.legacy) +
      (if s.Observe?
       then FoldedBy(Load(st.families, s.now, st.legacy), s.now, s.reset, s.remaining) else {})
  }

  /** The step finds the summary passed, or the whole hash gone, before it folds anything. */
  predicate Drops(st: Store, s: Step) {
    s.Expire? || (Reads(s) && Purge(st.families, s.now).overflow.NoSummary?)
  }

  /** `folded[i]` is what was folded into the summary that state `i` holds. */
  ghost predicate FoldsAlong(states: seq<Store>, steps: seq<Step>, folded: seq<set<Report>>) {
    && |folded| == |states| == |steps| + 1 && folded[0] == {}
    && forall i {:trigger FoldsAt(states, steps, folded, i)} :: 0 <= i < |steps| ==> FoldsAt(states, steps, folded, i)
  }

  ghost predicate FoldsAt(states: seq<Store>, steps: seq<Step>, folded: seq<set<Report>>, i: nat)
    requires i < |steps| < |states| && i + 1 < |folded|
  {
    folded[i + 1] == (if Drops(states[i], steps[i]) then {} else folded[i]) + Folds(states[i], steps[i])
  }

  lemma {:induction false} FoldsSoFar(states: seq<Store>, steps: seq<Step>, n: nat) returns (folded: seq<set<Report>>)
    requires n <= |steps| < |states|
    ensures |folded| == n + 1 && folded[0] == {}
    ensures forall i {:trigger FoldsAt(states, steps, folded, i)} :: 0 <= i < n ==> FoldsAt(states, steps, folded, i)
  {
    if n == 0 {
      folded := [{}];
    } else {
      var before := FoldsSoFar(states, steps, n - 1);
      var st, s := states[n - 1], steps[n - 1];
      folded := before + [(if Drops(st, s) then {} else before[n - 1]) + Folds(st, s)];
      forall i | 0 <= i < n - 1
        ensures FoldsAt(states, steps, folded, i)
      {
        assert FoldsAt(states, steps, before, i);
      }
    }
  }

  /** Every run has such a sequence. */
  lemma FoldsExist(states: seq<Store>, steps: seq<Step>) returns (folded: seq<set<Report>>)
    requires |states| == |steps| + 1
    ensures FoldsAlong(states, steps, folded)
  {
    folded := FoldsSoFar(states, steps, |steps|);
  }

  /** The summary is the last reset and the least remaining of `h`, and absent when `h` is empty. */
  ghost predicate Summarizes(o: Summary, h: set<Report>) {
    match o
    case NoSummary => h == {}
    case Summary(reset, remaining) =>
      && (forall e :: e in h ==> e.0 <= reset && remaining <= e.1)
      && (exists e :: e in h && e.0 == reset)
      && (exists e :: e in h && e.1 == remaining)
  }

  lemma FoldSummarizes(o: Summary, reset: int, remaining: int, h: set<Report>)
    requires Summarizes(o, h)
    ensures Summarizes(Fold(o, reset, remaining), h + {(reset, remaining)})
  {
    var e, k := (reset, remaining), h + {(reset, remaining)};
    assert e in k && e.0 == reset && e.1 == remaining;
    if o.Summary? {
      var a :| a in h && a.0 == o.reset;
      var b :| b in h && b.1 == o.remaining;
      assert a in k && b in k;
    }
  }

  lemma MergeSummarizes(f: Families, now: nat, reset: int, remaining: int, h: set<Report>)
    requires Summarizes(f.overflow, h)
    ensures Summarizes(Merge(f, now, reset, remaining).overflow, h + FoldedBy(f, now, reset, remaining))
  {
    if FoldedBy(f, now, reset, remaining) == {} {
      assert h + FoldedBy(f, now, reset, remaining) == h;
    } else {
      FoldSummarizes(f.overflow, reset, remaining, h);
    }
  }

  lemma StepSummarizes(st: Store, s: Step, h: set<Report>)
    requires Sane(st.families) && Summarizes(st.families.overflow, h)
    ensures Summarizes(Next(st, s).families.overflow, (if Drops(st, s) then {} else h) + Folds(st, s))
  {
    var kept := if Drops(st, s) then {} else h;
    if Reads(s) {
      ReadingSummarizes(st, s, kept);
    } else {
      assert kept + Folds(st, s) == kept;
    }
  }

  lemma ReadingSummarizes(st: Store, s: Step, kept: set<Report>)
    requires Reads(s) && Summarizes(Purge(st.families, s.now).overflow, kept)
    ensures Summarizes(Next(st, s).families.overflow, kept + Folds(st, s))
  {
    var f, loaded := Load(st.families, s.now, st.legacy), kept + FoldedByLoad(st.families, s.now, st.legacy);
    LoadSummarizes(st.families, s.now, st.legacy, kept);
    if s.Observe? {
      MergeSummarizes(f, s.now, s.reset, s.remaining, loaded);
      JoinedFolds(kept, FoldedByLoad(st.families, s.now, st.legacy), FoldedBy(f, s.now, s.reset, s.remaining));
    } else {
      JoinedFolds(kept, FoldedByLoad(st.families, s.now, st.legacy), {});
    }
  }

  lemma JoinedFolds(a: set<Report>, b: set<Report>, c: set<Report>)
    ensures (a + b) + c == a + (b + c)
    ensures (a + b) + {} == a + b
  {
  }

  lemma LoadSummarizes(f: Families, now: nat, legacy: Scalar, h: set<Report>)
    requires Summarizes(Purge(f, now).overflow, h)
    ensures Summarizes(Load(f, now, legacy).overflow, h + FoldedByLoad(f, now, legacy))
  {
    if Usable(legacy) {
      MergeSummarizes(Purge(f, now), now, legacy.reset, legacy.remaining, h);
    } else {
      assert h + FoldedByLoad(f, now, legacy) == h;
    }
  }

  /** At every point of every run the summary is exactly the last reset and the least remaining
      of what was folded into it, so it never outlives the latest reset it stands for. */
  lemma {:induction false} SummaryIsExact(states: seq<Store>, steps: seq<Step>, folded: seq<set<Report>>, n: nat)
    requires IsRun(states, steps) && states[0].families == NO_FAMILIES && n <= |steps|
    requires FoldsAlong(states, steps, folded)
    ensures Summarizes(states[n].families.overflow, folded[n])
  {
    if n > 0 {
      SummaryIsExact(states, steps, folded, n - 1);
      RunStaysSane(states, steps, n - 1);
      StepSummarizes(states[n - 1], steps[n - 1], folded[n - 1]);
      StepInto(states, steps, n);
      assert FoldsAt(states, steps, folded, n - 1);
    }
  }

  /** Only valid reports are folded. */
  lemma {:induction false} FoldsAreReports(states: seq<Store>, steps: seq<Step>, folded: seq<set<Report>>, n: nat)
    requires FoldsAlong(states, steps, folded) && n <= |steps|
    ensures folded[n] <= History(states, steps, n)
  {
    if n > 0 {
      FoldsAreReports(states, steps, folded, n - 1);
      assert FoldsAt(states, steps, folded, n - 1);
      assert Folds(states[n - 1], steps[n - 1]) <= Reports(states[n - 1], steps[n - 1]);
    }
  }

  /** A summary that a reading sees reaches to the reset of a report folded into it, and that
      reset is still ahead. */
  lemma SummaryNeverOutlivesItsReports(
    states: seq<Store>, steps: seq<Step>, folded: seq<set<Report>>, n: nat) returns (e: Report)
    requires IsRun(states, steps) && states[0].families == NO_FAMILIES && 0 < n <= |steps|
    requires FoldsAlong(states, steps, folded)
    requires Reads(steps[n - 1]) && states[n].families.overflow.Summary?
    ensures e in folded[n] && e in History(states, steps, n)
    ensures e.0 == states[n].families.overflow.reset && e.0 > steps[n - 1].now
  {
    SummaryIsExact(states, steps, folded, n);
    FoldsAreReports(states, steps, folded, n);
    ReadingIsCurrent(states[n - 1], steps[n - 1]);
    StepInto(states, steps, n);
    e :| e in folded[n] && e.0 == states[n].families.overflow.reset;
  }

  // ------------------------------------------------ exact while the table is enough

  /** The distinct resets still ahead after the first `n` steps. */
  ghost function LiveResets(states: seq<Store>, steps: seq<Step>, n: nat): set<int>
    requires 0 < n <= |steps| < |states|
  {
    set e | e in History(states, steps, n) && e.0 > steps[n - 1].now :: e.0
  }

  ghost predicate TableSuffices(states: seq<Store>, steps: seq<Step>, n: nat)
    requires n <= |steps| < |states|
  {
    forall k :: 0 < k <= n ==> |LiveResets(states, steps, k)| <= MAX_FAMILIES
  }

  lemma MergeFits(f: Families, now: nat, reset: int, remaining: int, live: set<int>)
    requires f.overflow == NoSummary && f.windows.Keys <= live && |live| <= MAX_FAMILIES
    requires Accepts(now, reset, remaining) ==> reset in live
    ensures Merge(f, now, reset, remaining).overflow == NoSummary
    ensures Merge(f, now, reset, remaining).windows.Keys <= live
  {
    if Accepts(now, reset, remaining) && reset !in f.windows {
      Sets.SubsetIsNoLarger(f.windows.Keys + {reset}, live);
    }
  }

  /** `live` holds every reset of `h` that is still ahead. */
  ghost predicate HoldsLive(live: set<int>, h: set<Report>, now: nat) {
    forall e :: e in h && e.0 > now ==> e.0 in live
  }

  lemma LoadFits(f: Families, now: nat, legacy: Scalar, h: set<Report>, live: set<int>)
    requires f.overflow == NoSummary && Witnessed(f, h) && |live| <= MAX_FAMILIES
    requires HoldsLive(live, h + ScalarReports(legacy, now), now)
    ensures Load(f, now, legacy).overflow == NoSummary && Load(f, now, legacy).windows.Keys <= live
  {
    var k, p := h + ScalarReports(legacy, now), Purge(f, now);
    forall r | r in p.windows
      ensures r in live
    {
      assert (r, f.windows[r]) in k;
    }
    if Usable(legacy) {
      if Accepts(now, legacy.reset, legacy.remaining) {
        assert (legacy.reset, legacy.remaining) in k;
      }
      MergeFits(p, now, legacy.reset, legacy.remaining, live);
    }
  }

  lemma StepFits(st: Store, s: Step, h: set<Report>, live: set<int>)
    requires st.families.overflow == NoSummary && Witnessed(st.families, h) && |live| <= MAX_FAMILIES
    requires HoldsLive(live, h + Reports(st, s), s.now)
    ensures Next(st, s).families.overflow == NoSummary
  {
    if Reads(s) {
      LoadFits(st.families, s.now, st.legacy, h, live);
      if s.Observe? {
        assert (s.reset, s.remaining) in h + Reports(st, s);
        MergeFits(Load(st.families, s.now, st.legacy), s.now, s.reset, s.remaining, live);
      }
    }
  }

  lemma {:induction false} NothingOverflows(states: seq<Store>, steps: seq<Step>, n: nat)
    requires IsRun(states, steps) && states[0].families == NO_FAMILIES && n <= |steps|
    requires TableSuffices(states, steps, n)
    ensures states[n].families.overflow == NoSummary
  {
    if n > 0 {
      StepInto(states, steps, n);
      NothingOverflows(states, steps, n - 1);
      RunWitnessed(states, steps, n - 1);
      StepFits(states[n - 1], steps[n - 1], History(states, steps, n - 1), LiveResets(states, steps, n));
    }
  }

  lemma {:induction false} ReadingIsCurrent(st: Store, s: Step)
    requires Reads(s)
    ensures Current(Next(st, s).families, s.now)
  {
    PurgeIsCurrent(st.families, s.now);
    MergeStaysCurrent(Purge(st.families, s.now), s.now, st.legacy.reset, st.legacy.remaining);
    if s.Observe? {
      MergeStaysCurrent(Load(st.families, s.now, st.legacy), s.now, s.reset, s.remaining);
    }
  }

  /** Whenever no summary is held, a reading computes exactly the minimum over the reports whose
      reset is still ahead, also after a summary has lapsed. */
  lemma LowestIsExact(states: seq<Store>, steps: seq<Step>, n: nat, lowest: Lowest)
    requires IsRun(states, steps) && states[0].families == NO_FAMILIES && 0 < n <= |steps|
    requires states[n].families.overflow == NoSummary
    requires Reads(steps[n - 1]) && IsLowest(states[n].families, lowest)
    ensures forall e :: e in History(states, steps, n) && e.0 > steps[n - 1].now ==>
              lowest.Known? && lowest.remaining <= e.1
    ensures lowest.Known? ==>
              exists e :: e in History(states, steps, n) && e.0 > steps[n - 1].now && e.1 == lowest.remaining
  {
    forall e | e in History(states, steps, n) && e.0 > steps[n - 1].now
      ensures lowest.Known? && lowest.remaining <= e.1
    {
      LowestIsConservative(states, steps, n, lowest, e);
    }
    StepInto(states, steps, n);
    if lowest.Known? {
      RunWitnessed(states, steps, n);
      ReadingIsCurrent(states[n - 1], steps[n - 1]);
      var f := states[n].families;
      var r :| r in f.windows && f.windows[r] == lowest.remaining;
      var e := (r, f.windows[r]);
      assert e in History(states, steps, n) && e.0 > steps[n - 1].now;
    }
  }

  /** In particular while no more than sixteen resets have been ahead at once. */
  lemma LowestIsExactWhileTableSuffices(states: seq<Store>, steps: seq<Step>, n: nat, lowest: Lowest)
    requires IsRun(states, steps) && states[0].families == NO_FAMILIES && 0 < n <= |steps|
    requires TableSuffices(states, steps, n)
    requires Reads(steps[n - 1]) && IsLowest(states[n].families, lowest)
    ensures forall e :: e in History(states, steps, n) && e.0 > steps[n - 1].now ==>
              lowest.Known? && lowest.remaining <= e.1
    ensures lowest.Known? ==>
              exists e :: e in History(states, steps, n) && e.0 > steps[n - 1].now && e.1 == lowest.remaining
  {
    NothingOverflows(states, steps, n);
    LowestIsExact(states, steps, n, lowest);
  }

  // ------------------------------------------------ what older readers find

  /** A report the client passes on: within its limit, of a window that ends within two hours. */
  predicate Reported(s: Step) {
    s.Observe? && s.limit > 0 && 0 <= s.remaining <= s.limit && s.now < s.reset <= s.now + 7_200_000
  }

  /** Between `i` and `j` no older binary writes the scalar and its window stays ahead. */
  ghost predicate ScalarIsOurs(states: seq<Store>, steps: seq<Step>, i: nat, j: nat)
    requires i <= j <= |steps| < |states|
  {
    forall k :: i <= k < j ==> !steps[k].OldBinary? && steps[k].now < states[i].legacy.reset
  }

  /** Step `k` reports the window `reset`. */
  predicate ReportsWindow(s: Step, reset: int) {
    Reported(s) && s.reset == reset
  }

  /** A live window in the scalar is replaced by nothing but itself: until it ends the scalar keeps its
      reset and holds the least remaining quota reported for it. */
  lemma {:induction false} LiveScalarHoldsItsWindow(states: seq<Store>, steps: seq<Step>, i: nat, j: nat)
    requires IsRun(states, steps) && i <= j <= |steps| && ScalarIsOurs(states, steps, i, j)
    ensures states[j].legacy.reset == states[i].legacy.reset
    ensures states[j].legacy.remaining <= states[i].legacy.remaining
    ensures forall k :: i <= k < j && ReportsWindow(steps[k], states[i].legacy.reset) ==>
              states[j].legacy.remaining <= steps[k].remaining
    ensures || states[j].legacy == states[i].legacy
            || exists k :: i <= k < j && ReportsWindow(steps[k], states[i].legacy.reset) &&
                           states[j].legacy == Scalar(steps[k].reset, steps[k].limit, steps[k].remaining)
  {
    if i < j {
      LiveScalarHoldsItsWindow(states, steps, i, j - 1);
      StepInto(states, steps, j);
      if states[j].legacy != states[j - 1].legacy {
        assert ReportsWindow(steps[j - 1], states[i].legacy.reset);
      }
    }
  }

  /** A window that has passed gives way to the very next report. */
  lemma LapsedScalarIsReplaced(states: seq<Store>, steps: seq<Step>, i: nat)
    requires IsRun(states, steps) && i < |steps| && Reported(steps[i])
    requires states[i].legacy.reset <= steps[i].now
    ensures states[i + 1].legacy == Scalar(steps[i].reset, steps[i].limit, steps[i].remaining)
  {
    StepInto(states, steps, i + 1);
  }

  /** Exactly these reports enter the history. */
  lemma ReportsAre(st: Store, s: Step, e: Report)
    ensures e in Reports(st, s) <==>
            || (Reported(s) && e == (s.reset, s.remaining))
            || (&& (s.Consult? || Reported(s)) && e == (st.legacy.reset, st.legacy.remaining)
                && st.legacy.limit > 0 && 0 <= st.legacy.remaining <= st.legacy.limit
                && s.now < st.legacy.reset <= s.now + 7_200_000)
  {
  }
}
