/** Quota reset families: a bounded table of reset windows with a lossy overflow summary,
    merged from provider observations and from the scalar that older binaries keep. */
module Quota {

  const MAX_FAMILIES := 16
  const MAX_RESET_AGE := 7_200_000

  /** What the families past the table's bound were folded into. */
  datatype Summary = NoSummary | Summary(reset: int, remaining: int)

  datatype Families = Families(windows: map<int, int>, overflow: Summary)

  const NO_FAMILIES := Families(map[], NoSummary)

  /** The single window shared with older binaries; absent fields read as 0, 0 and -1. */
  datatype Scalar = Scalar(reset: int, limit: int, remaining: int)

  datatype Lowest = Unknown | Known(remaining: int)

  // ---------------------------------------------------------------- the script

  /** Families are dropped once their reset has passed. */
  function Purge(f: Families, now: nat): Families {
    Families(
      map r | r in f.windows && r > now && f.windows[r] >= 0 :: f.windows[r],
      if f.overflow.Summary? && f.overflow.reset > now && f.overflow.remaining >= 0
      then f.overflow else NoSummary)
  }

  predicate Accepts(now: nat, reset: int, remaining: int) {
    now < reset <= now + MAX_RESET_AGE && remaining >= 0
  }

  function Fold(s: Summary, reset: int, remaining: int): Summary {
    match s
    case NoSummary => Summary(reset, remaining)
    case Summary(r, m) => Summary(if reset > r then reset else r, if remaining < m then remaining else m)
  }

  function Merge(f: Families, now: nat, reset: int, remaining: int): Families {
    if !Accepts(now, reset, remaining) then f
    else if reset in f.windows then
      if remaining > f.windows[reset] then f else f.(windows := f.windows[reset := remaining])
    else if |f.windows| >= MAX_FAMILIES then
      f.(overflow := Fold(f.overflow, reset, remaining))
    else
      f.(windows := f.windows[reset := remaining])
  }

  /** The script's boolean: was the observation recorded? */
  predicate MergeApplies(f: Families, now: nat, reset: int, remaining: int) {
    Accepts(now, reset, remaining) && (reset in f.windows ==> remaining <= f.windows[reset])
  }

  predicate Usable(legacy: Scalar) {
    legacy.limit > 0 && legacy.remaining <= legacy.limit
  }

  /** The common head of both scripts: purge, then import the older binaries' scalar. */
  function Load(f: Families, now: nat, legacy: Scalar): Families {
    var p := Purge(f, now);
    if Usable(legacy) then Merge(p, now, legacy.reset, legacy.remaining) else p
  }

  predicate ValidObservation(now: nat, reset: int, limit: int, remaining: int) {
    0 <= remaining <= limit && limit > 0 && Accepts(now, reset, remaining)
  }

  predicate ReplacesScalar(legacy: Scalar, now: nat, reset: int, remaining: int) {
    && reset > now
    && !(|| reset < legacy.reset
         || (reset > legacy.reset && legacy.reset > now)
         || (reset == legacy.reset && remaining > legacy.remaining))
  }

  // ---------------------------------------------------------------- readings

  /** `l` is the least remaining quota over the table and the summary. */
  ghost predicate IsLowest(f: Families, l: Lowest) {
    match l
    case Unknown => f.windows == map[] && f.overflow == NoSummary
    case Known(m) =>
      && (forall r :: r in f.windows ==> m <= f.windows[r])
      && (f.overflow.Summary? ==> m <= f.overflow.remaining)
      && ((exists r :: r in f.windows && f.windows[r] == m) || f.overflow == Summary(SummaryReset(f), m))
  }

  function SummaryReset(f: Families): int {
    if f.overflow.Summary? then f.overflow.reset else 0
  }

  /** `t` is the last reset the families reach, 0 when there are none. */
  ghost predicate IsLatest(f: Families, t: int) {
    && (forall r :: r in f.windows ==> r <= t)
    && SummaryReset(f) <= t
    && (t in f.windows || t == SummaryReset(f))
  }

  /** Nothing in the table or the summary has passed, and no value is negative. */
  ghost predicate Current(f: Families, now: nat) {
    && (forall r :: r in f.windows ==> r > now && f.windows[r] >= 0)
    && (f.overflow.Summary? ==> f.overflow.reset > now && f.overflow.remaining >= 0)
  }

  function Min(l: Lowest, m: int): Lowest {
    if l.Known? && l.remaining < m then l else Known(m)
  }

  lemma LowestAfterUpdate(f: Families, l: Lowest, reset: int, remaining: int)
    requires IsLowest(f, l) && (reset in f.windows ==> remaining <= f.windows[reset])
    ensures IsLowest(f.(windows := f.windows[reset := remaining]), Min(l, remaining))
  {
    var g := f.(windows := f.windows[reset := remaining]);
    assert g.windows[reset] == remaining;
    if l.Known? && l.remaining < remaining && f.overflow != Summary(SummaryReset(f), l.remaining) {
      var r :| r in f.windows && f.windows[r] == l.remaining;
      assert g.windows[r] == l.remaining;
    }
  }

  /** What is recorded bounds the reading. */
  lemma ReadingBounds(f: Families, l: Lowest, reset: int, remaining: int)
    requires IsLowest(f, l)
    requires || (reset in f.windows && f.windows[reset] <= remaining)
             || (f.overflow.Summary? && f.overflow.remaining <= remaining)
    ensures l.Known? && l.remaining <= remaining
  {
  }

  lemma PurgeIsCurrent(f: Families, now: nat)
    ensures Current(Purge(f, now), now)
  {
  }

  lemma MergeStaysCurrent(f: Families, now: nat, reset: int, remaining: int)
    requires Current(f, now)
    ensures Current(Merge(f, now, reset, remaining), now)
  {
  }
}
