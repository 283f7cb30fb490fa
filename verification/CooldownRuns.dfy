/** Whole runs of the cooldown scripts, taken by any number of controllers in any
    interleaving: a script is atomic, so a run is a sequence of steps. */
module CooldownRuns {
  import opened Cooldown

  datatype Step =
    | ObserveStep(o: Observation)
    | ClaimStep(now: nat, owner: string, token: string, leaseUntil: int)
    | CompleteStep(now: nat, generation: int, owner: string, token: string, success: bool)
    | ReconcileStep(now: nat, local: Record)
    | KeyLoss(now: nat)

  function Next(r: Record, s: Step): Record {
    match s
    case ObserveStep(o) => Observe(r, o)
    case ClaimStep(now, owner, token, leaseUntil) => Claim(r, now, owner, token, leaseUntil)
    case CompleteStep(_, generation, owner, token, success) => Complete(r, generation, owner, token, success)
    case ReconcileStep(now, local) => Reconcile(r, now, local)
    case KeyLoss(_) => EMPTY
  }

  function Clock(s: Step): nat {
    match s
    case ObserveStep(o) => o.now
    case ClaimStep(now, _, _, _) => now
    case CompleteStep(now, _, _, _, _) => now
    case ReconcileStep(now, _) => now
    case KeyLoss(now) => now
  }

  ghost predicate IsRun(states: seq<Record>, steps: seq<Step>) {
    && |states| == |steps| + 1
    && forall i :: 0 <= i < |steps| ==> states[i + 1] == Next(states[i], steps[i])
  }

  ghost predicate NoKeyLoss(steps: seq<Step>, i: nat, j: nat)
    requires i <= j <= |steps|
  {
    forall k :: i <= k < j ==> !steps[k].KeyLoss?
  }

  /** Only observe, claim and complete: the runs in which a token's authority can
      come from nothing but a claim. */
  ghost predicate CoreRun(steps: seq<Step>) {
    forall k :: 0 <= k < |steps| ==> steps[k].ObserveStep? || steps[k].ClaimStep? || steps[k].CompleteStep?
  }

  ghost predicate ClockNeverGoesBack(steps: seq<Step>) {
    forall a, b :: 0 <= a <= b < |steps| ==> Clock(steps[a]) <= Clock(steps[b])
  }

  ghost predicate FreshTokens(steps: seq<Step>) {
    forall a, b :: 0 <= a < b < |steps| && steps[a].ClaimStep? && steps[b].ClaimStep? ==>
      steps[a].token != steps[b].token
  }

  /** Kept by every script, and true of the empty record. */
  predicate Coherent(r: Record) {
    r.blocked >= 0 && 0 <= r.probe.generation <= r.generation
  }

  /** Taken in `r`, step `s` applies the result of a probe of generation `g`. */
  predicate ProbeOutcome(r: Record, s: Step, g: int) {
    match s
    case ObserveStep(o) => g > 0 && o.generation == g && !Fenced(r, o)
    case CompleteStep(_, generation, owner, token, _) =>
      generation == g && CompleteApplies(r, generation, owner, token)
    case _ => false
  }

  predicate ClaimTaken(r: Record, s: Step) {
    s.ClaimStep? && ClaimApplies(r, s.now)
  }

  predicate SuccessTaken(r: Record, s: Step) {
    s.CompleteStep? && s.success && CompleteApplies(r, s.generation, s.owner, s.token)
  }

  // ------------------------------------------------ generations and outcomes

  lemma StepKeepsCoherent(r: Record, s: Step)
    requires Coherent(r)
    ensures Coherent(Next(r, s))
    ensures !s.KeyLoss? ==> Next(r, s).generation >= r.generation
  {
  }

  lemma {:induction false} RunKeepsCoherent(states: seq<Record>, steps: seq<Step>, j: nat)
    requires IsRun(states, steps) && j < |states| && Coherent(states[0])
    ensures Coherent(states[j])
  {
    if j > 0 {
      RunKeepsCoherent(states, steps, j - 1);
      StepKeepsCoherent(states[j - 1], steps[j - 1]);
    }
  }

  /** Without key loss the generation never decreases, whatever states reconcile is given. */
  lemma {:induction false} GenerationNeverDecreases(states: seq<Record>, steps: seq<Step>, i: nat, j: nat)
    requires IsRun(states, steps) && Coherent(states[0])
    requires i <= j < |states| && NoKeyLoss(steps, i, j)
    ensures states[i].generation <= states[j].generation
  {
    if i < j {
      GenerationNeverDecreases(states, steps, i, j - 1);
      RunKeepsCoherent(states, steps, j - 1);
      StepKeepsCoherent(states[j - 1], steps[j - 1]);
    }
  }

  /** Generation `g` has had its outcome: either the record moved past it or it is
      a tombstone nobody holds a probe of. */
  predicate Settled(r: Record, g: int) {
    r.generation > g || (r.generation == g && r.blocked == 0 && r.probe.generation != g)
  }

  lemma OutcomeSettles(r: Record, s: Step, g: int)
    requires Coherent(r) && g >= 1 && ProbeOutcome(r, s, g)
    ensures Settled(Next(r, s), g)
  {
  }

  lemma SettledStays(r: Record, s: Step, g: int)
    requires Coherent(r) && g >= 1 && Settled(r, g) && !s.KeyLoss?
    ensures Settled(Next(r, s), g) && !ProbeOutcome(r, s, g)
  {
  }

  lemma {:induction false} SettledStaysAlong(states: seq<Record>, steps: seq<Step>, i: nat, j: nat, g: int)
    requires IsRun(states, steps) && Coherent(states[0]) && g >= 1
    requires i <= j < |states| && NoKeyLoss(steps, i, j) && Settled(states[i], g)
    ensures Settled(states[j], g)
  {
    if i < j {
      SettledStaysAlong(states, steps, i, j - 1, g);
      RunKeepsCoherent(states, steps, j - 1);
      SettledStays(states[j - 1], steps[j - 1], g);
    }
  }

  /** At most one probe outcome is ever applied for a generation: in every run of all
      four scripts, reconcile included with arbitrary local states, as long as the key
      is not lost in between. */
  lemma OneOutcomePerGeneration(states: seq<Record>, steps: seq<Step>, i: nat, j: nat, g: int)
    requires IsRun(states, steps) && Coherent(states[0]) && g >= 1
    requires i < j < |steps| && NoKeyLoss(steps, i, j)
    requires ProbeOutcome(states[i], steps[i], g)
    ensures !ProbeOutcome(states[j], steps[j], g)
  {
    RunKeepsCoherent(states, steps, i);
    OutcomeSettles(states[i], steps[i], g);
    SettledStaysAlong(states, steps, i + 1, j, g);
    if !steps[j].KeyLoss? {
      RunKeepsCoherent(states, steps, j);
      SettledStays(states[j], steps[j], g);
    }
  }

  // ------------------------------------------------ what a success proves

  /** In a run of observe, claim and complete, a stored probe was put there by a claim
      after which nothing at all was written. */
  lemma {:induction false} StoredProbeIsTheLatestClaim(states: seq<Record>, steps: seq<Step>, j: nat)
    returns (i: nat)
    requires IsRun(states, steps) && CoreRun(steps) && ClockNeverGoesBack(steps)
    requires Coherent(states[0]) && states[0].probe.generation == 0
    requires j < |states| && states[j].probe.generation != 0
    ensures i < j && ClaimTaken(states[i], steps[i])
    ensures states[i + 1].probe ==
            Lease(steps[i].owner, steps[i].token, states[i].generation, steps[i].leaseUntil)
    ensures forall k :: i < k <= j ==> states[k] == states[i + 1]
  {
    var r, s := states[j - 1], steps[j - 1];
    assert states[j] == Next(r, s);
    if ClaimTaken(r, s) {
      i := j - 1;
    } else {
      // Only a claim that is taken can fill an empty slot.
      assert r.probe.generation != 0;
      i := StoredProbeIsTheLatestClaim(states, steps, j - 1);
      assert r == states[i + 1];
      assert Clock(steps[i]) <= Clock(s);
      assert r.blocked <= Clock(s);
    }
  }

  /** A probe's applied success lifts exactly the deadline it was admitted against:
      from its claim to its success the record did not change. */
  lemma SuccessLiftsItsOwnDeadline(states: seq<Record>, steps: seq<Step>, i: nat, j: nat)
    requires IsRun(states, steps) && CoreRun(steps) && ClockNeverGoesBack(steps) && FreshTokens(steps)
    requires Coherent(states[0]) && states[0].probe.generation == 0
    requires i < j < |steps|
    requires steps[i].ClaimStep? && SuccessTaken(states[j], steps[j])
    requires steps[j].token == steps[i].token && steps[j].generation != 0
    ensures ClaimTaken(states[i], steps[i])
    ensures steps[j].owner == steps[i].owner && steps[j].generation == states[i].generation
    ensures 0 < states[i].blocked <= Clock(steps[i])
    ensures forall k :: i < k <= j ==> states[k] == states[i].(probe := states[i + 1].probe)
    ensures states[j + 1] == states[i].(blocked := 0, attribution := NO_ATTRIBUTION, probe := NO_LEASE)
  {
    var c := StoredProbeIsTheLatestClaim(states, steps, j);
    assert steps[c].token == steps[i].token;
    assert c == i;
    RunKeepsCoherent(states, steps, i);
  }

  /** Once a second claim is taken the first probe can never complete. */
  lemma SupersededProbeNeverCompletes(states: seq<Record>, steps: seq<Step>, i: nat, j: nat, k: nat)
    requires IsRun(states, steps) && CoreRun(steps) && ClockNeverGoesBack(steps) && FreshTokens(steps)
    requires Coherent(states[0]) && states[0].probe.generation == 0
    requires i < j < k < |steps|
    requires ClaimTaken(states[i], steps[i]) && ClaimTaken(states[j], steps[j])
    requires steps[k].CompleteStep? && steps[k].token == steps[i].token && steps[k].generation != 0
    ensures !CompleteApplies(states[k], steps[k].generation, steps[k].owner, steps[k].token)
  {
    assert states[j + 1].probe.token == steps[j].token;
    if CompleteApplies(states[k], steps[k].generation, steps[k].owner, steps[k].token) {
      var _ := StoredProbeIsTheLatestClaim(states, steps, k);
    }
  }

  /** A step that takes a stored probe's authority away. */
  predicate Revokes(r: Record, s: Step) {
    match s
    case ObserveStep(o) => ObserveApplies(r, o)
    case CompleteStep(_, generation, owner, token, _) => CompleteApplies(r, generation, owner, token)
    case _ => false
  }

  lemma {:induction false} LeaseHolds(states: seq<Record>, steps: seq<Step>, i: nat, j: nat)
    requires IsRun(states, steps) && CoreRun(steps) && ClockNeverGoesBack(steps)
    requires i <= j < |steps| && Clock(steps[j]) < states[i].probe.until
    requires forall k :: i <= k < j ==> !Revokes(states[k], steps[k])
    ensures states[j].probe == states[i].probe
  {
    if i < j {
      LeaseHolds(states, steps, i, j - 1);
      assert states[j] == Next(states[j - 1], steps[j - 1]);
    }
  }

  /** While a lease is live a second probe is admitted only after an outcome or an
      applied observation has revoked the first. */
  lemma LiveLeaseExcludesSecondProbe(states: seq<Record>, steps: seq<Step>, i: nat, j: nat)
    requires IsRun(states, steps) && CoreRun(steps) && ClockNeverGoesBack(steps)
    requires i < j < |steps| && ClaimTaken(states[i], steps[i]) && ClaimTaken(states[j], steps[j])
    requires Clock(steps[j]) < steps[i].leaseUntil
    ensures exists k :: i < k < j && Revokes(states[k], steps[k])
  {
    if forall k :: i < k < j ==> !Revokes(states[k], steps[k]) {
      assert states[i + 1] == Next(states[i], steps[i]);
      LeaseHolds(states, steps, i + 1, j);
    }
  }

  // ------------------------------------------------ deadlines hold

  lemma OnlySuccessLowersDeadline(r: Record, s: Step)
    requires Coherent(r) && !s.KeyLoss? && !SuccessTaken(r, s)
    ensures Next(r, s).blocked >= r.blocked
  {
  }

  lemma {:induction false} DeadlineHolds(states: seq<Record>, steps: seq<Step>, i: nat, j: nat)
    requires IsRun(states, steps) && Coherent(states[0])
    requires i <= j < |states| && NoKeyLoss(steps, i, j)
    requires forall k :: i <= k < j ==> !SuccessTaken(states[k], steps[k])
    ensures states[i].blocked <= states[j].blocked
  {
    if i < j {
      DeadlineHolds(states, steps, i, j - 1);
      RunKeepsCoherent(states, steps, j - 1);
      OnlySuccessLowersDeadline(states[j - 1], steps[j - 1]);
    }
  }

  /** The deadline a step supplies when it is applied: that of an applied observation,
      or of the local state a reconcile wrote from. */
  predicate Supplies(r: Record, s: Step, deadline: int) {
    match s
    case ObserveStep(o) => ObserveApplies(r, o) && o.deadline == deadline
    case ReconcileStep(now, local) => ReconcileChanges(r, now, local) && local.blocked == deadline
    case _ => false
  }

  /** After a deadline has been applied no probe is claimed before it, unless some probe
      success was applied in between. Holds for all four scripts and any clock. */
  lemma NoProbeBeforeDeadline(states: seq<Record>, steps: seq<Step>, i: nat, j: nat, deadline: int)
    requires IsRun(states, steps) && Coherent(states[0])
    requires i < j < |steps| && NoKeyLoss(steps, i, j)
    requires Supplies(states[i], steps[i], deadline)
    requires ClaimTaken(states[j], steps[j]) && Clock(steps[j]) < deadline
    ensures exists k :: i < k < j && SuccessTaken(states[k], steps[k])
  {
    if forall k :: i < k < j ==> !SuccessTaken(states[k], steps[k]) {
      assert states[i + 1] == Next(states[i], steps[i]);
      assert states[i + 1].blocked >= deadline;
      DeadlineHolds(states, steps, i + 1, j);
      assert false;
    }
  }

  /** The step wrote this deadline, with this attribution. */
  predicate Attributes(r: Record, s: Step, deadline: int, attribution: Attribution) {
    && Supplies(r, s, deadline)
    && attribution == if s.ObserveStep? then s.o.attribution else s.local.attribution
  }

  /** The stored attribution is always that of a step which supplied the stored deadline, in
      every run of all four scripts, key loss included. */
  lemma {:induction false} AttributionNamesTheDeadline(states: seq<Record>, steps: seq<Step>, j: nat)
    requires IsRun(states, steps) && states[0] == EMPTY && j < |states| && states[j].blocked != 0
    ensures exists i :: 0 <= i < j && Attributes(states[i], steps[i], states[j].blocked, states[j].attribution)
  {
    var r, s := states[j - 1], steps[j - 1];
    assert states[j] == Next(r, s);
    RunKeepsCoherent(states, steps, j - 1);
    if states[j].blocked == r.blocked && states[j].attribution == r.attribution {
      AttributionNamesTheDeadline(states, steps, j - 1);
    } else {
      assert Attributes(r, s, states[j].blocked, states[j].attribution);
    }
  }

  /** Losing the key restarts the generations, so the claim above cannot survive it. */
  lemma KeyLossReopensAGeneration() returns (states: seq<Record>, steps: seq<Step>)
    ensures IsRun(states, steps) && states[0] == EMPTY && |steps| == 7
    ensures ProbeOutcome(states[2], steps[2], 1) && ProbeOutcome(states[6], steps[6], 1)
  {
    var limited := ObserveStep(Observation(10, 20, NO_ATTRIBUTION, 0, "", true));
    var claim := ClaimStep(30, "o", "t", 40);
    var release := CompleteStep(30, 1, "o", "t", false);
    var r1 := Record(1, 1, 20, NO_ATTRIBUTION, NO_LEASE);
    var r2 := r1.(probe := Lease("o", "t", 1, 40));
    var r3 := r1.(generation := 2);
    steps := [limited, claim, release, KeyLoss(30), limited, claim, release];
    states := [EMPTY, r1, r2, r3, EMPTY, r1, r2, r3];
  }
}
