/** What the cooldown scripts are bound to do: a lapsed lease is taken over, the holder of a
    lease can always report and complete, and episodes are counted. The laws name the fields
    of the record only. */
module CooldownLaws {
  import opened Cooldown
  import opened CooldownRuns

  /** From an expired deadline and a free or lapsed slot a claim leaves exactly its own
      lease; from any other record it leaves the record as it is. */
  lemma ClaimLeavesItsLease(r: Record, s: Step)
    requires Coherent(r) && s.ClaimStep?
    ensures Next(r, s) ==
            if r.generation > 0 && 0 < r.blocked <= s.now && r.probe.until <= s.now
            then r.(probe := Lease(s.owner, s.token, r.generation, s.leaseUntil))
            else r
  {
  }

  /** Step `i` is a claim that put its lease into the record. */
  ghost predicate Leased(states: seq<Record>, steps: seq<Step>, i: nat)
    requires |states| == |steps| + 1 && i < |steps|
  {
    && steps[i].ClaimStep?
    && states[i].generation > 0 && 0 < states[i].blocked <= Clock(steps[i])
    && states[i].probe.until <= Clock(steps[i])
  }

  /** Neither an outcome nor an applied observation touched the record between `i` and `j`,
      and nobody claimed after the lease of `i` had lapsed. */
  ghost predicate LeftAlone(states: seq<Record>, steps: seq<Step>, i: nat, j: nat)
    requires |states| == |steps| + 1 && i < j < |steps| && steps[i].ClaimStep?
  {
    forall k :: i < k < j ==>
      !Revokes(states[k], steps[k]) && (steps[k].ClaimStep? ==> Clock(steps[k]) < steps[i].leaseUntil)
  }

  lemma {:induction false} LeaseStands(states: seq<Record>, steps: seq<Step>, i: nat, j: nat)
    requires IsRun(states, steps) && CoreRun(steps)
    requires i < j < |steps| && Leased(states, steps, i) && LeftAlone(states, steps, i, j)
    ensures states[j] ==
            states[i].(probe := Lease(steps[i].owner, steps[i].token, states[i].generation, steps[i].leaseUntil))
  {
    assert states[j] == Next(states[j - 1], steps[j - 1]);
    if i < j - 1 {
      LeaseStands(states, steps, i, j - 1);
    }
  }

  /** A lease ends with its time. The next claim takes the slot over exactly when the lease of
      the last one has lapsed, so a controller that dies while probing blocks nobody for good. */
  lemma LapsedLeaseIsTakenOver(states: seq<Record>, steps: seq<Step>, i: nat, j: nat)
    requires IsRun(states, steps) && CoreRun(steps) && ClockNeverGoesBack(steps) && Coherent(states[0])
    requires i < j < |steps| && Leased(states, steps, i) && LeftAlone(states, steps, i, j)
    requires steps[j].ClaimStep?
    ensures states[j + 1] == states[i].(probe :=
              if Clock(steps[j]) >= steps[i].leaseUntil
              then Lease(steps[j].owner, steps[j].token, states[i].generation, steps[j].leaseUntil)
              else Lease(steps[i].owner, steps[i].token, states[i].generation, steps[i].leaseUntil))
  {
    LeaseStands(states, steps, i, j);
    RunKeepsCoherent(states, steps, j);
    ClaimLeavesItsLease(states[j], steps[j]);
    assert Clock(steps[i]) <= Clock(steps[j]);
  }

  /** The holder of an undisturbed lease completes, lapsed or not: a success closes the
      generation, a release opens the next one. */
  lemma HolderCompletes(states: seq<Record>, steps: seq<Step>, i: nat, j: nat)
    requires IsRun(states, steps) && CoreRun(steps)
    requires i < j < |steps| && Leased(states, steps, i) && LeftAlone(states, steps, i, j)
    requires steps[j].CompleteStep? && steps[j].owner == steps[i].owner && steps[j].token == steps[i].token
    requires steps[j].generation == states[i].generation
    ensures states[j + 1] ==
            if steps[j].success
            then states[i].(blocked := 0, attribution := NO_ATTRIBUTION, probe := NO_LEASE)
            else states[i].(generation := states[i].generation + 1, probe := NO_LEASE)
  {
    LeaseStands(states, steps, i, j);
  }

  /** A holder that is limited again opens the next episode, and the deadline it saw holds
      if it is the later one. */
  lemma HolderReports(states: seq<Record>, steps: seq<Step>, i: nat, j: nat)
    requires IsRun(states, steps) && CoreRun(steps)
    requires i < j < |steps| && Leased(states, steps, i) && LeftAlone(states, steps, i, j)
    requires steps[j].ObserveStep? && steps[j].o.token == steps[i].token
    requires steps[j].o.generation == states[i].generation
    ensures var o := steps[j].o;
            var later := o.deadline > states[i].blocked;
            states[j + 1] ==
            Record(states[i].generation + 1, states[i].episodes + 1,
                   if later then o.deadline else states[i].blocked,
                   if later then o.attribution else states[i].attribution,
                   NO_LEASE)
  {
    LeaseStands(states, steps, i, j);
  }

  /** Step `k` counts a new episode: an ordinary response after the deadline, or one of the
      stored probe. */
  predicate Opens(r: Record, s: Step) {
    s.ObserveStep? &&
    if s.o.generation <= 0 then r.blocked <= s.o.now
    else r.generation == s.o.generation && r.probe.generation == s.o.generation && r.probe.token == s.o.token
  }

  /** The steps before `j` that opened an episode. */
  ghost function Openings(states: seq<Record>, steps: seq<Step>, j: nat): (c: nat)
    requires |states| == |steps| + 1 && j <= |steps|
  {
    if j == 0 then 0
    else Openings(states, steps, j - 1) + if Opens(states[j - 1], steps[j - 1]) then 1 else 0
  }

  /** Without reconcile and key loss the episode counter counts the openings, and an
      opening is the only step that starts a generation besides a release. */
  lemma {:induction false} EpisodesCountOpenings(states: seq<Record>, steps: seq<Step>, j: nat)
    requires IsRun(states, steps) && CoreRun(steps) && j <= |steps|
    ensures states[j].episodes == states[0].episodes + Openings(states, steps, j)
    ensures states[j].generation >= states[0].generation + Openings(states, steps, j)
  {
    if j > 0 {
      EpisodesCountOpenings(states, steps, j - 1);
      assert states[j] == Next(states[j - 1], steps[j - 1]);
    }
  }

  /** Over all four scripts, with any local states, the counter never falls. */
  lemma {:induction false} EpisodesNeverDecrease(states: seq<Record>, steps: seq<Step>, i: nat, j: nat)
    requires IsRun(states, steps) && i <= j < |states| && NoKeyLoss(steps, i, j)
    ensures states[i].episodes <= states[j].episodes
  {
    if i < j {
      EpisodesNeverDecrease(states, steps, i, j - 1);
      assert states[j] == Next(states[j - 1], steps[j - 1]);
    }
  }
}
