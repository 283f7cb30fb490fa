/** The scripts as they run against the shared hash: each method reads and overwrites
    fields in the order of its script and is proved to be one step of `Cooldown`. */
module CooldownStore {
  import opened Cooldown

  function Greater(a: int, b: int): int {
    if a > b then a else b
  }

  class CooldownHash {
    var generation: int
    var episodes: int
    var blocked: int
    var attribution: Attribution
    var probe: Lease

    ghost function View(): Record
      reads this
    {
      Record(generation, episodes, blocked, attribution, probe)
    }

    constructor ()
      ensures View() == EMPTY
    {
      generation, episodes, blocked, attribution, probe := 0, 0, 0, NO_ATTRIBUTION, NO_LEASE;
    }

    method RunObserve(o: Observation) returns (newEpisode: bool, applied: bool)
      modifies this
      ensures View() == Observe(old(View()), o)
      ensures applied == old(ObserveApplies(View(), o))
      ensures newEpisode == old(ObserveOpens(View(), o))
      // An ordinary response always counts. One from a probe counts if the probe is still the
      // stored one; otherwise only as a longer deadline of the provider, ahead of the clock.
      ensures var r := old(View());
              var held := r.generation == o.generation && r.probe.generation == o.generation &&
                          r.probe.token == o.token;
              var longer := o.providerDeadline && r.blocked != 0 && o.deadline > r.blocked && o.deadline > o.now;
              && (applied <==> o.generation <= 0 || held || longer)
              && (newEpisode <==> if o.generation <= 0 then r.blocked <= o.now else held)
              && generation == r.generation + (if newEpisode then 1 else 0)
              && episodes == r.episodes + (if newEpisode then 1 else 0)
              && blocked == (if applied && o.deadline > r.blocked then o.deadline else r.blocked)
              && attribution == (if applied && o.deadline > r.blocked then o.attribution else r.attribution)
              && probe == (if applied && (newEpisode || o.generation > 0) then NO_LEASE else r.probe)
    {
      newEpisode := false;
      var fenced := o.generation > 0 &&
        (o.generation != generation || probe.generation != o.generation || probe.token != o.token);
      if fenced {
        if !o.providerDeadline || blocked == 0 || o.deadline <= blocked || o.deadline <= o.now {
          return false, false;
        }
        probe := NO_LEASE;
      } else if o.generation > 0 || blocked <= o.now {
        generation := generation + 1;
        episodes := episodes + 1;
        newEpisode := true;
        probe := NO_LEASE;
      }
      if o.deadline > blocked {
        blocked := o.deadline;
        attribution := o.attribution;
      }
      applied := true;
    }

    method RunClaim(now: nat, owner: string, token: string, leaseUntil: int) returns (claimed: bool)
      modifies this`probe
      ensures View() == Claim(old(View()), now, owner, token, leaseUntil)
      ensures claimed == old(ClaimApplies(View(), now))
      // An expired deadline and no lease that outlives the clock: that is all a claim needs.
      ensures claimed <==> generation != 0 && blocked != 0 && blocked <= now && old(probe).until <= now
      ensures probe == if claimed then Lease(owner, token, generation, leaseUntil) else old(probe)
    {
      if generation == 0 || blocked == 0 || blocked > now || probe.until > now {
        return false;
      }
      probe := Lease(owner, token, generation, leaseUntil);
      return true;
    }

    method RunComplete(g: int, owner: string, token: string, success: bool) returns (completed: bool)
      modifies this
      ensures View() == Complete(old(View()), g, owner, token, success)
      ensures completed == old(CompleteApplies(View(), g, owner, token))
      // Only the stored probe completes; a success closes the generation, a release opens the next.
      ensures completed <==> old(generation) == g && exists until :: old(probe) == Lease(owner, token, g, until)
      ensures !completed ==> View() == old(View())
      ensures completed ==> probe == NO_LEASE && episodes == old(episodes)
      ensures completed && success ==> generation == g && blocked == 0 && attribution == NO_ATTRIBUTION
      ensures completed && !success ==>
                generation == g + 1 && blocked == old(blocked) && attribution == old(attribution)
    {
      if generation != g || probe.generation != g || probe.owner != owner || probe.token != token {
        return false;
      }
      assert probe == Lease(owner, token, g, probe.until);
      if success {
        blocked := 0;
        attribution := NO_ATTRIBUTION;
      } else {
        generation := generation + 1;
      }
      probe := NO_LEASE;
      return true;
    }

    method RunReconcile(now: nat, local: Record) returns (changed: bool)
      modifies this
      ensures View() == Reconcile(old(View()), now, local)
      ensures changed == old(ReconcileChanges(View(), now, local))
      ensures var r := old(View());
              // A completed generation takes nothing from an older or an equal reading.
              var closed := r.blocked == 0 || (local.generation == r.generation && r.generation == 0);
              var refused := local.generation <= r.generation &&
                             (closed || (local.generation < r.generation && local.blocked <= now));
              && generation == Greater(r.generation, local.generation)
              && episodes == (if refused || local.generation < r.generation
                              then r.episodes else Greater(r.episodes, local.episodes))
              && blocked == (if refused then r.blocked else Greater(r.blocked, local.blocked))
              && (blocked > r.blocked ==> attribution == local.attribution)
              && (blocked > local.blocked || refused ==> attribution == r.attribution)
              && (!refused && blocked == r.blocked == local.blocked ==>
                    attribution == if local.generation > r.generation then local.attribution else r.attribution)
      ensures var r := old(View());
              // A lease goes when the deadline moves ahead of the clock under its generation, and a
              // free slot takes the lease the reading kept. A newer generation evicts only dead leases.
              var offered := local.probe.token != "" && local.probe.generation == generation;
              probe ==
                if local.generation > r.generation then
                  if r.probe.token != "" && r.probe.until > now then r.probe
                  else if offered then local.probe else NO_LEASE
                else if blocked > r.blocked && blocked > now then NO_LEASE
                else if local.generation == r.generation && r.generation != 0 && r.blocked != 0 &&
                        r.probe.token == "" && offered then local.probe
                else r.probe
      ensures local.generation <= old(generation) && View() != old(View()) ==> changed
      ensures local.generation > old(generation) ==> changed
      ensures changed && local.generation <= old(generation) ==>
                blocked > old(blocked) || episodes > old(episodes) || probe == local.probe
    {
      changed := false;
      if local.generation < generation {
        if blocked == 0 || local.blocked <= blocked || local.blocked <= now {
          return false;
        }
        blocked := local.blocked;
        attribution := local.attribution;
        probe := NO_LEASE;
        changed := true;
      } else if local.generation == generation {
        if generation == 0 || blocked == 0 {
          return false;
        }
        var deadlineFencedProbe := false;
        if local.blocked > blocked {
          blocked := local.blocked;
          attribution := local.attribution;
          if blocked > now {
            probe := NO_LEASE;
            deadlineFencedProbe := true;
          }
          changed := true;
        }
        if local.episodes > episodes {
          episodes := local.episodes;
          changed := true;
        }
        if !deadlineFencedProbe && probe.token == "" && local.probe.token != "" &&
           local.probe.generation == generation {
          probe := local.probe;
          changed := true;
        }
      } else {
        var episodeCount := local.episodes;
        if episodes > episodeCount {
          episodeCount := episodes;
        }
        var effectiveBlocked, effectiveAttribution := local.blocked, local.attribution;
        if blocked > effectiveBlocked {
          effectiveBlocked, effectiveAttribution := blocked, attribution;
        }
        generation, episodes, blocked, attribution :=
          local.generation, episodeCount, effectiveBlocked, effectiveAttribution;
        if probe.token != "" && probe.until > now {
          // A live claim keeps excluding a second probe; the raised generation fences its result.
        } else if local.probe.token != "" && local.probe.generation == local.generation {
          probe := local.probe;
        } else {
          probe := NO_LEASE;
        }
        changed := true;
      }
    }
  }
}
