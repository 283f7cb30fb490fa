/** The installation-wide GitHub cooldown record and the four scripts that change it.

    A Redis hash field that is missing reads as 0 or as the empty string in every
    script, so the record below carries those defaults instead of options. */
module Cooldown {

  /** What the observation that supplied the effective deadline said about itself. */
  datatype Attribution = Attribution(kind: string, resource: string, reason: string)

  /** The four probe fields; every script writes or deletes them together. */
  datatype Lease = Lease(owner: string, token: string, generation: int, until: int)

  datatype Record = Record(
    generation: int,
    episodes: int,
    blocked: int,
    attribution: Attribution,
    probe: Lease)

  const NO_ATTRIBUTION := Attribution("", "", "")
  const NO_LEASE := Lease("", "", 0, 0)
  const EMPTY := Record(0, 0, 0, NO_ATTRIBUTION, NO_LEASE)

  /** A response from the provider. `generation` and `token` name the probe that saw
      it; generation 0 means the caller was not probing. */
  datatype Observation = Observation(
    now: nat,
    deadline: int,
    attribution: Attribution,
    generation: int,
    token: string,
    providerDeadline: bool)

  /** A record that completed its episode: generations up to its own are closed. */
  predicate Tombstone(r: Record) {
    r.generation > 0 && r.blocked == 0
  }

  // ---------------------------------------------------------------- observe

  predicate Fenced(r: Record, o: Observation) {
    && o.generation > 0
    && (o.generation != r.generation || r.probe.generation != o.generation || r.probe.token != o.token)
  }

  predicate ObserveApplies(r: Record, o: Observation) {
    Fenced(r, o) ==> o.providerDeadline && r.blocked != 0 && o.deadline > r.blocked && o.deadline > o.now
  }

  predicate ObserveOpens(r: Record, o: Observation) {
    !Fenced(r, o) && (o.generation > 0 || r.blocked <= o.now)
  }

  function RaiseDeadline(r: Record, deadline: int, attribution: Attribution): Record {
    if deadline > r.blocked then r.(blocked := deadline, attribution := attribution) else r
  }

  function Observe(r: Record, o: Observation): Record {
    if !ObserveApplies(r, o) then r
    else
      var fenced := if Fenced(r, o) || ObserveOpens(r, o) then r.(probe := NO_LEASE) else r;
      var started := if ObserveOpens(r, o)
                    then fenced.(generation := r.generation + 1, episodes := r.episodes + 1) else fenced;
      RaiseDeadline(started, o.deadline, o.attribution)
  }

  // ---------------------------------------------------------------- claim

  predicate ClaimApplies(r: Record, now: nat) {
    !(r.generation == 0 || r.blocked == 0 || r.blocked > now || r.probe.until > now)
  }

  function Claim(r: Record, now: nat, owner: string, token: string, leaseUntil: int): Record {
    if ClaimApplies(r, now) then r.(probe := Lease(owner, token, r.generation, leaseUntil)) else r
  }

  // ---------------------------------------------------------------- complete

  predicate CompleteApplies(r: Record, generation: int, owner: string, token: string) {
    && r.generation == generation
    && r.probe.generation == generation
    && r.probe.owner == owner
    && r.probe.token == token
  }

  function Complete(r: Record, generation: int, owner: string, token: string, success: bool): Record {
    if !CompleteApplies(r, generation, owner, token) then r
    else if success then r.(blocked := 0, attribution := NO_ATTRIBUTION, probe := NO_LEASE)
    else r.(generation := r.generation + 1, probe := NO_LEASE)
  }

  // ---------------------------------------------------------------- reconcile

  /** A controller kept `local` from an earlier reading and offers it back. */
  function Reconcile(r: Record, now: nat, local: Record): Record {
    if local.generation < r.generation then
      if r.blocked == 0 || local.blocked <= r.blocked || local.blocked <= now then r
      else r.(blocked := local.blocked, attribution := local.attribution, probe := NO_LEASE)
    else if local.generation == r.generation then
      if r.generation == 0 || r.blocked == 0 then r
      else ReconcileEqual(r, now, local)
    else ReconcileNewer(r, now, local)
  }

  function ReconcileEqual(r: Record, now: nat, local: Record): Record {
    var fencesProbe := local.blocked > r.blocked && local.blocked > now;
    var raised := RaiseDeadline(r, local.blocked, local.attribution);
    var probe :=
      if fencesProbe then NO_LEASE
      else if r.probe.token == "" && local.probe.token != "" && local.probe.generation == r.generation
      then local.probe
      else r.probe;
    raised.(episodes := if local.episodes > r.episodes then local.episodes else r.episodes, probe := probe)
  }

  function ReconcileNewer(r: Record, now: nat, local: Record): Record {
    var keepRemote := r.blocked > local.blocked;
    var probe :=
      if r.probe.token != "" && r.probe.until > now then r.probe
      else if local.probe.token != "" && local.probe.generation == local.generation then local.probe
      else NO_LEASE;
    Record(
      local.generation,
      if r.episodes > local.episodes then r.episodes else local.episodes,
      if keepRemote then r.blocked else local.blocked,
      if keepRemote then r.attribution else local.attribution,
      probe)
  }

  /** The script's return value: did it write anything? */
  predicate ReconcileChanges(r: Record, now: nat, local: Record) {
    if local.generation < r.generation then
      !(r.blocked == 0 || local.blocked <= r.blocked || local.blocked <= now)
    else if local.generation == r.generation then
      && !(r.generation == 0 || r.blocked == 0)
      && (|| local.blocked > r.blocked
          || local.episodes > r.episodes
          || (r.probe.token == "" && local.probe.token != "" && local.probe.generation == r.generation))
    else true
  }
}
