/** What a background caller with low quota is told, by the lane it finds and the lane it leaves. */
module AdmissionAnswer {
  import opened AdmissionLane

  /** The background admission script's answer. */
  datatype Admission = Admission(known: bool, low: bool, admitted: bool, overflow: bool, retryAt: int)

  /** What a caller with low quota is told of the lane's verdict. */
  function Reply(v: Verdict): Admission {
    match v
    case Overflow => Admission(true, true, true, true, 0)
    case Admitted(until) => Admission(true, true, true, false, until)
    case Wait(until) => Admission(true, true, false, false, until)
  }

  predicate Waiting(l: Lane, now: nat, c: string) {
    c in l.candidates && l.candidates[c].deadline > now
  }

  function AllWaiting(l: Lane, now: nat): set<string> {
    set c | c in l.candidates && l.candidates[c].deadline > now
  }

  /** Everybody else keeps the place held, unless it has lapsed. */
  ghost predicate OthersUnmoved(start: Lane, lane: Lane, now: nat, candidate: string) {
    forall c :: c != candidate ==>
      && (c in lane.candidates <==> Waiting(start, now, c))
      && (c in lane.candidates ==> lane.candidates[c] == start.candidates[c])
  }

  /** A newcomer to a full lane is let through outside it. */
  ghost predicate ToldOverflow(start: Lane, lane: Lane, now: nat, candidate: string, answer: Admission) {
    && answer.admitted && answer.overflow && answer.retryAt == 0
    && !Waiting(start, now, candidate) && |AllWaiting(start, now)| >= 1024
    && candidate !in lane.candidates && lane.sequence == start.sequence && lane.next == start.next
  }

  /** The free slot goes to a caller nobody precedes, who leaves the lane; it is free again after
      the interval. */
  ghost predicate ToldAdmitted(
    start: Lane, lane: Lane, now: nat, candidate: string, interval: int, answer: Admission)
  {
    && answer.admitted && !answer.overflow
    && (Waiting(start, now, candidate) || |AllWaiting(start, now)| < 1024)
    && start.next <= now && lane.next == now + interval == answer.retryAt
    && candidate !in lane.candidates
    && lane.sequence == start.sequence + (if Waiting(start, now, candidate) then 0 else 1)
    && forall c :: Waiting(start, now, c) ==>
         Waiting(start, now, candidate) && start.candidates[candidate].sequence <= start.candidates[c].sequence
  }

  /** Anybody else has a place, kept or at the end, and is told when the slot is free or, if somebody
      else is to take it first, to come back after the interval. */
  ghost predicate ToldToWait(
    start: Lane, lane: Lane, now: nat, candidate: string, interval: int, expiry: int, answer: Admission)
  {
    && !answer.admitted && !answer.overflow
    && (Waiting(start, now, candidate) || |AllWaiting(start, now)| < 1024)
    && lane.next == start.next && answer.retryAt == (if start.next > now then start.next else now + interval)
    && lane.sequence == start.sequence + (if Waiting(start, now, candidate) then 0 else 1)
    && candidate in lane.candidates
    && lane.candidates[candidate] ==
       Entry(now + expiry,
             if Waiting(start, now, candidate) then start.candidates[candidate].sequence else start.sequence + 1)
    && (start.next > now ||
        exists c :: c != candidate && Waiting(start, now, c) &&
          (Waiting(start, now, candidate) ==>
             start.candidates[c].sequence <= start.candidates[candidate].sequence))
  }

  lemma LiveMeansWaiting(l: Lane, now: nat)
    ensures forall c :: c in Live(l.candidates, now) <==> Waiting(l, now, c)
    ensures forall c :: c in Live(l.candidates, now) ==> Live(l.candidates, now)[c] == l.candidates[c]
    ensures Live(l.candidates, now).Keys == AllWaiting(l, now)
    ensures |Live(l.candidates, now)| == |AllWaiting(l, now)|
  {
    assert Live(l.candidates, now).Keys == AllWaiting(l, now);
  }

  /** The caller's answer is one of the three, and which one follows from the two lanes. */
  ghost predicate Told(
    start: Lane, lane: Lane, now: nat, candidate: string, interval: int, expiry: int, answer: Admission)
  {
    && answer.known && answer.low && OthersUnmoved(start, lane, now, candidate)
    && (|| ToldOverflow(start, lane, now, candidate, answer)
        || ToldAdmitted(start, lane, now, candidate, interval, answer)
        || ToldToWait(start, lane, now, candidate, interval, expiry, answer))
  }

  lemma ReplyTells(start: Lane, a: Call)
    requires IsOldest(Live(start.candidates, a.now), a.candidate, a.oldest)
    ensures Told(start, Next(start, a), a.now, a.candidate, a.interval, a.expiry, Reply(Judge(start, a)))
  {
    LiveMeansWaiting(start, a.now);
    match Judge(start, a)
    case Overflow =>
    case Admitted(_) => AdmittedIsTold(start, a);
    case Wait(_) => WaitIsTold(start, a);
  }

  lemma AdmittedIsTold(start: Lane, a: Call)
    requires IsOldest(Live(start.candidates, a.now), a.candidate, a.oldest) && Judge(start, a).Admitted?
    ensures ToldAdmitted(start, Next(start, a), a.now, a.candidate, a.interval, Reply(Judge(start, a)))
    ensures OthersUnmoved(start, Next(start, a), a.now, a.candidate)
  {
    LiveMeansWaiting(start, a.now);
  }

  lemma WaitIsTold(start: Lane, a: Call)
    requires IsOldest(Live(start.candidates, a.now), a.candidate, a.oldest) && Judge(start, a).Wait?
    ensures ToldToWait(start, Next(start, a), a.now, a.candidate, a.interval, a.expiry, Reply(Judge(start, a)))
    ensures OthersUnmoved(start, Next(start, a), a.now, a.candidate)
  {
    LiveMeansWaiting(start, a.now);
    if start.next <= a.now {
      assert a.oldest != a.candidate && Waiting(start, a.now, a.oldest);
    }
  }

  /** So the flags can be read off the lanes, both ways. */
  lemma AnswerMeans(
    start: Lane, lane: Lane, now: nat, candidate: string, interval: int, expiry: int, answer: Admission)
    requires Told(start, lane, now, candidate, interval, expiry, answer) && interval > 0
    ensures answer.overflow <==> !Waiting(start, now, candidate) && |AllWaiting(start, now)| >= 1024
    ensures answer.overflow ==> answer.admitted
    ensures answer.admitted && !answer.overflow <==>
            candidate !in lane.candidates && start.next <= now && lane.next == now + interval == answer.retryAt
    ensures !answer.admitted <==> candidate in lane.candidates
    ensures !answer.admitted ==> answer.retryAt > now && (start.next > now ==> answer.retryAt == start.next)
    ensures (&& !answer.overflow && start.next <= now
             && forall c :: c != candidate && Waiting(start, now, c) ==>
                  && Waiting(start, now, candidate)
                  && start.candidates[candidate].sequence < start.candidates[c].sequence) ==> answer.admitted
  {
  }
}
