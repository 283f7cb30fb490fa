/** The paced FIFO lane that background work waits in while quota is low. */
module AdmissionLane {
  import Sets

  const MAX_CANDIDATES := 1024
  const MAX_INTERVAL := 900_000
  const MAX_CANDIDATE_EXPIRY := 3 * MAX_INTERVAL
  const MAX_SEQUENCE := 9007199254740991
  const MAX_NAME := 128

  /** A waiting candidate's place; it lapses unless refreshed before its deadline. */
  datatype Entry = Entry(deadline: int, sequence: int)

  type Candidates = map<string, Entry>

  datatype Lane = Lane(candidates: Candidates, sequence: int, next: int)

  const NO_LANE := Lane(map[], 0, 0)

  datatype Verdict = Overflow | Admitted(until: int) | Wait(until: int)

  function Live(candidates: Candidates, now: nat): Candidates {
    map c | c in candidates && candidates[c].deadline > now :: candidates[c]
  }

  /** `oldest` has the smallest sequence of the live entries; with nobody waiting it is
      the caller. Equal sequences are told apart only by the order of the hash. */
  ghost predicate IsOldest(live: Candidates, caller: string, oldest: string) {
    if live == map[] then oldest == caller
    else oldest in live && forall c :: c in live ==> live[oldest].sequence <= live[c].sequence
  }

  /** One call: at `now`, `candidate` asks for a slot, offering to wait until `expiry`
      has passed; `oldest` is whoever the scan of the lane found to be first. */
  datatype Call = Call(now: nat, candidate: string, interval: int, expiry: int, oldest: string)

  function Judge(l: Lane, a: Call): Verdict {
    var live := Live(l.candidates, a.now);
    if a.candidate !in live && |live| >= MAX_CANDIDATES then Overflow
    else if l.next <= a.now && a.oldest == a.candidate then Admitted(a.now + a.interval)
    else Wait(if l.next <= a.now then a.now + a.interval else l.next)
  }

  function Next(l: Lane, a: Call): Lane {
    var live := Live(l.candidates, a.now);
    var place := if a.candidate in live then live[a.candidate].sequence else l.sequence + 1;
    var counter := if a.candidate in live then l.sequence else l.sequence + 1;
    match Judge(l, a)
    case Overflow => l.(candidates := live)
    case Admitted(until) => Lane(live - {a.candidate}, counter, until)
    case Wait(_) => Lane(live[a.candidate := Entry(a.now + a.expiry, place)], counter, l.next)
  }

  /** The lane with the caller's place taken or refreshed. */
  function Placed(l: Lane, a: Call): Lane {
    var live := Live(l.candidates, a.now);
    var held := a.candidate in live;
    var counter := l.sequence + if held then 0 else 1;
    Lane(live[a.candidate := Entry(a.now + a.expiry, if held then live[a.candidate].sequence else counter)],
         counter, l.next)
  }

  /** A call that finds room takes a place and, if admitted, gives it up for the slot. */
  lemma NextFromPlaced(l: Lane, a: Call)
    requires !Judge(l, a).Overflow?
    ensures var p := Placed(l, a);
            Next(l, a) == if l.next <= a.now && a.oldest == a.candidate
                          then p.(candidates := p.candidates - {a.candidate}, next := a.now + a.interval) else p
  {
    assert Placed(l, a).candidates - {a.candidate} == Live(l.candidates, a.now) - {a.candidate};
  }

  // ---------------------------------------------------------------- runs

  /** Sequences are handed out from the counter and the lane is bounded. */
  ghost predicate Valid(l: Lane) {
    && |l.candidates| <= MAX_CANDIDATES
    && forall c :: c in l.candidates ==> l.candidates[c].sequence <= l.sequence
  }

  /** Call `i` is a legal call on the lane it finds and leaves the next one. */
  ghost predicate IsCall(lanes: seq<Lane>, calls: seq<Call>, i: nat)
    requires i < |calls| < |lanes|
  {
    && calls[i].interval > 0
    && IsOldest(Live(lanes[i].candidates, calls[i].now), calls[i].candidate, calls[i].oldest)
    && lanes[i + 1] == Next(lanes[i], calls[i])
  }

  /** The calls made within one lifetime of the lane. */
  ghost predicate IsRun(lanes: seq<Lane>, calls: seq<Call>) {
    && |lanes| == |calls| + 1
    && Valid(lanes[0])
    && (forall i {:trigger IsCall(lanes, calls, i)} :: 0 <= i < |calls| ==> IsCall(lanes, calls, i))
    && (forall a, b :: 0 <= a <= b < |calls| ==> calls[a].now <= calls[b].now)
  }

  lemma LaneStaysBounded(l: Lane, a: Call)
    requires |l.candidates| <= MAX_CANDIDATES
    ensures |Next(l, a).candidates| <= MAX_CANDIDATES
  {
    var live := Live(l.candidates, a.now);
    Sets.SubsetIsNoLarger(live.Keys, l.candidates.Keys);
    match Judge(l, a)
    case Overflow =>
    case Admitted(_) => Sets.SubsetIsNoLarger((live - {a.candidate}).Keys, live.Keys);
    case Wait(_) => assert Next(l, a).candidates.Keys == live.Keys + {a.candidate};
  }

  lemma CallKeepsValid(l: Lane, a: Call)
    requires Valid(l)
    ensures Valid(Next(l, a))
  {
    LaneStaysBounded(l, a);
  }

  /** The lane never holds more than 1024 candidates. */
  lemma {:induction false} LaneStaysValid(lanes: seq<Lane>, calls: seq<Call>, n: nat)
    requires IsRun(lanes, calls) && n < |lanes|
    ensures Valid(lanes[n])
  {
    if n > 0 {
      LaneStaysValid(lanes, calls, n - 1);
      assert IsCall(lanes, calls, n - 1);
      CallKeepsValid(lanes[n - 1], calls[n - 1]);
    }
  }

  // ------------------------------------------------ pacing

  lemma {:induction false} SlotNeverMovesBack(lanes: seq<Lane>, calls: seq<Call>, i: nat, j: nat)
    requires IsRun(lanes, calls) && i <= j < |lanes|
    ensures lanes[i].next <= lanes[j].next
  {
    if i < j {
      SlotNeverMovesBack(lanes, calls, i, j - 1);
      assert IsCall(lanes, calls, j - 1);
    }
  }

  /** Two paced admissions are at least the interval granted to the first apart. */
  lemma AdmissionsAreSpaced(lanes: seq<Lane>, calls: seq<Call>, i: nat, j: nat)
    requires IsRun(lanes, calls) && i < j < |calls|
    requires Judge(lanes[i], calls[i]).Admitted? && Judge(lanes[j], calls[j]).Admitted?
    ensures calls[j].now >= calls[i].now + calls[i].interval
  {
    assert IsCall(lanes, calls, i);
    SlotNeverMovesBack(lanes, calls, i + 1, j);
  }

  /** A paced admission goes to a live candidate nobody live precedes; a newcomer is
      admitted only when nobody else waits. */
  lemma AdmissionIsFirstInLine(lanes: seq<Lane>, calls: seq<Call>, i: nat)
    requires IsRun(lanes, calls) && i < |calls| && Judge(lanes[i], calls[i]).Admitted?
    ensures var live := Live(lanes[i].candidates, calls[i].now);
            forall c :: c in live ==>
              calls[i].candidate in live && live[calls[i].candidate].sequence <= live[c].sequence
  {
    assert IsCall(lanes, calls, i);
  }

  // ------------------------------------------------ bounded waiting

  /** The other live candidates that are served before `c` or tie with it. */
  function Ahead(l: Lane, now: nat, c: string): set<string>
    requires c in l.candidates
  {
    set d | d in l.candidates && l.candidates[d].deadline > now && d != c &&
            l.candidates[d].sequence <= l.candidates[c].sequence
  }

  /** `c` is live at each of the calls i..j and is not the one admitted before j. */
  ghost predicate Waits(lanes: seq<Lane>, calls: seq<Call>, c: string, i: nat, j: nat)
    requires i <= j < |calls| < |lanes|
  {
    && (forall k :: i <= k <= j ==> c in Live(lanes[k].candidates, calls[k].now))
    && (forall k :: i <= k < j ==> !(Judge(lanes[k], calls[k]).Admitted? && calls[k].candidate == c))
  }

  /** Paced admissions granted by the calls i..j-1. */
  function Admissions(lanes: seq<Lane>, calls: seq<Call>, i: nat, j: nat): nat
    requires i <= j <= |calls| < |lanes|
  {
    if i == j then 0
    else Admissions(lanes, calls, i, j - 1) + (if Judge(lanes[j - 1], calls[j - 1]).Admitted? then 1 else 0)
  }

  lemma CallKeepsPlace(l: Lane, a: Call, c: string)
    requires c in Live(l.candidates, a.now) && c in Next(l, a).candidates
    ensures Next(l, a).candidates[c].sequence == l.candidates[c].sequence
  {
  }

  /** Nobody gets in front of a waiting candidate, and each admission takes one away. */
  lemma AheadShrinks(l: Lane, a: Call, c: string, later: nat)
    requires Valid(l) && IsOldest(Live(l.candidates, a.now), a.candidate, a.oldest) && a.now <= later
    requires c in Live(l.candidates, a.now) && c in Next(l, a).candidates
    requires !(Judge(l, a).Admitted? && a.candidate == c)
    ensures Ahead(Next(l, a), later, c) <= Ahead(l, a.now, c)
    ensures Judge(l, a).Admitted? ==> a.candidate in Ahead(l, a.now, c) - Ahead(Next(l, a), later, c)
  {
    CallKeepsPlace(l, a, c);
    forall d | d in Ahead(Next(l, a), later, c)
      ensures d in Ahead(l, a.now, c)
    {
      assert d == a.candidate ==> d in Live(l.candidates, a.now);
    }
  }

  lemma AheadCount(l: Lane, a: Call, c: string, later: nat)
    requires Valid(l) && IsOldest(Live(l.candidates, a.now), a.candidate, a.oldest) && a.now <= later
    requires c in Live(l.candidates, a.now) && c in Next(l, a).candidates
    requires !(Judge(l, a).Admitted? && a.candidate == c)
    ensures |Ahead(Next(l, a), later, c)| + (if Judge(l, a).Admitted? then 1 else 0) <= |Ahead(l, a.now, c)|
  {
    AheadShrinks(l, a, c, later);
    var before, after := Ahead(l, a.now, c), Ahead(Next(l, a), later, c);
    if Judge(l, a).Admitted? {
      Sets.ProperSubsetIsSmaller(after, before, a.candidate);
    } else {
      Sets.SubsetIsNoLarger(after, before);
    }
  }

  /** First in, first out with a bound: while `c` waits, the admissions granted and the
      candidates still ahead of it together never exceed those ahead when it began. */
  lemma {:induction false} WaitIsBounded(lanes: seq<Lane>, calls: seq<Call>, c: string, i: nat, j: nat)
    requires IsRun(lanes, calls) && i <= j < |calls| && Waits(lanes, calls, c, i, j)
    ensures Admissions(lanes, calls, i, j) + |Ahead(lanes[j], calls[j].now, c)| <= |Ahead(lanes[i], calls[i].now, c)|
  {
    if i < j {
      WaitIsBounded(lanes, calls, c, i, j - 1);
      WaitStep(lanes, calls, c, i, j);
    }
  }

  /** One more call of a wait. */
  lemma WaitStep(lanes: seq<Lane>, calls: seq<Call>, c: string, i: nat, j: nat)
    requires IsRun(lanes, calls) && i < j < |calls| && Waits(lanes, calls, c, i, j)
    ensures Admissions(lanes, calls, i, j) + |Ahead(lanes[j], calls[j].now, c)| <=
            Admissions(lanes, calls, i, j - 1) + |Ahead(lanes[j - 1], calls[j - 1].now, c)|
  {
    var l, a := lanes[j - 1], calls[j - 1];
    assert IsCall(lanes, calls, j - 1);
    LaneStaysValid(lanes, calls, j - 1);
    assert c in Live(l.candidates, a.now) && c in Live(lanes[j].candidates, calls[j].now);
    AheadCount(l, a, c, calls[j].now);
  }
}
