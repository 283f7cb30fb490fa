/** The families scripts as they run against the hashes. */
module QuotaStore {
  import opened Quota
  import opened AdmissionAnswer
  import L = AdmissionLane
  import opened Options
  import Sets

  class QuotaHashes {
    var windows: map<int, int>
    var overflow: Summary
    var legacy: Scalar
    /** When the families hash expires; only meaningful while it holds something. */
    var retainedUntil: int
    /** The isolated lane, and the one older binaries keep beside the scalar. */
    var migrated: bool
    var lane: L.Lane
    var legacyLane: L.Lane

    ghost function View(): Families
      reads this
    {
      Families(windows, overflow)
    }

    constructor ()
      ensures View() == NO_FAMILIES && legacy == Scalar(0, 0, -1)
      ensures !migrated && lane == L.NO_LANE && legacyLane == L.NO_LANE
    {
      migrated, lane, legacyLane := false, L.NO_LANE, L.NO_LANE;
      windows, overflow, legacy, retainedUntil := map[], NoSummary, Scalar(0, 0, -1), 0;
    }

    static function Max(a: int, b: int): int {
      if a > b then a else b
    }

    /** The part of the table already visited that stays. */
    static function Unexpired(windows: map<int, int>, ahead: set<int>, now: nat): map<int, int> {
      map r | r in windows && r !in ahead && r > now && windows[r] >= 0 :: windows[r]
    }

    static lemma VisitOne(windows: map<int, int>, ahead: set<int>, reset: int, now: nat)
      requires reset in windows && reset !in ahead
      ensures Unexpired(windows, ahead, now) ==
              if reset <= now || windows[reset] < 0 then Unexpired(windows, ahead + {reset}, now)
              else Unexpired(windows, ahead + {reset}, now)[reset := windows[reset]]
    {
    }

    static lemma VisitedAll(f: Families, now: nat)
      ensures Unexpired(f.windows, {}, now) == Purge(f, now).windows
    {
    }

    /** Walk the hash's entries, in whatever order they come. */
    static method ScanWindows(f: Families, now: nat, lowest0: Lowest, latest0: int)
      returns (families: map<int, int>, lowest: Lowest, latest: int)
      requires IsLowest(f.(windows := map[]), lowest0) && IsLatest(f.(windows := map[]), latest0)
      ensures families == Purge(f, now).windows
      ensures IsLowest(Families(families, f.overflow), lowest) && IsLatest(Families(families, f.overflow), latest)
    {
      families, lowest, latest := map[], lowest0, latest0;
      var entries := f.windows.Keys;
      while entries != {}
        invariant entries <= f.windows.Keys
        invariant families == Unexpired(f.windows, entries, now)
        invariant IsLowest(Families(families, f.overflow), lowest)
        invariant IsLatest(Families(families, f.overflow), latest)
      {
        ghost var _ := Sets.Element(entries);
        var reset :| reset in entries;
        var remaining := f.windows[reset];
        entries := entries - {reset};
        VisitOne(f.windows, entries, reset, now);
        if !(reset <= now || remaining < 0) {
          LowestAfterUpdate(Families(families, f.overflow), lowest, reset, remaining);
          families := families[reset := remaining];
          latest := Max(latest, reset);
          lowest := Min(lowest, remaining);
        }
      }
      VisitedAll(f, now);
    }

    /** Delete what has passed and read off the least remaining and the last reset. */
    method PurgeExpired(now: nat) returns (lowest: Lowest, latest: int)
      modifies this`windows, this`overflow
      ensures View() == Purge(old(View()), now)
      ensures IsLowest(View(), lowest) && IsLatest(View(), latest)
      // Exactly what is still ahead stays, unchanged.
      ensures forall r :: r in windows <==> r in old(windows) && r > now && old(windows)[r] >= 0
      ensures forall r :: r in windows ==> windows[r] == old(windows)[r]
      ensures overflow.Summary? <==>
                old(overflow).Summary? && old(overflow).reset > now && old(overflow).remaining >= 0
      ensures overflow.Summary? ==> overflow == old(overflow)
    {
      lowest, latest := Unknown, 0;
      if overflow.Summary? && (overflow.reset <= now || overflow.remaining < 0) {
        overflow := NoSummary;
      }
      if overflow.Summary? {
        lowest, latest := Known(overflow.remaining), overflow.reset;
      }
      windows, lowest, latest := ScanWindows(Families(windows, overflow), now, lowest, latest);
    }

    method MergeFamily(now: nat, reset: int, remaining: int, lowest: Lowest, latest: int)
      returns (applied: bool, lowest': Lowest, latest': int)
      requires Current(View(), now) && IsLowest(View(), lowest) && IsLatest(View(), latest)
      modifies this`windows, this`overflow
      ensures View() == Merge(old(View()), now, reset, remaining)
      ensures applied == old(MergeApplies(View(), now, reset, remaining))
      ensures Current(View(), now) && IsLowest(View(), lowest') && IsLatest(View(), latest')
      // A report counts if its reset lies within the next two hours and it does not raise a window.
      ensures applied <==>
                && now < reset <= now + 7_200_000 && remaining >= 0
                && (reset in old(windows) ==> remaining <= old(windows)[reset])
      ensures !applied ==> View() == old(View())
      ensures applied && (reset in old(windows) || |old(windows)| < 16) ==>
                windows == old(windows)[reset := remaining] && overflow == old(overflow)
      ensures applied && reset !in old(windows) && |old(windows)| >= 16 ==>
                && windows == old(windows) && overflow.Summary?
                && (old(overflow).NoSummary? ==> overflow == Summary(reset, remaining))
                && (old(overflow).Summary? ==>
                      && overflow.reset == Max(old(overflow).reset, reset)
                      && overflow.remaining == (if remaining < old(overflow).remaining then remaining
                                                else old(overflow).remaining))
    {
      lowest', latest' := lowest, latest;
      if reset <= now || reset > now + MAX_RESET_AGE || remaining < 0 {
        return false, lowest', latest';
      }
      if reset in windows {
        if remaining > windows[reset] {
          return false, lowest', latest';
        }
      } else if |windows| >= MAX_FAMILIES {
        lowest', latest' := FoldFamily(now, reset, remaining, lowest, latest);
        return true, lowest', latest';
      }
      LowestAfterUpdate(View(), lowest, reset, remaining);
      windows := windows[reset := remaining];
      latest' := Max(latest, reset);
      lowest' := Min(lowest, remaining);
      return true, lowest', latest';
    }

    /** The table is full: the summary takes the later reset and the lower remaining quota. */
    method FoldFamily(now: nat, reset: int, remaining: int, lowest: Lowest, latest: int)
      returns (lowest': Lowest, latest': int)
      requires Current(View(), now) && IsLowest(View(), lowest) && IsLatest(View(), latest)
      requires reset > now && remaining >= 0
      modifies this`overflow
      ensures overflow == Fold(old(overflow), reset, remaining) && overflow.Summary?
      ensures old(overflow).NoSummary? ==> overflow == Summary(reset, remaining)
      ensures old(overflow).Summary? ==>
                && overflow.reset == Max(old(overflow).reset, reset)
                && overflow.remaining == (if remaining < old(overflow).remaining then remaining
                                          else old(overflow).remaining)
      ensures Current(View(), now) && IsLowest(View(), lowest') && IsLatest(View(), latest')
    {
      overflow := Fold(overflow, reset, remaining);
      latest' := Max(latest, overflow.reset);
      lowest' := Min(lowest, overflow.remaining);
    }

    method LoadFamilies(now: nat) returns (lowest: Lowest, latest: int)
      modifies this`windows, this`overflow
      ensures View() == Load(old(View()), now, legacy)
      ensures Current(View(), now) && IsLowest(View(), lowest) && IsLatest(View(), latest)
      // A live scalar with a limit lowers the reading; any other is ignored.
      ensures legacy.limit > 0 && 0 <= legacy.remaining <= legacy.limit && now < legacy.reset <= now + 7_200_000 ==>
                lowest.Known? && lowest.remaining <= legacy.remaining
      ensures !(legacy.limit > 0 && 0 <= legacy.remaining <= legacy.limit && now < legacy.reset <= now + 7_200_000) ==>
                View() == Purge(old(View()), now)
    {
      lowest, latest := PurgeExpired(now);
      PurgeIsCurrent(old(View()), now);
      if legacy.limit > 0 && legacy.remaining <= legacy.limit {
        var _, l, t := MergeFamily(now, legacy.reset, legacy.remaining, lowest, latest);
        lowest, latest := l, t;
        if now < legacy.reset <= now + MAX_RESET_AGE && legacy.remaining >= 0 {
          ReadingBounds(View(), lowest, legacy.reset, legacy.remaining);
        }
      }
    }

    /** Keep the families exactly until the last reset they hold. */
    method RetainFamilies(now: nat, latest: int)
      requires Current(View(), now) && IsLatest(View(), latest)
      modifies this`windows, this`overflow, this`retainedUntil, this`migrated, this`lane
      ensures View() == old(View())
      ensures View() != NO_FAMILIES ==> retainedUntil == latest > now && migrated == old(migrated) && lane == old(lane)
      ensures View() == NO_FAMILIES ==> !migrated && lane == L.NO_LANE
    {
      if latest > now {
        retainedUntil := latest;
      } else {
        assert forall r :: r in windows ==> r > now;
        assert windows == map[];
        windows, overflow, retainedUntil := map[], NoSummary, 0;
        migrated, lane := false, L.NO_LANE;
      }
    }

    /** An observation: invalid headers never reach the script. */
    method ObserveQuota(now: nat, reset: int, limit: int, remaining: int) returns (applied: bool)
      modifies this
      ensures !ValidObservation(now, reset, limit, remaining) ==>
                !applied && View() == old(View()) && legacy == old(legacy)
      ensures ValidObservation(now, reset, limit, remaining) ==>
                && View() == Merge(Load(old(View()), now, old(legacy)), now, reset, remaining)
                && applied == MergeApplies(Load(old(View()), now, old(legacy)), now, reset, remaining)
                && legacy == (if ReplacesScalar(old(legacy), now, reset, remaining)
                              then Scalar(reset, limit, remaining) else old(legacy))
                && View() != NO_FAMILIES && IsLatest(View(), retainedUntil)
      ensures ValidObservation(now, reset, limit, remaining) <==>
                limit > 0 && 0 <= remaining <= limit && now < reset <= now + 7_200_000
      ensures limit > 0 && 0 <= remaining <= limit && now < reset <= now + 7_200_000 ==>
                legacy ==
                  if old(legacy).reset <= now || (old(legacy).reset == reset && remaining <= old(legacy).remaining)
                  then Scalar(reset, limit, remaining) else old(legacy)
      // The hash is kept exactly until the last reset in it.
      ensures limit > 0 && 0 <= remaining <= limit && now < reset <= now + 7_200_000 ==>
                && (forall r :: r in windows ==> now < r <= retainedUntil)
                && (overflow.Summary? ==> now < overflow.reset <= retainedUntil)
                && (retainedUntil in windows || (overflow.Summary? && overflow.reset == retainedUntil))
      ensures migrated == old(migrated) && lane == old(lane) && legacyLane == old(legacyLane)
    {
      if limit <= 0 || remaining < 0 || remaining > limit || reset <= now || reset - now > MAX_RESET_AGE {
        return false;
      }
      var lowest, latest := LoadFamilies(now);
      applied, lowest, latest := MergeFamily(now, reset, remaining, lowest, latest);
      assert reset in View().windows || View().overflow.Summary?;
      KeepScalar(now, reset, limit, remaining);
      RetainFamilies(now, latest);
    }

    /** The scalar older binaries read follows a live report unless it is itself live and the report
        is of another window or higher. */
    method KeepScalar(now: nat, reset: int, limit: int, remaining: int)
      modifies this`legacy
      ensures legacy == if ReplacesScalar(old(legacy), now, reset, remaining)
                        then Scalar(reset, limit, remaining) else old(legacy)
      ensures reset > now ==>
                legacy ==
                  if old(legacy).reset <= now || (old(legacy).reset == reset && remaining <= old(legacy).remaining)
                  then Scalar(reset, limit, remaining) else old(legacy)
    {
      if reset > now && !(reset < legacy.reset || (reset > legacy.reset && legacy.reset > now) ||
                          (reset == legacy.reset && remaining > legacy.remaining)) {
        legacy := Scalar(reset, limit, remaining);
      }
    }

    /** A legacy place worth keeping: well formed, live and within the bounds new places obey. */
    static predicate Importable(name: string, e: L.Entry, now: nat) {
      && 0 < |name| <= L.MAX_NAME
      && now < e.deadline <= now + L.MAX_CANDIDATE_EXPIRY
      && 0 < e.sequence < L.MAX_SEQUENCE
    }

    /** `l` holds legacy places only, all of them unless the bound cut the import short. */
    static ghost predicate Imports(legacy: L.Lane, now: nat, l: L.Lane) {
      && L.Valid(l)
      && (forall c :: c in l.candidates ==>
            c in legacy.candidates && l.candidates[c] == legacy.candidates[c] && Importable(c, l.candidates[c], now))
      && (|l.candidates| < L.MAX_CANDIDATES ==>
            forall c :: c in legacy.candidates && Importable(c, legacy.candidates[c], now) ==> c in l.candidates)
      && l.next == (if now < legacy.next <= now + L.MAX_INTERVAL then legacy.next else 0)
    }

    static lemma HighestAfter(kept: L.Candidates, highest: int, name: string, e: L.Entry)
      requires if kept == map[] then highest == 0 else exists c :: c in kept && kept[c].sequence == highest
      requires name !in kept && e.sequence > 0
      ensures var more := kept[name := e]; exists c :: c in more && more[c].sequence == Max(highest, e.sequence)
    {
      var more := kept[name := e];
      if e.sequence >= highest {
        assert more[name].sequence == e.sequence;
      } else {
        var c :| c in kept && kept[c].sequence == highest;
        assert c in more && more[c].sequence == highest;
      }
    }

    /** One-time migration of the older binaries' lane. */
    static method ImportLane(legacy: L.Lane, now: nat) returns (l: L.Lane)
      ensures Imports(legacy, now, l)
      // A place is imported with a name of up to 128 characters, a deadline within 45 minutes and a
      // sequence below 2^53 - 1; at most 1024 are, and all of them if there are fewer.
      ensures |l.candidates| <= 1024
      ensures forall c :: c in l.candidates ==>
                && c in legacy.candidates && l.candidates[c] == legacy.candidates[c] && 0 < |c| <= 128
                && now < l.candidates[c].deadline <= now + 2_700_000
                && 0 < l.candidates[c].sequence < 9_007_199_254_740_991
      ensures |l.candidates| < 1024 ==>
                forall c :: (c in legacy.candidates && 0 < |c| <= 128 &&
                             now < legacy.candidates[c].deadline <= now + 2_700_000 &&
                             0 < legacy.candidates[c].sequence < 9_007_199_254_740_991) ==> c in l.candidates
      // The counter is the highest imported sequence and a slot taken for up to 15 minutes stays taken.
      ensures forall c :: c in l.candidates ==> l.candidates[c].sequence <= l.sequence
      ensures if l.candidates == map[] then l.sequence == 0
              else exists c :: c in l.candidates && l.candidates[c].sequence == l.sequence
      ensures l.next == if now < legacy.next <= now + 900_000 then legacy.next else 0
    {
      var kept, highest := ImportPlaces(legacy.candidates, now);
      l := L.Lane(kept, highest, if now < legacy.next <= now + L.MAX_INTERVAL then legacy.next else 0);
      ImportsMean(legacy, now, kept, highest, l);
    }

    /** `kept` holds the importable places outside `names`, all of them unless the bound cut them short. */
    static ghost predicate Kept(
      places: L.Candidates, now: nat, names: set<string>, kept: L.Candidates, highest: int)
    {
      && |kept| <= L.MAX_CANDIDATES && names <= places.Keys && kept.Keys !! names
      && (forall c :: c in kept ==>
            && c in places && kept[c] == places[c]
            && Importable(c, kept[c], now) && kept[c].sequence <= highest)
      && (|kept| < L.MAX_CANDIDATES ==>
            forall c :: c in places && c !in names && Importable(c, places[c], now) ==> c in kept)
    }

    static lemma KeepOne(places: L.Candidates, now: nat, names: set<string>, kept: L.Candidates, highest: int,
                         name: string)
      requires Kept(places, now, names, kept, highest) && name in names
      ensures if Importable(name, places[name], now) && |kept| < L.MAX_CANDIDATES
              then Kept(places, now, names - {name}, kept[name := places[name]], Max(highest, places[name].sequence))
              else Kept(places, now, names - {name}, kept, highest)
    {
      assert kept[name := places[name]].Keys == kept.Keys + {name};
    }

    static method ImportPlaces(places: L.Candidates, now: nat) returns (kept: L.Candidates, highest: int)
      ensures Kept(places, now, {}, kept, highest)
      ensures if kept == map[] then highest == 0 else exists c :: c in kept && kept[c].sequence == highest
    {
      kept, highest := map[], 0;
      var names := places.Keys;
      while names != {}
        invariant Kept(places, now, names, kept, highest)
        invariant if kept == map[] then highest == 0 else exists c :: c in kept && kept[c].sequence == highest
      {
        ghost var _ := Sets.Element(names);
        var name :| name in names;
        KeepOne(places, now, names, kept, highest, name);
        names := names - {name};
        var e := places[name];
        if Importable(name, e, now) && |kept| < L.MAX_CANDIDATES {
          HighestAfter(kept, highest, name, e);
          kept := kept[name := e];
          highest := Max(highest, e.sequence);
        }
      }
    }

    static lemma ImportsMean(legacy: L.Lane, now: nat, kept: L.Candidates, highest: int, l: L.Lane)
      requires Kept(legacy.candidates, now, {}, kept, highest)
      requires l == L.Lane(kept, highest, if now < legacy.next <= now + L.MAX_INTERVAL then legacy.next else 0)
      ensures Imports(legacy, now, l)
      ensures forall c :: c in l.candidates ==>
                && c in legacy.candidates && l.candidates[c] == legacy.candidates[c] && 0 < |c| <= 128
                && now < l.candidates[c].deadline <= now + 2_700_000
                && 0 < l.candidates[c].sequence < 9_007_199_254_740_991
    {
    }

    /** Drop lapsed candidates and find whoever is first. */
    static method ScanLane(candidates: L.Candidates, now: nat, caller: string)
      returns (live: L.Candidates, oldest: string)
      ensures live == L.Live(candidates, now)
      ensures L.IsOldest(live, caller, oldest)
    {
      live, oldest := map[], caller;
      var names := candidates.Keys;
      while names != {}
        invariant names <= candidates.Keys
        invariant live == map c | c in candidates && c !in names && candidates[c].deadline > now :: candidates[c]
        invariant L.IsOldest(live, caller, oldest)
      {
        ghost var _ := Sets.Element(names);
        var name :| name in names;
        names := names - {name};
        var e := candidates[name];
        if e.deadline > now {
          if live == map[] || e.sequence < live[oldest].sequence {
            oldest := name;
          }
          live := live[name := e];
          assert name in live;
        }
      }
    }

    /** Healthy or unknown quota: the lane and its legacy twin are obsolete. */
    method ResetLane(now: nat, latest: int)
      requires Current(View(), now) && IsLatest(View(), latest)
      modifies this`windows, this`overflow, this`retainedUntil, this`migrated, this`lane, this`legacyLane
      ensures View() == old(View())
      ensures lane == legacyLane == L.NO_LANE
      ensures migrated <==> View() != NO_FAMILIES
    {
      lane, legacyLane := L.NO_LANE, L.NO_LANE;
      migrated := latest > now;
      RetainFamilies(now, latest);
    }

    /** A background request. With low quota it joins the lane, which this call finds
        migrated or imports first; `start` is the lane it was judged against. */
    method AdmitBackground(now: nat, reserve: int, candidate: string, interval: int, expiry: int)
      returns (answer: Admission, ghost lowest: Lowest, ghost start: L.Lane, ghost call: L.Call)
      modifies this
      ensures View() == Load(old(View()), now, old(legacy)) && legacy == old(legacy)
      ensures IsLowest(View(), lowest)
      ensures answer.known == lowest.Known? && answer.low == (lowest.Known? && lowest.remaining <= reserve)
      ensures !answer.low ==>
                && answer.admitted && !answer.overflow && answer.retryAt == 0
                && lane == legacyLane == L.NO_LANE && (migrated <==> answer.known)
      ensures answer.low ==>
                && (if old(migrated) then start == old(lane) else Imports(old(legacyLane), now, start))
                && call == L.Call(now, candidate, interval, expiry, call.oldest)
                && L.IsOldest(L.Live(start.candidates, now), candidate, call.oldest)
                && lane == L.Next(start, call) && migrated && legacyLane == old(legacyLane)
                && answer == Reply(L.Judge(start, call))
      ensures answer.known <==> windows != map[] || overflow.Summary?
      ensures answer.low <==>
                (exists r :: r in windows && windows[r] <= reserve) ||
                (overflow.Summary? && overflow.remaining <= reserve)
      // What the caller is told follows from the lane it finds and the lane it leaves.
      ensures answer.low ==> Told(start, lane, now, candidate, interval, expiry, answer)
      ensures answer.low && interval > 0 ==>
                && (answer.overflow <==> !Waiting(start, now, candidate) && |AllWaiting(start, now)| >= 1024)
                && (answer.admitted && !answer.overflow <==>
                    candidate !in lane.candidates && start.next <= now && lane.next == now + interval == answer.retryAt)
                && (!answer.admitted <==> candidate in lane.candidates)
                && (!answer.admitted ==> answer.retryAt > now && (start.next > now ==> answer.retryAt == start.next))
    {
      start, call := L.NO_LANE, L.Call(now, candidate, interval, expiry, candidate);
      var least, latest := LoadFamilies(now);
      lowest := least;
      if least.Unknown? || least.remaining > reserve {
        ResetLane(now, latest);
        return Admission(least.Known?, false, true, false, 0), lowest, start, call;
      }
      MigrateLane(now);
      RetainFamilies(now, latest);
      start := lane;
      answer, call := JoinLane(now, candidate, interval, expiry);
      if interval > 0 {
        AnswerMeans(start, lane, now, candidate, interval, expiry, answer);
      }
    }

    /** Import the older binaries' lane, once. */
    method MigrateLane(now: nat)
      modifies this`migrated, this`lane
      ensures migrated
      ensures if old(migrated) then lane == old(lane) else Imports(legacyLane, now, lane)
    {
      if !migrated {
        migrated := true;
        lane := ImportLane(legacyLane, now);
      }
    }

    /** Find whoever is first in the lane and take a place in it. */
    method JoinLane(now: nat, candidate: string, interval: int, expiry: int)
      returns (answer: Admission, ghost call: L.Call)
      modifies this`lane
      ensures call == L.Call(now, candidate, interval, expiry, call.oldest)
      ensures L.IsOldest(L.Live(old(lane).candidates, now), candidate, call.oldest)
      ensures lane == L.Next(old(lane), call) && answer == Reply(L.Judge(old(lane), call))
      ensures Told(old(lane), lane, now, candidate, interval, expiry, answer)
    {
      var live, oldest := ScanLane(lane.candidates, now, candidate);
      call := L.Call(now, candidate, interval, expiry, oldest);
      answer := Place(now, candidate, interval, expiry, live, oldest);
    }

    /** The slot is never taken for longer than the longest interval, 15 minutes. */
    static ghost predicate SlotIsNear(migrated: bool, l: L.Lane, now: nat) {
      migrated ==> l.next <= now + 900_000
    }

    /** The client's call: without a reserve nothing is asked, and malformed requests never reach the
        script. A caller told to wait keeps a place that outlives the time it is told to come back. */
    method RequestBackground(now: nat, candidate: string, reserve: int, interval: int)
      returns (answer: Option<Admission>)
      modifies this
      ensures answer.None? <==>
                reserve > 0 && (candidate == "" || |candidate| > 128 || interval < 1000 || interval > 900_000)
      ensures answer.None? || reserve <= 0 ==>
                && View() == old(View()) && legacy == old(legacy) && migrated == old(migrated)
                && lane == old(lane) && legacyLane == old(legacyLane)
      ensures reserve <= 0 ==> answer == Some(Admission(false, false, true, false, 0))
      ensures answer.Some? && answer.value.low && old(migrated) ==>
                Told(old(lane), lane, now, candidate, interval, Max(3 * interval, 1_800_000), answer.value)
      ensures SlotIsNear(old(migrated), old(lane), now) ==> SlotIsNear(migrated, lane, now)
      ensures SlotIsNear(old(migrated), old(lane), now) && answer.Some? && !answer.value.admitted ==>
                && now < answer.value.retryAt <= now + 900_000
                && Waiting(lane, answer.value.retryAt, candidate)
    {
      if reserve <= 0 {
        return Some(Admission(false, false, true, false, 0));
      }
      if candidate == "" || |candidate| > L.MAX_NAME || interval < 1000 || interval > L.MAX_INTERVAL {
        return None;
      }
      var given, _, start, _ := AdmitBackground(now, reserve, candidate, interval, Max(3 * interval, 1_800_000));
      answer := Some(given);
    }

    /** Take a place, and the slot if it is free and the caller is first. */
    method Place(now: nat, candidate: string, interval: int, expiry: int, live: L.Candidates, oldest: string)
      returns (answer: Admission)
      requires live == L.Live(lane.candidates, now) && L.IsOldest(live, candidate, oldest)
      modifies this`lane
      ensures var call := L.Call(now, candidate, interval, expiry, oldest);
              && lane == L.Next(old(lane), call)
              && answer == Reply(L.Judge(old(lane), call))
      ensures answer.known && answer.low
      // What the caller is told follows from the lane it finds and the lane it leaves.
      ensures Told(old(lane), lane, now, candidate, interval, expiry, answer)
    {
      ghost var call := L.Call(now, candidate, interval, expiry, oldest);
      ReplyTells(lane, call);
      var full := TakePlace(now, candidate, expiry, live, call);
      if full {
        return Admission(true, true, true, true, 0);
      }
      L.NextFromPlaced(old(lane), call);
      if lane.next <= now && oldest == candidate {
        lane := lane.(candidates := lane.candidates - {candidate}, next := now + interval);
        return Admission(true, true, true, false, now + interval);
      }
      return Admission(true, true, false, false, if lane.next <= now then now + interval else lane.next);
    }

    /** Enter the lane, or refresh the place already held, unless the lane is full. */
    method TakePlace(now: nat, candidate: string, expiry: int, live: L.Candidates, ghost call: L.Call)
      returns (full: bool)
      requires call.now == now && call.candidate == candidate && call.expiry == expiry
      requires live == L.Live(lane.candidates, now)
      modifies this`lane
      ensures full <==> candidate !in live && |live| >= L.MAX_CANDIDATES
      ensures full ==> lane == old(lane).(candidates := live)
      ensures !full ==> lane == L.Placed(old(lane), call)
    {
      lane := lane.(candidates := live);
      var sequence;
      if candidate in live {
        sequence := live[candidate].sequence;
      } else {
        if |live| >= L.MAX_CANDIDATES {
          return true;
        }
        sequence := lane.sequence + 1;
        lane := lane.(sequence := sequence);
      }
      lane := lane.(candidates := lane.candidates[candidate := L.Entry(now + expiry, sequence)]);
      return false;
    }
  }
}
