/** Which archives retention keeps. */
module BackupRetention {
  import opened BackupDisk
  import opened Options
  import Sets

  /** Newest first, each once. */
  ghost predicate Descending(names: seq<Name>) {
    forall i, j :: 0 <= i < j < |names| ==> Newer(names[i], names[j])
  }

  /** `names` lists exactly the set `s`, newest first. */
  ghost predicate Lists(names: seq<Name>, s: set<Name>) {
    Descending(names) && (forall n :: n in names <==> n in s)
  }

  ghost predicate IsNewest(o: Name, s: set<Name>) {
    o in s && forall n :: n in s ==> n == o || Newer(o, n)
  }

  /** The newest, the pinned one, and the next newest if that makes fewer than two. */
  function Selection(names: seq<Name>, pin: Option<Name>): seq<Name> {
    var newest := if names == [] then [] else [names[0]];
    var pinned := if pin.Some? && pin.value !in newest then newest + [pin.value] else newest;
    Fill(names, pinned)
  }

  /** Append the names not yet chosen while fewer than two are. */
  function Fill(names: seq<Name>, chosen: seq<Name>): seq<Name>
    decreases |names|
  {
    if names == [] then chosen
    else if |chosen| < 2 && names[0] !in chosen then Fill(names[1..], chosen + [names[0]])
    else Fill(names[1..], chosen)
  }

  /** Pruning `before` came as far as `after`: what is kept stayed, the oldest went first, and
      nothing went unless two copies are kept. */
  ghost predicate PrunedTo(before: set<Name>, keep: seq<Name>, after: set<Name>) {
    && after <= before
    && (forall n :: n in keep && n in before ==> n in after)
    && (forall x, y :: x in before - after && y in after && y !in keep ==> Newer(y, x))
    && (after != before ==> |keep| == 2 && Distinct(keep))
  }

  /** Newest first, everything of `s` that is not kept. */
  ghost predicate IsExcess(excess: seq<Name>, s: set<Name>, keep: seq<Name>) {
    Descending(excess) && forall n :: n in excess <==> n in s && n !in keep
  }

  function Left(before: set<Name>, gone: seq<Name>): set<Name> {
    set n | n in before && n !in gone
  }

  /** Removing the excess from its end is pruning, however far it got. */
  lemma PartlyPruned(before: set<Name>, keep: seq<Name>, excess: seq<Name>, i: nat)
    requires IsExcess(excess, before, keep) && i <= |excess| && |keep| == 2 && Distinct(keep)
    ensures PrunedTo(before, keep, Left(before, excess[i..]))
    ensures i == |excess| ==> Left(before, excess[i..]) == before
  {
    var gone := excess[i..];
    forall x, y | x in before - Left(before, gone) && y in Left(before, gone) && y !in keep
      ensures Newer(y, x)
    {
      var a :| 0 <= a < |gone| && gone[a] == x;
      assert excess == excess[..i] + gone;
      var b :| 0 <= b < i && excess[b] == y;
      assert excess[i + a] == x;
    }
  }

  lemma LeftStep(before: set<Name>, keep: seq<Name>, excess: seq<Name>, i: nat)
    requires IsExcess(excess, before, keep) && i < |excess|
    ensures Left(before, excess[i..]) == Left(before, excess[i + 1..]) - {excess[i]}
    ensures excess[i] in Left(before, excess[i + 1..]) && excess[i] !in keep
  {
    assert excess[i..] == [excess[i]] + excess[i + 1..];
    assert excess[i] in excess;
    assert forall k :: i < k < |excess| ==> Newer(excess[i], excess[k]);
  }

  lemma AllPruned(before: set<Name>, keep: seq<Name>, excess: seq<Name>)
    requires IsExcess(excess, before, keep) && forall n :: n in keep ==> n in before
    ensures Left(before, excess[0..]) == set n | n in keep
  {
    assert excess[0..] == excess;
  }

  lemma {:induction false} FillKeepsChosen(names: seq<Name>, chosen: seq<Name>)
    ensures chosen <= Fill(names, chosen)
    ensures |chosen| <= 2 ==> |Fill(names, chosen)| <= 2
    ensures forall n :: n in Fill(names, chosen) ==> n in chosen || n in names
    ensures |chosen| >= 2 ==> Fill(names, chosen) == chosen
    ensures Distinct(chosen) ==> Distinct(Fill(names, chosen))
    decreases |names|
  {
    if names != [] {
      if |chosen| < 2 && names[0] !in chosen {
        FillKeepsChosen(names[1..], chosen + [names[0]]);
      } else {
        FillKeepsChosen(names[1..], chosen);
      }
    }
  }

  /** Dropping a name that is not chosen does not change the choice. */
  lemma {:induction false} FillIgnoresUnchosen(names: seq<Name>, chosen: seq<Name>, i: nat)
    requires i < |names| && names[i] !in Fill(names, chosen)
    ensures Fill(names[..i] + names[i + 1..], chosen) == Fill(names, chosen)
    decreases |names|
  {
    var rest := names[..i] + names[i + 1..];
    if i == 0 {
      assert rest == names[1..];
      if |chosen| < 2 && names[0] !in chosen {
        FillKeepsChosen(names[1..], chosen + [names[0]]);
      }
    } else {
      assert rest[1..] == names[1..][..i - 1] + names[1..][i..];
      var next := if |chosen| < 2 && names[0] !in chosen then chosen + [names[0]] else chosen;
      FillIgnoresUnchosen(names[1..], next, i - 1);
    }
  }

  lemma {:induction false} ListingIsUnique(a: seq<Name>, b: seq<Name>, s: set<Name>)
    requires Lists(a, s) && Lists(b, s)
    ensures a == b
    decreases |a|
  {
    assert (a != [] ==> a[0] in s) && (b != [] ==> b[0] in s);
    if a != [] && b != [] {
      assert a[0] in b && b[0] in a;
      assert a[0] == b[0];
      assert Lists(a[1..], s - {a[0]}) && Lists(b[1..], s - {a[0]});
      ListingIsUnique(a[1..], b[1..], s - {a[0]});
      assert a == [a[0]] + a[1..] && b == [b[0]] + b[1..];
    }
  }

  lemma OnlyListing(names: seq<Name>, s: set<Name>)
    requires Lists(names, s)
    ensures forall other :: Lists(other, s) ==> other == names
  {
    forall other | Lists(other, s)
      ensures other == names
    {
      ListingIsUnique(other, names, s);
    }
  }

  lemma ListingWithout(names: seq<Name>, s: set<Name>, i: nat)
    requires Lists(names, s) && i < |names|
    ensures Lists(names[..i] + names[i + 1..], s - {names[i]})
  {
    var rest := names[..i] + names[i + 1..];
    forall n | n in s - {names[i]}
      ensures n in rest
    {
      var k :| 0 <= k < |names| && names[k] == n;
      assert if k < i then rest[k] == n else rest[k - 1] == n;
    }
    forall n | n in rest
      ensures n in s - {names[i]}
    {
      var k :| 0 <= k < |rest| && rest[k] == n;
      assert n == if k < i then names[k] else names[k + 1];
    }
  }

  lemma FirstIsNewest(names: seq<Name>, s: set<Name>)
    requires Lists(names, s) && names != []
    ensures IsNewest(names[0], s)
  {
  }

  /** Removing an unselected archive never changes the selection. */
  lemma SelectionIgnoresUnselected(names: seq<Name>, s: set<Name>, x: Name, pin: Option<Name>)
    returns (after: seq<Name>)
    requires Lists(names, s) && x in s && x !in Selection(names, pin)
    ensures Lists(after, s - {x}) && Selection(after, pin) == Selection(names, pin)
  {
    var i :| 0 <= i < |names| && names[i] == x;
    after := names[..i] + names[i + 1..];
    ListingWithout(names, s, i);
    var newest := [names[0]];
    var pinned := if pin.Some? && pin.value !in newest then newest + [pin.value] else newest;
    FillKeepsChosen(names, pinned);
    assert names[0] == Fill(names, pinned)[0];
    assert after[0] == names[0];
    FillIgnoresUnchosen(names, pinned, i);
  }

  /** The selection holds the newest archive and the pin, and two distinct archives whenever
      there are two. */
  lemma SelectionHolds(names: seq<Name>, pin: Option<Name>)
    requires Descending(names) && (pin.Some? ==> pin.value in names)
    ensures forall n :: n in Selection(names, pin) ==> n in names
    ensures names != [] ==> names[0] in Selection(names, pin)
    ensures pin.Some? ==> pin.value in Selection(names, pin)
    ensures Distinct(Selection(names, pin))
    ensures |Selection(names, pin)| == if |names| < 2 then |names| else 2
  {
    var newest := if names == [] then [] else [names[0]];
    var pinned := if pin.Some? && pin.value !in newest then newest + [pin.value] else newest;
    FillKeepsChosen(names, pinned);
    var chosen := Fill(names, pinned);
    assert forall n :: n in pinned ==> n in chosen by {
      forall n | n in pinned
        ensures n in chosen
      {
        var k :| 0 <= k < |pinned| && pinned[k] == n;
        assert chosen[k] == n;
      }
    }
    if |names| >= 2 && |pinned| == 1 {
      assert Fill(names, pinned) == Fill(names[1..], pinned);
      assert names[1..][0] == names[1];
      assert Newer(names[0], names[1]);
      FillKeepsChosen(names[1..][1..], pinned + [names[1]]);
    } else if |names| == 1 {
      assert Fill(names, pinned) == Fill(names[1..], pinned) == pinned;
    }
  }

  /** What retention keeps, in so many words. */
  lemma SelectionIsExactly(names: seq<Name>, pin: Option<Name>)
    requires Descending(names) && (pin.Some? ==> pin.value in names)
    ensures Selection(names, pin) ==
            if names == [] then []
            else if pin.Some? && pin.value != names[0] then [names[0], pin.value]
            else if |names| == 1 then [names[0]] else [names[0], names[1]]
  {
    if names != [] {
      if pin.Some? && pin.value != names[0] {
        assert [names[0]] + [pin.value] == [names[0], pin.value];
        FillKeepsChosen(names, [names[0], pin.value]);
      } else {
        assert Fill(names, [names[0]]) == Fill(names[1..], [names[0]]);
        if |names| > 1 {
          assert names[1..][0] == names[1] && Newer(names[0], names[1]);
          assert [names[0]] + [names[1]] == [names[0], names[1]];
          assert Fill(names[1..], [names[0]]) == Fill(names[1..][1..], [names[0], names[1]]);
          FillKeepsChosen(names[1..][1..], [names[0], names[1]]);
        }
      }
    }
  }

  /** The first archive kept is the newest there is. */
  lemma SelectionHeads(d: Disk, names: seq<Name>, pin: Option<Name>)
    requires Lists(names, d.archives.Keys) && names != [] && (pin.Some? ==> pin.value in names)
    ensures Selection(names, pin) != [] && Heads(d, Selection(names, pin)[0])
  {
    SelectionIsExactly(names, pin);
    FirstIsNewest(names, d.archives.Keys);
  }

  /** Removing an unselected archive: the first kept heads the archives, and the selection stays. */
  lemma RemovalIsSafe(d: Disk, names: seq<Name>, keep: seq<Name>, x: Name, pin: Option<Name>)
    returns (after: seq<Name>)
    requires Lists(names, d.archives.Keys) && keep == Selection(names, pin) && x in d.archives && x !in keep
    requires pin.Some? ==> pin.value in d.archives
    ensures keep != [] && Heads(d, keep[0])
    ensures Lists(after, d.archives.Keys - {x}) && Selection(after, pin) == keep
  {
    SelectionHeads(d, names, pin);
    after := SelectionIgnoresUnselected(names, d.archives.Keys, x, pin);
  }

  /** An archive that is neither the newest nor pinned is kept if and only if it is the second
      newest and no older one is pinned: after a clock stepped back by more than two backups the
      new archive is pruned at once. */
  lemma KeptExactlyWhen(names: seq<Name>, pin: Option<Name>, k: nat)
    requires Descending(names) && (pin.Some? ==> pin.value in names) && k < |names|
    ensures names[k] in Selection(names, pin) <==>
            k == 0 || pin == Some(names[k]) || (k == 1 && (pin.None? || pin.value == names[0]))
  {
    SelectionIsExactly(names, pin);
    assert forall j :: 0 <= j < |names| && j != k ==> names[j] != names[k] by {
      forall j | 0 <= j < |names| && j != k
        ensures names[j] != names[k]
      {
        assert Newer(names[if j < k then j else k], names[if j < k then k else j]);
      }
    }
  }

  /** Two archives stamped 2 and 1, then a backup taken when the clock says 0. */
  lemma RolledBackClockPrunesTheNewBackup()
    ensures Lists([Name(2, 0), Name(1, 1), Name(0, 2)], {Name(0, 2), Name(1, 1), Name(2, 0)})
    ensures Name(0, 2) !in Selection([Name(2, 0), Name(1, 1), Name(0, 2)], None)
  {
    KeptExactlyWhen([Name(2, 0), Name(1, 1), Name(0, 2)], None, 2);
  }

  lemma {:induction false} MembersAreFew(names: seq<Name>)
    ensures |set n | n in names| <= |names|
  {
    if names != [] {
      MembersAreFew(names[1..]);
      assert (set n | n in names) == (set n | n in names[1..]) + {names[0]};
    }
  }

  lemma {:induction false} DistinctAreMany(names: seq<Name>)
    requires Distinct(names)
    ensures |set n | n in names| == |names|
  {
    if names != [] {
      DistinctAreMany(names[1..]);
      assert (set n | n in names) == (set n | n in names[1..]) + {names[0]};
    }
  }

  lemma ListedAreAsMany(names: seq<Name>, s: set<Name>)
    requires Lists(names, s)
    ensures |names| == |s|
  {
    DistinctAreMany(names);
    assert s == set n | n in names;
  }

  /** Something is left over exactly when there are more than two, and then two are kept. */
  lemma ExcessMeansMoreThanTwo(names: seq<Name>, s: set<Name>, pin: Option<Name>, excess: seq<Name>)
    requires Lists(names, s) && (pin.Some? ==> pin.value in names)
    requires IsExcess(excess, s, Selection(names, pin))
    ensures excess != [] <==> |s| > 2
    ensures excess != [] ==> |Selection(names, pin)| == 2
  {
    var keep := Selection(names, pin);
    var kept := set n | n in keep;
    SelectionHolds(names, pin);
    ListedAreAsMany(names, s);
    DistinctAreMany(keep);
    assert kept <= s;
    if excess != [] {
      assert excess[0] in excess;
      Sets.ProperSubsetIsSmaller(kept, s, excess[0]);
    } else {
      assert kept == s;
    }
  }

  /** Two kept archives with no marker about are two copies. */
  lemma KeptPairRemains(d: Disk, keep: seq<Name>)
    requires Accounted(d) && d.marker == None && |keep| == 2 && Distinct(keep)
    requires forall n :: n in keep ==> n in d.archives
    ensures |Copies(d)| >= 2
  {
    assert keep[0] in keep && keep[1] in keep;
    Sets.SubsetIsNoLarger({keep[0], keep[1]}, Copies(d));
  }
}
