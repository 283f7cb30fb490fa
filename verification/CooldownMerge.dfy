/** Restoring a lost or rolled-back record: every controller offers the state it
    retained, in whatever order the controllers happen to arrive. */
module CooldownMerge {
  import opened Cooldown
  import opened CooldownRuns

  /** A retained state offered at time `now`. */
  datatype Offer = Offer(now: nat, local: Record)

  function ReconcileAll(r: Record, offers: seq<Offer>): Record
    decreases |offers|
  {
    if offers == [] then r
    else ReconcileAll(Reconcile(r, offers[0].now, offers[0].local), offers[1..])
  }

  /** Every offer comes from a real episode whose deadline is still ahead. */
  predicate Retained(offers: seq<Offer>) {
    forall o :: o in offers ==> o.local.generation >= 1 && o.local.blocked > o.now
  }

  /** `f` has the highest generation and the highest deadline among `r` and the offers,
      and the attribution of one that had this deadline. */
  ghost predicate IsJoin(r: Record, offers: seq<Offer>, f: Record) {
    && r.generation <= f.generation && r.blocked <= f.blocked
    && (forall o :: o in offers ==> o.local.generation <= f.generation && o.local.blocked <= f.blocked)
    && (f.generation == r.generation || exists o :: o in offers && o.local.generation == f.generation)
    && (|| (f.blocked == r.blocked && f.attribution == r.attribution)
        || exists o :: o in offers && o.local.blocked == f.blocked && o.local.attribution == f.attribution)
  }

  lemma OneOfferJoins(r: Record, o: Offer)
    requires Coherent(r) && !Tombstone(r) && Retained([o])
    ensures var m := Reconcile(r, o.now, o.local);
            Coherent(m) && !Tombstone(m) && IsJoin(r, [o], m)
  {
    assert o in [o];
  }

  lemma JoinExtends(r: Record, m: Record, offers: seq<Offer>, f: Record)
    requires offers != [] && IsJoin(r, [offers[0]], m) && IsJoin(m, offers[1..], f)
    ensures IsJoin(r, offers, f)
  {
    forall o | o in offers
      ensures o.local.generation <= f.generation && o.local.blocked <= f.blocked
    {
      assert o == offers[0] || o in offers[1..];
      assert offers[0] in [offers[0]];
    }
  }

  /** From any record that is not a tombstone, in every order. */
  lemma {:induction false} LiveRecordJoins(r: Record, offers: seq<Offer>)
    requires Coherent(r) && !Tombstone(r) && Retained(offers)
    ensures Coherent(ReconcileAll(r, offers))
    ensures IsJoin(r, offers, ReconcileAll(r, offers))
    decreases |offers|
  {
    if offers != [] {
      var m := Reconcile(r, offers[0].now, offers[0].local);
      OneOfferJoins(r, offers[0]);
      LiveRecordJoins(m, offers[1..]);
      JoinExtends(r, m, offers, ReconcileAll(r, offers));
    }
  }

  // ------------------------------------------------ tombstones

  /** An offer from a generation the record has already closed. */
  predicate Closed(r: Record, o: Offer) {
    o.local.generation <= r.generation
  }

  /** Each closed offer is outlasted by one from a newer generation. */
  predicate Outlasted(r: Record, offers: seq<Offer>) {
    forall o :: o in offers && Closed(r, o) ==>
      exists h :: h in offers && !Closed(r, h) && h.local.blocked >= o.local.blocked
  }

  /** A tombstone ignores every offer of a generation it closed. */
  lemma {:induction false} TombstoneIgnoresClosed(r: Record, offers: seq<Offer>)
    requires Tombstone(r) && forall o :: o in offers ==> Closed(r, o)
    ensures ReconcileAll(r, offers) == r
    decreases |offers|
  {
    if offers != [] {
      assert offers[0] in offers;
      TombstoneIgnoresClosed(r, offers[1..]);
    }
  }

  lemma {:induction false} OutlastedTombstoneJoins(r: Record, offers: seq<Offer>)
    requires Coherent(r) && Tombstone(r) && Retained(offers) && Outlasted(r, offers)
    ensures IsJoin(r, offers, ReconcileAll(r, offers))
    decreases |offers|
  {
    if offers != [] {
      var o, rest := offers[0], offers[1..];
      assert forall x :: x in offers <==> x == o || x in rest;
      var m := Reconcile(r, o.now, o.local);
      if Closed(r, o) {
        OutlastedTombstoneJoins(r, rest);
        var h :| h in offers && !Closed(r, h) && h.local.blocked >= o.local.blocked;
        assert h in rest;
      } else {
        StepKeepsCoherent(r, ReconcileStep(o.now, o.local));
        LiveRecordJoins(m, rest);
        assert o in [o];
        JoinExtends(r, m, offers, ReconcileAll(r, offers));
      }
    }
  }

  function Select(offers: seq<Offer>, r: Record, closed: bool): seq<Offer> {
    if offers == [] then []
    else (if Closed(r, offers[0]) == closed then [offers[0]] else []) + Select(offers[1..], r, closed)
  }

  lemma {:induction false} SelectMembers(offers: seq<Offer>, r: Record, closed: bool)
    ensures forall o :: o in Select(offers, r, closed) <==> o in offers && Closed(r, o) == closed
  {
    if offers != [] {
      SelectMembers(offers[1..], r, closed);
    }
  }

  lemma {:induction false} SelectPermutes(offers: seq<Offer>, r: Record)
    ensures multiset(Select(offers, r, true) + Select(offers, r, false)) == multiset(offers)
  {
    if offers != [] {
      SelectPermutes(offers[1..], r);
      assert offers == [offers[0]] + offers[1..];
    }
  }

  lemma {:induction false} ReconcileAllAppend(r: Record, a: seq<Offer>, b: seq<Offer>)
    ensures ReconcileAll(r, a + b) == ReconcileAll(ReconcileAll(r, a), b)
    decreases |a|
  {
    if a == [] {
      assert a + b == b;
    } else {
      assert (a + b)[1..] == a[1..] + b;
      ReconcileAllAppend(Reconcile(r, a[0].now, a[0].local), a[1..], b);
    }
  }

  lemma {:induction false} DeadlineComesFromAnOffer(r: Record, offers: seq<Offer>)
    requires Coherent(r)
    ensures Coherent(ReconcileAll(r, offers))
    ensures ReconcileAll(r, offers).blocked == r.blocked ||
            exists o :: o in offers && o.local.blocked == ReconcileAll(r, offers).blocked
    decreases |offers|
  {
    if offers != [] {
      StepKeepsCoherent(r, ReconcileStep(offers[0].now, offers[0].local));
      DeadlineComesFromAnOffer(Reconcile(r, offers[0].now, offers[0].local), offers[1..]);
      assert offers[0] in offers;
    }
  }

  /** Closed offers first, newer ones after: a closed offer nobody outlasts is lost. */
  lemma UnoutlastedTombstoneLoses(r: Record, offers: seq<Offer>) returns (order: seq<Offer>)
    requires Coherent(r) && Tombstone(r) && Retained(offers) && !Outlasted(r, offers)
    ensures multiset(order) == multiset(offers)
    ensures !IsJoin(r, order, ReconcileAll(r, order))
  {
    var closed, newer := Select(offers, r, true), Select(offers, r, false);
    SelectMembers(offers, r, true);
    SelectMembers(offers, r, false);
    SelectPermutes(offers, r);
    order := closed + newer;
    ReconcileAllAppend(r, closed, newer);
    TombstoneIgnoresClosed(r, closed);
    DeadlineComesFromAnOffer(r, newer);
    var lost :| lost in offers && Closed(r, lost) &&
      forall h :: h in offers && !Closed(r, h) ==> h.local.blocked < lost.local.blocked;
    assert lost in order;
  }

  /** Reconciling converges to the join in every order exactly when the record is not a
      tombstone, or is one whose closed offers are all outlasted by newer ones. */
  lemma ConvergesInEveryOrder(r: Record, offers: seq<Offer>)
    requires Coherent(r) && Retained(offers)
    ensures (forall order | multiset(order) == multiset(offers) :: IsJoin(r, order, ReconcileAll(r, order)))
            <==> (Tombstone(r) ==> Outlasted(r, offers))
  {
    if Tombstone(r) && !Outlasted(r, offers) {
      var order := UnoutlastedTombstoneLoses(r, offers);
    } else {
      forall order | multiset(order) == multiset(offers)
        ensures IsJoin(r, order, ReconcileAll(r, order))
      {
        assert forall o :: o in order <==> o in multiset(order);
        assert forall o :: o in offers <==> o in multiset(offers);
        assert forall o :: o in order <==> o in offers;
        if Tombstone(r) {
          OutlastedTombstoneJoins(r, order);
        } else {
          LiveRecordJoins(r, order);
        }
      }
    }
  }

  /** So two orders of the same offers agree on generation and deadline. */
  lemma OrderDoesNotMatter(r: Record, a: seq<Offer>, b: seq<Offer>)
    requires Coherent(r) && Retained(a) && multiset(a) == multiset(b)
    requires Tombstone(r) ==> Outlasted(r, a)
    ensures ReconcileAll(r, a).generation == ReconcileAll(r, b).generation
    ensures ReconcileAll(r, a).blocked == ReconcileAll(r, b).blocked
  {
    ConvergesInEveryOrder(r, a);
    assert IsJoin(r, a, ReconcileAll(r, a)) && IsJoin(r, b, ReconcileAll(r, b));
    assert forall o :: o in a <==> o in multiset(a);
    assert forall o :: o in b <==> o in multiset(b);
    assert forall o :: o in a <==> o in b;
  }
}
