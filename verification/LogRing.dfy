/** The replay buffer of streamed session logs: a ring that forgets its oldest entries. */
module LogRing {
  import opened Options

  /** A stream identifier as its parser sees it; the empty one parses to zero. */
  datatype StreamId = Empty | Malformed | Numbered(id: int)

  datatype Log = Log(streamId: StreamId, text: string)

  function Parse(s: StreamId): Option<int> {
    match s
    case Empty => Some(0)
    case Malformed => None
    case Numbered(id) => Some(id)
  }

  /** The entries with an identifier above `want`, in order; entries without a number have none. */
  function After(logs: seq<Log>, want: int): seq<Log> {
    if logs == [] then []
    else
      var rest := After(logs[..|logs| - 1], want);
      var last := logs[|logs| - 1];
      if Parse(last.streamId).Some? && Parse(last.streamId).value > want then rest + [last] else rest
  }

  /** The entry's number is above `want`; the empty identifier counts as zero. */
  predicate Above(log: Log, want: int) {
    match log.streamId
    case Empty => 0 > want
    case Malformed => false
    case Numbered(id) => id > want
  }

  /** `picked` are positions of `logs`, in order, and `out` the entries there. */
  ghost predicate PickedFrom(logs: seq<Log>, picked: seq<nat>, out: seq<Log>) {
    && |picked| == |out|
    && (forall k :: 0 <= k < |picked| ==> picked[k] < |logs| && out[k] == logs[picked[k]])
    && (forall k, m :: 0 <= k < m < |picked| ==> picked[k] < picked[m])
  }

  ghost predicate PicksAbove(logs: seq<Log>, want: int, picked: seq<nat>) {
    forall i: nat :: i in picked <==> i < |logs| && Above(logs[i], want)
  }

  lemma PickMore(logs: seq<Log>, last: Log, want: int, picked: seq<nat>, out: seq<Log>)
    requires PickedFrom(logs, picked, out)
    ensures PickedFrom(logs + [last], picked, out)
    ensures PickedFrom(logs + [last], picked + [|logs|], out + [last])
  {
  }

  lemma PickAbove(logs: seq<Log>, last: Log, want: int, picked: seq<nat>)
    requires PicksAbove(logs, want, picked)
    ensures PicksAbove(logs + [last], want, if Above(last, want) then picked + [|logs|] else picked)
  {
    var more := if Above(last, want) then picked + [|logs|] else picked;
    forall i: nat
      ensures i in more <==> i < |logs| + 1 && Above((logs + [last])[i], want)
    {
      assert i in more <==> i in picked || (i == |logs| && Above(last, want));
    }
  }

  /** The entries returned are those of the log itself, in order and unchanged, at exactly the
      positions whose number is above the identifier. */
  lemma {:induction false} AfterPicksExactlyTheLater(logs: seq<Log>, want: int) returns (picked: seq<nat>)
    ensures PickedFrom(logs, picked, After(logs, want))
    ensures forall i: nat :: i in picked <==> i < |logs| && Above(logs[i], want)
  {
    if logs == [] {
      picked := [];
    } else {
      var front, last := logs[..|logs| - 1], logs[|logs| - 1];
      picked := AfterPicksExactlyTheLater(front, want);
      assert logs == front + [last];
      PickMore(front, last, want, picked, After(front, want));
      PickAbove(front, last, want, picked);
      picked := if Above(last, want) then picked + [|front|] else picked;
      assert PicksAbove(logs, want, picked);
    }
  }

  /** Identifiers never fall; entries that carry no number are not compared. */
  ghost predicate Ordered(logs: seq<Log>) {
    forall i, j :: 0 <= i < j < |logs| && Parse(logs[i].streamId).Some? && Parse(logs[j].streamId).Some? ==>
      Parse(logs[i].streamId).value <= Parse(logs[j].streamId).value
  }

  ghost predicate AllParse(logs: seq<Log>) {
    forall log :: log in logs ==> Parse(log.streamId).Some?
  }

  /** What a ring of `capacity` still holds of everything ever added. */
  function Window(history: seq<Log>, capacity: nat): seq<Log> {
    if |history| <= capacity then history else history[|history| - capacity..]
  }

  /** The exact condition under which a replay is granted. */
  ghost predicate Granted(history: seq<Log>, capacity: nat, since: StreamId) {
    var kept := Window(history, capacity);
    || since.Empty?
    || (Parse(since).Some? && kept == [])
    || (&& Parse(since).Some?
        && kept != []
        && AllParse(kept)
        && (|history| < capacity || Parse(since).value >= Parse(kept[0].streamId).value))
  }

  /** In terms of the history: no identifier, or a number with nothing retained, or a number with every
      retained entry parsable and either room left or the oldest one not above the number. */
  lemma GrantedMeans(history: seq<Log>, capacity: nat, since: StreamId)
    ensures var from := if |history| > capacity then |history| - capacity else 0;
            Granted(history, capacity, since) <==>
              || since.Empty?
              || (&& since.Numbered?
                  && (|| from == |history|
                      || (&& (forall k :: from <= k < |history| ==> !history[k].streamId.Malformed?)
                          && (|history| < capacity || !Above(history[from], since.id)))))
  {
    var from := if |history| > capacity then |history| - capacity else 0;
    var kept := Window(history, capacity);
    assert kept == history[from..];
    if AllParse(kept) {
      forall k | from <= k < |history|
        ensures !history[k].streamId.Malformed?
      {
        assert kept[k - from] in kept;
      }
    }
  }

  lemma {:induction false} AfterSplits(a: seq<Log>, b: seq<Log>, want: int)
    ensures After(a + b, want) == After(a, want) + After(b, want)
  {
    if b == [] {
      assert a + b == a;
    } else {
      var front := b[..|b| - 1];
      assert (a + b)[..|a + b| - 1] == a + front;
      AfterSplits(a, front, want);
    }
  }

  lemma {:induction false} NoneAfter(logs: seq<Log>, want: int)
    requires forall log :: log in logs && Parse(log.streamId).Some? ==> Parse(log.streamId).value <= want
    ensures After(logs, want) == []
  {
    if logs != [] {
      NoneAfter(logs[..|logs| - 1], want);
    }
  }

  lemma {:induction false} SomeAfter(logs: seq<Log>, want: int, k: nat)
    requires k < |logs| && Parse(logs[k].streamId).Some? && Parse(logs[k].streamId).value > want
    ensures After(logs, want) != []
  {
    if k < |logs| - 1 {
      SomeAfter(logs[..|logs| - 1], want, k);
    }
  }

  /** Nothing before an entry at or below the identifier is above it. */
  lemma EvictedAreOlder(history: seq<Log>, cut: nat, want: int)
    requires Ordered(history) && cut < |history|
    requires Parse(history[cut].streamId).Some? && Parse(history[cut].streamId).value <= want
    ensures After(history[..cut], want) == []
  {
    forall log | log in history[..cut] && Parse(log.streamId).Some?
      ensures Parse(log.streamId).value <= want
    {
      var i :| 0 <= i < cut && history[i] == log;
    }
    NoneAfter(history[..cut], want);
  }

  /** A granted replay misses nothing: the retained entries above the identifier are all the
      entries ever added above it, evicted ones included. */
  lemma GrantedReplayIsComplete(history: seq<Log>, capacity: nat, since: StreamId)
    requires capacity > 0 && Ordered(history) && !since.Empty? && Granted(history, capacity, since)
    ensures After(Window(history, capacity), Parse(since).value) == After(history, Parse(since).value)
  {
    var want := Parse(since).value;
    if |history| > capacity {
      var cut := |history| - capacity;
      var gone := history[..cut];
      var kept := Window(history, capacity);
      assert kept[0] == history[cut];
      assert kept[0] in kept;
      EvictedAreOlder(history, cut, want);
      assert history == gone + kept;
      AfterSplits(gone, kept, want);
    }
  }

  /** A ring of size zero grants every replay and returns nothing, so it is complete exactly
      when nothing above the identifier was ever added. */
  lemma ReplayIsCompleteExactlyWhen(history: seq<Log>, capacity: nat, since: StreamId)
    requires Ordered(history) && !since.Empty? && Granted(history, capacity, since)
    ensures After(Window(history, capacity), Parse(since).value) == After(history, Parse(since).value) <==>
              capacity > 0 || forall log :: log in history && Parse(log.streamId).Some? ==>
                Parse(log.streamId).value <= Parse(since).value
  {
    var want := Parse(since).value;
    if capacity > 0 {
      GrantedReplayIsComplete(history, capacity, since);
    } else if k: nat :| k < |history| && Parse(history[k].streamId).Some? && Parse(history[k].streamId).value > want {
      SomeAfter(history, want, k);
    } else {
      NoneAfter(history, want);
    }
  }

  /** The entry a ring of size zero loses. */
  lemma EmptyRingLosesEntries()
    ensures
      var history := [Log(Numbered(1), "")];
      && Ordered(history)
      && Granted(history, 0, Numbered(0))
      && After(Window(history, 0), 0) == [] && After(history, 0) == history
  {
    var history := [Log(Numbered(1), "")];
    assert After(history[..0], 0) == [];
  }

  /** The slots, oldest first. */
  function Slots(items: seq<Log>, next: nat, full: bool): seq<Log>
    requires next <= |items|
  {
    if full then items[next..] + items[..next] else items[..next]
  }

  /** The slots hold the latest entries of the history. */
  ghost predicate Holds(items: seq<Log>, next: nat, full: bool, history: seq<Log>) {
    && (|items| == 0 ==> next == 0 && !full)
    && (|items| > 0 ==>
          && next < |items|
          && (full <==> |history| >= |items|)
          && (!full ==> next == |history|)
          && Slots(items, next, full) == Window(history, |items|))
  }

  lemma WrapsAround(next: nat, size: nat)
    requires next < size
    ensures (next + 1) % size == if next + 1 == size then 0 else next + 1
  {
  }

  lemma WriteHolds(items: seq<Log>, next: nat, full: bool, history: seq<Log>, item: Log)
    requires Holds(items, next, full, history)
    ensures |items| == 0 ==> Holds(items, next, full, history + [item])
    ensures |items| > 0 ==>
              var after := (next + 1) % |items|;
              Holds(items[next := item], after, full || after == 0, history + [item])
  {
    if |items| > 0 {
      WrapsAround(next, |items|);
      var after := (next + 1) % |items|;
      var kept := Slots(items, next, full);
      if full {
        assert Slots(items[next := item], after, true) == kept[1..] + [item];
        assert kept[1..] + [item] == Window(history + [item], |items|);
      } else {
        assert Slots(items[next := item], after, after == 0) == kept + [item];
      }
    }
  }

  /** The filtering loop of `since`: one entry without a number refuses the whole replay. */
  method EntriesAfter(ordered: seq<Log>, want: int) returns (out: seq<Log>, ok: bool)
    ensures ok == AllParse(ordered)
    ensures out == if ok then After(ordered, want) else []
  {
    out, ok := [], true;
    for i := 0 to |ordered|
      invariant AllParse(ordered[..i])
      invariant out == After(ordered[..i], want)
    {
      var item := Parse(ordered[i].streamId);
      assert ordered[i] in ordered;
      if item.None? {
        return [], false;
      }
      assert ordered[..i + 1][..i] == ordered[..i];
      if item.value > want {
        out := out + [ordered[i]];
      }
    }
    assert ordered[..|ordered|] == ordered;
  }

  class Ring {
    const items: array<Log>
    var full: bool
    var next: nat
    ghost var history: seq<Log>

    ghost predicate Valid()
      reads this, items
    {
      Holds(items[..], next, full, history)
    }

    constructor (size: nat)
      ensures Valid() && fresh(items) && items.Length == size && history == []
    {
      items := new Log[size](_ => Log(Empty, ""));
      full, next, history := false, 0, [];
    }

    method Add(item: Log)
      requires Valid()
      modifies this, items
      ensures Valid() && history == old(history) + [item]
    {
      WriteHolds(items[..], next, full, history, item);
      history := history + [item];
      if items.Length == 0 {
        return;
      }
      items[next] := item;
      next := (next + 1) % items.Length;
      if next == 0 {
        full := true;
      }
    }

    method Snapshot() returns (ordered: seq<Log>)
      requires Valid()
      ensures ordered == Window(history, items.Length)
      ensures |ordered| == if |history| < items.Length then |history| else items.Length
      ensures ordered == history[|history| - |ordered|..]
    {
      if items.Length == 0 {
        return [];
      }
      if !full {
        return items[..next];
      }
      ordered := items[next..] + items[..next];
    }

    /** A refused replay yields nothing; a granted one, every retained entry above the identifier. */
    method Since(streamId: StreamId) returns (out: seq<Log>, ok: bool)
      requires Valid()
      ensures ok == Granted(history, items.Length, streamId)
      ensures !ok || streamId.Empty? ==> out == []
      ensures ok && !streamId.Empty? ==> out == After(Window(history, items.Length), Parse(streamId).value)
      ensures ok && !streamId.Empty? && items.Length > 0 && Ordered(history) ==>
                out == After(history, Parse(streamId).value)
    {
      if streamId.Empty? {
        return [], true;
      }
      if Parse(streamId).None? {
        return [], false;
      }
      var want := Parse(streamId).value;
      var ordered := Snapshot();
      if |ordered| == 0 {
        return [], true;
      }
      var oldest := Parse(ordered[0].streamId);
      assert ordered[0] in ordered;
      if oldest.None? || (full && want < oldest.value) {
        return [], false;
      }
      out, ok := EntriesAfter(ordered, want);
      if ok && Ordered(history) {
        GrantedReplayIsComplete(history, items.Length, streamId);
      }
    }
  }
}
