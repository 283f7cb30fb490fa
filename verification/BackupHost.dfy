/** The backup commands, one durable write at a time. A host may crash before any write, a
    guard may refuse or fail at any point, and clocks and sizes are whatever the environment
    makes them. */
module BackupHost {
  import opened BackupDisk
  import opened Options
  import opened BackupRetention
  import Sets

  datatype Status = Done | Refused | Crashed {
    predicate IsFailure() {
      !Done?
    }

    function PropagateFailure(): Status
      requires IsFailure()
    {
      this
    }
  }

  /** The receipt that carries a marker's evidence. */
  function ReceiptOf(m: Marker, measured: int, integrity: Integrity): Receipt
    requires m.Uploading?
  {
    Receipt(m.file, m.identity, m.sha, measured, m.key, integrity, m.timeline)
  }

  /** The trail with what pruning has removed so far, and what it kept. */
  ghost function PrunedTrail(t: Trail, d: Disk, d': Disk, kept: seq<Name>): Trail {
    t.(pruned := t.pruned + (d.archives.Keys - d'.archives.Keys), kept := kept)
  }

  lemma NothingPruned(t: Trail, d: Disk)
    ensures PrunedTrail(t, d, d, t.kept) == t
  {
  }

  lemma PrunedTrailStep(t: Trail, d: Disk, d': Disk, d'': Disk, k: seq<Name>, k': seq<Name>)
    requires d''.archives.Keys <= d'.archives.Keys <= d.archives.Keys
    ensures PrunedTrail(PrunedTrail(t, d, d', k), d', d'', k') == PrunedTrail(t, d, d'', k')
  {
    var a, b, c := d.archives.Keys, d'.archives.Keys, d''.archives.Keys;
    assert t.pruned + (a - b) + (b - c) == t.pruned + (a - c);
  }

  /** The archive or a newer one is there. */
  ghost predicate Outlived(d: Disk, n: Name) {
    exists o :: o in d.archives && (o == n || Newer(o, n))
  }

  /** A dump that was not there before completed, and became an archive that is there, or that
      retention removed for a newer one. */
  ghost predicate TookBackup(before: Trail, d: Disk, t: Trail) {
    exists n :: n in t.dumped && n !in before.dumped && (n in d.archives || n in t.pruned) && Outlived(d, n)
  }

  /** For each archive that was there, it or a newer one is. */
  ghost predicate AllOutlived(d: Disk, d': Disk) {
    forall n :: n in d.archives ==> Outlived(d', n)
  }

  lemma PreservedAreOutlived(d: Disk, d': Disk)
    requires Extends(d.archives, d'.archives)
    ensures AllOutlived(d, d')
  {
  }

  lemma NewestOutlivesAll(d: Disk, d': Disk, names: seq<Name>)
    requires Lists(names, d.archives.Keys) && (names != [] ==> names[0] in d'.archives)
    ensures AllOutlived(d, d')
  {
    if names != [] {
      FirstIsNewest(names, d.archives.Keys);
    }
  }

  lemma KeysWithout(d: Disk, x: Name)
    ensures (d.archives - {x}).Keys == d.archives.Keys - {x}
  {
  }

  lemma OutlivedAgain(d: Disk, d': Disk, d'': Disk)
    requires AllOutlived(d, d') && AllOutlived(d', d'')
    ensures AllOutlived(d, d'')
  {
    forall n | n in d.archives
      ensures Outlived(d'', n)
    {
      assert Outlived(d', n);
      var o :| o in d'.archives && (o == n || Newer(o, n));
      assert Outlived(d'', o);
      var p :| p in d''.archives && (p == o || Newer(p, o));
      assert p == n || Newer(p, n);
    }
  }

  class Host {
    var disk: Disk
    /** uuids handed out so far; a new one is never among them. */
    var issued: set<Id>
    ghost var trail: Trail
    /** How often the environment refused, failed or crashed something. */
    ghost var faults: nat

    ghost predicate Ok()
      reads this`disk, this`trail, this`issued
    {
      Valid(disk, trail, issued)
    }

    constructor ()
      ensures Ok() && disk == EMPTY_DISK && trail == NO_TRAIL && faults == 0
    {
      disk, issued, trail, faults := EMPTY_DISK, {}, NO_TRAIL, 0;
    }

    /** Something outside the host's control goes well, or counts as a fault. */
    method Attempt() returns (ok: bool)
      modifies this`faults
      ensures faults == old(faults) + if ok then 0 else 1
    {
      if * {
        return true;
      }
      faults := faults + 1;
      return false;
    }

    /** One atomic durable write: it happens, or the host crashes before it. Every write has
        to leave a valid disk, because the next crash may come right after it. */
    method Commit(next: Disk, ghost nextTrail: Trail) returns (s: Status)
      requires Valid(next, nextTrail, issued) && Continues(trail, nextTrail)
      modifies this`disk, this`trail, this`faults
      ensures s.Done? ==> disk == next && trail == nextTrail && faults == old(faults)
      ensures !s.Done? ==> s.Crashed? && disk == old(disk) && trail == old(trail) && faults > old(faults)
    {
      var up := Attempt();
      if !up {
        return Crashed;
      }
      disk, trail := next, nextTrail;
      return Done;
    }

    /** The size of the database, which is positive. */
    method DatabaseBytes() returns (s: Status, measured: int)
      modifies this`faults
      ensures s.Done? ==> measured > 0
      ensures if s.Done? then faults == old(faults) else faults > old(faults)
    {
      var ok := Attempt();
      if !ok {
        return Refused, 0;
      }
      measured :| measured > 0;
      return Done, measured;
    }

    method FreshId() returns (id: Id)
      requires Ok()
      modifies this`issued
      ensures Ok() && id !in old(issued) && issued == old(issued) + {id}
    {
      ghost var _ := Sets.Unused(issued);
      id :| id !in issued;
      issued := issued + {id};
    }

    // ------------------------------------------------ uploading

    /** Make the receipt durable, and only then clear the marker. */
    method PublishReceipt(r: Receipt) returns (s: Status)
      requires Ok() && disk.marker.Some? && disk.marker.value.Uploading?
      requires r == ReceiptOf(disk.marker.value, r.databaseBytes, r.integrity)
      requires disk.marker.value.databaseBytes.Some? ==> disk.marker.value.databaseBytes.value == r.databaseBytes
      modifies this`disk, this`trail, this`faults
      ensures Ok() && trail == old(trail)
      ensures var published := old(disk).(receipts := old(disk).receipts[r.file := r]);
              if s.Done? then disk == published.(marker := None)
              else s.Crashed? && (disk == old(disk) || disk == published)
      ensures faults >= old(faults) && (faults == old(faults) ==> s.Done?)
    {
      PublishKeepsValid(disk, trail, issued, r);
      :- Commit(disk.(receipts := disk.receipts[r.file := r]), trail);
      ClearKeepsValid(disk, trail, issued);
      :- Commit(disk.(marker := None), trail);
      return Done;
    }

    /** Upload the archive the marker names under the marker's key, then publish its receipt. */
    method UploadArchive(measured: int) returns (s: Status)
      requires Ok() && disk.marker.Some? && disk.marker.value.Uploading?
      requires disk.marker.value.databaseBytes == Some(measured)
      requires disk.marker.value.file !in disk.receipts && disk.marker.value.key !in trail.attempts
      requires KeyIssued(disk.marker.value.key, issued)
      modifies this`disk, this`trail, this`faults
      ensures Ok() && Transfers(old(disk), old(trail), disk, trail, old(disk.marker).value.file)
      ensures s.Done? ==>
                && disk.marker == None && old(disk.marker).value.file in disk.receipts
                && trail.attempts == old(trail).attempts + [old(disk.marker).value.key]
                && disk.receipts[old(disk.marker).value.file] ==
                   ReceiptOf(old(disk.marker).value, measured, ChecksumUpload)
      ensures faults >= old(faults) && (faults == old(faults) ==> s.Done?)
      ensures trail.dumped == old(trail).dumped
    {
      var m := disk.marker.value;
      var ok := Attempt();
      if !ok {
        return Refused;  // an object already has this key, or the listing failed
      }
      AttemptKeepsValid(disk, trail, issued, m.key);
      trail := trail.(attempts := trail.attempts + [m.key]);
      ok := Attempt();
      if !ok {
        return Refused;  // the upload failed or its outcome is uncertain
      }
      var r := ReceiptOf(m, measured, ChecksumUpload);
      s := PublishReceipt(r);
    }

    /** Publish a verified partial under its final name: link, then unlink. */
    method Publish(partial: Partial) returns (s: Status)
      requires Ok() && disk.marker.Some? && disk.marker.value.Verifying? && disk.marker.value.partial == partial
      requires partial in disk.partials && partial.file !in disk.archives
      modifies this`disk, this`trail, this`faults
      ensures Ok() && Transfers(old(disk), old(trail), disk, trail, partial.file)
      ensures disk.marker == old(disk.marker) && trail == old(trail)
      ensures s.Done? ==>
                && partial.file in disk.archives && disk.partials == map[]
                && disk.archives[partial.file].content == old(disk).partials[partial].content
      ensures !s.Done? ==> s.Crashed? && (disk == old(disk) || Stranded(disk))
      ensures faults >= old(faults) && (faults == old(faults) ==> s.Done?)
    {
      s := Link(partial);
      if !s.Done? {
        return;
      }
      s := Unlink(partial);
    }

    method Link(partial: Partial) returns (s: Status)
      requires Ok() && disk.marker.Some? && disk.marker.value.Verifying? && disk.marker.value.partial == partial
      requires partial in disk.partials && partial.file !in disk.archives
      modifies this`disk, this`trail, this`faults
      ensures Ok() && trail == old(trail)
      ensures if s.Done? then faults == old(faults) else s.Crashed? && disk == old(disk) && faults > old(faults)
      ensures s.Done? ==>
                && partial.file in disk.archives
                && disk.archives[partial.file].content == old(disk).partials[partial].content
                && disk == old(disk).(archives := old(disk).archives[partial.file := disk.archives[partial.file]])
                && Transfers(old(disk), old(trail), disk, trail, partial.file)
    {
      var changed: int := *;
      var published := disk.partials[partial].(changed := changed);
      LinkKeepsValid(disk, trail, issued, published);
      :- Commit(disk.(archives := disk.archives[partial.file := published]), trail);
      return Done;
    }

    method Unlink(partial: Partial) returns (s: Status)
      requires Ok() && Stranded(disk) && disk.marker.value.partial == partial
      modifies this`disk, this`trail, this`faults
      ensures Ok() && trail == old(trail)
      ensures if s.Done? then disk == old(disk).(partials := map[]) && faults == old(faults)
              else s.Crashed? && disk == old(disk) && faults > old(faults)
    {
      var without := disk.partials - {partial};
      assert without == map[];
      PartialKeepsValid(disk, trail, issued, without);
      :- Commit(disk.(partials := without), trail);
      return Done;
    }

    /** Replace the verification marker by the first upload marker, which fixes the checksum. */
    method StartUpload(app: Id, timeline: Timeline, measured: int, sha: Digest) returns (s: Status)
      requires Ok() && disk.marker.Some? && disk.marker.value.Verifying? && disk.partials == map[]
      requires disk.marker.value.file in disk.archives && sha == disk.archives[disk.marker.value.file].content
      requires timeline.dumpStarted == disk.marker.value.started && Verified(timeline) && app in issued && measured > 0
      requires disk.marker.value.databaseBytes.Some? ==> disk.marker.value.databaseBytes.value == measured
      modifies this`disk, this`trail, this`faults
      ensures Ok() && Transfers(old(disk), old(trail), disk, trail, old(disk.marker).value.file)
      ensures s.Done? ==>
                && disk == old(disk).(marker := disk.marker)
                && disk.marker.Some? && disk.marker.value.Uploading?
                && disk.marker.value.file == old(disk.marker).value.file
                && disk.marker.value.dumpApp == old(disk.marker).value.app && disk.marker.value.app == app
                && disk.marker.value.sha == sha && disk.marker.value.databaseBytes == Some(measured)
                && disk.marker.value.file !in disk.receipts
                && disk.marker.value.key !in trail.attempts && KeyIssued(disk.marker.value.key, issued)
      ensures faults >= old(faults) && (faults == old(faults) ==> s.Done?)
      ensures trail.dumped == old(trail).dumped
    {
      var m := disk.marker.value;
      var upload := Uploading(m.file, app, m.app, m.started, timeline, Some(measured),
                              disk.archives[m.file], sha, Original(m.file));
      SealKeepsValid(disk, trail, issued, upload, measured);
      assert m.file in trail.sizes ==> trail.sizes[m.file := measured] == trail.sizes;
      :- Commit(disk.(marker := Some(upload)),
                trail.(seals := trail.seals[m.file := sha], sizes := trail.sizes[m.file := measured]));
      return Done;
    }

    /** From a completed dump to a receipt. */
    method FinishArchive(measured: int) returns (s: Status)
      requires Ok() && disk.marker.Some? && disk.marker.value.Verifying?
      requires disk.marker.value.databaseBytes == Some(measured)
      modifies this`disk, this`trail, this`faults
      ensures Ok() && Transfers(old(disk), old(trail), disk, trail, old(disk.marker).value.file)
      ensures s.Done? ==> disk.marker == None && old(disk.marker).value.file in disk.archives
      ensures faults >= old(faults)
      ensures (&& faults == old(faults) && old(disk.marker).value.partial in old(disk).partials
               && old(disk.marker).value.file !in old(disk).archives) ==> s.Done?
    {
      var m := disk.marker.value;
      if m.partial !in disk.partials || m.file in disk.archives {
        return Refused;  // the publication target changed
      }
      var ok := Attempt();
      if !ok {
        return Refused;  // the structural check failed
      }
      var at: int := *;
      var timeline := m.timeline.(structuralVerified := Some(at));
      s := Restamp(Verifying(m.file, m.partial, m.app, m.started, timeline, m.databaseBytes));
      if !s.Done? {
        return;
      }
      if disk.partials[m.partial].bytes == 0 {
        faults := faults + 1;
        return Refused;  // the dump is empty
      }
      at := *;
      var sha := disk.partials[m.partial].content;
      s := PublishAndUpload(m.app, m.partial, timeline.(localSha := Some(at)), measured, sha);
    }

    /** Record how far the verification has come. */
    method Restamp(named: Marker) returns (s: Status)
      requires Ok() && disk.marker.Some? && disk.marker.value.Verifying? && named.Verifying?
      requires named.file == disk.marker.value.file && named.partial == disk.marker.value.partial
      requires named.app == disk.marker.value.app && named.databaseBytes == disk.marker.value.databaseBytes
      requires named.started == disk.marker.value.started == named.timeline.dumpStarted
      requires named.timeline.dumpCompleted.Some?
      modifies this`disk, this`trail, this`faults
      ensures Ok() && trail == old(trail)
      ensures disk == if s.Done? then old(disk).(marker := Some(named)) else old(disk)
      ensures Transfers(old(disk), old(trail), disk, trail, named.file)
      ensures faults >= old(faults) && (faults == old(faults) ==> s.Done?)
    {
      RestampKeepsValid(disk, trail, issued, named);
      :- Commit(disk.(marker := Some(named)), trail);
      return Done;
    }

    method PublishAndUpload(app: Id, partial: Partial, timeline: Timeline, measured: int, sha: Digest)
      returns (s: Status)
      requires Ok() && disk.marker.Some? && disk.marker.value.Verifying? && disk.marker.value.partial == partial
      requires partial in disk.partials && partial.file !in disk.archives
      requires sha == disk.partials[partial].content && app in issued
      requires timeline.dumpStarted == disk.marker.value.started && Verified(timeline) && measured > 0
      requires disk.marker.value.databaseBytes.Some? ==> disk.marker.value.databaseBytes.value == measured
      modifies this`disk, this`trail, this`faults
      ensures Ok() && Transfers(old(disk), old(trail), disk, trail, partial.file)
      ensures s.Done? ==> disk.marker == None && partial.file in disk.archives
      ensures faults >= old(faults) && (faults == old(faults) ==> s.Done?)
      ensures trail.dumped == old(trail).dumped
    {
      s := Publish(partial);
      if !s.Done? {
        return;
      }
      s := SealAndUpload(app, timeline, measured, sha);
    }

    method SealAndUpload(app: Id, timeline: Timeline, measured: int, sha: Digest) returns (s: Status)
      requires Ok() && disk.marker.Some? && disk.marker.value.Verifying? && disk.partials == map[]
      requires disk.marker.value.file in disk.archives && sha == disk.archives[disk.marker.value.file].content
      requires timeline.dumpStarted == disk.marker.value.started && Verified(timeline) && app in issued && measured > 0
      requires disk.marker.value.databaseBytes.Some? ==> disk.marker.value.databaseBytes.value == measured
      modifies this`disk, this`trail, this`faults
      ensures Ok() && Transfers(old(disk), old(trail), disk, trail, old(disk.marker).value.file)
      ensures s.Done? ==> disk.marker == None
      ensures faults >= old(faults) && (faults == old(faults) ==> s.Done?)
      ensures trail.dumped == old(trail).dumped
    {
      s := StartUpload(app, timeline, measured, sha);
      if !s.Done? {
        return;
      }
      var ok := Attempt();
      if !ok {
        return Refused;  // the upload checkpoint refused
      }
      s := UploadArchive(measured);
    }

    /** A transfer guard's last word, written by itself or, when it died, by the process that
        watches it, unless the host went down with both. It never deletes the archive, the
        partial or the marker. */
    method EndTransfer(app: Id, s: Status) returns (t: Status, ghost proven: bool)
      requires Ok()
      modifies this`disk, this`trail, this`faults
      ensures Ok() && trail == old(trail) && disk == old(disk).(transfers := disk.transfers)
      ensures disk.transfers - {app} == old(disk).transfers - {app}
      ensures t.Done? ==> s.Done?
      // The result says whether the attempt completed and, if not, whether its stop is proven.
      ensures t.Done? ==> app in disk.transfers && disk.transfers[app] == Completed
      ensures t.Refused? ==> app in disk.transfers && disk.transfers[app] == Failed(proven)
      ensures t.Crashed? ==> disk == old(disk)
      ensures faults >= old(faults) && (s.Done? && faults == old(faults) ==> t.Done?)
    {
      var stopped: bool := *;
      proven := stopped;
      var survives := Attempt();
      if s.Crashed? && !survives {
        return Crashed, proven;
      }
      var completed := s.Done? && survives;
      var result := if completed then Completed else Failed(stopped);
      t := RecordTransfer(app, result);
      if t.Done? && !completed {
        t := Refused;
      }
    }

    method RecordTransfer(app: Id, result: GuardResult) returns (s: Status)
      requires Ok()
      modifies this`disk, this`trail, this`faults
      ensures Ok() && trail == old(trail) && disk == old(disk).(transfers := disk.transfers)
      ensures disk.transfers - {app} == old(disk).transfers - {app}
      ensures if s.Done? then app in disk.transfers && disk.transfers[app] == result else disk == old(disk)
      ensures if s.Done? then faults == old(faults) else s.Crashed? && faults > old(faults)
    {
      ResultKeepsValid(disk, trail, issued, disk.dumps, disk.transfers[app := result]);
      assert disk.transfers[app := result] - {app} == disk.transfers - {app};
      :- Commit(disk.(transfers := disk.transfers[app := result]), trail);
      return Done;
    }

    // ------------------------------------------------ resuming

    /** Continue the verification of a completed dump whose last attempt provably stopped. A
        marker of an older release needs the operator's original size. */
    method ResumeVerification(size: Option<int>) returns (s: Status)
      requires Ok()
      modifies this
      ensures Ok() && Grows(old(trail), trail) && Preserves(old(disk), disk) && old(issued) <= issued
      ensures s.Done? ==>
                && disk.marker == None && old(disk.marker).Some?
                && old(disk.marker).value.file in disk.archives
      ensures Carried(old(disk), disk)
      ensures Stuck(old(disk)) ==> !s.Done? && Untouched(old(disk), disk)
      ensures Stranded(old(disk)) ==> s == Refused && disk == old(disk)
      ensures s.Done? ==> VerificationResumes(old(disk), size)
      ensures faults >= old(faults) && (faults == old(faults) && VerificationResumes(old(disk), size) ==> s.Done?)
      ensures trail.dumped == old(trail).dumped
      ensures s.Done? ==> disk.archives.Keys == old(disk).archives.Keys + {old(disk.marker).value.file}
    {
      var measured :- PendingVerification(size);
      var m := disk.marker.value;
      var app := FreshId();
      s := RetryVerification(m, app, measured);
      if Stuck(old(disk)) {
        OtherResultsKeepStuck(old(disk), disk, app);
      }
    }

    method RetryVerification(m: Marker, app: Id, measured: int) returns (s: Status)
      requires Ok() && disk.marker == Some(m) && m.Verifying? && app in issued
      requires m.partial in disk.partials <==> m.file !in disk.archives
      requires m.databaseBytes.Some? ==> m.databaseBytes.value == measured
      requires measured > 0
      modifies this`disk, this`trail, this`faults
      ensures Ok() && Grows(old(trail), trail) && Preserves(old(disk), disk) && Carried(old(disk), disk)
      ensures s.Done? ==> disk.marker == None && m.file in disk.archives
      ensures faults >= old(faults)
      ensures if Stopped(old(disk), m.app, m.app) then faults == old(faults) ==> s.Done?
              else && !s.Done? && disk == old(disk).(transfers := disk.transfers)
                   && disk.transfers - {app} == old(disk).transfers - {app}
      ensures trail.dumped == old(trail).dumped
      ensures s.Done? ==> disk.archives.Keys == old(disk).archives.Keys + {m.file}
    {
      s := RecoverVerification(m, m.partial in disk.partials, app, measured);
      if s.Done? {
        TransferAddsOne(old(disk), old(trail), disk, trail, m.file);
      }
      TransfersGiveNothingUp(old(disk), old(trail), disk, trail, m.file);
      TransferCarries(old(disk), old(trail), issued, disk, trail, issued, m.file);
      ghost var proven;
      s, proven := EndTransfer(app, s);
    }

    /** What resuming a verification has to find on disk; yields the size to publish. */
    method PendingVerification(size: Option<int>) returns (s: Status, measured: int)
      requires Ok()
      ensures !s.Crashed?
      ensures s.Done? <==>
                && disk.marker.Some? && disk.marker.value.Verifying? && !Stranded(disk)
                && SizeFits(disk.marker.value, size)
      ensures s.Done? ==>
                && (disk.marker.value.partial in disk.partials <==> disk.marker.value.file !in disk.archives)
                && measured > 0 && Some(measured) == (if size.Some? then size else disk.marker.value.databaseBytes)
    {
      measured := 0;
      if disk.marker.None? || !disk.marker.value.Verifying? {
        return Refused, 0;
      }
      var m := disk.marker.value;
      var hasPartial, hasFinal := m.partial in disk.partials, m.file in disk.archives;
      if hasPartial == hasFinal || m.file in disk.receipts ||
         disk.partials.Keys - (if hasPartial then {m.partial} else {}) != {} ||
         m.timeline.dumpStarted != m.started || m.timeline.dumpCompleted.None? {
        return Refused, 0;
      }
      if m.databaseBytes.Some? == size.Some? {
        return Refused, 0;  // no size, or an attempt to override the recorded one
      }
      measured := if m.databaseBytes.Some? then m.databaseBytes.value else size.value;
      if measured <= 0 {
        return Refused, 0;
      }
      return Done, measured;
    }

    method RecoverVerification(m: Marker, fromPartial: bool, app: Id, measured: int) returns (s: Status)
      requires Ok() && disk.marker == Some(m) && m.Verifying? && app in issued
      requires fromPartial <==> m.partial in disk.partials
      requires fromPartial <==> m.file !in disk.archives
      requires m.databaseBytes.Some? ==> m.databaseBytes.value == measured
      requires measured > 0
      modifies this`disk, this`trail, this`faults
      ensures Ok() && Transfers(old(disk), old(trail), disk, trail, m.file)
      ensures s.Done? ==> disk.marker == None && m.file in disk.archives
      ensures !Stopped(old(disk), m.app, m.app) ==> s == Refused && disk == old(disk) && trail == old(trail)
      ensures faults >= old(faults) && (faults == old(faults) && Stopped(old(disk), m.app, m.app) ==> s.Done?)
      ensures trail.dumped == old(trail).dumped
    {
      if !Stopped(disk, m.app, m.app) {
        return Refused;  // the dump or the previous attempt's cleanup is unproven
      }
      var ok := Attempt();
      if !ok {
        return Refused;  // a reader is alive, an object exists, or verification failed
      }
      var at: int := *;
      var timeline := m.timeline.(structuralVerified := Some(at), localSha := Some(at));
      if fromPartial {
        s := PublishAndUpload(app, m.partial, timeline, measured, disk.partials[m.partial].content);
      } else {
        assert disk.partials.Keys <= {m.partial};
        assert disk.partials == map[];
        s := SealAndUpload(app, timeline, measured, disk.archives[m.file].content);
      }
    }

    /** What any upload recovery has to find on disk; yields the size to publish. */
    method PendingUpload(size: Option<int>, allowReceipt: bool) returns (s: Status, measured: int)
      requires Ok()
      ensures !s.Crashed?
      ensures s.Done? <==>
                && disk.marker.Some? && disk.marker.value.Uploading? && SizeFits(disk.marker.value, size)
                && (disk.marker.value.file in disk.receipts ==> allowReceipt)
      ensures s.Done? ==>
                measured > 0 && Some(measured) == (if size.Some? then size else disk.marker.value.databaseBytes)
    {
      measured := 0;
      if disk.marker.None? || !disk.marker.value.Uploading? {
        return Refused, 0;
      }
      var m := disk.marker.value;
      if m.file in disk.receipts && (!allowReceipt || disk.receipts[m.file].key != m.key) {
        return Refused, 0;
      }
      assert disk.partials == map[] by {
        assert forall p :: p !in disk.partials;
      }
      if disk.partials != map[] || m.file !in disk.archives || disk.archives[m.file] != m.identity ||
         m.timeline.dumpStarted != m.started || m.timeline.dumpCompleted.None? ||
         m.timeline.structuralVerified.None? || m.timeline.localSha.None? {
        return Refused, 0;
      }
      if m.databaseBytes.Some? == size.Some? {
        return Refused, 0;
      }
      measured := if m.databaseBytes.Some? then m.databaseBytes.value else size.value;
      if measured <= 0 {
        return Refused, 0;
      }
      return Done, measured;
    }

    /** Retry a failed upload, under a key no earlier attempt used. */
    method ResumeUpload(size: Option<int>) returns (s: Status)
      requires Ok()
      modifies this
      ensures Ok() && Grows(old(trail), trail) && Preserves(old(disk), disk) && old(issued) <= issued
      ensures s.Done? ==>
                && disk.marker == None && old(disk.marker).Some?
                && old(disk.marker).value.file in disk.receipts
      ensures Carried(old(disk), disk)
      ensures Stuck(old(disk)) ==> !s.Done? && Untouched(old(disk), disk)
      ensures Stranded(old(disk)) ==> disk == old(disk)
      ensures s.Done? ==> UploadResumes(old(disk), size)
      ensures faults >= old(faults) && (faults == old(faults) && UploadResumes(old(disk), size) ==> s.Done?)
      ensures trail.dumped == old(trail).dumped
      ensures s.Done? ==> disk.archives.Keys == old(disk).archives.Keys + {old(disk.marker).value.file}
    {
      var measured :- PendingUpload(size, false);
      var app := FreshId();
      s := RetryUpload(measured, app);
      if Stuck(old(disk)) {
        OtherResultsKeepStuck(old(disk), disk, app);
      }
    }

    method RetryUpload(measured: int, app: Id) returns (s: Status)
      requires Ok() && disk.marker.Some? && disk.marker.value.Uploading?
      requires disk.marker.value.databaseBytes.Some? ==> disk.marker.value.databaseBytes.value == measured
      requires disk.marker.value.file !in disk.receipts
      requires app in issued && measured > 0 && forall k :: k in trail.attempts && k.Resumed? ==> k.app != app
      modifies this`disk, this`trail, this`faults
      ensures Ok() && Grows(old(trail), trail) && Preserves(old(disk), disk) && Carried(old(disk), disk)
      ensures s.Done? ==> disk.marker == None && old(disk.marker).value.file in disk.receipts
      ensures faults >= old(faults)
      ensures if Stopped(old(disk), old(disk).marker.value.dumpApp, old(disk).marker.value.app)
              then faults == old(faults) ==> s.Done?
              else && !s.Done? && disk == old(disk).(transfers := disk.transfers)
                   && disk.transfers - {app} == old(disk).transfers - {app}
      ensures trail.dumped == old(trail).dumped
      ensures s.Done? ==> disk.archives.Keys == old(disk).archives.Keys + {old(disk.marker).value.file}
    {
      ghost var f := disk.marker.value.file;
      s := RecoverUpload(measured, app);
      TransfersGiveNothingUp(old(disk), old(trail), disk, trail, f);
      TransferCarries(old(disk), old(trail), issued, disk, trail, issued, f);
      ghost var proven;
      s, proven := EndTransfer(app, s);
    }

    /** The previous attempt provably stopped and the archive still has the marker's checksum. */
    method RecoveryAllowed(m: Marker) returns (s: Status)
      requires m.Uploading? && m.file in disk.archives
      modifies this`faults
      ensures !s.Crashed?
      ensures s.Done? ==> Stopped(disk, m.dumpApp, m.app) && disk.archives[m.file].content == m.sha
      ensures faults >= old(faults)
      ensures faults == old(faults) && Stopped(disk, m.dumpApp, m.app) && disk.archives[m.file].content == m.sha ==>
                s.Done?
    {
      if !Stopped(disk, m.dumpApp, m.app) || disk.archives[m.file].content != m.sha {
        return Refused;
      }
      var ok := Attempt();
      if !ok {
        return Refused;  // a reader is alive, the object is not as expected, or a check failed
      }
      return Done;
    }

    method RecoverUpload(measured: int, app: Id) returns (s: Status)
      requires Ok() && disk.marker.Some? && disk.marker.value.Uploading?
      requires disk.marker.value.databaseBytes.Some? ==> disk.marker.value.databaseBytes.value == measured
      requires disk.marker.value.file !in disk.receipts
      requires app in issued && measured > 0 && forall k :: k in trail.attempts && k.Resumed? ==> k.app != app
      modifies this`disk, this`trail, this`faults
      ensures Ok() && Transfers(old(disk), old(trail), disk, trail, old(disk.marker).value.file)
      ensures s.Done? ==>
                && disk.marker == None && old(disk.marker).value.file in disk.receipts
                && var m := old(disk.marker).value;
                   disk.receipts[m.file] ==
                   Receipt(m.file, m.identity, m.sha, measured, Resumed(app, m.file), ChecksumUpload, m.timeline)
      ensures !Stopped(old(disk), old(disk).marker.value.dumpApp, old(disk).marker.value.app) ==>
                s == Refused && disk == old(disk) && trail == old(trail)
      ensures faults >= old(faults)
      ensures Stopped(old(disk), old(disk).marker.value.dumpApp, old(disk).marker.value.app) ==>
                (faults == old(faults) ==> s.Done?)
      ensures trail.dumped == old(trail).dumped
    {
      var m := disk.marker.value;
      :- RecoveryAllowed(m);
      var next := m.(app := app, key := Resumed(app, m.file), databaseBytes := Some(measured));
      ReissueKeepsValid(disk, trail, issued, app, measured);
      assert m.file in trail.sizes ==> trail.sizes[m.file := measured] == trail.sizes;
      :- Commit(disk.(marker := Some(next)), trail.(sizes := trail.sizes[m.file := measured]));
      s := UploadArchive(measured);
    }

    /** An operator proved the uploaded object independently: publish that receipt instead. */
    method ReconcileReceipt(file: Name, size: Option<int>, sha: Digest, key: Option<Key>) returns (s: Status)
      requires Ok() && disk.marker.Some?
      modifies this
      ensures Ok() && trail == old(trail)
      ensures disk.archives == old(disk.archives) && OnlyTouches(old(disk), disk, old(disk.marker).value.file)
      ensures Copies(old(disk)) <= Copies(disk)
      ensures s.Done? ==>
                && old(disk.marker).value.Uploading? && old(disk.marker).value.file == file
                && old(disk.marker).value.sha == sha && Some(old(disk.marker).value.key) == key
                && disk.marker == None && file in disk.receipts
                && disk.receipts[file] ==
                   ReceiptOf(old(disk.marker).value, disk.receipts[file].databaseBytes, OperatorSha256)
      ensures Carried(old(disk), disk)
      ensures Stuck(old(disk)) ==> !s.Done? && Untouched(old(disk), disk)
      ensures Stranded(old(disk)) ==> disk == old(disk)
      ensures s.Done? ==> UploadReconciles(old(disk), file, size, sha, key)
      ensures faults >= old(faults)
      ensures faults == old(faults) && UploadReconciles(old(disk), file, size, sha, key) ==> s.Done?
    {
      var measured :- PendingUpload(size, true);
      var m := disk.marker.value;
      if file != m.file || sha != m.sha || key != Some(m.key) {
        return Refused;
      }
      var app := FreshId();
      s := ReconcileAs(m, measured, app);
      if Stuck(old(disk)) {
        OtherResultsKeepStuck(old(disk), disk, app);
      }
    }

    method ReconcileAs(m: Marker, measured: int, app: Id) returns (s: Status)
      requires Ok() && disk.marker == Some(m) && m.Uploading?
      requires m.databaseBytes.Some? ==> m.databaseBytes.value == measured
      modifies this`disk, this`trail, this`faults
      ensures Ok() && trail == old(trail)
      ensures disk.archives == old(disk.archives) && OnlyTouches(old(disk), disk, m.file)
      ensures Copies(old(disk)) <= Copies(disk) && Carried(old(disk), disk)
      ensures s.Done? ==>
                && disk.marker == None && m.file in disk.receipts
                && disk.receipts[m.file] == ReceiptOf(m, measured, OperatorSha256)
      ensures !Stopped(old(disk), m.dumpApp, m.app) ==>
                && !s.Done? && disk == old(disk).(transfers := disk.transfers)
                && disk.transfers - {app} == old(disk).transfers - {app}
      ensures s.Done? ==> Stopped(old(disk), m.dumpApp, m.app)
      ensures faults >= old(faults) && (faults == old(faults) && Stopped(old(disk), m.dumpApp, m.app) ==> s.Done?)
    {
      s := PublishIndependentReceipt(m, measured);
      ghost var published := disk;
      ghost var proven;
      s, proven := EndTransfer(app, s);
      SameFilesSameCopies(published, disk);
    }

    method PublishIndependentReceipt(m: Marker, measured: int) returns (s: Status)
      requires Ok() && disk.marker == Some(m) && m.Uploading?
      requires m.databaseBytes.Some? ==> m.databaseBytes.value == measured
      modifies this`disk, this`trail, this`faults
      ensures Ok() && trail == old(trail)
      ensures disk.archives == old(disk.archives) && OnlyTouches(old(disk), disk, m.file)
      ensures Copies(old(disk)) <= Copies(disk)
      ensures s.Done? ==>
                && disk.marker == None && m.file in disk.receipts
                && disk.receipts[m.file] == ReceiptOf(m, measured, OperatorSha256)
      ensures disk.marker == old(disk.marker) || (m.file in disk.archives && Receipted(disk, m.file))
      ensures !Stopped(old(disk), m.dumpApp, m.app) ==> s == Refused && disk == old(disk)
      ensures faults >= old(faults) && (faults == old(faults) && Stopped(old(disk), m.dumpApp, m.app) ==> s.Done?)
    {
      s := RecoveryAllowed(m);
      if !s.Done? {
        return;
      }
      var r := ReceiptOf(m, measured, OperatorSha256);
      ReplacedReceiptTouchesOne(disk, disk.(receipts := disk.receipts[m.file := r]), r);
      ReplacedReceiptTouchesOne(disk, disk.(receipts := disk.receipts[m.file := r], marker := None), r);
      s := PublishReceipt(r);
    }

    // ------------------------------------------------ receipts and drills of settled archives

    /** The operator's import command. Beside a marker it reconciles the pending upload. Without
        one it replaces the receipt of a settled archive by an independently proved one, with
        the size the database has today; no other command changes a recorded size. */
    method ImportReceipt(file: Name, size: Option<int>, sha: Digest, key: Option<Key>) returns (s: Status)
      requires Ok()
      modifies this
      ensures Ok() && Continues(old(trail), trail)
      ensures trail == old(trail) || trail == old(trail).(remeasured := old(trail).remeasured + {file})
      ensures disk.archives == old(disk.archives) && disk.pin == old(disk.pin)
      ensures Copies(old(disk)) <= Copies(disk) && Carried(old(disk), disk)
      ensures Stuck(old(disk)) ==> !s.Done? && Untouched(old(disk), disk)
      ensures Stranded(old(disk)) ==> disk == old(disk)
      ensures s.Done? ==>
                && disk.marker == None && file in disk.archives && Receipted(disk, file)
                && disk.receipts[file].sha == sha && disk.receipts[file].integrity == OperatorSha256
      // Beside a marker it completes exactly for the pending upload, without one exactly for a settled
      // archive with this checksum, under its own key.
      ensures s.Done? ==>
                if old(disk.marker).Some? then UploadReconciles(old(disk), file, size, sha, key)
                else && file in old(disk).archives && sha == old(disk).archives[file].content
                     && (key.Some? ==> file in old(disk).receipts && key == Some(old(disk).receipts[file].key))
      ensures faults >= old(faults)
      ensures (&& faults == old(faults)
               && if old(disk.marker).Some? then UploadReconciles(old(disk), file, size, sha, key)
                  else && file in old(disk).archives && sha == old(disk).archives[file].content
                       && file in old(disk).receipts
                       && (key.Some? ==> key == Some(old(disk).receipts[file].key))) ==> s.Done?
    {
      if disk.marker.Some? {
        s := ReconcileReceipt(file, size, sha, key);
        return;
      }
      s := ReplaceReceipt(file, sha, key);
    }

    method ReplaceReceipt(file: Name, sha: Digest, key: Option<Key>) returns (s: Status)
      requires Ok() && disk.marker == None
      modifies this`disk, this`trail, this`faults
      ensures Ok() && Continues(old(trail), trail)
      ensures trail == old(trail) || trail == old(trail).(remeasured := old(trail).remeasured + {file})
      ensures disk.archives == old(disk.archives) && OnlyTouches(old(disk), disk, file)
      ensures Copies(old(disk)) <= Copies(disk)
      ensures s.Done? ==>
                && disk.marker == None && file in disk.archives && Receipted(disk, file)
                && disk.receipts[file].sha == sha && disk.receipts[file].integrity == OperatorSha256
      ensures s.Done? ==>
                && file in disk.archives && sha == disk.archives[file].content
                && (key.Some? ==> key == Some(old(disk).receipts[file].key))
      ensures faults >= old(faults)
      ensures (&& faults == old(faults) && file in old(disk).archives && sha == old(disk).archives[file].content
               && file in old(disk).receipts && (key.Some? ==> key == Some(old(disk).receipts[file].key))) ==> s.Done?
    {
      NoMarkerMeansSettled(disk);
      if file !in disk.archives || sha != disk.archives[file].content {
        return Refused;
      }
      var prior := disk.receipts[file];
      if key.Some? && key.value != prior.key {
        return Refused;  // cannot replace the prior receipt's object key
      }
      var ok := Attempt();
      if !ok {
        return Refused;  // the object is not as the operator says
      }
      s := MarkAndRecord(file);
      if s.Done? {
        assert disk.receipts[file].sha == sha;
      }
    }

    method MarkAndRecord(file: Name) returns (s: Status)
      requires Ok() && disk.marker == None && file in disk.archives && Receipted(disk, file)
      modifies this`disk, this`trail, this`faults
      ensures Ok() && Continues(old(trail), trail)
      ensures trail == old(trail) || trail == old(trail).(remeasured := old(trail).remeasured + {file})
      ensures disk.archives == old(disk.archives) && OnlyTouches(old(disk), disk, file)
      ensures Copies(old(disk)) <= Copies(disk)
      ensures Receipted(disk, file) && disk.receipts[file].sha == old(disk).receipts[file].sha
      ensures s.Done? ==> disk.marker == None && disk.receipts[file].integrity == OperatorSha256
      ensures faults >= old(faults) && (faults == old(faults) ==> s.Done?)
    {
      s := MarkImport(file);
      SameFilesSameCopies(old(disk), disk);
      if !s.Done? {
        return;
      }
      var ok := Attempt();
      if !ok {
        return Refused;  // verification failed; the marker stays
      }
      s := RecordImport(file);
    }

    method MarkImport(file: Name) returns (s: Status)
      requires Ok() && disk.marker == None && file in disk.archives
      modifies this`disk, this`trail, this`faults
      ensures Ok() && trail == old(trail) && disk == old(disk).(marker := disk.marker)
      ensures s.Done? ==> disk.marker.Some? && disk.marker.value.Importing? && disk.marker.value.file == file
      ensures faults >= old(faults) && (faults == old(faults) ==> s.Done?)
    {
      var started: int := *;
      MarkKeepsValid(disk, trail, issued, Importing(file, started));
      :- Commit(disk.(marker := Some(Importing(file, started))), trail);
      return Done;
    }

    method RecordImport(file: Name) returns (s: Status)
      requires Ok() && disk.marker.Some? && disk.marker.value.Importing? && disk.marker.value.file == file
      modifies this`disk, this`trail, this`faults
      ensures Ok() && Continues(old(trail), trail)
      ensures trail == old(trail) || trail == old(trail).(remeasured := old(trail).remeasured + {file})
      ensures file in disk.receipts && file in old(disk.receipts)
      ensures disk == old(disk).(marker := disk.marker, receipts := old(disk).receipts[file := disk.receipts[file]])
      ensures OnlyTouches(old(disk), disk, file) && Copies(old(disk)) <= Copies(disk)
      ensures s.Done? ==> disk.marker == None && disk.receipts[file].integrity == OperatorSha256
      ensures disk.receipts[file] ==
              old(disk).receipts[file].(databaseBytes := disk.receipts[file].databaseBytes,
                                        integrity := disk.receipts[file].integrity)
      ensures faults >= old(faults) && (faults == old(faults) ==> s.Done?)
    {
      s := WriteImport(file);
      ReplacedReceiptTouchesOne(old(disk), disk, disk.receipts[file]);
      if !s.Done? {
        return;
      }
      ghost var written := disk;
      s := Unmark();
      SameFilesSameCopies(written, disk);
    }

    method WriteImport(file: Name) returns (s: Status)
      requires Ok() && disk.marker.Some? && disk.marker.value.Importing? && disk.marker.value.file == file
      modifies this`disk, this`trail, this`faults
      ensures Ok() && Continues(old(trail), trail)
      ensures trail == if s.Done? then old(trail).(remeasured := old(trail).remeasured + {file}) else old(trail)
      ensures file in disk.receipts && file in old(disk.receipts)
      ensures disk == old(disk).(receipts := old(disk).receipts[file := disk.receipts[file]])
      ensures s.Done? ==> disk.receipts[file].integrity == OperatorSha256
      ensures disk.receipts[file] ==
              old(disk).receipts[file].(databaseBytes := disk.receipts[file].databaseBytes,
                                        integrity := disk.receipts[file].integrity)
      ensures faults >= old(faults) && (faults == old(faults) ==> s.Done?)
    {
      assert disk.receipts[file := disk.receipts[file]] == disk.receipts;
      var measured :- DatabaseBytes();
      var r := disk.receipts[file].(databaseBytes := measured, integrity := OperatorSha256);
      ImportKeepsValid(disk, trail, issued, r);
      :- Commit(disk.(receipts := disk.receipts[file := r]), trail.(remeasured := trail.remeasured + {file}));
      return Done;
    }

    method Unmark() returns (s: Status)
      requires Ok() && disk.marker.Some? && !InTransit(disk.marker.value)
      modifies this`disk, this`trail, this`faults
      ensures Ok() && trail == old(trail) && disk == old(disk).(marker := disk.marker)
      ensures disk.marker == if s.Done? then None else old(disk.marker)
      ensures faults >= old(faults) && (faults == old(faults) ==> s.Done?)
    {
      UnmarkKeepsValid(disk, trail, issued);
      :- Commit(disk.(marker := None), trail);
      return Done;
    }

    /** The restore drill of the newest archive. A drill whose cleanup is unproven keeps its
        marker, so that nothing prunes the archive it may still be reading. */
    method Restore() returns (s: Status)
      requires Ok()
      modifies this`disk, this`trail, this`faults
      ensures Ok() && trail == old(trail)
      ensures disk == old(disk) ||
              (!s.Done? && old(disk.marker) == None && disk.marker.Some? && disk.marker.value.Restoring? &&
               disk == old(disk).(marker := disk.marker))
      // With nothing pending and an archive to restore, only the environment can fail it.
      ensures s.Done? ==> old(disk.marker) == None && old(disk).archives != map[]
      ensures faults >= old(faults)
      ensures faults == old(faults) && old(disk.marker) == None && old(disk).archives != map[] ==> s.Done?
    {
      s := NoPending();
      if !s.Done? {
        return;
      }
      var listed, names := Inventory(false);
      if !listed.Done? {
        return Refused;
      }
      if |names| == 0 {
        return Refused;
      }
      assert names[0] in disk.archives;
      if disk.receipts[names[0]].sha != disk.archives[names[0]].content {
        return Refused;
      }
      var ok := Attempt();
      if !ok {
        return Refused;  // not an isolated host, or not enough space
      }
      s := Drill(names[0]);
    }

    /** Mark the archive, read it, and take the mark away once the reader has provably gone. */
    method Drill(file: Name) returns (s: Status)
      requires Ok() && disk.marker == None && file in disk.archives
      modifies this`disk, this`trail, this`faults
      ensures Ok() && trail == old(trail) && disk == old(disk).(marker := disk.marker)
      ensures disk.marker == None || (!s.Done? && disk.marker.Some? && disk.marker.value.Restoring?)
      ensures faults >= old(faults) && (faults == old(faults) ==> s.Done?)
    {
      var started: int := *;
      MarkKeepsValid(disk, trail, issued, Restoring(file, started));
      :- Commit(disk.(marker := Some(Restoring(file, started))), trail);
      var ok := Attempt();
      if !ok {
        return Refused;  // the reader's cleanup is unproven
      }
      s := Unmark();
    }

    // ------------------------------------------------ inventory and retention

    method NoPending() returns (s: Status)
      ensures !s.Crashed?
      ensures s.Done? <==> disk.marker == None && disk.partials == map[]
    {
      if disk.marker.Some? || disk.partials != map[] {
        return Refused;
      }
      return Done;
    }

    static method Newest(names: set<Name>) returns (newest: Name)
      requires names != {}
      ensures newest in names && forall n :: n in names ==> n == newest || Newer(newest, n)
    {
      ghost var _ := Sets.Element(names);
      newest :| newest in names;
      var rest := names - {newest};
      while rest != {}
        invariant newest in names && rest <= names
        invariant forall n :: n in names && n !in rest ==> n == newest || Newer(newest, n)
      {
        ghost var _ := Sets.Element(rest);
        var n :| n in rest;
        rest := rest - {n};
        if Newer(n, newest) {
          newest := n;
        }
      }
    }

    static method SortNames(set0: set<Name>) returns (names: seq<Name>)
      ensures Lists(names, set0)
    {
      names := [];
      var rest := set0;
      while rest != {}
        invariant rest <= set0 && Lists(names, set0 - rest)
        invariant forall a, b :: a in names && b in rest ==> Newer(a, b)
      {
        var n := Newest(rest);
        names := names + [n];
        rest := rest - {n};
      }
      assert set0 - rest == set0;
    }

    /** Every archive, newest first; refuses unless each has a matching receipt and, with
        `remote`, its object still matches. */
    method Inventory(remote: bool) returns (s: Status, names: seq<Name>)
      modifies this`faults
      ensures !s.Crashed?
      ensures Lists(names, disk.archives.Keys)
      ensures s.Done? ==> forall n :: n in disk.archives ==> Receipted(disk, n)
      ensures faults >= old(faults) && (!remote ==> faults == old(faults))
      ensures faults == old(faults) && (forall n :: n in disk.archives ==> Receipted(disk, n)) ==> s.Done?
    {
      names := SortNames(disk.archives.Keys);
      for i := 0 to |names|
        invariant forall k :: 0 <= k < i ==> Receipted(disk, names[k])
        invariant faults == old(faults)
      {
        assert names[i] in disk.archives;
        if !Receipted(disk, names[i]) {
          return Refused, names;
        }
        if remote {
          var ok := Attempt();
          if !ok {
            return Refused, names;
          }
        }
      }
      return Done, names;
    }

    function PinName(): Option<Name>
      reads this`disk
    {
      if disk.pin.Some? then Some(disk.pin.value.file) else None
    }

    /** The retained archives; refuses exactly when the pinned one is missing or changed. */
    method Select(names: seq<Name>) returns (s: Status, keep: seq<Name>)
      requires Lists(names, disk.archives.Keys) && forall n :: n in disk.archives ==> Receipted(disk, n)
      ensures !s.Crashed?
      ensures s.Done? <==>
                (disk.pin.Some? ==>
                   && disk.pin.value.file in disk.archives && disk.pin.value.file in disk.receipts
                   && disk.receipts[disk.pin.value.file].sha == disk.pin.value.sha)
      ensures s.Done? ==> keep == Selection(names, PinName())
    {
      keep := [];
      if disk.pin.Some? &&
         (disk.pin.value.file !in names || disk.receipts[disk.pin.value.file].sha != disk.pin.value.sha) {
        return Refused, keep;
      }
      keep := if |names| > 0 then [names[0]] else [];
      if disk.pin.Some? && disk.pin.value.file !in keep {
        keep := keep + [disk.pin.value.file];
      }
      assert names[0..] == names;
      for i := 0 to |names|
        invariant Fill(names[i..], keep) == Selection(names, PinName())
      {
        assert names[i..][1..] == names[i + 1..] && names[i..][0] == names[i];
        if |keep| < 2 && names[i] !in keep {
          keep := keep + [names[i]];
        }
      }
      return Done, keep;
    }

    /** Unlink one archive, then retire its receipt. */
    method Remove(x: Name, ghost keep: seq<Name>) returns (s: Status)
      requires Ok() && disk.marker == None && x in disk.archives && x !in keep
      requires |keep| == 2 && Distinct(keep) && Heads(disk, keep[0]) && keep[1] in disk.archives
      requires disk.pin.Some? ==> disk.pin.value.file != x
      modifies this`disk, this`trail, this`faults
      ensures Ok() && trail == PrunedTrail(old(trail), old(disk), disk, trail.kept)
      ensures disk.marker == None && disk.pin == old(disk.pin) && disk.partials == old(disk.partials)
      ensures disk.archives == old(disk.archives) || disk.archives == old(disk.archives) - {x}
      ensures s.Done? ==> disk.archives == old(disk.archives) - {x}
      ensures faults >= old(faults) && (faults == old(faults) ==> s.Done?)
      ensures disk.canaryApproved == old(disk.canaryApproved)
      ensures ReceiptsKept(old(disk), disk) && (s.Done? ==> Retired(old(disk), disk))
    {
      assert keep[0] in keep && keep[1] in keep && keep[0] != keep[1];
      UnlinkKeepsValid(disk, trail, issued, x, keep);
      assert disk.archives.Keys - (disk.archives - {x}).Keys == {x};
      NothingPruned(trail, disk);
      :- Commit(disk.(archives := disk.archives - {x}), trail.(pruned := trail.pruned + {x}, kept := keep));
      s := Retire(x);
    }

    method Retire(x: Name) returns (s: Status)
      requires Ok() && disk.marker == None && x !in disk.archives
      modifies this`disk, this`trail, this`faults
      ensures Ok() && trail == old(trail) && disk == old(disk).(receipts := disk.receipts)
      ensures faults >= old(faults) && (faults == old(faults) ==> s.Done?)
      ensures disk.receipts == if s.Done? then old(disk).receipts - {x} else old(disk).receipts
    {
      RetireKeepsValid(disk, trail, issued, x);
      :- Commit(disk.(receipts := disk.receipts - {x}), trail);
      return Done;
    }

    /** The listed archives that are not kept, still newest first. */
    static method Excess(names: seq<Name>, keep: seq<Name>) returns (excess: seq<Name>)
      requires Descending(names)
      ensures IsExcess(excess, (set n | n in names), keep)
    {
      excess := [];
      for i := 0 to |names|
        invariant Descending(excess) && forall n :: n in excess <==> n in names[..i] && n !in keep
      {
        assert names[..i + 1] == names[..i] + [names[i]];
        if names[i] !in keep {
          assert forall n :: n in names[..i] ==> Newer(n, names[i]);
          excess := excess + [names[i]];
        }
      }
      assert names[..|names|] == names;
    }

    /** Remove what is not selected, oldest first, rechecking everything before each unlink.
        Wherever it stops, by refusal or crash, the newest archive, the pinned one and two
        copies with their receipts remain. */
    method Prune() returns (s: Status)
      requires Ok()
      modifies this`disk, this`trail, this`faults
      ensures Ok() && trail == PrunedTrail(old(trail), old(disk), disk, trail.kept)
      ensures disk.marker == old(disk.marker) && disk.pin == old(disk.pin)
      ensures forall names :: Lists(names, old(disk.archives.Keys)) ==>
                && PrunedTo(old(disk.archives.Keys), Selection(names, PinName()), disk.archives.Keys)
                && (s.Done? ==> disk.marker == None && disk.archives.Keys == set n | n in Selection(names, PinName()))
      ensures s.Done? ==> |disk.archives.Keys| <= 2
      ensures AllOutlived(old(disk), disk)
      ensures disk.archives.Keys != old(disk.archives.Keys) ==> old(disk.canaryApproved)
      ensures old(disk.marker).Some? ==> s == Refused && disk == old(disk)
      ensures FloorHeld(old(disk), disk)
      ensures disk.canaryApproved == old(disk.canaryApproved)
      ensures faults >= old(faults)
      ensures (&& faults == old(faults) && old(disk.marker) == None
               && (|old(disk.archives.Keys)| <= 2 || old(disk.canaryApproved))) ==> s.Done?
      ensures ReceiptsKept(old(disk), disk) && (s.Done? ==> Retired(old(disk), disk))
    {
      NothingPruned(trail, disk);
      s := NoPending();
      if !s.Done? {
        return;
      }
      ghost var names;
      s, names := PruneSettled();
      OnlyListing(names, old(disk.archives.Keys));
      NewestOutlivesAll(old(disk), disk, names);
    }

    method PruneSettled() returns (s: Status, ghost listed: seq<Name>)
      requires Ok() && disk.marker == None
      modifies this`disk, this`trail, this`faults
      ensures Ok() && trail == PrunedTrail(old(trail), old(disk), disk, trail.kept)
      ensures disk.marker == None && disk.pin == old(disk.pin) && disk.canaryApproved == old(disk.canaryApproved)
      ensures Lists(listed, old(disk.archives.Keys)) && (listed != [] ==> listed[0] in disk.archives)
      ensures PrunedTo(old(disk.archives.Keys), Selection(listed, PinName()), disk.archives.Keys)
      ensures s.Done? ==>
                disk.archives.Keys == (set n | n in Selection(listed, PinName())) && |disk.archives.Keys| <= 2
      ensures disk.archives.Keys != old(disk.archives.Keys) ==> old(disk.canaryApproved)
      ensures FloorHeld(old(disk), disk)
      ensures faults >= old(faults)
      ensures faults == old(faults) && (|old(disk.archives.Keys)| <= 2 || old(disk.canaryApproved)) ==> s.Done?
      ensures ReceiptsKept(old(disk), disk) && (s.Done? ==> Retired(old(disk), disk))
    {
      NothingPruned(trail, disk);
      NoMarkerMeansSettled(disk);
      var counted, names := Inventory(true);
      listed := names;
      if !counted.Done? {
        return Refused, listed;
      }
      var selected, keep := Select(names);
      if !selected.Done? {
        return Refused, listed;
      }
      s := PruneListed(names, keep);
    }

    method PruneListed(names: seq<Name>, keep: seq<Name>) returns (s: Status)
      requires Ok() && disk.marker == None && Lists(names, disk.archives.Keys)
      requires keep == Selection(names, PinName())
      modifies this`disk, this`trail, this`faults
      ensures Ok() && trail == PrunedTrail(old(trail), old(disk), disk, trail.kept)
      ensures disk.marker == None && disk.pin == old(disk.pin)
      ensures PrunedTo(old(disk.archives.Keys), keep, disk.archives.Keys)
      ensures s.Done? ==> disk.archives.Keys == (set n | n in keep) && |disk.archives.Keys| <= 2
      ensures names != [] ==> names[0] in disk.archives
      ensures disk.archives.Keys != old(disk.archives.Keys) ==> old(disk.canaryApproved)
      ensures FloorHeld(old(disk), disk)
      ensures disk.canaryApproved == old(disk.canaryApproved)
      ensures faults >= old(faults)
      ensures faults == old(faults) && (|old(disk.archives.Keys)| <= 2 || old(disk.canaryApproved)) ==> s.Done?
      ensures ReceiptsKept(old(disk), disk) && (s.Done? ==> Retired(old(disk), disk))
    {
      NothingPruned(trail, disk);
      SelectionHolds(names, PinName());
      MembersAreFew(keep);
      var excess := Excess(names, keep);
      assert disk.archives.Keys == set n | n in names;
      if excess == [] {
        assert disk.archives.Keys == set n | n in keep;
        return Done;
      }
      ExcessMeansMoreThanTwo(names, disk.archives.Keys, PinName(), excess);
      if |keep| != 2 || !disk.canaryApproved {
        return Refused;
      }
      s := RemoveExcess(names, keep, excess);
    }

    method RemoveExcess(ghost names: seq<Name>, keep: seq<Name>, excess: seq<Name>) returns (s: Status)
      requires Ok() && disk.marker == None && Lists(names, disk.archives.Keys)
      requires keep == Selection(names, PinName()) && |keep| == 2 && Distinct(keep)
      requires IsExcess(excess, disk.archives.Keys, keep)
      requires forall n :: n in keep ==> n in disk.archives
      requires disk.pin.Some? ==> disk.pin.value.file in keep
      modifies this`disk, this`trail, this`faults
      ensures Ok() && trail == PrunedTrail(old(trail), old(disk), disk, trail.kept)
      ensures disk.marker == None && disk.pin == old(disk.pin)
      ensures PrunedTo(old(disk.archives.Keys), keep, disk.archives.Keys)
      ensures s.Done? ==> disk.archives.Keys == set n | n in keep
      ensures |Copies(disk)| >= 2
      ensures faults >= old(faults) && (faults == old(faults) ==> s.Done?)
      ensures disk.canaryApproved == old(disk.canaryApproved)
      ensures ReceiptsKept(old(disk), disk) && (s.Done? ==> Retired(old(disk), disk))
    {
      ghost var current, before := names, disk.archives.Keys;
      PartlyPruned(before, keep, excess, |excess|);
      for i := |excess| downto 0
        invariant Ok() && trail == PrunedTrail(old(trail), old(disk), disk, trail.kept)
        invariant disk.marker == None && disk.pin == old(disk.pin)
        invariant disk.canaryApproved == old(disk.canaryApproved) && faults >= old(faults)
        invariant ReceiptsKept(old(disk), disk) && Retired(old(disk), disk)
        invariant disk.archives.Keys == Left(before, excess[i..])
        invariant PrunedTo(before, keep, disk.archives.Keys)
        invariant Lists(current, disk.archives.Keys) && Selection(current, PinName()) == keep
      {
        PartlyPruned(before, keep, excess, i);
        LeftStep(before, keep, excess, i);
        ghost var d, t := disk, trail;
        var one, next := RemoveOne(excess[i], keep, current);
        PrunedTrailStep(old(trail), old(disk), d, disk, t.kept, trail.kept);
        RetiredAgain(old(disk), d, disk);
        KeptPairRemains(disk, keep);
        if !one.Done? {
          return one;
        }
        current := next;
      }
      AllPruned(before, keep, excess);
      KeptPairRemains(disk, keep);
      return Done;
    }

    /** Recheck, then remove. The recheck never fails by this loop's own doing. */
    method RemoveOne(x: Name, keep: seq<Name>, ghost current: seq<Name>) returns (s: Status, ghost next: seq<Name>)
      requires Ok() && disk.marker == None && x in disk.archives && x !in keep
      requires Lists(current, disk.archives.Keys) && Selection(current, PinName()) == keep
      requires |keep| == 2 && Distinct(keep) && forall n :: n in keep ==> n in disk.archives
      requires disk.pin.Some? ==> disk.pin.value.file in keep
      modifies this`disk, this`trail, this`faults
      ensures Ok() && trail == PrunedTrail(old(trail), old(disk), disk, trail.kept)
      ensures disk.marker == None && disk.pin == old(disk.pin)
      ensures disk.archives.Keys == old(disk.archives.Keys) || disk.archives.Keys == old(disk.archives.Keys) - {x}
      ensures s.Done? ==>
                && disk.archives.Keys == old(disk.archives.Keys) - {x}
                && Lists(next, disk.archives.Keys) && Selection(next, PinName()) == keep
      ensures faults >= old(faults) && (faults == old(faults) ==> s.Done?)
      ensures disk.canaryApproved == old(disk.canaryApproved)
      ensures ReceiptsKept(old(disk), disk) && (s.Done? ==> Retired(old(disk), disk))
    {
      next := RemovalIsSafe(disk, current, keep, x, PinName());
      s := RecheckAndRemove(x, keep, current);
    }

    method RecheckAndRemove(x: Name, keep: seq<Name>, ghost current: seq<Name>) returns (s: Status)
      requires Ok() && disk.marker == None && x in disk.archives && x !in keep
      requires Lists(current, disk.archives.Keys) && Selection(current, PinName()) == keep
      requires |keep| == 2 && Distinct(keep) && Heads(disk, keep[0]) && keep[1] in disk.archives
      requires disk.pin.Some? ==> disk.pin.value.file in keep
      modifies this`disk, this`trail, this`faults
      ensures Ok() && trail == PrunedTrail(old(trail), old(disk), disk, trail.kept)
      ensures disk.marker == None && disk.pin == old(disk.pin)
      ensures disk.archives.Keys == old(disk.archives.Keys) || disk.archives.Keys == old(disk.archives.Keys) - {x}
      ensures s.Done? ==> disk.archives.Keys == old(disk.archives.Keys) - {x}
      ensures faults >= old(faults) && (faults == old(faults) ==> s.Done?)
      ensures disk.canaryApproved == old(disk.canaryApproved)
      ensures ReceiptsKept(old(disk), disk) && (s.Done? ==> Retired(old(disk), disk))
    {
      NothingPruned(trail, disk);
      KeysWithout(disk, x);
      s := Recheck(keep, current);
      if s.Done? {
        s := Remove(x, keep);
      }
    }

    /** Inventory and selection once more. They differ only if the environment is at fault. */
    method Recheck(keep: seq<Name>, ghost current: seq<Name>) returns (s: Status)
      requires Ok() && disk.marker == None
      requires Lists(current, disk.archives.Keys) && Selection(current, PinName()) == keep
      modifies this`faults
      ensures !s.Crashed? && faults >= old(faults) && (faults == old(faults) ==> s.Done?)
    {
      NoMarkerMeansSettled(disk);
      var inventory, listing := Inventory(true);
      if !inventory.Done? {
        return Refused;
      }
      var selected, selection := Select(listing);
      if !selected.Done? {
        return Refused;
      }
      ListingIsUnique(listing, current, disk.archives.Keys);
      assert selection == keep;
      if selection != keep {
        return Refused;
      }
      return Done;
    }

    // ------------------------------------------------ a whole backup

    /** Write the marker before the partial, so that neither exists without the other's name. */
    method StartDump(name: Name, partial: Partial, app: Id, started: int) returns (s: Status)
      requires Ok() && disk.marker == None && disk.partials == map[]
      requires partial.file == name && name.id in issued && app in issued
      requires Unused(disk, trail, name)
      modifies this`disk, this`trail, this`faults
      ensures Ok() && Transfers(old(disk), old(trail), disk, trail, name)
      ensures s.Done? ==> disk.marker == Some(Dumping(name, partial, app, started)) && partial in disk.partials
      ensures trail.dumped == old(trail).dumped
      ensures faults >= old(faults) && (faults == old(faults) ==> s.Done?)
    {
      s := Announce(Dumping(name, partial, app, started));
      if s.Done? {
        ghost var d, t := disk, trail;
        s := CreatePartial(partial);
        TransfersAgain(old(disk), old(trail), d, t, disk, trail, name);
      }
    }

    method Announce(m: Marker) returns (s: Status)
      requires Ok() && disk.marker == None && m.Dumping? && m.partial.file == m.file
      requires m.file.id in issued && m.app in issued
      requires Unused(disk, trail, m.file)
      modifies this`disk, this`trail, this`faults
      ensures Ok()
      ensures if s.Done? then disk == old(disk).(marker := Some(m)) &&
                              trail == old(trail).(started := old(trail).started[m.file := m.started])
              else disk == old(disk) && trail == old(trail)
      ensures faults >= old(faults) && (faults == old(faults) ==> s.Done?)
      ensures Transfers(old(disk), old(trail), disk, trail, m.file)
    {
      AnnounceKeepsValid(disk, trail, issued, m);
      :- Commit(disk.(marker := Some(m)), trail.(started := trail.started[m.file := m.started]));
      return Done;
    }

    method CreatePartial(partial: Partial) returns (s: Status)
      requires Ok() && disk.marker.Some? && disk.marker.value.Dumping? && disk.marker.value.partial == partial
      requires disk.partials == map[] && disk.marker.value.file !in trail.dumped
      modifies this`disk, this`trail, this`faults
      ensures Ok() && trail == old(trail)
      ensures disk == if s.Done? then old(disk).(partials := map[partial := Identity(0, 0, 0, 0)]) else old(disk)
      ensures faults >= old(faults) && (faults == old(faults) ==> s.Done?)
      ensures Transfers(old(disk), old(trail), disk, trail, disk.marker.value.file)
    {
      var created := map[partial := Identity(0, 0, 0, 0)];
      PartialKeepsValid(disk, trail, issued, created);
      :- Commit(disk.(partials := created), trail);
      return Done;
    }

    /** The dump guard. On failure it removes the partial and then the marker, but only once the
        writer provably stopped (`proven`); otherwise both stay for reconciliation. */
    method RunDump() returns (s: Status, ghost proven: bool)
      requires Ok() && disk.marker.Some? && disk.marker.value.Dumping?
      requires disk.marker.value.partial in disk.partials && disk.marker.value.file !in trail.dumped
      modifies this`disk, this`trail, this`faults
      ensures Ok() && Transfers(old(disk), old(trail), disk, trail, old(disk.marker).value.file)
      ensures s.Done? || !proven ==>
                disk.marker == old(disk.marker) && old(disk.marker).value.partial in disk.partials
      ensures !s.Crashed? ==> old(disk.marker).value.app in disk.dumps
      ensures s.Done? ==>
                && disk.dumps[old(disk.marker).value.app] == Completed
                && Records(trail.dumped, old(disk.marker).value.file,
                           disk.partials[old(disk.marker).value.partial].content)
      ensures s.Refused? && disk.dumps[old(disk.marker).value.app] == Failed(true) ==>
                proven && disk.marker == None && disk.partials == map[]
      ensures faults >= old(faults) && (faults == old(faults) ==> s.Done?)
      ensures s.Refused? && faults == old(faults) + 1 ==> disk.dumps[old(disk.marker).value.app] == Failed(proven)
    {
      var m := disk.marker.value;
      var stopped: bool := *;
      var completes := Attempt();
      proven := stopped;
      if completes {
        s := FillPartial(m);
      } else {
        s := FailDump(m, stopped);
      }
    }

    /** The dump is written, and then recorded as completed. */
    method FillPartial(m: Marker) returns (s: Status)
      requires Ok() && disk.marker == Some(m) && m.Dumping? && m.partial in disk.partials && m.file !in trail.dumped
      modifies this`disk, this`trail, this`faults
      ensures Ok() && m.partial in disk.partials && (s.Done? || s.Crashed?)
      ensures Transfers(old(disk), old(trail), disk, trail, m.file) && disk.marker == Some(m)
      ensures s.Done? ==>
                && m.app in disk.dumps && disk.dumps[m.app] == Completed
                && Records(trail.dumped, m.file, disk.partials[m.partial].content)
      ensures faults >= old(faults) && (faults == old(faults) ==> s.Done?)
    {
      var inode: nat, bytes: nat, changed: int, content: Digest := *, *, *, *;
      var written := disk.partials[m.partial := Identity(inode, bytes, changed, content)];
      PartialKeepsValid(disk, trail, issued, written);
      disk := disk.(partials := written);
      s := RecordCompleted(m);
      DumpTransfers(old(disk), old(trail), disk, trail, m.file);
    }

    method RecordCompleted(m: Marker) returns (s: Status)
      requires Ok() && disk.marker == Some(m) && m.Dumping? && m.partial in disk.partials && m.file !in trail.dumped
      modifies this`disk, this`trail, this`faults
      ensures Ok()
      ensures if s.Done? then && disk == old(disk).(dumps := old(disk).dumps[m.app := Completed])
                              && trail == old(trail).(dumped := trail.dumped)
                              && trail.dumped == old(trail).dumped[m.file := disk.partials[m.partial].content]
              else s.Crashed? && disk == old(disk) && trail == old(trail)
      ensures faults >= old(faults) && (faults == old(faults) ==> s.Done?)
    {
      DumpedKeepsValid(disk, trail, issued, disk.dumps[m.app := Completed]);
      :- Commit(disk.(dumps := disk.dumps[m.app := Completed]),
                trail.(dumped := trail.dumped[m.file := disk.partials[m.partial].content]));
      return Done;
    }

    method FailDump(m: Marker, stopped: bool) returns (s: Status)
      requires Ok() && disk.marker == Some(m) && m.Dumping? && m.partial in disk.partials && m.file !in trail.dumped
      modifies this`disk, this`trail, this`faults
      ensures Ok() && Transfers(old(disk), old(trail), disk, trail, m.file)
      ensures !s.Done? && (!stopped ==> disk.marker == Some(m) && m.partial in disk.partials)
      ensures s.Refused? ==>
                && m.app in disk.dumps && disk.dumps[m.app].Failed?
                && (disk.dumps[m.app] == Failed(true) ==> stopped && disk.marker == None && disk.partials == map[])
      ensures faults >= old(faults)
      ensures faults == old(faults) ==>
                s.Refused? && m.app in disk.dumps && disk.dumps[m.app] == Failed(stopped)
    {
      if stopped {
        s := CleanUpAndRecord(m);
      } else {
        s := RecordFailed(m.app, false);
      }
      DumpTransfers(old(disk), old(trail), disk, trail, m.file);
    }

    /** When the guard dies during its cleanup, the process that watches it cannot prove it. */
    method CleanUpAndRecord(m: Marker) returns (s: Status)
      requires Ok() && disk.marker == Some(m) && m.Dumping? && m.partial in disk.partials && m.file !in trail.dumped
      modifies this`disk, this`trail, this`faults
      ensures Ok() && trail == old(trail) && !s.Done?
      ensures disk == old(disk).(partials := disk.partials, marker := disk.marker, dumps := disk.dumps)
      ensures s.Refused? ==>
                && m.app in disk.dumps && disk.dumps[m.app].Failed?
                && (disk.dumps[m.app] == Failed(true) ==> disk.marker == None && disk.partials == map[])
      ensures faults >= old(faults)
      ensures faults == old(faults) ==> s.Refused? && m.app in disk.dumps && disk.dumps[m.app] == Failed(true)
    {
      var watched: bool := *;
      var cleaned := CleanupPartial(m.partial);
      if cleaned.Crashed? && !watched {
        return Crashed;
      }
      s := RecordFailed(m.app, cleaned.Done?);
    }

    method RecordFailed(app: Id, proven: bool) returns (s: Status)
      requires Ok()
      modifies this`disk, this`trail, this`faults
      ensures Ok() && trail == old(trail)
      ensures if s.Refused? then disk == old(disk).(dumps := old(disk).dumps[app := Failed(proven)])
              else s.Crashed? && disk == old(disk)
      ensures faults >= old(faults)
      ensures faults == old(faults) ==> s.Refused?
    {
      ResultKeepsValid(disk, trail, issued, disk.dumps[app := Failed(proven)], disk.transfers);
      :- Commit(disk.(dumps := disk.dumps[app := Failed(proven)]), trail);
      return Refused;
    }

    /** First the partial, then the marker that names it. */
    method CleanupPartial(partial: Partial) returns (s: Status)
      requires Ok() && disk.marker.Some? && disk.marker.value.Dumping? && disk.marker.value.partial == partial
      requires disk.marker.value.file !in trail.dumped
      modifies this`disk, this`trail, this`faults
      ensures Ok() && trail == old(trail)
      ensures disk == old(disk).(partials := disk.partials, marker := disk.marker)
      ensures disk.marker == old(disk.marker) || (disk.marker == None && disk.partials == map[])
      ensures s.Done? ==> disk.marker == None && disk.partials == map[]
      ensures faults >= old(faults)
      ensures faults == old(faults) ==> s.Done?
    {
      var without := disk.partials - {partial};
      assert without == map[];
      PartialKeepsValid(disk, trail, issued, without);
      :- Commit(disk.(partials := without), trail);
      AbandonKeepsValid(disk, trail, issued);
      :- Commit(disk.(marker := None), trail);
      return Done;
    }

    /** The dump is complete: record its times and the size measured before it. */
    method StartVerification(measured: int) returns (s: Status)
      requires Ok() && disk.marker.Some? && disk.marker.value.Dumping?
      requires disk.marker.value.partial in disk.partials && disk.marker.value.file in trail.dumped && measured > 0
      modifies this`disk, this`trail, this`faults
      ensures Ok() && Transfers(old(disk), old(trail), disk, trail, old(disk.marker).value.file)
      ensures s.Done? ==>
                && disk.marker.Some? && disk.marker.value.Verifying?
                && disk.marker.value.file == old(disk.marker).value.file
                && disk.marker.value.databaseBytes == Some(measured)
      ensures faults >= old(faults) && (faults == old(faults) ==> s.Done?)
      ensures s.Done? ==>
                && disk.partials == old(disk.partials) && disk.archives == old(disk.archives)
                && disk.marker.value.partial == old(disk.marker).value.partial
    {
      var m := disk.marker.value;
      var at: int := *;
      var timeline := Timeline(m.started, Some(at), None, None);
      var verifying := Verifying(m.file, m.partial, m.app, m.started, timeline, Some(measured));
      CompletedKeepsValid(disk, trail, issued, verifying, measured);
      :- Commit(disk.(marker := Some(verifying)),
                trail.(sizes := trail.sizes[m.file := measured]));
      return Done;
    }

    /** Dump, verify, upload and record one new archive. */
    method DumpAndTransfer() returns (s: Status)
      requires Ok() && disk.marker == None && disk.partials == map[]
      modifies this
      ensures Ok() && Grows(old(trail), trail) && Preserves(old(disk), disk)
      ensures s.Done? ==>
                disk.marker == None && exists n :: n in disk.archives && n in trail.dumped && n !in old(trail).dumped
      ensures faults >= old(faults) && (faults == old(faults) ==> s.Done?)
    {
      var stamp: int, started: int := *, *;
      var measured :- DatabaseBytes();
      var ok := Attempt();
      if !ok {
        return Refused;  // admission, the client version or the object key check refused
      }
      var id := FreshId();
      var nonce := FreshId();
      var app := FreshId();
      var name := Name(stamp, id);
      NewNameIsUnused(disk, trail, old(issued), name);
      s := DumpAs(name, Partial(name, nonce), app, started, measured);
      TransfersGiveNothingUp(old(disk), old(trail), disk, trail, name);
    }

    method DumpAs(name: Name, partial: Partial, app: Id, started: int, measured: int) returns (s: Status)
      requires Ok() && disk.marker == None && disk.partials == map[] && measured > 0
      requires partial.file == name && name.id in issued && app in issued
      requires Unused(disk, trail, name)
      modifies this`disk, this`trail, this`faults
      ensures Ok() && Transfers(old(disk), old(trail), disk, trail, name)
      ensures s.Done? ==> disk.marker == None && name in disk.archives && name in trail.dumped
      ensures faults >= old(faults) && (faults == old(faults) ==> s.Done?)
    {
      s := StartDump(name, partial, app, started);
      if !s.Done? {
        return;
      }
      s := CompleteDump(measured);
    }

    method CompleteDump(measured: int) returns (s: Status)
      requires Ok() && disk.marker.Some? && disk.marker.value.Dumping? && measured > 0
      requires disk.marker.value.partial in disk.partials && disk.marker.value.file !in trail.dumped
      modifies this`disk, this`trail, this`faults
      ensures Ok() && Transfers(old(disk), old(trail), disk, trail, old(disk.marker).value.file)
      ensures s.Done? ==>
                && disk.marker == None && old(disk.marker).value.file in disk.archives
                && old(disk.marker).value.file in trail.dumped
      ensures faults >= old(faults) && (faults == old(faults) ==> s.Done?)
    {
      var app := disk.marker.value.app;
      ghost var proven :- RunDump();
      s := VerifyAndUpload(measured, app);
    }

    method VerifyAndUpload(measured: int, app: Id) returns (s: Status)
      requires Ok() && disk.marker.Some? && disk.marker.value.Dumping? && measured > 0
      requires disk.marker.value.partial in disk.partials && disk.marker.value.file in trail.dumped
      modifies this`disk, this`trail, this`faults
      ensures Ok() && Transfers(old(disk), old(trail), disk, trail, old(disk.marker).value.file)
      ensures s.Done? ==> disk.marker == None && old(disk.marker).value.file in disk.archives
      ensures faults >= old(faults) && (faults == old(faults) ==> s.Done?)
    {
      s := StartVerification(measured);
      if !s.Done? {
        return;
      }
      s := FinishArchive(measured);
      ghost var proven;
      s, proven := EndTransfer(app, s);
    }

    /** Finish an interrupted verification or upload if that is safe. */
    method FinishInterrupted() returns (s: Status)
      requires Ok()
      modifies this
      ensures Ok() && Grows(old(trail), trail) && Preserves(old(disk), disk) && old(issued) <= issued
      ensures s.Done? ==> disk.marker == None && disk.partials == map[]
      ensures Carried(old(disk), disk)
      ensures Stuck(old(disk)) ==> !s.Done? && Untouched(old(disk), disk)
      ensures faults >= old(faults)
      ensures faults == old(faults) && (VerificationResumes(old(disk), None) || UploadResumes(old(disk), None)) ==>
                s.Done?
      ensures Stranded(old(disk)) ==> disk == old(disk)
      ensures trail.dumped == old(trail).dumped
      ensures s.Done? ==> CanStart(old(disk)) && disk.archives.Keys == Finished(old(disk))
      ensures faults == old(faults) && CanStart(old(disk)) ==> s.Done?
    {
      s := ResumePending();
      if !s.Done? {
        return;
      }
      if disk.marker == None {
        NoMarkerMeansSettled(disk);
      }
      s := NoPending();
    }

    method ResumePending() returns (s: Status)
      requires Ok()
      modifies this
      ensures Ok() && Grows(old(trail), trail) && Preserves(old(disk), disk) && old(issued) <= issued
      ensures s.Done? ==> disk.marker == None || disk == old(disk)
      ensures Carried(old(disk), disk)
      ensures Stuck(old(disk)) ==> (s.Done? ==> disk == old(disk)) && Untouched(old(disk), disk)
      ensures Stranded(old(disk)) ==> disk == old(disk)
      ensures faults >= old(faults)
      ensures faults == old(faults) && (VerificationResumes(old(disk), None) || UploadResumes(old(disk), None)) ==>
                s.Done? && disk.marker == None
      ensures trail.dumped == old(trail).dumped
      ensures s.Done? && disk.marker == None ==> CanStart(old(disk)) && disk.archives.Keys == Finished(old(disk))
      ensures old(disk.marker) == None ==> s.Done? && disk == old(disk)
    {
      if disk.marker.Some? && disk.marker.value.Verifying? {
        s := ResumeVerification(None);
      } else if disk.marker.Some? && disk.marker.value.Uploading? {
        s := ResumeUpload(None);
      } else {
        s := Done;
      }
    }

    /** The scheduled command: finish an interrupted operation, make room, take a new backup,
        make room again. A canary makes no room. */
    method Backup(bootstrap: bool, canary: bool) returns (s: Status)
      requires Ok()
      modifies this
      ensures Ok() && Continues(old(trail), trail) && disk.pin == old(disk.pin)
      ensures trail.remeasured == old(trail).remeasured && (canary ==> trail.pruned == old(trail).pruned)
      ensures s.Done? ==> disk.marker == None
      ensures s.Done? && !canary ==> |disk.archives.Keys| <= 2 && TookBackup(old(trail), disk, trail)
      ensures canary ==> Preserves(old(disk), disk)
      ensures canary && s.Done? ==> exists n :: n in disk.archives && n in trail.dumped && n !in old(trail).dumped
      ensures FloorHeld(old(disk), disk) && AllOutlived(old(disk), disk)
      ensures Stuck(old(disk)) ==> !s.Done? && Untouched(old(disk), disk)
      ensures Stranded(old(disk)) ==> disk == old(disk)
      // It completes only if and, unless the environment fails it, whenever it can start, has its two archives or
      // need none, and may prune or need not.
      ensures s.Done? ==>
                && CanStart(old(disk)) && (bootstrap || |Finished(old(disk))| >= 2)
                && (canary || old(disk.canaryApproved))
      ensures faults >= old(faults)
      ensures (&& faults == old(faults) && CanStart(old(disk))
               && (bootstrap || |Finished(old(disk))| >= 2)
               && (canary || old(disk.canaryApproved))) ==> s.Done?
      // Without the approval a normal backup dumps nothing.
      ensures !canary && !old(disk.canaryApproved) ==> !s.Done? && trail.dumped == old(trail).dumped
      ensures !bootstrap && |Finished(old(disk))| < 2 ==> !s.Done? && trail.dumped == old(trail).dumped
    {
      s := FinishInterrupted();
      PreservedCopies(old(disk), disk);
      PreservedAreOutlived(old(disk), disk);
      if s.Done? {
        ghost var ready := disk;
        s := BackupWhenReady(bootstrap, canary);
        OutlivedAgain(old(disk), ready, disk);
      }
    }

    method BackupWhenReady(bootstrap: bool, canary: bool) returns (s: Status)
      requires Ok() && disk.marker == None
      modifies this
      ensures Ok() && Continues(old(trail), trail) && disk.pin == old(disk.pin)
      ensures trail.remeasured == old(trail).remeasured && (canary ==> trail.pruned == old(trail).pruned)
      ensures s.Done? ==> disk.marker == None
      ensures s.Done? && !canary ==> |disk.archives.Keys| <= 2 && TookBackup(old(trail), disk, trail)
      ensures canary ==> Preserves(old(disk), disk)
      ensures canary && s.Done? ==> exists n :: n in disk.archives && n in trail.dumped && n !in old(trail).dumped
      ensures FloorHeld(old(disk), disk) && AllOutlived(old(disk), disk)
      ensures faults >= old(faults)
      ensures if (bootstrap || |old(disk).archives.Keys| >= 2) && (canary || old(disk.canaryApproved))
              then faults == old(faults) ==> s.Done?
              else s == Refused && trail.dumped == old(trail).dumped
    {
      NoMarkerMeansSettled(disk);
      PreservedAreOutlived(disk, disk);
      var names :- Inventory(true);
      ListedAreAsMany(names, disk.archives.Keys);
      if |names| < 2 && !bootstrap {
        return Refused;
      }
      if canary {
        s := TakeBackup();
        PreservedCopies(old(disk), disk);
        PreservedAreOutlived(old(disk), disk);
      } else {
        s := MakeRoomAndBackup();
      }
      if s.Done? {
        s := Report();
      }
    }

    /** The last word of a backup: every archive listed once more, and each object where it should be. */
    method Report() returns (s: Status)
      requires Ok() && disk.marker == None
      modifies this`faults
      ensures !s.Crashed? && faults >= old(faults) && (faults == old(faults) ==> s.Done?)
    {
      NoMarkerMeansSettled(disk);
      var listed, _ := Inventory(true);
      return listed;
    }

    method MakeRoomAndBackup() returns (s: Status)
      requires Ok() && disk.marker == None
      modifies this
      ensures Ok() && Continues(old(trail), trail) && disk.pin == old(disk.pin)
      ensures trail.remeasured == old(trail).remeasured
      ensures s.Done? ==> disk.marker == None && |disk.archives.Keys| <= 2 && TookBackup(old(trail), disk, trail)
      ensures FloorHeld(old(disk), disk) && AllOutlived(old(disk), disk)
      ensures faults >= old(faults) && (faults == old(faults) && old(disk.canaryApproved) ==> s.Done?)
      ensures !old(disk.canaryApproved) ==> s == Refused && disk == old(disk) && trail == old(trail)
    {
      if !disk.canaryApproved {
        return Refused;
      }
      :- Prune();
      ghost var roomy := disk;
      s := BackupAndPrune();
      OutlivedAgain(old(disk), roomy, disk);
    }

    method BackupAndPrune() returns (s: Status)
      requires Ok() && disk.marker == None
      modifies this
      ensures Ok() && Continues(old(trail), trail) && disk.pin == old(disk.pin)
      ensures trail.remeasured == old(trail).remeasured
      ensures s.Done? ==> disk.marker == None && |disk.archives.Keys| <= 2 && TookBackup(old(trail), disk, trail)
      ensures FloorHeld(old(disk), disk) && AllOutlived(old(disk), disk)
      ensures faults >= old(faults) && (faults == old(faults) && old(disk.canaryApproved) ==> s.Done?)
    {
      s := TakeBackup();
      PreservedCopies(old(disk), disk);
      PreservedAreOutlived(old(disk), disk);
      ghost var taken := disk;
      if s.Done? {
        ghost var n :| n in disk.archives && n in trail.dumped && n !in old(trail).dumped;
        s := PruneAfter(n);
        OutlivedAgain(old(disk), taken, disk);
        assert Outlived(disk, n);
      }
    }

    method PruneAfter(ghost n: Name) returns (s: Status)
      requires Ok() && n in disk.archives
      modifies this`disk, this`trail, this`faults
      ensures Ok() && Continues(old(trail), trail) && disk.pin == old(disk.pin)
      ensures trail.remeasured == old(trail).remeasured && FloorHeld(old(disk), disk)
      ensures trail.dumped == old(trail).dumped && (n in disk.archives || n in trail.pruned)
      ensures AllOutlived(old(disk), disk)
      ensures s.Done? ==> disk.marker == None && |disk.archives.Keys| <= 2
      ensures faults >= old(faults)
      ensures faults == old(faults) && old(disk.marker) == None && old(disk.canaryApproved) ==> s.Done?
    {
      s := Prune();
    }

    method TakeBackup() returns (s: Status)
      requires Ok() && disk.marker == None
      modifies this
      ensures Ok() && Grows(old(trail), trail) && Preserves(old(disk), disk)
      ensures s.Done? ==>
                disk.marker == None && exists n :: n in disk.archives && n in trail.dumped && n !in old(trail).dumped
      ensures faults >= old(faults) && (faults == old(faults) ==> s.Done?)
    {
      NoMarkerMeansSettled(disk);
      var names :- Inventory(true);
      var selected, _ := Select(names);
      if !selected.Done? {
        return Refused;
      }
      s := DumpAndTransfer();
    }

    // ------------------------------------------------ operator commands

    method PinRestored(file: Name, sha: Digest) returns (s: Status)
      requires Ok()
      modifies this`disk, this`trail, this`faults
      ensures Ok() && trail == old(trail)
      ensures disk == if s.Done? then old(disk).(pin := Some(Pin(file, sha))) else old(disk)
      ensures s.Done? ==> old(disk.marker) == None
      // It pins exactly a settled archive with the checksum of its receipt.
      ensures s.Done? ==> file in disk.archives && file in disk.receipts && disk.receipts[file].sha == sha
      ensures faults >= old(faults)
      ensures (&& faults == old(faults) && old(disk.marker) == None
               && file in disk.archives && file in disk.receipts && disk.receipts[file].sha == sha) ==> s.Done?
    {
      s := NoPending();
      if !s.Done? {
        return;
      }
      var names :- Inventory(true);
      if file !in names || disk.receipts[file].sha != sha {
        return Refused;
      }
      PinKeepsValid(disk, trail, issued, Pin(file, sha));
      :- Commit(disk.(pin := Some(Pin(file, sha))), trail);
      return Done;
    }

    method ApproveChecksums(file: Name, sha: Digest) returns (s: Status)
      requires Ok()
      modifies this`disk, this`trail, this`faults
      ensures Ok() && trail == old(trail)
      ensures disk == if s.Done? then old(disk).(canaryApproved := true) else old(disk)
      ensures s.Done? ==>
                && old(disk.marker) == None
                && file in disk.archives && file in disk.receipts && disk.receipts[file].sha == sha
                && disk.receipts[file].integrity.ChecksumUpload?
      ensures faults >= old(faults)
      ensures (&& faults == old(faults) && old(disk.marker) == None
               && file in disk.archives && file in disk.receipts && disk.receipts[file].sha == sha
               && disk.receipts[file].integrity.ChecksumUpload?) ==> s.Done?
    {
      s := NoPending();
      if !s.Done? {
        return;
      }
      var names :- Inventory(true);
      if file !in names || disk.receipts[file].sha != sha || !disk.receipts[file].integrity.ChecksumUpload? {
        return Refused;
      }
      ApprovalKeepsValid(disk, trail, issued);
      :- Commit(disk.(canaryApproved := true), trail);
      return Done;
    }

    // ------------------------------------------------ whole runs

    /** One command with whatever arguments. */
    method Command() returns (s: Status)
      requires Ok()
      modifies this
      ensures Ok() && Continues(old(trail), trail) && FloorHeld(old(disk), disk) && AllOutlived(old(disk), disk)
      ensures Stuck(old(disk)) ==> Untouched(old(disk), disk)
      ensures Stranded(old(disk)) ==> disk == old(disk)
    {
      var command: int, yes: bool, no: bool, given: bool, bytes: int := *, *, *, *, *;
      var stamp: int, id: Id, sha: Digest, app: Id := *, *, *, *;
      var file, size := Name(stamp, id), if given then Some(bytes) else None;
      s := Refused;
      if command == 0 {
        s := Backup(yes, no);
      } else if command == 1 {
        s := ResumeVerification(size);
        PreservedCopies(old(disk), disk);
        PreservedAreOutlived(old(disk), disk);
      } else if command == 2 {
        s := ResumeUpload(size);
        PreservedCopies(old(disk), disk);
        PreservedAreOutlived(old(disk), disk);
      } else if command == 3 {
        s := Prune();
      } else if command == 4 {
        var key := if no then None else Some(if yes then Original(file) else Resumed(app, file));
        s := ImportReceipt(file, size, sha, key);
        MoreCopiesHoldTheFloor(old(disk), disk);
        PreservedAreOutlived(old(disk), disk);
      } else if command == 5 {
        s := Restore();
        SameFilesSameCopies(old(disk), disk);
        PreservedAreOutlived(old(disk), disk);
      } else if command == 6 {
        s := PinRestored(file, sha);
        SameFilesSameCopies(old(disk), disk);
        PreservedAreOutlived(old(disk), disk);
      } else {
        s := ApproveChecksums(file, sha);
        SameFilesSameCopies(old(disk), disk);
        PreservedAreOutlived(old(disk), disk);
      }
    }

    /** Any commands in any order, each crashing, refusing or completing wherever it likes. */
    method Operate(commands: nat)
      requires Ok()
      modifies this
      ensures Ok() && Continues(old(trail), trail) && FloorHeld(old(disk), disk) && AllOutlived(old(disk), disk)
      ensures forall n :: n in trail.dumped ==> Safe(disk, trail, n)
      ensures Stuck(old(disk)) ==> Untouched(old(disk), disk)
      ensures Stranded(old(disk)) ==> disk == old(disk)
    {
      for i := 0 to commands
        invariant Ok() && Continues(old(trail), trail) && FloorHeld(old(disk), disk) && AllOutlived(old(disk), disk)
        invariant Stuck(old(disk)) ==> Untouched(old(disk), disk)
        invariant Stranded(old(disk)) ==> disk == old(disk)
      {
        ghost var before := disk;
        var _ := Command();
        OutlivedAgain(old(disk), before, disk);
      }
    }
  }
}
