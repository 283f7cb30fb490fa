/** What the backup host keeps on disk, and what must be true of it at every crash point. */
module BackupDisk {

  import opened Options
  import Sets

  type Id = nat      // a uuid
  type Digest = nat  // a sha256

  /** database-<timestamp>-<uuid>.dump; names sort by timestamp, then uuid. */
  datatype Name = Name(stamp: int, id: Id)

  predicate Newer(a: Name, b: Name) {
    a.stamp > b.stamp || (a.stamp == b.stamp && a.id > b.id)
  }

  /** .<name>.partial.<uuid> */
  datatype Partial = Partial(file: Name, nonce: Id)

  /** What `identity` reads off a file, and the checksum of the content it stands for: a file
      whose identity is unchanged has its content unchanged. Publishing by link and unlink
      changes `changed` only. */
  datatype Identity = Identity(inode: nat, bytes: nat, changed: int, content: Digest)

  /** The object key of an upload: the archive's own, or one private to a resumed attempt. */
  datatype Key = Original(file: Name) | Resumed(app: Id, file: Name)

  datatype Timeline = Timeline(
    dumpStarted: int,
    dumpCompleted: Option<int>,
    structuralVerified: Option<int>,
    localSha: Option<int>)

  /** pending.json, by phase. The first marker of a run carries no size. */
  datatype Marker =
    | Dumping(file: Name, partial: Partial, app: Id, started: int)
    | Verifying(file: Name, partial: Partial, app: Id, started: int, timeline: Timeline, databaseBytes: Option<int>)
    | Uploading(file: Name, app: Id, dumpApp: Id, started: int, timeline: Timeline, databaseBytes: Option<int>,
                identity: Identity, sha: Digest, key: Key)
    | Importing(file: Name, started: int)
    | Restoring(file: Name, started: int)

  /** An archive is on its way from the database to its receipt. */
  predicate InTransit(m: Marker) {
    m.Dumping? || m.Verifying? || m.Uploading?
  }

  datatype Integrity = ChecksumUpload | OperatorSha256

  datatype Receipt = Receipt(
    file: Name,
    identity: Identity,
    sha: Digest,
    databaseBytes: int,
    key: Key,
    integrity: Integrity,
    timeline: Timeline)

  /** The known-good pin. */
  datatype Pin = Pin(file: Name, sha: Digest)

  /** A guard's result.json; a run that crashed left none. */
  datatype GuardResult = Completed | Failed(cleanupProven: bool)

  datatype Disk = Disk(
    archives: map<Name, Identity>,
    partials: map<Partial, Identity>,
    receipts: map<Name, Receipt>,
    marker: Option<Marker>,
    pin: Option<Pin>,
    canaryApproved: bool,
    dumps: map<Id, GuardResult>,
    transfers: map<Id, GuardResult>)

  const EMPTY_DISK := Disk(map[], map[], map[], None, None, false, map[], map[])

  // ------------------------------------------------ nothing unaccounted for

  predicate Receipted(d: Disk, n: Name)
    requires n in d.archives
  {
    n in d.receipts && d.receipts[n].file == n && d.receipts[n].identity == d.archives[n]
  }

  /** The marker's own archive and its own partial. */
  predicate OwnsArchive(m: Option<Marker>, n: Name) {
    m.Some? && (m.value.Verifying? || m.value.Uploading?) && m.value.file == n
  }

  predicate OwnsPartial(m: Option<Marker>, p: Partial) {
    m.Some? && (m.value.Dumping? || m.value.Verifying?) && m.value.partial == p
  }

  /** Each archive without a matching receipt, and each partial, is the one the single
      pending marker names. */
  ghost predicate Accounted(d: Disk) {
    && (forall n :: n in d.archives ==> Receipted(d, n) || OwnsArchive(d.marker, n))
    && (forall p :: p in d.partials ==> OwnsPartial(d.marker, p))
  }

  /** How far the operation named by the marker has come: what has been checked is stamped, sizes
      are positive, and a verified dump has at least one of its two names on disk. */
  ghost predicate WellFormed(d: Disk) {
    && (d.marker.Some? ==>
          match d.marker.value
          case Dumping(f, p, _, _) => p.file == f && f !in d.archives && f !in d.receipts
          case Verifying(f, p, _, started, t, size) =>
            && p.file == f && f !in d.receipts && t.dumpStarted == started && t.dumpCompleted.Some?
            && (size.Some? ==> size.value > 0) && (p in d.partials || f in d.archives)
          case Uploading(f, _, _, started, t, size, id, sha, key) =>
            && f in d.archives && d.archives[f] == id && t.dumpStarted == started && Verified(t)
            && (size.Some? ==> size.value > 0) && key.file == f && sha == id.content
            && (f in d.receipts ==>
                  && d.receipts[f].file == f && d.receipts[f].identity == id
                  && d.receipts[f].sha == sha && d.receipts[f].key == key)
          case Importing(f, _) => f in d.archives && Receipted(d, f)
          case Restoring(f, _) => f in d.archives)
    && (forall n :: n in d.receipts ==> d.receipts[n].file == n && d.receipts[n].sha == d.receipts[n].identity.content)
  }

  predicate Verified(t: Timeline) {
    t.dumpCompleted.Some? && t.structuralVerified.Some? && t.localSha.Some?
  }

  /** The known-good archive stays, with the receipt it was pinned by. */
  ghost predicate PinHeld(d: Disk) {
    d.pin.Some? ==>
      && d.pin.value.file in d.archives
      && Receipted(d, d.pin.value.file)
      && d.receipts[d.pin.value.file].sha == d.pin.value.sha
      && (d.marker.Some? && InTransit(d.marker.value) ==> d.marker.value.file != d.pin.value.file)
  }

  /** The dump completed and the last attempt to transfer it has provably stopped. */
  predicate Stopped(d: Disk, dumpApp: Id, app: Id) {
    && dumpApp in d.dumps && d.dumps[dumpApp] == Completed
    && app in d.transfers && d.transfers[app] == Failed(true)
  }

  /** A crash struck between linking a verified partial to its final name and unlinking it. */
  predicate Stranded(d: Disk) {
    && d.marker.Some? && d.marker.value.Verifying?
    && d.marker.value.partial in d.partials && d.marker.value.file in d.archives
  }

  /** The operation the marker names can still be taken up by a command: its dump completed, its
      last transfer provably stopped, and its file is unambiguous. */
  predicate Resumable(d: Disk) {
    && d.marker.Some?
    && match d.marker.value
       case Verifying(_, _, app, _, _, _) => Stopped(d, app, app) && !Stranded(d)
       case Uploading(_, app, dumpApp, _, _, _, _, _, _) => Stopped(d, dumpApp, app)
       case _ => false
  }

  predicate Stuck(d: Disk) {
    d.marker.Some? && !Resumable(d)
  }

  /** The operator gives the size exactly when the marker, of an older release, has none. */
  predicate SizeFits(m: Marker, size: Option<int>)
    requires m.Verifying? || m.Uploading?
  {
    if m.databaseBytes.Some? then size.None? else size.Some? && size.value > 0
  }

  /** The arguments with which a command takes the operation up. */
  predicate VerificationResumes(d: Disk, size: Option<int>) {
    Resumable(d) && d.marker.value.Verifying? && SizeFits(d.marker.value, size)
  }

  predicate UploadResumes(d: Disk, size: Option<int>) {
    && Resumable(d) && d.marker.value.Uploading? && SizeFits(d.marker.value, size)
    && d.marker.value.file !in d.receipts
  }

  predicate UploadReconciles(d: Disk, file: Name, size: Option<int>, sha: Digest, key: Option<Key>) {
    && Resumable(d) && d.marker.value.Uploading? && SizeFits(d.marker.value, size)
    && file == d.marker.value.file && sha == d.marker.value.sha && key == Some(d.marker.value.key)
  }

  /** A disk is resumable exactly when some command with some arguments takes it up. */
  lemma ResumableMeansTakenUp(d: Disk)
    ensures Resumable(d) <==>
            || (exists size :: VerificationResumes(d, size))
            || (exists size :: UploadResumes(d, size))
            || (exists file, size, sha, key :: UploadReconciles(d, file, size, sha, key))
  {
    if Resumable(d) {
      var m := d.marker.value;
      var size := if m.databaseBytes.Some? then None else Some(1);
      assert m.Verifying? ==> VerificationResumes(d, size);
      assert m.Uploading? ==> UploadReconciles(d, m.file, size, m.sha, Some(m.key));
    }
  }

  /** A scheduled backup finds nothing pending, or something it can finish without an operator. */
  predicate CanStart(d: Disk) {
    d.marker.None? || VerificationResumes(d, None) || UploadResumes(d, None)
  }

  /** The archives there are once what is pending has been finished. */
  function Finished(d: Disk): set<Name> {
    d.archives.Keys + if d.marker.Some? then {d.marker.value.file} else {}
  }

  /** By the guards' results: the dump completed, the last attempt to transfer it failed and
      provably stopped, its size is recorded, and either it is under one of its two names or it
      is published and has no receipt yet. */
  lemma CanStartMeans(d: Disk)
    requires WellFormed(d)
    ensures CanStart(d) <==>
            match d.marker
            case None => true
            case Some(Verifying(file, partial, app, _, _, size)) =>
              && size.Some? && app in d.dumps && d.dumps[app] == Completed
              && app in d.transfers && d.transfers[app] == Failed(true)
              && (partial in d.partials <==> file !in d.archives)
            case Some(Uploading(file, app, dumpApp, _, _, size, _, _, _)) =>
              && size.Some? && dumpApp in d.dumps && d.dumps[dumpApp] == Completed
              && app in d.transfers && d.transfers[app] == Failed(true)
              && file !in d.receipts
            case Some(_) => false
  {
  }

  /** Nothing but the result of some other guard was written. */
  predicate Untouched(d: Disk, d': Disk) {
    d' == d.(transfers := d'.transfers) && (Stuck(d) ==> Stuck(d'))
  }

  /** A verification marker has at least one of its names on disk, so finding both names or
      neither is finding both. */
  lemma AmbiguousMeansStranded(d: Disk)
    requires WellFormed(d) && d.marker.Some? && d.marker.value.Verifying?
    ensures d.marker.value.partial in d.partials <==> d.marker.value.file in d.archives <==> Stranded(d)
  {
  }

  // ------------------------------------------------ where a receipt's evidence came from

  /** What was first recorded for each archive, and every object key an upload was tried with:
      the start of its dump, the database size a marker first carried, the checksum of its
      first upload marker. A marker from an older release may carry no size. Importing an
      independent receipt measures the database anew; `remeasured` are the archives it did.
      `dumped` has the content of every dump that was recorded as completed, `pruned` the
      archives that retention removed, `kept` the two it last kept. */
  datatype Trail = Trail(
    started: map<Name, int>,
    sizes: map<Name, int>,
    seals: map<Name, Digest>,
    attempts: seq<Key>,
    remeasured: set<Name>,
    dumped: map<Name, Digest>,
    pruned: set<Name>,
    kept: seq<Name>)

  const NO_TRAIL := Trail(map[], map[], map[], [], {}, map[], {}, [])

  ghost predicate Extends<K, V>(a: map<K, V>, b: map<K, V>) {
    forall k :: k in a ==> k in b && a[k] == b[k]
  }

  /** First records are never rewritten and attempts are never forgotten. */
  ghost predicate Continues(a: Trail, b: Trail) {
    && Extends(a.started, b.started) && Extends(a.sizes, b.sizes) && Extends(a.seals, b.seals)
    && a.attempts <= b.attempts && a.remeasured <= b.remeasured
    && Extends(a.dumped, b.dumped) && a.pruned <= b.pruned
  }

  /** Besides, no archive got a new size and none was pruned. */
  ghost predicate Grows(a: Trail, b: Trail) {
    Continues(a, b) && a.remeasured == b.remeasured && a.pruned == b.pruned && a.kept == b.kept
  }

  ghost predicate Records<V>(m: map<Name, V>, n: Name, v: V) {
    n in m && m[n] == v
  }

  ghost predicate ReceiptTraced(r: Receipt, t: Trail) {
    && Records(t.started, r.file, r.timeline.dumpStarted)
    && (r.file in t.sizes && r.file !in t.remeasured ==> t.sizes[r.file] == r.databaseBytes)
    && Records(t.seals, r.file, r.sha) && r.file in t.dumped
  }

  /** A marker agrees with what was first recorded for its archive. */
  ghost predicate MarkerTraced(m: Marker, t: Trail) {
    match m
    case Dumping(f, _, _, started) => Records(t.started, f, started) && f !in t.sizes && f !in t.seals
    case Verifying(f, _, _, started, _, size) =>
      && Records(t.started, f, started) && f !in t.seals && f in t.dumped
      && (if size.Some? then Records(t.sizes, f, size.value) else f !in t.sizes)
    case Uploading(f, _, _, started, _, size, _, sha, _) =>
      && Records(t.started, f, started) && Records(t.seals, f, sha) && f in t.dumped
      && (if size.Some? then Records(t.sizes, f, size.value) else f !in t.sizes)
    case _ => true
  }

  ghost predicate Traced(d: Disk, t: Trail) {
    && (forall n :: n in d.receipts ==> ReceiptTraced(d.receipts[n], t))
    && (d.marker.Some? ==> MarkerTraced(d.marker.value, t))
  }

  // ------------------------------------------------ object keys

  predicate KeyIssued(k: Key, issued: set<Id>) {
    k.file.id in issued && (k.Resumed? ==> k.app in issued)
  }

  ghost predicate Distinct<T>(s: seq<T>) {
    forall i, j :: 0 <= i < j < |s| ==> s[i] != s[j]
  }

  /** No two uploads were tried with one key, and an operation that has not reached its
      upload has not used its archive's key. */
  ghost predicate KeysFresh(d: Disk, t: Trail, issued: set<Id>) {
    && Distinct(t.attempts)
    && (forall k :: k in t.attempts ==> KeyIssued(k, issued))
    && (forall n :: n in t.started || n in t.sizes || n in t.seals || n in t.dumped || n in t.pruned ==>
          n.id in issued)
    && (d.marker.Some? && (d.marker.value.Dumping? || d.marker.value.Verifying?) ==>
          Original(d.marker.value.file) !in t.attempts)
    && (d.marker.Some? ==> d.marker.value.file.id in issued)
    && (d.marker.Some? && InTransit(d.marker.value) ==>
          d.marker.value.app in issued && d.marker.value.file !in t.pruned)
    && (forall n :: n in d.archives || n in d.receipts ==> n.id in issued)
  }

  // ------------------------------------------------ completed dumps

  /** The marker names `n`, and what its operation has on disk is the dump with content `c`. */
  predicate HeldByMarker(d: Disk, n: Name, c: Digest) {
    && d.marker.Some? && d.marker.value.file == n
    && match d.marker.value
       case Dumping(_, p, _, _) => p in d.partials && d.partials[p].content == c
       case Verifying(f, p, _, _, _, _) =>
         (p in d.partials ==> d.partials[p].content == c) && (f in d.archives ==> d.archives[f].content == c)
       case Uploading(_, _, _, _, _, _, _, sha, _) => sha == c
       case _ => false
  }

  /** The dump of `n` is held under the marker, or has its receipt, or retention removed it. */
  predicate Safe(d: Disk, t: Trail, n: Name)
    requires n in t.dumped
  {
    || HeldByMarker(d, n, t.dumped[n])
    || (n in d.archives && Receipted(d, n) && d.receipts[n].sha == t.dumped[n])
    || n in t.pruned
  }

  ghost predicate DumpsKept(d: Disk, t: Trail) {
    forall n :: n in t.dumped ==> Safe(d, t, n)
  }

  /** What pruning costs: archives that retention removed are gone, and once there are any, the
      two that were kept last are on disk with their receipts, the first newer than all of them. */
  ghost predicate Retained(d: Disk, t: Trail) {
    && (t.pruned != {} ==>
          && |t.kept| == 2 && t.kept[0] != t.kept[1]
          && t.kept[0] in d.archives && Receipted(d, t.kept[0])
          && t.kept[1] in d.archives && Receipted(d, t.kept[1])
          && forall n :: n in t.pruned ==> n !in d.archives && Newer(t.kept[0], n))
  }

  /** An archive with its receipt is newer than `n`. */
  ghost predicate Superseded(d: Disk, n: Name) {
    exists o :: o in Copies(d) && Newer(o, n)
  }

  lemma PrunedAreSuperseded(d: Disk, t: Trail, n: Name)
    requires Retained(d, t) && n in t.pruned
    ensures n !in d.archives && |Copies(d)| >= 2 && Superseded(d, n)
  {
    assert t.kept[0] in Copies(d) && t.kept[1] in Copies(d);
    Sets.SubsetIsNoLarger({t.kept[0], t.kept[1]}, Copies(d));
  }

  ghost predicate Valid(d: Disk, t: Trail, issued: set<Id>) {
    && Accounted(d) && WellFormed(d) && PinHeld(d) && Traced(d, t) && KeysFresh(d, t, issued)
    && DumpsKept(d, t) && Retained(d, t)
  }

  /** Whatever happened since, a dump that was recorded as completed is on disk with its content,
      as the marker's partial or archive or as an archive with its receipt; or retention removed
      it, and then two copies with receipts are on disk and one of them is newer. */
  lemma CompletedDumpIsNeverLost(
    d: Disk, t: Trail, issued: set<Id>, d': Disk, t': Trail, issued': set<Id>, n: Name)
    requires Valid(d, t, issued) && Valid(d', t', issued') && Continues(t, t') && n in t.dumped
    ensures || (n in d'.archives && d'.archives[n].content == t.dumped[n] &&
                (OwnsArchive(d'.marker, n) || Receipted(d', n)))
            || (exists p :: p in d'.partials && p.file == n && OwnsPartial(d'.marker, p) &&
                  d'.partials[p].content == t.dumped[n])
            || (n in t'.pruned && |Copies(d')| >= 2 && Superseded(d', n))
  {
    assert Safe(d', t', n) && t'.dumped[n] == t.dumped[n];
    if n in t'.pruned {
      PrunedAreSuperseded(d', t', n);
    }
  }

  /** Every archive is such a dump, so the same holds of whatever is on disk. */
  lemma ArchivesAreDumps(d: Disk, t: Trail, issued: set<Id>, n: Name)
    requires Valid(d, t, issued) && n in d.archives
    ensures n in t.dumped
  {
    if Receipted(d, n) {
      assert ReceiptTraced(d.receipts[n], t);
    } else {
      assert MarkerTraced(d.marker.value, t);
    }
  }

  /** A dump in verification or upload is one that completed. */
  predicate Carries(d: Disk, n: Name) {
    d.marker.Some? && (d.marker.value.Verifying? || d.marker.value.Uploading?) && d.marker.value.file == n
  }

  /** It stays in transit until it has its receipt. */
  ghost predicate Carried(d: Disk, d': Disk) {
    forall n :: Carries(d, n) ==> Carries(d', n) || (n in d'.archives && Receipted(d', n))
  }

  /** What no command but pruning gives up: archives, receipts, the pin and the approval. */
  ghost predicate Preserves(d: Disk, d': Disk) {
    && Extends(d.archives, d'.archives) && Extends(d.receipts, d'.receipts)
    && d'.pin == d.pin && d'.canaryApproved == d.canaryApproved
  }

  /** Apart from the marker, the partials and guard results, only archive `f` changed. */
  ghost predicate OnlyTouches(d: Disk, d': Disk, f: Name) {
    && d'.archives - {f} == d.archives - {f} && d'.receipts - {f} == d.receipts - {f}
    && d'.pin == d.pin && d'.canaryApproved == d.canaryApproved
  }

  /** The archives with a matching receipt. */
  ghost function Copies(d: Disk): set<Name> {
    set n | n in d.archives && Receipted(d, n)
  }

  /** Two copies, once there, stay. */
  ghost predicate FloorHeld(d: Disk, d': Disk) {
    |Copies(d)| >= 2 ==> |Copies(d')| >= 2
  }

  lemma MoreCopiesHoldTheFloor(d: Disk, d': Disk)
    requires Copies(d) <= Copies(d')
    ensures FloorHeld(d, d')
  {
    Sets.SubsetIsNoLarger(Copies(d), Copies(d'));
  }

  /** `m'` is `m`, or `m` with an entry for `k` it did not have. */
  ghost predicate Adds<K, V>(m: map<K, V>, m': map<K, V>, k: K) {
    m' == m || (k !in m && k in m' && m' == m[k := m'[k]])
  }

  /** Part of the transfer of archive `f`: at most its own archive, receipt and first records are
      added, and apart from them only the marker, the partials and guard results change. */
  ghost predicate Transfers(d: Disk, t: Trail, d': Disk, t': Trail, f: Name) {
    && Adds(d.archives, d'.archives, f) && Adds(d.receipts, d'.receipts, f)
    && d'.pin == d.pin && d'.canaryApproved == d.canaryApproved
    && Adds(t.started, t'.started, f) && Adds(t.sizes, t'.sizes, f) && Adds(t.seals, t'.seals, f)
    && t.attempts <= t'.attempts && t'.remeasured == t.remeasured
    && Adds(t.dumped, t'.dumped, f) && t'.pruned == t.pruned && t'.kept == t.kept
    && (Carries(d, f) ==> Carries(d', f) || f in d'.receipts)
  }

  /** A dump touches its partial, its marker and its records. */
  lemma DumpTransfers(d: Disk, t: Trail, d': Disk, t': Trail, f: Name)
    requires d' == d.(partials := d'.partials, marker := d'.marker, dumps := d'.dumps) && !Carries(d, f)
    requires t' == t.(started := t'.started, dumped := t'.dumped)
    requires Adds(t.started, t'.started, f) && Adds(t.dumped, t'.dumped, f)
    ensures Transfers(d, t, d', t', f)
  {
  }

  lemma TransfersAgain(d: Disk, t: Trail, d': Disk, t': Trail, d'': Disk, t'': Trail, f: Name)
    requires Transfers(d, t, d', t', f) && Transfers(d', t', d'', t'', f)
    ensures Transfers(d, t, d'', t'', f)
  {
  }

  lemma TransfersGiveNothingUp(d: Disk, t: Trail, d': Disk, t': Trail, f: Name)
    requires Transfers(d, t, d', t', f)
    ensures Preserves(d, d') && Grows(t, t')
  {
  }

  lemma TransferAddsOne(d: Disk, t: Trail, d': Disk, t': Trail, f: Name)
    requires Transfers(d, t, d', t', f) && f in d'.archives
    ensures d'.archives.Keys == d.archives.Keys + {f}
  {
  }

  /** A transfer gives its archive up only to its receipt. */
  lemma TransferCarries(d: Disk, t: Trail, issued: set<Id>, d': Disk, t': Trail, issued': set<Id>, f: Name)
    requires Valid(d, t, issued) && Valid(d', t', issued') && Transfers(d, t, d', t', f) && Carries(d, f)
    ensures Carried(d, d')
  {
    assert Safe(d', t', f);
  }

  /** Replacing the receipt of an archive by another of the same identity loses no copy. */
  lemma ReplacedReceiptTouchesOne(d: Disk, d': Disk, r: Receipt)
    requires r.file in d.archives && r.identity == d.archives[r.file]
    requires d' == d.(receipts := d.receipts[r.file := r], marker := d'.marker)
    ensures OnlyTouches(d, d', r.file) && Copies(d) <= Copies(d')
  {
    forall n | n in Copies(d)
      ensures n in Copies(d')
    {
    }
  }

  lemma SameFilesSameCopies(d: Disk, d': Disk)
    requires d'.archives == d.archives && d'.receipts == d.receipts
    ensures Copies(d') == Copies(d)
  {
  }

  lemma PreservedCopies(d: Disk, d': Disk)
    requires Preserves(d, d')
    ensures Copies(d) <= Copies(d') && FloorHeld(d, d')
  {
    MoreCopiesHoldTheFloor(d, d');
  }

  /** Receipts go only with the archives they are of, and none changes. */
  ghost predicate ReceiptsKept(d: Disk, d': Disk) {
    && Extends(d'.receipts, d.receipts)
    && forall n :: n in d.receipts && n !in d'.receipts ==> n in d.archives && n !in d'.archives
  }

  /** Every archive that went has its receipt retired. */
  ghost predicate Retired(d: Disk, d': Disk) {
    forall n :: n in d.archives && n !in d'.archives ==> n !in d'.receipts
  }

  lemma RetiredAgain(d: Disk, d': Disk, d'': Disk)
    requires d''.archives.Keys <= d'.archives.Keys <= d.archives.Keys
    requires ReceiptsKept(d, d') && Retired(d, d') && ReceiptsKept(d', d'')
    ensures ReceiptsKept(d, d'')
    ensures Retired(d', d'') ==> Retired(d, d'')
  {
  }

  /** A guard result of some other attempt does not free a stuck disk. */
  lemma OtherResultsKeepStuck(d: Disk, d': Disk, app: Id)
    requires d' == d.(transfers := d'.transfers) && d'.transfers - {app} == d.transfers - {app}
    requires Stuck(d) && (InTransit(d.marker.value) ==> d.marker.value.app != app)
    ensures Untouched(d, d')
  {
    if InTransit(d.marker.value) {
      var a := d.marker.value.app;
      assert a in d'.transfers <==> a in d'.transfers - {app};
      assert a in d.transfers <==> a in d.transfers - {app};
    }
  }

  /** With no marker present, every archive has its receipt and no partial is left. */
  lemma NoMarkerMeansSettled(d: Disk)
    requires Accounted(d) && d.marker == None
    ensures forall n :: n in d.archives ==> Receipted(d, n)
    ensures d.partials == map[]
  {
    assert forall p :: p !in d.partials;
  }

  /** Publishing the receipt of the archive being uploaded. */
  lemma PublishKeepsValid(d: Disk, t: Trail, issued: set<Id>, r: Receipt)
    requires Valid(d, t, issued) && d.marker.Some? && d.marker.value.Uploading?
    requires r.file == d.marker.value.file && r.identity == d.marker.value.identity
    requires r.sha == d.marker.value.sha && r.timeline == d.marker.value.timeline
    requires d.marker.value.databaseBytes.Some? ==> r.databaseBytes == d.marker.value.databaseBytes.value
    requires r.key == d.marker.value.key
    ensures Valid(d.(receipts := d.receipts[r.file := r]), t, issued)
  {
  }

  /** Clearing the marker once the archive it names has its receipt. */
  lemma ClearKeepsValid(d: Disk, t: Trail, issued: set<Id>)
    requires Valid(d, t, issued) && d.marker.Some? && d.marker.value.Uploading?
    requires d.marker.value.file in d.receipts
    ensures Valid(d.(marker := None), t, issued)
  {
  }

  /** Trying an upload under a key that was never tried. */
  lemma AttemptKeepsValid(d: Disk, t: Trail, issued: set<Id>, key: Key)
    requires Valid(d, t, issued) && d.marker.Some? && d.marker.value.Uploading?
    requires key !in t.attempts && KeyIssued(key, issued)
    ensures Valid(d, t.(attempts := t.attempts + [key]), issued)
    ensures Grows(t, t.(attempts := t.attempts + [key]))
  {
    GrowingKeepsReceipts(d, t, t.(attempts := t.attempts + [key]));
  }

  /** Linking a verified partial to its final name, which the marker already accounts for. */
  lemma LinkKeepsValid(d: Disk, t: Trail, issued: set<Id>, id: Identity)
    requires Valid(d, t, issued) && d.marker.Some? && d.marker.value.Verifying?
    requires d.marker.value.file !in d.archives && d.marker.value.partial in d.partials
    requires id.content == d.partials[d.marker.value.partial].content
    ensures Valid(d.(archives := d.archives[d.marker.value.file := id]), t, issued)
  {
  }

  /** Recording verification times. */
  lemma RestampKeepsValid(d: Disk, t: Trail, issued: set<Id>, m: Marker)
    requires Valid(d, t, issued) && d.marker.Some? && d.marker.value.Verifying? && m.Verifying?
    requires m.file == d.marker.value.file && m.partial == d.marker.value.partial
    requires m.started == d.marker.value.started == m.timeline.dumpStarted
    requires m.databaseBytes == d.marker.value.databaseBytes && m.app in issued && m.timeline.dumpCompleted.Some?
    ensures Valid(d.(marker := Some(m)), t, issued)
  {
  }

  /** The completed dump's marker, which fixes the size. */
  lemma CompletedKeepsValid(d: Disk, t: Trail, issued: set<Id>, m: Marker, size: int)
    requires Valid(d, t, issued) && d.marker.Some? && d.marker.value.Dumping? && m.Verifying?
    requires m.file == d.marker.value.file && m.partial == d.marker.value.partial
    requires m.started == d.marker.value.started == m.timeline.dumpStarted && m.databaseBytes == Some(size)
    requires m.partial in d.partials && m.app in issued && size > 0
    requires m.timeline.dumpCompleted.Some? && m.file in t.dumped
    ensures var t' := t.(sizes := t.sizes[m.file := size]);
            Valid(d.(marker := Some(m)), t', issued) && Grows(t, t')
  {
    GrowingKeepsReceipts(d, t, t.(sizes := t.sizes[m.file := size]));
    CompletedStaysKept(d, t, m, size);
  }

  lemma CompletedStaysKept(d: Disk, t: Trail, m: Marker, size: int)
    requires DumpsKept(d, t) && d.marker.Some? && d.marker.value.Dumping? && m.Verifying?
    requires m.file == d.marker.value.file && m.partial == d.marker.value.partial && m.file !in d.archives
    ensures DumpsKept(d.(marker := Some(m)), t.(sizes := t.sizes[m.file := size]))
  {
    forall n | n in t.dumped
      ensures Safe(d.(marker := Some(m)), t.(sizes := t.sizes[m.file := size]), n)
    {
      assert Safe(d, t, n);
    }
  }

  /** The first upload marker, which fixes the checksum and, for an older marker, the size. */
  lemma SealKeepsValid(d: Disk, t: Trail, issued: set<Id>, m: Marker, size: int)
    requires Valid(d, t, issued) && d.marker.Some? && d.marker.value.Verifying? && d.partials == map[]
    requires m.Uploading? && m.file == d.marker.value.file && m.file in d.archives
    requires m.identity == d.archives[m.file] && m.sha == m.identity.content && m.app in issued
    requires m.key == Original(m.file) && m.databaseBytes == Some(size) && size > 0 && Verified(m.timeline)
    requires m.started == d.marker.value.started == m.timeline.dumpStarted
    requires d.marker.value.databaseBytes.Some? ==> d.marker.value.databaseBytes.value == size
    ensures var t' := t.(seals := t.seals[m.file := m.sha], sizes := t.sizes[m.file := size]);
            Valid(d.(marker := Some(m)), t', issued) && Grows(t, t')
  {
    var t' := t.(seals := t.seals[m.file := m.sha], sizes := t.sizes[m.file := size]);
    GrowingKeepsReceipts(d, t, t');
  }

  /** A resumed upload's marker: only the attempt and its key are new. */
  lemma ReissueKeepsValid(d: Disk, t: Trail, issued: set<Id>, app: Id, size: int)
    requires Valid(d, t, issued) && d.marker.Some? && d.marker.value.Uploading?
    requires d.marker.value.file !in d.receipts && app in issued && size > 0
    requires d.marker.value.databaseBytes.Some? ==> d.marker.value.databaseBytes.value == size
    ensures var m := d.marker.value;
            var next := m.(app := app, key := Resumed(app, m.file), databaseBytes := Some(size));
            var t' := t.(sizes := t.sizes[m.file := size]);
            Valid(d.(marker := Some(next)), t', issued) && Grows(t, t')
  {
    GrowingKeepsReceipts(d, t, t.(sizes := t.sizes[d.marker.value.file := size]));
  }

  /** `o` is the newest of the archives. */
  ghost predicate Heads(d: Disk, o: Name) {
    o in d.archives && forall n :: n in d.archives ==> n == o || Newer(o, n)
  }

  /** Unlinking an archive that is not pinned, while the newest and another one are kept. */
  lemma UnlinkKeepsValid(d: Disk, t: Trail, issued: set<Id>, x: Name, keep: seq<Name>)
    requires Valid(d, t, issued) && d.marker == None && x in d.archives
    requires d.pin.Some? ==> d.pin.value.file != x
    requires |keep| == 2 && Heads(d, keep[0]) && keep[1] in d.archives && keep[0] != keep[1]
    requires x != keep[0] && x != keep[1]
    ensures var t' := t.(pruned := t.pruned + {x}, kept := keep);
            Valid(d.(archives := d.archives - {x}), t', issued) && Continues(t, t')
  {
    GrowingKeepsReceipts(d, t, t.(pruned := t.pruned + {x}, kept := keep));
    UnlinkKeepsRetained(d, t, x, keep);
  }

  lemma UnlinkKeepsRetained(d: Disk, t: Trail, x: Name, keep: seq<Name>)
    requires Accounted(d) && d.marker == None && Retained(d, t) && x in d.archives
    requires |keep| == 2 && Heads(d, keep[0]) && keep[1] in d.archives && keep[0] != keep[1]
    requires x != keep[0] && x != keep[1]
    ensures Retained(d.(archives := d.archives - {x}), t.(pruned := t.pruned + {x}, kept := keep))
  {
  }

  /** Retiring the receipt of an archive that is gone. */
  lemma RetireKeepsValid(d: Disk, t: Trail, issued: set<Id>, x: Name)
    requires Valid(d, t, issued) && d.marker == None && x !in d.archives
    ensures Valid(d.(receipts := d.receipts - {x}), t, issued)
  {
  }

  /** A name made with a new uuid clashes with nothing recorded so far. */
  /** Nothing on disk and nothing recorded has this name. */
  predicate Unused(d: Disk, t: Trail, n: Name) {
    && n !in d.archives && n !in d.receipts && Original(n) !in t.attempts
    && n !in t.started && n !in t.sizes && n !in t.seals && n !in t.dumped && n !in t.pruned
  }

  lemma NewNameIsUnused(d: Disk, t: Trail, issued: set<Id>, name: Name)
    requires Valid(d, t, issued) && name.id !in issued
    ensures Unused(d, t, name)
  {
  }

  /** Receipts stay traced as the trail grows, as long as their archives get no new size. */
  lemma GrowingKeepsReceipts(d: Disk, t: Trail, t': Trail)
    requires Continues(t, t') && forall n :: n in d.receipts ==> ReceiptTraced(d.receipts[n], t)
    requires forall n :: n in d.receipts && d.receipts[n].file in t'.sizes ==> d.receipts[n].file in t.sizes
    ensures forall n :: n in d.receipts ==> ReceiptTraced(d.receipts[n], t')
  {
  }

  lemma AnnouncedIsFresh(d: Disk, t: Trail, issued: set<Id>, m: Marker)
    requires KeysFresh(d, t, issued) && m.Dumping? && m.file.id in issued && m.app in issued
    requires Original(m.file) !in t.attempts && m.file !in t.pruned
    ensures KeysFresh(d.(marker := Some(m)), t.(started := t.started[m.file := m.started]), issued)
  {
  }

  /** With no marker a completed dump depends on no partial and no marker. */
  lemma SettledStayKept(d: Disk, t: Trail, d': Disk, t': Trail)
    requires DumpsKept(d, t) && d.marker == None && d'.archives == d.archives && d'.receipts == d.receipts
    requires t'.dumped == t.dumped && t'.pruned == t.pruned
    ensures DumpsKept(d', t')
  {
    forall n | n in t'.dumped
      ensures Safe(d', t', n)
    {
      assert Safe(d, t, n);
    }
  }

  lemma PartialStaysKept(d: Disk, t: Trail, partials: map<Partial, Identity>)
    requires DumpsKept(d, t) && WellFormed(d)
    requires d.marker.Some? && d.marker.value.Verifying? ==> partials == map[] && d.marker.value.file in d.archives
    requires d.marker.Some? && d.marker.value.Dumping? ==> d.marker.value.file !in t.dumped
    ensures DumpsKept(d.(partials := partials), t)
  {
    forall n | n in t.dumped
      ensures Safe(d.(partials := partials), t, n)
    {
      assert Safe(d, t, n);
    }
  }

  lemma CompletionStaysKept(d: Disk, t: Trail, dumps: map<Id, GuardResult>, c: Digest)
    requires DumpsKept(d, t) && d.marker.Some? && d.marker.value.Dumping? && d.marker.value.file !in t.dumped
    requires d.marker.value.partial in d.partials && d.partials[d.marker.value.partial].content == c
    ensures DumpsKept(d.(dumps := dumps), t.(dumped := t.dumped[d.marker.value.file := c]))
  {
    var d', t' := d.(dumps := dumps), t.(dumped := t.dumped[d.marker.value.file := c]);
    forall n | n in t'.dumped
      ensures Safe(d', t', n)
    {
      if n != d.marker.value.file {
        assert Safe(d, t, n);
      }
    }
  }

  /** Announcing a new archive. */
  lemma AnnounceKeepsValid(d: Disk, t: Trail, issued: set<Id>, m: Marker)
    requires Valid(d, t, issued) && d.marker == None && m.Dumping? && m.partial.file == m.file
    requires m.file.id in issued && m.app in issued && Unused(d, t, m.file)
    ensures Valid(d.(marker := Some(m)), t.(started := t.started[m.file := m.started]), issued)
    ensures Grows(t, t.(started := t.started[m.file := m.started]))
  {
    NoMarkerMeansSettled(d);
    GrowingKeepsReceipts(d, t, t.(started := t.started[m.file := m.started]));
    SettledStayKept(d, t, d.(marker := Some(m)), t.(started := t.started[m.file := m.started]));
    AnnouncedIsFresh(d, t, issued, m);
  }

  /** The dump's own partial may appear, change or disappear while its marker stands; once the
      dump completed it may only go, and only when the archive is there. */
  lemma PartialKeepsValid(d: Disk, t: Trail, issued: set<Id>, partials: map<Partial, Identity>)
    requires Valid(d, t, issued) && forall p :: p in partials ==> OwnsPartial(d.marker, p)
    requires d.marker.Some? && d.marker.value.Verifying? ==> partials == map[] && d.marker.value.file in d.archives
    requires d.marker.Some? && d.marker.value.Dumping? ==> d.marker.value.file !in t.dumped
    ensures Valid(d.(partials := partials), t, issued)
  {
    PartialStaysKept(d, t, partials);
  }

  /** A dump that left nothing behind may drop its marker. */
  lemma AbandonKeepsValid(d: Disk, t: Trail, issued: set<Id>)
    requires Valid(d, t, issued) && d.marker.Some? && d.marker.value.Dumping? && d.partials == map[]
    ensures Valid(d.(marker := None), t, issued)
  {
  }

  /** Guard results concern no archive. */
  lemma ResultKeepsValid(
    d: Disk, t: Trail, issued: set<Id>, dumps: map<Id, GuardResult>, transfers: map<Id, GuardResult>)
    requires Valid(d, t, issued)
    ensures Valid(d.(dumps := dumps, transfers := transfers), t, issued)
  {
  }

  /** Recording a dump as completed. */
  lemma DumpedKeepsValid(d: Disk, t: Trail, issued: set<Id>, dumps: map<Id, GuardResult>)
    requires Valid(d, t, issued) && d.marker.Some? && d.marker.value.Dumping?
    requires d.marker.value.partial in d.partials && d.marker.value.file !in t.dumped
    ensures var t' := t.(dumped := t.dumped[d.marker.value.file := d.partials[d.marker.value.partial].content]);
            Valid(d.(dumps := dumps), t', issued) && Grows(t, t')
  {
    var content := d.partials[d.marker.value.partial].content;
    GrowingKeepsReceipts(d, t, t.(dumped := t.dumped[d.marker.value.file := content]));
    CompletionStaysKept(d, t, dumps, content);
  }

  /** Whatever happened since a marker was written, the receipt its archive ends up with carries
      that marker's start of dump, its checksum if it had one, and its size unless the archive was
      measured anew. */
  lemma ReceiptCarriesMarkerEvidence(d: Disk, t: Trail, issued: set<Id>, d': Disk, t': Trail, issued': set<Id>)
    requires Valid(d, t, issued) && Valid(d', t', issued') && Continues(t, t')
    requires d.marker.Some? && InTransit(d.marker.value) && d.marker.value.file in d'.receipts
    ensures var m, r := d.marker.value, d'.receipts[d.marker.value.file];
            && r.timeline.dumpStarted == m.started
            && (!m.Dumping? && m.databaseBytes.Some? && m.file !in t'.remeasured ==>
                  r.databaseBytes == m.databaseBytes.value)
            && (m.Uploading? ==> r.sha == m.sha)
  {
    var m, r := d.marker.value, d'.receipts[d.marker.value.file];
    assert MarkerTraced(m, t) && ReceiptTraced(r, t') && r.file == m.file;
  }

  /** Likewise a receipt that exists is only ever replaced by one with the same evidence. */
  lemma ReceiptEvidenceNeverChanges(d: Disk, t: Trail, issued: set<Id>, d': Disk, t': Trail, issued': set<Id>, n: Name)
    requires Valid(d, t, issued) && Valid(d', t', issued') && Continues(t, t')
    requires n in d.receipts && n in d'.receipts
    ensures d'.receipts[n].timeline.dumpStarted == d.receipts[n].timeline.dumpStarted
    ensures d'.receipts[n].sha == d.receipts[n].sha
  {
    assert ReceiptTraced(d.receipts[n], t) && ReceiptTraced(d'.receipts[n], t');
  }

  /** Importing a receipt or drilling a restore: the archive has its receipt and keeps it. */
  lemma MarkKeepsValid(d: Disk, t: Trail, issued: set<Id>, m: Marker)
    requires Valid(d, t, issued) && d.marker == None && m.file in d.archives && !InTransit(m)
    ensures Valid(d.(marker := Some(m)), t, issued)
  {
  }

  /** Pinning an archive by its receipt, or approving checksum uploads, with no marker about. */
  lemma PinKeepsValid(d: Disk, t: Trail, issued: set<Id>, pin: Pin)
    requires Valid(d, t, issued) && d.marker == None
    requires pin.file in d.archives && Receipted(d, pin.file) && d.receipts[pin.file].sha == pin.sha
    ensures Valid(d.(pin := Some(pin)), t, issued)
  {
    SettledStayKept(d, t, d.(pin := Some(pin)), t);
  }

  lemma ApprovalKeepsValid(d: Disk, t: Trail, issued: set<Id>)
    requires Valid(d, t, issued) && d.marker == None
    ensures Valid(d.(canaryApproved := true), t, issued)
  {
    SettledStayKept(d, t, d.(canaryApproved := true), t);
  }

  /** The imported receipt keeps everything but the size and how integrity was proved. */
  lemma ImportKeepsValid(d: Disk, t: Trail, issued: set<Id>, r: Receipt)
    requires Valid(d, t, issued) && d.marker.Some? && d.marker.value.Importing? && r.file == d.marker.value.file
    requires r == d.receipts[r.file].(databaseBytes := r.databaseBytes, integrity := r.integrity)
    ensures var t' := t.(remeasured := t.remeasured + {r.file});
            Valid(d.(receipts := d.receipts[r.file := r]), t', issued) && Continues(t, t')
  {
    ImportKeepsTraced(d, t, r);
  }

  lemma ImportKeepsTraced(d: Disk, t: Trail, r: Receipt)
    requires Traced(d, t) && d.marker.Some? && d.marker.value.Importing?
    requires r.file in d.receipts && d.receipts[r.file].file == r.file
    requires r == d.receipts[r.file].(databaseBytes := r.databaseBytes, integrity := r.integrity)
    ensures Traced(d.(receipts := d.receipts[r.file := r]), t.(remeasured := t.remeasured + {r.file}))
  {
  }

  lemma UnmarkKeepsValid(d: Disk, t: Trail, issued: set<Id>)
    requires Valid(d, t, issued) && d.marker.Some? && !InTransit(d.marker.value)
    ensures Valid(d.(marker := None), t, issued)
  {
  }

  /** Every publication that is interrupted after the link leaves a valid, stranded disk. */
  lemma InterruptedPublicationStrands(d: Disk, t: Trail, issued: set<Id>, id: Identity)
    requires Valid(d, t, issued) && d.marker.Some? && d.marker.value.Verifying?
    requires d.marker.value.partial in d.partials && d.marker.value.file !in d.archives
    requires id.content == d.partials[d.marker.value.partial].content
    ensures var d' := d.(archives := d.archives[d.marker.value.file := id]);
            Valid(d', t, issued) && Stranded(d')
  {
    LinkKeepsValid(d, t, issued, id);
  }

  /** The first dump of an empty host: announce, create the partial, record it as completed. Each
      is one write and each leaves a valid disk. */
  lemma FirstDumpCompletes()
    returns (announced: Disk, created: Disk, dumped: Disk, t: Trail, t': Trail, issued: set<Id>)
    ensures announced == EMPTY_DISK.(marker := Some(Dumping(Name(0, 0), Partial(Name(0, 0), 1), 2, 0)))
    ensures created == announced.(partials := map[Partial(Name(0, 0), 1) := Identity(0, 0, 0, 0)])
    ensures dumped == created.(dumps := map[2 := Completed])
    ensures Valid(announced, t, issued) && Valid(created, t, issued) && Valid(dumped, t', issued)
    ensures Grows(NO_TRAIL, t) && Grows(t, t') && Name(0, 0) in t'.dumped && 2 in issued
  {
    var name, id := Name(0, 0), Identity(0, 0, 0, 0);
    var dumping := Dumping(name, Partial(name, 1), 2, 0);
    announced := EMPTY_DISK.(marker := Some(dumping));
    created := announced.(partials := map[dumping.partial := id]);
    dumped := created.(dumps := map[2 := Completed]);
    t := NO_TRAIL.(started := map[name := 0]);
    t' := t.(dumped := map[name := 0]);
    issued := {0, 1, 2};
    AnnounceKeepsValid(EMPTY_DISK, NO_TRAIL, issued, dumping);
    PartialKeepsValid(announced, t, issued, created.partials);
    DumpedKeepsValid(created, t, issued, dumped.dumps);
  }

  /** That dump can be stranded: mark it for verification, then link. */
  lemma StrandedIsReachable()
    returns (dumped: Disk, completed: Disk, stranded: Disk, t: Trail, t': Trail, issued: set<Id>)
    ensures exists announced, created, t0 ::
              && Valid(announced, t0, issued) && Valid(created, t0, issued) && Grows(NO_TRAIL, t0) && Grows(t0, t)
              && announced == EMPTY_DISK.(marker := Some(Dumping(Name(0, 0), Partial(Name(0, 0), 1), 2, 0)))
              && created == announced.(partials := map[Partial(Name(0, 0), 1) := Identity(0, 0, 0, 0)])
              && dumped == created.(dumps := map[2 := Completed])
    ensures completed == dumped.(marker := completed.marker)
    ensures completed.marker.Some? && completed.marker.value.Verifying?
    ensures stranded == completed.(archives := map[completed.marker.value.file := Identity(0, 0, 0, 0)])
    ensures Valid(dumped, t, issued) && Valid(completed, t', issued) && Valid(stranded, t', issued) && Grows(t, t')
    ensures Stranded(stranded)
  {
    var announced, created, t0;
    announced, created, dumped, t0, t, issued := FirstDumpCompletes();
    var name := Name(0, 0);
    var verifying := Verifying(name, Partial(name, 1), 2, 0, Timeline(0, Some(1), None, None), Some(1));
    completed := dumped.(marker := Some(verifying));
    stranded := completed.(archives := map[name := Identity(0, 0, 0, 0)]);
    t' := t.(sizes := t.sizes[name := 1]);
    CompletedKeepsValid(dumped, t, issued, verifying, 1);
    InterruptedPublicationStrands(completed, t', issued, Identity(0, 0, 0, 0));
  }
}
