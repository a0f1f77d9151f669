/** Repair of a host entrypoint file: stage, snapshot, verify, exchange, verify, preserve, clean up.

    The filesystem and its competitor are in `Host`. Exceptions are returned as `Fault` values; each
    method handles exactly the faults its original handles. */
module Entrypoint {
  import opened Common
  import opened Host

  datatype Request = Request(
    source: Entry, target: Entry, backupRoot: Directory,
    expectedSource: Digest<Bytes>, expectedCurrent: Digest<Bytes>, supportingDocument: bool)

  const BACKUP_UNSYNCED := "backup_sync_failed"
  const UNCONFIRMED := "prepublication_verification_failed"
  const UNAVAILABLE := "publication_unavailable"
  const CONCURRENT := "concurrent_runtime_replacement"
  const UNVERIFIED := "publication_verification_failed"

  datatype Status = Matching | Repairable | Repaired | Blocked | Indeterminate

  /** `EntrypointMaintenanceResult`; a blocker is its code. */
  datatype Report = Report(
    status: Status, blocker: Option<string>, backupName: Option<string>, recoveryName: Option<string>)
  {
    /** The result model's own validator. */
    predicate EvidenceMatchesStatus() {
      && (status.Matching? || status.Repairable? ==> blocker.None? && backupName.None? && recoveryName.None?)
      && (status.Repaired? ==> blocker.None? && backupName.Some?)
      && (status.Blocked? ==> blocker.Some? && recoveryName.None?)
      && (status.Indeterminate? ==> blocker.Some? && backupName.Some? && recoveryName.Some?)
    }
  }

  datatype Outcome = Returned(report: Report) | Raised(fault: Fault)

  /** The three private names of one operation, as `_publish` spells them. */
  predicate Names(plan: Plan, request: Request, operation: string, targetKey: string) {
    && plan.target == request.target
    && plan.stage == Entry(request.target.parent, ".skills-sdk-stage-" + operation)
    && plan.backup == Entry(request.backupRoot, "entrypoint-" + targetKey + "-" + operation + ".bak")
    && plan.recovery == Entry(request.backupRoot, "entrypoint-" + targetKey + "-" + operation + ".recovery")
  }

  /** The backup root lies outside the runtime package, and the random part is new, so the four names
      of an operation never coincide. */
  lemma PrivateNamesAreDistinct(plan: Plan, request: Request, operation: string, targetKey: string)
    requires Names(plan, request, operation, targetKey)
    requires request.backupRoot != request.target.parent
    requires request.target.name != ".skills-sdk-stage-" + operation
    ensures plan.Distinct()
  {
    assert |plan.backup.name| + 5 == |plan.recovery.name|;
  }

  predicate Executable(mode: Mode) {
    mode & 0x49 != 0
  }

  predicate SameSnapshot(left: Captured, right: Captured) {
    left.data == right.data && left.digest == right.digest && left.mode == Sanitised(right.mode)
  }

  predicate SamePublished(published: Captured, source: Captured, current: Captured) {
    published.data == source.data && published.digest == source.digest
    && published.mode == Sanitised(current.mode)
  }

  /** The file appears, and then the call may still be interrupted. */
  method Appear(fs: FileSystem, entry: Entry, inode: Inode) returns (fault: Fault)
    requires fs.Valid() && fs.held.None? && fs.displaced.None?
    requires entry == fs.plan.stage || entry == fs.plan.backup
    requires entry !in fs.names && inode !in fs.names.Values && inode !in fs.created
    modifies fs
    ensures fs.interrupted == (old(fs.interrupted) || fault.Unexpected?)
    ensures fs.Valid() && fs.held.None? && fs.displaced.None?
    ensures fs.seen == old(fs.seen) && fs.created == old(fs.created) + {inode}
    ensures Lookup(fs.names, entry) == Some(inode) && fs.files[inode].regular
    ensures entry == fs.plan.backup ==> SameEntry(old(fs.Now()), fs.Now(), fs.plan.stage)
    ensures entry == fs.plan.stage ==> Lookup(fs.names, fs.plan.backup) == old(Lookup(fs.names, fs.plan.backup))
    ensures SameEntry(old(fs.Now()), fs.Now(), fs.plan.target)
    ensures fs.Steady() && (fs.calm ==> fault.Done?) && !fault.OsError? && !fault.ValueFault?
  {
    var umasked: Mode := *;
    fs.Place(entry, inode, umasked);
    fault := fs.Chance();
    if fault.OsError? { fault := Done; }
  }

  /** `os.open` with `O_CREAT | O_EXCL`. */
  method Create(fs: FileSystem, entry: Entry) returns (fault: Fault, inode: Inode)
    requires fs.Valid() && fs.held.None? && fs.displaced.None?
    requires entry == fs.plan.stage || entry == fs.plan.backup
    modifies fs
    ensures fs.interrupted == (old(fs.interrupted) || fault.Unexpected?)
    ensures old(fs.seen) <= fs.seen && old(fs.created) <= fs.created
    ensures fs.Valid() && fs.held.None? && fs.displaced.None?
    ensures fault.Done? ==>
      Lookup(fs.names, entry) == Some(inode) && inode in fs.created && fs.files[inode].regular
    ensures entry == fs.plan.backup ==> SameEntry(old(fs.Now()), fs.Now(), fs.plan.stage)
    ensures fs.quiescent ==> SameEntry(old(fs.Now()), fs.Now(), fs.plan.target)
    ensures fs.Steady() && (fs.calm && old(entry !in fs.names) ==> fault.Done?)
    ensures entry == fs.plan.stage ==> Lookup(fs.names, fs.plan.backup) == old(Lookup(fs.names, fs.plan.backup))
  {
    fs.Interfere();
    inode := fs.FreeInode(entry.parent.device);
    fault := fs.Chance();
    if fault.Done? && entry in fs.names { fault := OsError; }
    if fault.Done? {
      fault := Appear(fs, entry, inode);
    }
  }

  /** One change to a file this operation owns, followed by whatever can happen next. */
  method Rewrite(fs: FileSystem, entry: Entry, file: File) returns (fault: Fault)
    requires fs.Valid() && fs.held.None? && fs.displaced.None?
    requires entry == fs.plan.stage || entry == fs.plan.backup
    requires entry in fs.names
    modifies fs
    ensures fs.interrupted == (old(fs.interrupted) || fault.Unexpected?)
    ensures old(fs.seen) <= fs.seen && old(fs.created) <= fs.created
    ensures fs.Valid() && fs.held.None? && fs.displaced.None?
    ensures Lookup(fs.names, entry) == old(Lookup(fs.names, entry)) && fs.files[fs.names[entry]] == file
    ensures fs.created == old(fs.created)
    ensures entry == fs.plan.backup ==> SameEntry(old(fs.Now()), fs.Now(), fs.plan.stage)
    ensures fs.quiescent ==> SameEntry(old(fs.Now()), fs.Now(), fs.plan.target)
    ensures fs.Steady() && (fs.calm ==> fault.Done?)
    ensures entry == fs.plan.stage ==> Lookup(fs.names, fs.plan.backup) == old(Lookup(fs.names, fs.plan.backup))
  {
    fs.Store(fs.names[entry], file);
    fault := fs.Step();
  }

  /** Write, flush, `fchmod` and `fsync`: a partial write is visible if the operation stops early. */
  method Fill(fs: FileSystem, entry: Entry, data: Bytes, mode: Mode) returns (fault: Fault)
    requires fs.Valid() && fs.held.None? && fs.displaced.None?
    requires entry == fs.plan.stage || entry == fs.plan.backup
    requires entry in fs.names
    modifies fs
    ensures fs.interrupted == (old(fs.interrupted) || fault.Unexpected?)
    ensures old(fs.seen) <= fs.seen && old(fs.created) <= fs.created
    ensures fs.Valid() && fs.held.None? && fs.displaced.None?
    ensures Lookup(fs.names, entry) == old(Lookup(fs.names, entry)) && fs.created == old(fs.created)
    ensures fault.Done? ==> fs.files[fs.names[entry]] == File(true, data, mode)
    ensures entry == fs.plan.backup ==> SameEntry(old(fs.Now()), fs.Now(), fs.plan.stage)
    ensures fs.quiescent ==> SameEntry(old(fs.Now()), fs.Now(), fs.plan.target)
    ensures fs.Steady() && (fs.calm ==> fault.Done?)
    ensures entry == fs.plan.stage ==> Lookup(fs.names, fs.plan.backup) == old(Lookup(fs.names, fs.plan.backup))
  {
    var written: Bytes := *;
    var umasked := fs.files[fs.names[entry]].mode;
    fault := Rewrite(fs, entry, File(true, written, umasked));
    if fault.Done? {
      fault := Rewrite(fs, entry, File(true, data, umasked));
      if fault.Done? {
        fault := Rewrite(fs, entry, File(true, data, mode));
      }
    }
  }

  /** The name goes, and then the call may still be interrupted. */
  method Vanish(fs: FileSystem, entry: Entry) returns (fault: Fault)
    requires fs.Valid() && entry in fs.names
    requires entry == fs.plan.stage || (entry == fs.plan.backup && fs.held.None? && fs.displaced.None?)
    requires fs.names[entry] in fs.created || Lookup(fs.names, fs.plan.recovery) == Some(fs.names[entry])
    modifies fs
    ensures fs.interrupted == (old(fs.interrupted) || fault.Unexpected?)
    ensures fs.Valid() && fs.held == old(fs.held) && fs.displaced == old(fs.displaced)
    ensures fs.seen == old(fs.seen) && fs.created == old(fs.created)
    ensures fs.names == old(fs.names) - {entry} && fs.files == old(fs.files)
    ensures fs.Steady() && (fs.calm ==> fault.Done?) && !fault.OsError? && !fault.ValueFault?
  {
    fs.Drop(entry);
    fault := fs.Chance();
    if fault.OsError? { fault := Done; }
  }

  /** `os.unlink` of a private name: it may fail, or act and then be interrupted. */
  method Unlink(fs: FileSystem, entry: Entry) returns (fault: Fault)
    requires fs.Valid() && entry in fs.names
    requires entry == fs.plan.stage || (entry == fs.plan.backup && fs.held.None? && fs.displaced.None?)
    requires fs.names[entry] in fs.created || Lookup(fs.names, fs.plan.recovery) == Some(fs.names[entry])
    modifies fs
    ensures fs.interrupted == (old(fs.interrupted) || fault.Unexpected?)
    ensures old(fs.seen) <= fs.seen && old(fs.created) <= fs.created
    ensures fs.Valid() && !fault.ValueFault?
    ensures fs.held == old(fs.held) && fs.displaced == old(fs.displaced)
    ensures fault.OsError? ==> entry in fs.names
    ensures fault.Done? ==> entry !in fs.names
    ensures entry == fs.plan.backup ==> SameEntry(old(fs.Now()), fs.Now(), fs.plan.stage)
    ensures Lookup(fs.names, fs.plan.recovery) == old(Lookup(fs.names, fs.plan.recovery))
    ensures fs.quiescent ==> SameEntry(old(fs.Now()), fs.Now(), fs.plan.target)
    ensures fs.quiescent ==> SameEntry(old(fs.Now()), fs.Now(), fs.plan.recovery)
    ensures fs.Steady() && (fs.calm ==> fault.Done?)
    ensures entry == fs.plan.stage ==> Lookup(fs.names, fs.plan.backup) == old(Lookup(fs.names, fs.plan.backup))
  {
    fault := fs.Step();
    if fault.Done? { fault := Vanish(fs, entry); }
  }

  /** `_remove_owned`: remove a name only while it still shows the inode this operation made. */
  method RemoveOwned(fs: FileSystem, entry: Entry, inode: Inode) returns (fault: Fault)
    requires fs.Valid() && inode in fs.created
    requires entry == fs.plan.stage || (entry == fs.plan.backup && fs.held.None? && fs.displaced.None?)
    modifies fs
    ensures fs.interrupted == (old(fs.interrupted) || fault.Unexpected?)
    ensures old(fs.seen) <= fs.seen && old(fs.created) <= fs.created
    ensures fs.Valid() && fs.held == old(fs.held) && fs.displaced == old(fs.displaced)
    ensures fs.displaced.Some? ==> Lookup(fs.names, entry) == old(Lookup(fs.names, entry))
    ensures fault.Done? ==> entry !in fs.names
    ensures fs.displaced.None? && old(Lookup(fs.names, entry)) == Some(inode) ==> !fault.ValueFault?
    ensures fs.calm ==> fault.Done? || fault.ValueFault?
    ensures entry == fs.plan.backup ==> SameEntry(old(fs.Now()), fs.Now(), fs.plan.stage)
    ensures fs.quiescent ==> SameEntry(old(fs.Now()), fs.Now(), fs.plan.target)
    ensures fs.Steady()
    ensures entry == fs.plan.stage ==> Lookup(fs.names, fs.plan.backup) == old(Lookup(fs.names, fs.plan.backup))
  {
    fault := fs.Step();
    if fault.Done? && entry in fs.names {
      if fs.names[entry] == inode {
        fault := Unlink(fs, entry);
      } else {
        fault := ValueFault;
      }
    }
  }

  /** `_remove_captured`: remove a name only while it still shows the captured inode. */
  method RemoveCaptured(fs: FileSystem, captured: Captured) returns (fault: Fault)
    requires fs.Valid() && fs.displaced == Some(captured.inode)
    requires Lookup(fs.names, fs.plan.recovery) == fs.displaced
    modifies fs
    ensures fs.interrupted == (old(fs.interrupted) || fault.Unexpected?)
    ensures old(fs.seen) <= fs.seen && old(fs.created) <= fs.created
    ensures fs.Valid() && fs.held == old(fs.held) && fs.displaced == old(fs.displaced)
    ensures Lookup(fs.names, fs.plan.recovery) == fs.displaced
    ensures fault.Done? ==> fs.plan.stage !in fs.names
    ensures fs.quiescent ==> SameEntry(old(fs.Now()), fs.Now(), fs.plan.target)
    ensures fs.quiescent ==> SameEntry(old(fs.Now()), fs.Now(), fs.plan.recovery)
    ensures fs.Steady() && (fs.calm && old(Lookup(fs.names, fs.plan.stage)) == Some(captured.inode) ==> fault.Done?)
  {
    fault := fs.Step();
    if fault.Done? {
      if fs.plan.stage !in fs.names {
        fault := OsError;
      } else if fs.names[fs.plan.stage] != captured.inode {
        fault := ValueFault;
      } else {
        fault := Unlink(fs, fs.plan.stage);
      }
    }
  }

  /** The new file is completed, or removed again after a fault that the code handles. */
  method FillOrRemove(fs: FileSystem, entry: Entry, inode: Inode, data: Bytes, mode: Mode) returns (fault: Fault)
    requires fs.Valid() && fs.held.None? && fs.displaced.None?
    requires entry == fs.plan.stage || entry == fs.plan.backup
    requires Lookup(fs.names, entry) == Some(inode) && inode in fs.created
    modifies fs
    ensures fs.interrupted == (old(fs.interrupted) || fault.Unexpected?)
    ensures old(fs.seen) <= fs.seen && old(fs.created) <= fs.created
    ensures fs.Valid() && fs.held.None? && fs.displaced.None?
    ensures fault.Done? ==> Lookup(fs.names, entry) == Some(inode) && fs.files[inode] == File(true, data, mode)
    ensures entry == fs.plan.backup ==> SameEntry(old(fs.Now()), fs.Now(), fs.plan.stage)
    ensures fs.quiescent ==> SameEntry(old(fs.Now()), fs.Now(), fs.plan.target)
    ensures fs.Steady() && (fs.calm ==> fault.Done?)
    ensures entry == fs.plan.stage ==> Lookup(fs.names, fs.plan.backup) == old(Lookup(fs.names, fs.plan.backup))
  {
    fault := Fill(fs, entry, data, mode);
    if fault.OsError? || fault.ValueFault? {
      var cleanup := RemoveOwned(fs, entry, inode);
      if !cleanup.Done? { fault := cleanup; }
    }
  }

  /** `_write_stage`: an exclusive synced file, removed again when it could not be completed. */
  method WriteStage(fs: FileSystem, entry: Entry, data: Bytes, mode: Mode) returns (fault: Fault, inode: Inode)
    requires fs.Valid() && fs.held.None? && fs.displaced.None?
    requires entry == fs.plan.stage || entry == fs.plan.backup
    modifies fs
    ensures fs.interrupted == (old(fs.interrupted) || fault.Unexpected?)
    ensures old(fs.seen) <= fs.seen && old(fs.created) <= fs.created
    ensures fs.Valid() && fs.held.None? && fs.displaced.None?
    ensures fault.Done? ==>
      && Lookup(fs.names, entry) == Some(inode) && inode in fs.created
      && fs.files[inode] == File(true, data, Sanitised(mode))
    ensures entry == fs.plan.backup ==> SameEntry(old(fs.Now()), fs.Now(), fs.plan.stage)
    ensures fs.quiescent ==> SameEntry(old(fs.Now()), fs.Now(), fs.plan.target)
    ensures fs.Steady() && (fs.calm && old(entry !in fs.names) ==> fault.Done?)
    ensures entry == fs.plan.stage ==> Lookup(fs.names, fs.plan.backup) == old(Lookup(fs.names, fs.plan.backup))
  {
    fault, inode := Create(fs, entry);
    if fault.Done? { fault := FillOrRemove(fs, entry, inode, data, Sanitised(mode)); }
  }

  /** The two names trade places, and then the call may still be interrupted. */
  method Trade(fs: FileSystem) returns (fault: Fault)
    requires fs.Valid() && fs.displaced.None? && fs.plan.stage in fs.names && fs.plan.target in fs.names
    modifies fs
    ensures fs.interrupted == (old(fs.interrupted) || fault.Unexpected?)
    ensures fs.Valid() && fs.held == old(fs.held) && fs.created == old(fs.created) && fs.seen == old(fs.seen)
    ensures fs.displaced.Some? && Lookup(fs.names, fs.plan.stage) == fs.displaced && fs.plan.recovery !in fs.names
    ensures Swapped(fs.plan, old(fs.Now()), fs.Now())
    ensures fs.Steady() && (fs.calm ==> fault.Done?) && !fault.OsError? && !fault.ValueFault?
  {
    fs.Swap();
    fault := fs.Chance();
    if fault.OsError? { fault := Done; }
  }

  /** `_exchange`: swap the staged file and the target, or fail before anything changes. */
  method Exchange(fs: FileSystem) returns (fault: Fault)
    requires fs.Valid() && fs.held.Some? && fs.displaced.None? && fs.plan.stage in fs.names
    modifies fs
    ensures fs.interrupted == (old(fs.interrupted) || fault.Unexpected?)
    ensures fs.Valid() && fs.held == old(fs.held) && fs.created == old(fs.created) && old(fs.seen) <= fs.seen
    ensures !fault.ValueFault?
    ensures fault.OsError? ==> fs.displaced.None?
    ensures fs.displaced.None? ==> SameEntry(old(fs.Now()), fs.Now(), fs.plan.stage)
    ensures fs.displaced.None? && fs.quiescent ==> SameEntry(old(fs.Now()), fs.Now(), fs.plan.target)
    ensures fault.Done? ==> fs.displaced.Some? && Lookup(fs.names, fs.plan.stage) == fs.displaced
    ensures fault.Done? ==> fs.plan.recovery !in fs.names
    ensures fault.Done? && fs.quiescent ==> Swapped(fs.plan, old(fs.Now()), fs.Now())
    ensures fs.Steady() && (fs.calm && fs.quiescent && old(fs.plan.target in fs.names) ==> fault.Done?)
    ensures fs.calm && !fault.Done? ==> fault.OsError? && Missed(fs, fs.plan.target)
  {
    fault := fs.Step();
    if fault.Done? && fs.plan.target !in fs.names {
      fs.Note(fs.plan.target);
      fault := OsError;
    }
    if fault.Done? { fault := Trade(fs); }
  }

  /** The two names show each other's former inode, with unchanged content. */
  predicate Swapped(plan: Plan, a: State, b: State) {
    && plan.stage in a.names && plan.target in a.names
    && Lookup(b.names, plan.target) == Some(a.names[plan.stage])
    && Lookup(b.names, plan.stage) == Some(a.names[plan.target])
    && (forall i | i in {a.names[plan.stage], a.names[plan.target]} && i in a.files ::
          i in b.files && b.files[i] == a.files[i])
  }

  /** `os.link` of the displaced inode into the backup directory. */
  method LinkRecovery(fs: FileSystem) returns (fault: Fault)
    requires fs.Valid() && fs.displaced.Some?
    requires fs.plan.stage in fs.names && fs.plan.recovery !in fs.names
    modifies fs
    ensures fs.interrupted == (old(fs.interrupted) || fault.Unexpected?)
    ensures fs.Valid() && fs.held == old(fs.held) && fs.displaced == old(fs.displaced)
    ensures old(fs.seen) <= fs.seen && old(fs.created) <= fs.created && !fault.ValueFault?
    ensures Lookup(fs.names, fs.plan.stage) == fs.displaced
    ensures fault.Done? ==> Lookup(fs.names, fs.plan.recovery) == fs.displaced
    ensures fs.quiescent ==> SameEntry(old(fs.Now()), fs.Now(), fs.plan.target)
    ensures fs.quiescent ==> SameEntry(old(fs.Now()), fs.Now(), fs.plan.stage)
    ensures fs.Steady() && !fault.ValueFault?
    ensures fs.calm ==> if fs.displaced.value.device == fs.plan.recovery.parent.device then fault.Done? else fault.OsError?
  {
    fault := fs.Step();
    if fault.Done? && fs.names[fs.plan.stage].device != fs.plan.recovery.parent.device { fault := OsError; }
    if fault.Done? {
      fs.Bind();
      fault := fs.Chance();
      if fault.OsError? { fault := Done; }
    }
  }

  /** The file the snapshot of a capture must be. */
  function SnapshotOf(current: Captured): File {
    File(true, current.data, Sanitised(current.mode))
  }

  /** What a capture returns: bounded bytes with their own digest. */
  predicate Genuine(captured: Captured) {
    |captured.data| <= MAX_ENTRYPOINT_BYTES && captured.digest == Sha256(captured.data)
  }

  /** `_source` accepts the file that the source name shows. */
  predicate Approved(s: State, request: Request) {
    && Readable(s, request.source)
    && var file := s.files[s.names[request.source]];
       Sha256(file.data) == request.expectedSource && (request.supportingDocument ==> !Executable(file.mode))
  }

  /** Target and source show what was captured from them, and the source is approved. */
  predicate Ready(s: State, request: Request, source: Captured, current: Captured) {
    && Shows(s, request.target, current) && Genuine(current)
    && Shows(s, request.source, source) && Approved(s, request)
  }

  lemma ReadyStands(a: State, b: State, request: Request, source: Captured, current: Captured)
    requires SameEntry(a, b, request.target) && SameEntry(a, b, request.source)
    ensures Ready(a, request, source, current) ==> Ready(b, request, source, current)
  {
  }

  /** The target shows the source's bytes with the target's own permissions. */
  predicate Published(s: State, target: Entry, source: Captured, current: Captured) {
    && target in s.names && s.names[target] in s.files
    && s.files[s.names[target]] == File(true, source.data, Sanitised(current.mode))
  }

  /** A rename can reach the backup root, and a supporting document is not executable. */
  predicate Handles(request: Request, mode: Mode) {
    request.target.parent.device == request.backupRoot.device && (request.supportingDocument ==> !Executable(mode))
  }

  /** The target already shows the source's bytes. */
  predicate Satisfied(s: State, request: Request, source: Captured) {
    && Readable(s, request.target)
    && var file := s.files[s.names[request.target]];
       file.data == source.data && Handles(request, file.mode)
  }

  /** All that a repair asks of the state it starts in: the target is the expected old version, the
      source is the approved new one, the backup name is free and a link can reach it. */
  predicate Due(s: State, plan: Plan, request: Request, source: Captured) {
    && Readable(s, request.target) && plan.backup !in s.names
    && (var inode := s.names[request.target];
        var file := s.files[inode];
        && Handles(request, file.mode) && inode.device == plan.recovery.parent.device
        && Sha256(file.data) == request.expectedCurrent != source.digest)
    && Shows(s, request.source, source) && Approved(s, request)
  }

  /** What a due repair captures is ready to be repaired. */
  lemma DueIsReady(a: State, b: State, plan: Plan, request: Request, source: Captured, current: Captured)
    requires Due(a, plan, request, source)
    requires SameEntry(a, b, request.target) && SameEntry(a, b, request.source)
    requires Shows(b, request.target, current) && Genuine(current)
    ensures Ready(b, request, source, current)
    ensures current.digest == request.expectedCurrent != source.digest
    ensures current.inode.device == plan.recovery.parent.device
  {
  }

  /** A quiescent run whose source is the bystander, in which no call failed on its own account. */
  ghost predicate Undisputed(fs: FileSystem, request: Request)
    reads fs
  {
    fs.calm && fs.quiescent && fs.plan.bystander == request.source
  }

  // ---- What the operation found, in the present phase ----

  ghost predicate Sighted(fs: FileSystem, entry: Entry, captured: Captured)
    reads fs
  {
    Sighting(entry, captured, fs.held, fs.displaced) in fs.seen
  }

  /** At some moment the name showed no readable file. */
  ghost predicate Missed(fs: FileSystem, entry: Entry)
    reads fs
  {
    Unreadable(entry, fs.held, fs.displaced) in fs.seen
  }

  /** The name showed another file than this one. */
  ghost predicate Differs(fs: FileSystem, entry: Entry, expected: Captured)
    reads fs
  {
    exists d :: d != expected && Sighted(fs, entry, d)
  }

  /** The target showed something else than what was published. */
  ghost predicate Overwritten(fs: FileSystem, source: Captured, current: Captured)
    reads fs
  {
    exists d :: !SamePublished(d, source, current) && Sighted(fs, fs.plan.target, d)
  }

  /** The captured source is the approved one. */
  predicate Approves(request: Request, source: Captured) {
    source.digest == request.expectedSource && (request.supportingDocument ==> !Executable(source.mode))
  }

  /** The source showed a file that is not the approved one. */
  ghost predicate Unapproved(fs: FileSystem, request: Request)
    reads fs
  {
    exists d :: !Approves(request, d) && Sighted(fs, request.source, d)
  }

  /** Something changed before publication: the target or the source was unreadable or another file. */
  ghost predicate Disagrees(fs: FileSystem, request: Request, source: Captured, current: Captured)
    reads fs
  {
    || Missed(fs, fs.plan.target) || Differs(fs, fs.plan.target, current)
    || Missed(fs, request.source) || Differs(fs, request.source, source) || !Approves(request, source)
  }

  /** What a `blocked` report says: the snapshot could not be synced, which takes a failing call; or something
      changed before publication; or there was no target to exchange. */
  ghost predicate Withheld(fs: FileSystem, request: Request, source: Captured, current: Captured, report: Report)
    reads fs
  {
    || (report == BlockedReport(fs.plan, BACKUP_UNSYNCED) && !fs.calm)
    || (report == BlockedReport(fs.plan, UNCONFIRMED) && (fs.calm ==> Disagrees(fs, request, source, current)))
    || (report == BlockedReport(fs.plan, UNAVAILABLE) && (fs.calm ==> Missed(fs, fs.plan.target)))
  }

  /** Why a repair is refused before anything is written: the backup root is on another device, the target was
      unreadable, or it showed a file that is executable where it must not be or of neither digest. */
  ghost predicate Refuses(fs: FileSystem, request: Request, source: Captured)
    reads fs
  {
    request.target.parent.device != request.backupRoot.device || Rejects(fs, request, source.digest)
  }

  /** The target was unreadable, or it showed a file that does not fit. */
  ghost predicate Rejects(fs: FileSystem, request: Request, approved: Digest<Bytes>)
    reads fs
  {
    Missed(fs, request.target) || exists d :: Sighted(fs, request.target, d) && Unfit(request, approved, d)
  }

  predicate Unfit(request: Request, approved: Digest<Bytes>, target: Captured) {
    || (request.supportingDocument && Executable(target.mode))
    || (target.digest != approved && target.digest != request.expectedCurrent)
  }

  /** A link can bring the displaced file under the recovery name. */
  predicate Linkable(plan: Plan, current: Captured) {
    current.inode.device == plan.recovery.parent.device
  }

  /** What an `indeterminate` report says, and where the displaced file is. The exchange or the link brought up
      another file than the captured target; or, unless a call failed, a name was unreadable, the published
      file was overwritten, or no link could be made. */
  ghost predicate Unsettled(fs: FileSystem, source: Captured, current: Captured, report: Report)
    reads fs
  {
    || (&& report == IndeterminateReport(fs.plan, CONCURRENT, fs.plan.stage.name)
        && (|| Differs(fs, fs.plan.stage, current)
            || (Sighted(fs, fs.plan.stage, current) && Differs(fs, fs.plan.recovery, current))))
    || (&& report == IndeterminateReport(fs.plan, UNVERIFIED, fs.plan.stage.name)
        && (fs.calm ==>
              || Missed(fs, fs.plan.stage)
              || (&& Sighted(fs, fs.plan.stage, current)
                  && (Missed(fs, fs.plan.target) || Overwritten(fs, source, current) || !Linkable(fs.plan, current)))))
    || (&& report == IndeterminateReport(fs.plan, UNVERIFIED, fs.plan.recovery.name)
        && Sighted(fs, fs.plan.stage, current)
        && (fs.calm ==> Linkable(fs.plan, current) && Missed(fs, fs.plan.recovery)))
  }

  /** `_source`: capture the maintained file and compare it with the approved digest. Checks of its
      metadata, and of the sibling entrypoints of a supporting document, may refuse it. */
  method Source(fs: FileSystem, request: Request) returns (fault: Fault, captured: Captured)
    requires fs.Valid()
    modifies fs
    ensures fs.interrupted == (old(fs.interrupted) || fault.Unexpected?)
    ensures fs.Valid() && fs.Undisturbed()
    ensures fault.Done? ==>
      && captured.digest == request.expectedSource
      && Sighting(request.source, captured, fs.held, fs.displaced) in fs.seen
      && (request.supportingDocument ==> !Executable(captured.mode))
    ensures Undisputed(fs, request) && old(Approved(fs.Now(), request)) ==> fault.Done?
    ensures fs.quiescent && fs.plan.bystander == request.source && fault.Done? ==> Shows(fs.Now(), request.source, captured)
    ensures fs.calm && !fault.Done? ==> !fault.Unexpected? && (Missed(fs, request.source) || Unapproved(fs, request))
  {
    fault, captured := fs.Capture(request.source);
    assert fault.Done? ==> Sighted(fs, request.source, captured);
    if fault.Done? && captured.digest != request.expectedSource { fault := ValueFault; }
    if fault.Done? && request.supportingDocument && Executable(captured.mode) { fault := ValueFault; }
    if fault.Done? { fault := fs.Confirm(); }
  }

  /** After an `OSError`: the snapshot stands when it can be read back. */
  method ReadBack(fs: FileSystem, current: Captured) returns (fault: Fault, unsynced: bool)
    requires fs.Valid() && fs.displaced.None? && (fs.held.Some? ==> fs.held.value.file == SnapshotOf(current))
    modifies fs
    ensures fs.interrupted == (old(fs.interrupted) || fault.Unexpected?)
    ensures fs.Valid() && fs.displaced.None?
    ensures old(fs.seen) <= fs.seen && fs.created == old(fs.created)
    ensures fault.Done? ==> fs.held.Some? && unsynced
    ensures fs.held.Some? ==> fs.held.value.file == SnapshotOf(current)
    ensures SameEntry(old(fs.Now()), fs.Now(), fs.plan.stage)
    ensures fs.quiescent ==> SameEntry(old(fs.Now()), fs.Now(), fs.plan.target)
    ensures fs.Steady()
  {
    var second, retained := fs.Capture(fs.plan.backup);
    fault, unsynced := OsError, false;
    if second.Unexpected? {
      fault := Unexpected;
    } else if second.Done? && SameSnapshot(retained, current) {
      if fs.held.None? { fs.Promise(); }
      fault, unsynced := Done, true;
    }
  }

  /** The snapshot step of `_publish`. A failed directory sync is reported as blocked when the
      snapshot itself can be read back. */
  method TakeSnapshot(fs: FileSystem, current: Captured) returns (fault: Fault, unsynced: bool)
    requires fs.Valid() && fs.held.None? && fs.displaced.None?
    modifies fs
    ensures fs.interrupted == (old(fs.interrupted) || fault.Unexpected?)
    ensures fs.Valid() && fs.displaced.None?
    ensures old(fs.seen) <= fs.seen && old(fs.created) <= fs.created
    ensures fault.Done? ==> fs.held.Some?
    ensures fs.held.Some? ==> fs.held.value.file == SnapshotOf(current)
    ensures SameEntry(old(fs.Now()), fs.Now(), fs.plan.stage)
    ensures fs.quiescent ==> SameEntry(old(fs.Now()), fs.Now(), fs.plan.target)
    ensures fs.Steady() && (fs.calm && old(fs.plan.backup !in fs.names) ==> fault.Done? && !unsynced)
  {
    unsynced := false;
    var inode;
    fault, inode := WriteStage(fs, fs.plan.backup, current.data, current.mode);
    if fault.Done? {
      fs.Promise();
      fault := fs.Step();
    }
    if fault.OsError? { fault, unsynced := ReadBack(fs, current); }
  }

  /** The target is still the captured one, and the snapshot read back matches it. */
  method CompareTarget(fs: FileSystem, current: Captured, backup: Captured) returns (fault: Fault)
    requires fs.Valid()
    modifies fs
    ensures fs.interrupted == (old(fs.interrupted) || fault.Unexpected?)
    ensures fs.Valid() && fs.Undisturbed()
    ensures fault.Done? ==>
      SameSnapshot(backup, current) && Sighting(fs.plan.target, current, fs.held, fs.displaced) in fs.seen
    ensures fs.calm && fs.quiescent && SameSnapshot(backup, current) && Genuine(current) ==>
      old(Shows(fs.Now(), fs.plan.target, current)) ==> fault.Done?
    ensures fs.calm && SameSnapshot(backup, current) && !fault.Done? ==>
      !fault.Unexpected? && (Missed(fs, fs.plan.target) || Differs(fs, fs.plan.target, current))
  {
    var latest;
    fault, latest := fs.Capture(fs.plan.target);
    assert fault.Done? ==> Sighted(fs, fs.plan.target, latest);
    if fault.Done? && (!SameSnapshot(backup, current) || latest != current) { fault := ValueFault; }
  }

  /** The source is still the captured one, and the parents are. */
  method CompareSource(fs: FileSystem, request: Request, source: Captured) returns (fault: Fault)
    requires fs.Valid()
    modifies fs
    ensures fs.interrupted == (old(fs.interrupted) || fault.Unexpected?)
    ensures fs.Valid() && fs.Undisturbed()
    ensures fault.Done? ==> Sighting(request.source, source, fs.held, fs.displaced) in fs.seen
    ensures Undisputed(fs, request) && old(Approved(fs.Now(), request)) && old(Shows(fs.Now(), request.source, source)) ==>
      fault.Done?
    ensures fs.calm && !fault.Done? ==>
      && !fault.Unexpected?
      && (Missed(fs, request.source) || Differs(fs, request.source, source) || !Approves(request, source))
  {
    var again;
    fault, again := Source(fs, request);
    assert fault.Done? ==> Sighted(fs, request.source, again);
    if fault.Done? && again != source { fault := ValueFault; }
    if fault.Done? { fault := fs.Confirm(); }
  }

  /** The last check before publication: snapshot, target, source and parents are what they were. */
  method VerifyUnchanged(fs: FileSystem, request: Request, source: Captured, current: Captured, backup: Captured)
    returns (fault: Fault)
    requires fs.Valid() && fs.plan.target == request.target
    modifies fs
    ensures fs.interrupted == (old(fs.interrupted) || fault.Unexpected?)
    ensures fs.Valid() && fs.Undisturbed()
    ensures fault.Done? ==>
      && SameSnapshot(backup, current)
      && Sighting(request.target, current, fs.held, fs.displaced) in fs.seen
      && Sighting(request.source, source, fs.held, fs.displaced) in fs.seen
    ensures Undisputed(fs, request) && SameSnapshot(backup, current) && old(Ready(fs.Now(), request, source, current)) ==>
      fault.Done?
    ensures fs.calm && SameSnapshot(backup, current) && !fault.Done? ==>
      !fault.Unexpected? && Disagrees(fs, request, source, current)
  {
    fault := CompareTarget(fs, current, backup);
    if fault.Done? { fault := CompareSource(fs, request, source); }
  }

  /** The target shows the source's bytes. */
  method CompareNew(fs: FileSystem, source: Captured, current: Captured)
    returns (fault: Fault, ghost published: Captured)
    requires fs.Valid()
    modifies fs
    ensures fs.interrupted == (old(fs.interrupted) || fault.Unexpected?)
    ensures fs.Valid() && fs.Undisturbed()
    ensures fault.Done? ==>
      Sighting(fs.plan.target, published, fs.held, fs.displaced) in fs.seen && SamePublished(published, source, current)
    ensures fs.calm && fs.quiescent && Genuine(source) ==>
      old(Published(fs.Now(), fs.plan.target, source, current)) ==> fault.Done?
    ensures fs.calm && !fault.Done? ==>
      !fault.Unexpected? && (Missed(fs, fs.plan.target) || Overwritten(fs, source, current))
  {
    var target;
    fault, target := fs.Capture(fs.plan.target);
    published := target;
    if fault.Done? && !SamePublished(target, source, current) { fault := ValueFault; }
  }

  /** The backup name shows the snapshot of the captured target. */
  method CompareBackup(fs: FileSystem, current: Captured) returns (fault: Fault)
    requires fs.Valid() && fs.held.Some?
    modifies fs
    ensures fs.interrupted == (old(fs.interrupted) || fault.Unexpected?)
    ensures fs.Valid() && fs.Undisturbed()
    ensures fault.Done? ==> fs.held.value.file == SnapshotOf(current)
    ensures fs.calm && Genuine(current) && fs.held.value.file == SnapshotOf(current) ==> fault.Done?
  {
    var backup;
    fault, backup := fs.Capture(fs.plan.backup);
    if fault.Done? && !SameSnapshot(backup, current) { fault := ValueFault; }
  }

  /** The published target and the backup are still what they should be. */
  method ComparePublished(fs: FileSystem, source: Captured, current: Captured)
    returns (fault: Fault, ghost published: Captured)
    requires fs.Valid() && fs.held.Some?
    modifies fs
    ensures fs.interrupted == (old(fs.interrupted) || fault.Unexpected?)
    ensures fs.Valid() && fs.Undisturbed()
    ensures fault.Done? ==>
      && Sighting(fs.plan.target, published, fs.held, fs.displaced) in fs.seen
      && SamePublished(published, source, current)
      && fs.held.value.file == SnapshotOf(current)
    ensures fs.calm && fs.quiescent && Genuine(source) && Genuine(current) && fs.held.value.file == SnapshotOf(current) ==>
      old(Published(fs.Now(), fs.plan.target, source, current)) ==> fault.Done?
    ensures fs.calm && Genuine(current) && fs.held.value.file == SnapshotOf(current) && !fault.Done? ==>
      !fault.Unexpected? && (Missed(fs, fs.plan.target) || Overwritten(fs, source, current))
  {
    fault, published := CompareNew(fs, source, current);
    if fault.Done? { fault := CompareBackup(fs, current); }
  }

  /** The stage name shows the captured target. */
  method CompareDisplaced(fs: FileSystem, current: Captured) returns (fault: Fault, intact: bool)
    requires fs.Valid()
    modifies fs
    ensures fs.interrupted == (old(fs.interrupted) || fault.Unexpected?)
    ensures fs.Valid() && fs.Undisturbed()
    ensures fault.Done? && intact ==>
      Shows(fs.Now(), fs.plan.stage, current) && Sighting(fs.plan.stage, current, fs.held, fs.displaced) in fs.seen
    ensures fs.calm && fs.quiescent && Genuine(current) ==>
      old(Shows(fs.Now(), fs.plan.stage, current)) ==> fault.Done? && intact
    ensures fault.Done? && !intact ==> Differs(fs, fs.plan.stage, current)
    ensures fs.calm && !fault.Done? ==> !fault.Unexpected? && Missed(fs, fs.plan.stage)
  {
    intact := true;
    fault := fs.Confirm();
    if fault.Done? {
      var displaced;
      fault, displaced := fs.Capture(fs.plan.stage);
      assert fault.Done? ==> Sighted(fs, fs.plan.stage, displaced);
      if fault.Done? { intact := displaced == current; }
    }
  }

  /** The first check after publication. `intact` is false when the exchange displaced something
      other than the captured target. */
  method VerifyPublished(fs: FileSystem, source: Captured, current: Captured)
    returns (fault: Fault, intact: bool, ghost published: Captured)
    requires fs.Valid() && fs.held.Some? && fs.displaced.Some?
    requires Lookup(fs.names, fs.plan.stage) == fs.displaced
    modifies fs
    ensures fs.interrupted == (old(fs.interrupted) || fault.Unexpected?)
    ensures fs.Valid() && fs.held == old(fs.held) && fs.displaced == old(fs.displaced)
    ensures old(fs.seen) <= fs.seen && old(fs.created) <= fs.created
    ensures Lookup(fs.names, fs.plan.stage) == fs.displaced
    ensures Lookup(fs.names, fs.plan.recovery) == old(Lookup(fs.names, fs.plan.recovery))
    ensures fs.quiescent ==> SameEntry(old(fs.Now()), fs.Now(), fs.plan.target)
    ensures fs.quiescent ==> SameEntry(old(fs.Now()), fs.Now(), fs.plan.stage)
    ensures fault.Done? && intact ==>
      && fs.displaced == Some(current.inode)
      && Sighting(fs.plan.stage, current, fs.held, fs.displaced) in fs.seen
      && Sighting(fs.plan.target, published, fs.held, fs.displaced) in fs.seen
      && SamePublished(published, source, current)
      && fs.held.value.file == SnapshotOf(current)
    ensures fs.Steady()
    ensures fs.calm && fs.quiescent && Genuine(source) && Genuine(current) && fs.held.value.file == SnapshotOf(current) ==>
      old(Published(fs.Now(), fs.plan.target, source, current)) ==>
      old(Shows(fs.Now(), fs.plan.stage, current)) ==> fault.Done? && intact
    ensures fault.Done? && !intact ==> Differs(fs, fs.plan.stage, current)
    ensures fs.calm && Genuine(current) && fs.held.value.file == SnapshotOf(current) && !fault.Done? ==>
      && !fault.Unexpected?
      && (|| Missed(fs, fs.plan.stage)
          || (Sighted(fs, fs.plan.stage, current) && (Missed(fs, fs.plan.target) || Overwritten(fs, source, current))))
  {
    published := source;
    fault, intact := CompareDisplaced(fs, current);
    if fault.Done? && intact { fault, published := ComparePublished(fs, source, current); }
  }

  /** Link the displaced file into the backup directory and compare what the new name shows. */
  method LinkAndCompare(fs: FileSystem, displaced: Captured) returns (fault: Fault, linked: bool, intact: bool)
    requires fs.Valid() && fs.held.Some? && fs.displaced == Some(displaced.inode)
    requires Lookup(fs.names, fs.plan.stage) == fs.displaced && fs.plan.recovery !in fs.names
    modifies fs
    ensures fs.interrupted == (old(fs.interrupted) || fault.Unexpected?)
    ensures fs.Valid() && fs.held == old(fs.held) && fs.displaced == old(fs.displaced)
    ensures old(fs.seen) <= fs.seen && old(fs.created) <= fs.created
    ensures linked ==> Lookup(fs.names, fs.plan.recovery) == fs.displaced
    ensures Lookup(fs.names, fs.plan.stage) == fs.displaced
    ensures !intact ==> fault.Done?
    ensures fault.Done? && intact ==>
      linked && Sighting(fs.plan.recovery, displaced, fs.held, fs.displaced) in fs.seen
    ensures fs.quiescent ==> SameEntry(old(fs.Now()), fs.Now(), fs.plan.target)
    ensures fs.quiescent && linked ==>
      old(Shows(fs.Now(), fs.plan.stage, displaced)) ==> Shows(fs.Now(), fs.plan.recovery, displaced)
    ensures fs.Steady()
    ensures fs.calm && fs.quiescent && Genuine(displaced) && displaced.inode.device == fs.plan.recovery.parent.device ==>
      old(Shows(fs.Now(), fs.plan.stage, displaced)) ==> fault.Done? && linked && intact
    ensures !intact ==> Differs(fs, fs.plan.recovery, displaced)
    ensures fs.calm ==> (linked <==> Linkable(fs.plan, displaced))
    ensures fs.calm && !fault.Done? ==> !fault.Unexpected? && (!linked || Missed(fs, fs.plan.recovery))
  {
    linked, intact := false, true;
    fault := LinkRecovery(fs);
    if !fault.Done? { return; }
    linked := true;
    var recovery;
    fault, recovery := fs.Capture(fs.plan.recovery);
    assert fault.Done? ==> Sighted(fs, fs.plan.recovery, recovery);
    if fault.Done? && displaced != recovery { intact := false; }
  }

  /** Moving the displaced file to the backup directory: link, compare, then drop the stage name.
      `linked` and `intact` decide which recovery name the caller reports. */
  method Preserve(fs: FileSystem, displaced: Captured) returns (fault: Fault, linked: bool, intact: bool)
    requires fs.Valid() && fs.held.Some? && fs.displaced == Some(displaced.inode)
    requires Lookup(fs.names, fs.plan.stage) == fs.displaced && fs.plan.recovery !in fs.names
    modifies fs
    ensures fs.interrupted == (old(fs.interrupted) || fault.Unexpected?)
    ensures fs.Valid() && fs.held == old(fs.held) && fs.displaced == old(fs.displaced)
    ensures old(fs.seen) <= fs.seen && old(fs.created) <= fs.created
    ensures linked ==> Lookup(fs.names, fs.plan.recovery) == fs.displaced
    ensures !linked || !intact ==> Lookup(fs.names, fs.plan.stage) == fs.displaced
    ensures !intact ==> fault.Done?
    ensures fault.Done? && intact ==>
      && linked && fs.plan.stage !in fs.names
      && Sighting(fs.plan.recovery, displaced, fs.held, fs.displaced) in fs.seen
    ensures fs.quiescent ==> SameEntry(old(fs.Now()), fs.Now(), fs.plan.target)
    ensures fs.quiescent && linked ==>
      old(Shows(fs.Now(), fs.plan.stage, displaced)) ==> Shows(fs.Now(), fs.plan.recovery, displaced)
    ensures fs.Steady()
    ensures fs.calm && fs.quiescent && Genuine(displaced) && displaced.inode.device == fs.plan.recovery.parent.device ==>
      old(Shows(fs.Now(), fs.plan.stage, displaced)) ==> fault.Done? && linked && intact
    ensures !intact ==> Differs(fs, fs.plan.recovery, displaced)
    ensures fs.calm ==> (linked <==> Linkable(fs.plan, displaced))
    ensures fs.calm && !fault.Done? ==> !fault.Unexpected? && (!linked || Missed(fs, fs.plan.recovery))
  {
    fault, linked, intact := LinkAndCompare(fs, displaced);
    if fault.Done? && intact { fault := RemoveCaptured(fs, displaced); }
  }

  /** Every name a report carries can be opened, and the recovery name shows the displaced inode. */
  ghost predicate NamesExist(fs: FileSystem, report: Report)
    reads fs
  {
    && (report.backupName.Some? ==> report.backupName.value == fs.plan.backup.name && fs.plan.backup in fs.names)
    && (report.recoveryName.Some? ==> fs.displaced.Some?)
    && (report.recoveryName.Some? ==>
          || (report.recoveryName.value == fs.plan.stage.name && Lookup(fs.names, fs.plan.stage) == fs.displaced)
          || (report.recoveryName.value == fs.plan.recovery.name
              && Lookup(fs.names, fs.plan.recovery) == fs.displaced))
  }

  /** What a `repaired` report stands on, with no assumption about the competitor: each capture the
      operation compared was really shown, in the phase the comparison belongs to. */
  ghost predicate Evidence(
    fs: FileSystem, request: Request, source: Captured, current: Captured, published: Captured)
    reads fs
  {
    && fs.held.Some? && fs.held.value.file == SnapshotOf(current)
    && fs.displaced == Some(current.inode)
    && Sighting(request.target, current, fs.held, None) in fs.seen
    && Sighting(request.source, source, fs.held, None) in fs.seen
    && Sighting(fs.plan.stage, current, fs.held, fs.displaced) in fs.seen
    && Sighting(request.target, published, fs.held, fs.displaced) in fs.seen
    && Sighting(fs.plan.recovery, current, fs.held, fs.displaced) in fs.seen
    && SamePublished(published, source, current)
    && Lookup(fs.names, fs.plan.recovery) == fs.displaced && fs.plan.stage !in fs.names
  }

  function BlockedReport(plan: Plan, code: string): Report {
    Report(Blocked, Some(code), Some(plan.backup.name), None)
  }

  function IndeterminateReport(plan: Plan, code: string, recovery: string): Report {
    Report(Indeterminate, Some(code), Some(plan.backup.name), Some(recovery))
  }

  function RepairedReport(plan: Plan): Report {
    Report(Repaired, None, Some(plan.backup.name), Some(plan.recovery.name))
  }

  /** From the exchange to the end of the `try` block. */
  method Settle(fs: FileSystem, source: Captured, current: Captured)
    returns (outcome: Outcome, retain: bool, ghost published: Captured)
    requires fs.Valid() && fs.held.Some? && fs.displaced.Some?
    requires Lookup(fs.names, fs.plan.stage) == fs.displaced && fs.plan.recovery !in fs.names
    requires Genuine(current) && fs.held.value.file == SnapshotOf(current)
    modifies fs
    ensures outcome.Returned? ==> fs.interrupted == old(fs.interrupted)
    ensures fs.Valid() && fs.held == old(fs.held) && fs.displaced == old(fs.displaced)
    ensures old(fs.seen) <= fs.seen && old(fs.created) <= fs.created
    ensures outcome.Raised? ==> outcome.fault.Unexpected? && !fs.calm
    ensures outcome.Returned? ==>
      && retain && outcome.report.EvidenceMatchesStatus() && NamesExist(fs, outcome.report)
      && (outcome.report == RepairedReport(fs.plan) || Unsettled(fs, source, current, outcome.report))
    ensures outcome.Returned? && outcome.report.status.Repaired? ==>
      && fs.displaced == Some(current.inode) && fs.held.value.file == SnapshotOf(current)
      && Sighting(fs.plan.stage, current, fs.held, fs.displaced) in fs.seen
      && Sighting(fs.plan.target, published, fs.held, fs.displaced) in fs.seen
      && Sighting(fs.plan.recovery, current, fs.held, fs.displaced) in fs.seen
      && SamePublished(published, source, current)
      && Lookup(fs.names, fs.plan.recovery) == fs.displaced && fs.plan.stage !in fs.names
    ensures fs.quiescent ==> SameEntry(old(fs.Now()), fs.Now(), fs.plan.target)
    ensures fs.quiescent && outcome.Returned? && outcome.report.status.Repaired? ==>
      old(Shows(fs.Now(), fs.plan.stage, current)) ==> Shows(fs.Now(), fs.plan.recovery, current)
    ensures fs.Steady()
    ensures fs.calm && fs.quiescent && Genuine(source) ==>
      old(Published(fs.Now(), fs.plan.target, source, current)) ==>
      old(Shows(fs.Now(), fs.plan.stage, current)) && current.inode.device == fs.plan.recovery.parent.device ==>
      outcome == Returned(RepairedReport(fs.plan))
  {
    retain := false;
    var fault, intact, linked;
    fault, intact, published := VerifyPublished(fs, source, current);
    if fault.OsError? || fault.ValueFault? {
      return Returned(IndeterminateReport(fs.plan, UNVERIFIED, fs.plan.stage.name)), true, published;
    }
    if fault.Unexpected? { return Raised(fault), false, published; }
    if !intact {
      return Returned(IndeterminateReport(fs.plan, CONCURRENT, fs.plan.stage.name)), true, published;
    }
    fault, linked, intact := Preserve(fs, current);
    if fault.OsError? || fault.ValueFault? {
      var recovery := if linked then fs.plan.recovery.name else fs.plan.stage.name;
      return Returned(IndeterminateReport(fs.plan, UNVERIFIED, recovery)), true, published;
    }
    if fault.Unexpected? { return Raised(fault), false, published; }
    if !intact {
      return Returned(IndeterminateReport(fs.plan, CONCURRENT, fs.plan.stage.name)), true, published;
    }
    return Returned(RepairedReport(fs.plan)), true, published;
  }

  /** Snapshot the captured target and read the snapshot back. `None` means: go on. */
  method Snapshot(fs: FileSystem, current: Captured) returns (early: Option<Outcome>, backup: Captured)
    requires fs.Valid() && fs.held.None? && fs.displaced.None?
    requires fs.plan.backup !in fs.names && Genuine(current)
    modifies fs
    ensures early.None? || early.value.Returned? ==> fs.interrupted == old(fs.interrupted)
    ensures fs.Valid() && fs.displaced.None? && old(fs.created) <= fs.created && old(fs.seen) <= fs.seen
    ensures SameEntry(old(fs.Now()), fs.Now(), fs.plan.stage)
    ensures fs.quiescent ==> SameEntry(old(fs.Now()), fs.Now(), fs.plan.target)
    ensures early.None? || early.value.Returned? ==> fs.held.Some?
    ensures fs.held.Some? ==> fs.held.value.file == SnapshotOf(current)
    ensures early.Some? && early.value.Returned? ==> early.value.report == BlockedReport(fs.plan, BACKUP_UNSYNCED)
    ensures fs.Steady() && (fs.calm ==> early.None? && SameSnapshot(backup, current))
  {
    var fault, unsynced;
    backup := current;
    fault, unsynced := TakeSnapshot(fs, current);
    if !fault.Done? { return Some(Raised(fault)), backup; }
    if unsynced { return Some(Returned(BlockedReport(fs.plan, BACKUP_UNSYNCED))), backup; }
    fault, backup := fs.Capture(fs.plan.backup);
    early := if fault.Done? then None else Some(Raised(fault));
  }

  /** The last check as `_publish` reports it. `None` means: go on. */
  method Approve(fs: FileSystem, request: Request, source: Captured, current: Captured, backup: Captured)
    returns (early: Option<Outcome>)
    requires fs.Valid() && fs.plan.target == request.target && (fs.calm ==> SameSnapshot(backup, current))
    modifies fs
    ensures early.None? || early.value.Returned? ==> fs.interrupted == old(fs.interrupted)
    ensures fs.Valid() && fs.Undisturbed()
    ensures early.Some? && early.value.Returned? ==> Withheld(fs, request, source, current, early.value.report)
    ensures fs.calm && early.Some? ==> early.value.Returned?
    ensures early.None? ==>
      && Sighting(request.target, current, fs.held, fs.displaced) in fs.seen
      && Sighting(request.source, source, fs.held, fs.displaced) in fs.seen
    ensures Undisputed(fs, request) && old(Ready(fs.Now(), request, source, current)) ==> early.None?
  {
    var fault := VerifyUnchanged(fs, request, source, current, backup);
    if fault.OsError? || fault.ValueFault? {
      return Some(Returned(BlockedReport(fs.plan, UNCONFIRMED)));
    }
    early := if fault.Unexpected? then Some(Raised(fault)) else None;
  }

  /** Up to the exchange: snapshot, read the snapshot back, verify. `None` means: go on. */
  method Prepare(fs: FileSystem, request: Request, source: Captured, current: Captured)
    returns (early: Option<Outcome>)
    requires fs.Valid() && fs.held.None? && fs.displaced.None? && fs.plan.target == request.target
    requires fs.plan.backup !in fs.names && Genuine(current)
    modifies fs
    ensures early.None? || early.value.Returned? ==> fs.interrupted == old(fs.interrupted)
    ensures fs.Valid() && fs.displaced.None? && old(fs.created) <= fs.created && old(fs.seen) <= fs.seen
    ensures SameEntry(old(fs.Now()), fs.Now(), fs.plan.stage)
    ensures fs.quiescent ==> SameEntry(old(fs.Now()), fs.Now(), fs.plan.target)
    ensures early.None? || early.value.Returned? ==> fs.held.Some?
    ensures fs.held.Some? ==> fs.held.value.file == SnapshotOf(current)
    ensures early.Some? && early.value.Returned? ==> Withheld(fs, request, source, current, early.value.report)
    ensures fs.calm && early.Some? ==> early.value.Returned?
    ensures early.None? ==>
      && Sighting(request.target, current, fs.held, None) in fs.seen
      && Sighting(request.source, source, fs.held, None) in fs.seen
    ensures fs.Steady()
    ensures Undisputed(fs, request) && old(Ready(fs.Now(), request, source, current)) ==> early.None?
  {
    var backup;
    ghost var before := fs.Now();
    early, backup := Snapshot(fs, current);
    if early.Some? { return; }
    if fs.quiescent && fs.plan.bystander == request.source {
      ReadyStands(before, fs.Now(), request, source, current);
    }
    early := Approve(fs, request, source, current, backup);
  }

  /** The `try` block of `_publish`: everything between staging the replacement and the clean-up. */
  method Attempt(fs: FileSystem, request: Request, source: Captured, current: Captured, stage: Inode)
    returns (outcome: Outcome, retain: bool, ghost published: Captured)
    requires fs.Valid() && fs.held.None? && fs.displaced.None? && fs.plan.target == request.target
    requires Lookup(fs.names, fs.plan.stage) == Some(stage) && fs.plan.backup !in fs.names && Genuine(current)
    modifies fs
    ensures outcome.Returned? ==> fs.interrupted == old(fs.interrupted)
    ensures fs.Valid() && old(fs.created) <= fs.created && old(fs.seen) <= fs.seen
    ensures fs.displaced.Some? ==> fs.held.Some?
    ensures fs.held.Some? ==> fs.held.value.file == SnapshotOf(current)
    ensures fs.displaced.None? ==> !retain
    ensures fs.displaced.None? && outcome.Returned? ==> Lookup(fs.names, fs.plan.stage) == Some(stage)
    ensures outcome.Returned? ==>
      && NamesExist(fs, outcome.report)
      && fs.held.Some?
      && (if fs.displaced.None? then Withheld(fs, request, source, current, outcome.report)
          else
            retain
            && (outcome.report == RepairedReport(fs.plan) || Unsettled(fs, source, current, outcome.report)))
    ensures fs.calm ==> outcome.Returned?
    ensures fs.displaced.Some? && outcome.Raised? ==> outcome.fault.Unexpected?
    ensures outcome.Returned? && outcome.report.status.Repaired? ==>
      Evidence(fs, request, source, current, published)
    ensures fs.quiescent && fs.displaced.None? ==> SameEntry(old(fs.Now()), fs.Now(), fs.plan.target)
    ensures fs.quiescent && outcome.Returned? && outcome.report.status.Repaired? ==>
      && old(Shows(fs.Now(), fs.plan.target, current)) ==>
           && Shows(fs.Now(), fs.plan.recovery, current)
           && Lookup(fs.names, fs.plan.target) == Some(stage)
           && fs.files[stage] == old(fs.files)[stage]
    ensures fs.Steady()
    ensures Undisputed(fs, request) && Genuine(source) && current.inode.device == fs.plan.recovery.parent.device ==>
      old(Ready(fs.Now(), request, source, current)) ==>
      old(fs.files[stage]) == File(true, source.data, Sanitised(current.mode)) ==>
      outcome == Returned(RepairedReport(fs.plan))
  {
    published := source;
    retain := false;
    var early := Prepare(fs, request, source, current);
    if early.Some? { return early.value, false, published; }
    var fault := Exchange(fs);
    if fault.OsError? { return Returned(BlockedReport(fs.plan, UNAVAILABLE)), false, published; }
    if fault.Unexpected? { return Raised(fault), false, published; }
    outcome, retain, published := Settle(fs, source, current);
  }

  /** The `finally` block when nothing is retained: the staged file goes. */
  method CleanUp(fs: FileSystem, request: Request, source: Captured, current: Captured, stage: Inode, outcome: Outcome)
    returns (final: Outcome)
    requires fs.Valid() && stage in fs.created
    requires outcome.Returned? ==> Withheld(fs, request, source, current, outcome.report)
    requires outcome.Returned? ==> fs.displaced.None? && Lookup(fs.names, fs.plan.stage) == Some(stage)
    modifies fs
    ensures final.Returned? ==> fs.interrupted == old(fs.interrupted)
    ensures fs.Valid() && fs.held == old(fs.held) && fs.displaced == old(fs.displaced)
    ensures old(fs.seen) <= fs.seen && fs.Steady()
    ensures final.Returned? ==> final == outcome && fs.plan.stage !in fs.names
    ensures final.Returned? ==> Withheld(fs, request, source, current, final.report)
    ensures fs.calm ==> final == outcome
    ensures final != outcome ==> final.Raised? && !final.fault.ValueFault?
    ensures fs.quiescent ==> SameEntry(old(fs.Now()), fs.Now(), fs.plan.target)
  {
    final := outcome;
    var cleanup := RemoveOwned(fs, fs.plan.stage, stage);
    if cleanup.OsError? || cleanup.Unexpected? { final := Raised(cleanup); }
    assert forall entry, d :: old(Sighted(fs, entry, d)) ==> Sighted(fs, entry, d);
  }

  /** The replacement under the stage name, with the target's own permissions. */
  method StageReplacement(fs: FileSystem, request: Request, source: Captured, current: Captured)
    returns (fault: Fault, stage: Inode)
    requires fs.Valid() && fs.plan.target == request.target && fs.held.None? && fs.displaced.None?
    modifies fs
    ensures fs.interrupted == (old(fs.interrupted) || fault.Unexpected?)
    ensures fs.Valid() && fs.held.None? && fs.displaced.None? && old(fs.seen) <= fs.seen && fs.Steady()
    ensures fault.Done? ==>
      && Lookup(fs.names, fs.plan.stage) == Some(stage) && stage in fs.created
      && fs.files[stage] == File(true, source.data, Sanitised(current.mode))
    ensures fs.quiescent ==> SameEntry(old(fs.Now()), fs.Now(), fs.plan.target)
    ensures Lookup(fs.names, fs.plan.backup) == old(Lookup(fs.names, fs.plan.backup))
    ensures fs.calm && old(fs.plan.stage !in fs.names) ==> fault.Done?
    ensures fs.quiescent && fs.plan.bystander == request.source && old(Ready(fs.Now(), request, source, current)) ==>
      Ready(fs.Now(), request, source, current)
  {
    ghost var before := fs.Now();
    fault, stage := WriteStage(fs, fs.plan.stage, source.data, current.mode);
    if fs.quiescent && fs.plan.bystander == request.source {
      ReadyStands(before, fs.Now(), request, source, current);
    }
  }

  /** `_publish` from staging on, including the clean-up in its `finally` block. */
  method Replace(fs: FileSystem, request: Request, source: Captured, current: Captured)
    returns (outcome: Outcome, ghost published: Captured)
    requires fs.Valid() && fs.plan.target == request.target
    requires fs.held.None? && fs.displaced.None? && fs.plan.stage !in fs.names
    requires fs.plan.backup !in fs.names && Genuine(current)
    modifies fs
    ensures outcome.Returned? ==> fs.interrupted == old(fs.interrupted)
    ensures fs.Valid() && (fs.displaced.Some? ==> fs.held.Some?)
    ensures old(fs.seen) <= fs.seen
    ensures fs.held.Some? ==> fs.held.value.file == SnapshotOf(current)
    ensures outcome.Returned? ==>
      && NamesExist(fs, outcome.report) && fs.held.Some?
      && (if fs.displaced.None? then
            Withheld(fs, request, source, current, outcome.report) && fs.plan.stage !in fs.names
          else outcome.report == RepairedReport(fs.plan) || Unsettled(fs, source, current, outcome.report))
    ensures fs.calm ==> outcome.Returned?
    ensures fs.displaced.Some? && outcome.Raised? ==> !outcome.fault.ValueFault?
    ensures outcome.Returned? && outcome.report.status.Repaired? ==>
      Evidence(fs, request, source, current, published)
    ensures fs.quiescent && fs.displaced.None? ==> SameEntry(old(fs.Now()), fs.Now(), fs.plan.target)
    ensures fs.quiescent && outcome.Returned? && outcome.report.status.Repaired? ==>
      && old(Shows(fs.Now(), fs.plan.target, current)) ==>
           && Shows(fs.Now(), fs.plan.recovery, current)
           && fs.plan.target in fs.names
           && fs.files[fs.names[fs.plan.target]] == File(true, source.data, Sanitised(current.mode))
    ensures fs.Steady()
    ensures Undisputed(fs, request) && Genuine(source) && current.inode.device == fs.plan.recovery.parent.device ==>
      old(Ready(fs.Now(), request, source, current)) ==> outcome == Returned(RepairedReport(fs.plan))
  {
    published := source;
    var fault, stage := StageReplacement(fs, request, source, current);
    if !fault.Done? { return Raised(fault), published; }
    var retain;
    outcome, retain, published := Attempt(fs, request, source, current, stage);
    if retain { return; }
    outcome := CleanUp(fs, request, source, current, stage, outcome);
  }

  /** The target is readable and of a kind that a repair handles. */
  predicate Handled(s: State, request: Request) {
    Readable(s, request.target) && Handles(request, s.files[s.names[request.target]].mode)
  }

  /** What `_publish` checks of the target before it decides. */
  method Examine(fs: FileSystem, request: Request, source: Captured) returns (fault: Fault, captured: Captured)
    requires fs.Valid()
    modifies fs
    ensures fs.interrupted == (old(fs.interrupted) || fault.Unexpected?)
    ensures fs.Valid() && fs.Undisturbed()
    ensures fault.Done? ==>
      && Shows(fs.Now(), request.target, captured) && Handles(request, captured.mode) && Genuine(captured)
      && Sighting(request.target, captured, fs.held, fs.displaced) in fs.seen
    ensures fs.calm && fs.quiescent && fs.plan.target == request.target && old(Handled(fs.Now(), request)) ==> fault.Done?
    ensures fs.calm && !fault.Done? ==> Refuses(fs, request, source)
  {
    if request.target.parent.device != request.backupRoot.device {
      return ValueFault, Captured([], Sha256([]), Inode(0, 0), 0);
    }
    fault, captured := fs.Capture(request.target);
    assert fault.Done? ==> Sighted(fs, request.target, captured);
    if fault.Done? && request.supportingDocument && Executable(captured.mode) { fault := ValueFault; }
  }

  const MATCHING := Report(Matching, None, None, None)

  /** A satisfied target is captured with the source's digest. */
  lemma SatisfiedMatches(a: State, b: State, request: Request, source: Captured, current: Captured)
    requires Genuine(source) && SameEntry(a, b, request.target)
    ensures Satisfied(a, request, source) ==> Handled(a, request)
    ensures Satisfied(a, request, source) && Shows(b, request.target, current) ==> current.digest == source.digest
  {
  }

  /** What follows from the captured target. */
  method Choose(fs: FileSystem, request: Request, source: Captured, current: Captured) returns (early: Option<Outcome>)
    requires fs.Valid() && Sighted(fs, request.target, current)
    modifies fs
    ensures early.None? || early.value.Returned? ==> fs.interrupted == old(fs.interrupted)
    ensures fs.Valid() && fs.Undisturbed() && (early.None? ==> fs.Now() == old(fs.Now()))
    ensures early.None? ==> current.digest == request.expectedCurrent && current.digest != source.digest
    ensures early.Some? && early.value.Returned? ==> early.value.report == MATCHING && current.digest == source.digest
    ensures fs.calm && early.Some? && early.value.Raised? ==> Refuses(fs, request, source)
    ensures fs.calm && current.digest == source.digest ==> early == Some(Returned(MATCHING))
    ensures current.digest == request.expectedCurrent != source.digest ==> early.None?
  {
    early := None;
    if current.digest == source.digest {
      var fault := fs.Confirm();
      early := Some(if fault.Done? then Returned(MATCHING) else Raised(fault));
    } else if current.digest != request.expectedCurrent {
      early := Some(Raised(ValueFault));
    }
  }

  /** `_publish` up to the decision to repair. `None` means: go on. */
  method Decide(fs: FileSystem, request: Request, source: Captured) returns (early: Option<Outcome>, current: Captured)
    requires fs.Valid() && fs.plan.target == request.target
    modifies fs
    ensures early.None? || early.value.Returned? ==> fs.interrupted == old(fs.interrupted)
    ensures fs.Valid() && fs.Undisturbed()
    ensures early.None? || early.value.Returned? ==> Sighted(fs, request.target, current) && Handles(request, current.mode)
    ensures early.None? ==>
      && Shows(fs.Now(), request.target, current) && Genuine(current)
      && current.digest == request.expectedCurrent && current.digest != source.digest
    ensures early.Some? && early.value.Returned? ==> early.value.report == MATCHING && current.digest == source.digest
    ensures fs.calm && early.Some? && early.value.Raised? ==> Refuses(fs, request, source)
    ensures fs.calm && fs.quiescent && old(Handled(fs.Now(), request)) ==>
      && Shows(fs.Now(), request.target, current) && Genuine(current)
      && (current.digest == source.digest ==> early == Some(Returned(MATCHING)))
      && (current.digest == request.expectedCurrent != source.digest ==> early.None?)
  {
    var fault;
    fault, current := Examine(fs, request, source);
    early := if fault.Done? then None else Some(Raised(fault));
    if fault.Done? { early := Choose(fs, request, source, current); }
  }

  /** What the state before says about the capture: a satisfied target matches, and a due one is ready. */
  lemma DecidedRightly(a: State, b: State, plan: Plan, request: Request, source: Captured, current: Captured)
    requires SameEntry(a, b, request.target)
    ensures Genuine(source) && Satisfied(a, request, source) ==> Handled(a, request)
    ensures Genuine(source) && Satisfied(a, request, source) && Shows(b, request.target, current) ==>
      current.digest == source.digest
    ensures request.target in a.names && a.names[request.target] in a.files && Shows(b, request.target, current) ==>
      a.files[a.names[request.target]].data == source.data && source.digest == Sha256(source.data) ==>
      current.digest == source.digest
    ensures Due(a, plan, request, source) ==> Handled(a, request)
    ensures
      (Due(a, plan, request, source) && SameEntry(a, b, request.source) && Shows(b, request.target, current) && Genuine(current)) ==>
      && Ready(b, request, source, current) && Linkable(plan, current)
      && current.digest == request.expectedCurrent != source.digest
  {
    if Genuine(source) { SatisfiedMatches(a, b, request, source, current); }
    if Due(a, plan, request, source) && SameEntry(a, b, request.source) && Shows(b, request.target, current) && Genuine(current) {
      DueIsReady(a, b, plan, request, source, current);
    }
  }

  /** `_publish`. Whatever fails and whenever the competitor moves:
      - `fs.Valid()` says that along the whole history no displaced inode lost its last name, the
        pledged snapshot stayed in place, and only safe names were removed;
      - a report is consistent, every name in it exists, and its code is justified by what was seen;
      - without a failing call it raises only before anything is written, and never after the exchange;
      - an exception other than `OSError` and `ValueError` is never turned into a report;
      - a `repaired` report rests on the complete evidence;
      - a `matching` report means that nothing was written. */
  method Publish(fs: FileSystem, request: Request, source: Captured)
    returns (outcome: Outcome, ghost current: Captured, ghost published: Captured)
    requires fs.Valid() && fs.plan.target == request.target
    requires fs.held.None? && fs.displaced.None? && fs.created == {} && fs.plan.stage !in fs.names
    modifies fs
    ensures outcome.Returned? ==> fs.interrupted == old(fs.interrupted)
    ensures fs.Valid() && (fs.displaced.Some? ==> fs.held.Some?)
    ensures fs.held.Some? ==> fs.held.value.file == SnapshotOf(current)
    ensures fs.created != {} ==>
      && Sighting(request.target, current, None, None) in fs.seen
      && current.digest == request.expectedCurrent && current.digest != source.digest
    ensures outcome.Returned? ==> outcome.report.EvidenceMatchesStatus() && NamesExist(fs, outcome.report)
    ensures outcome.Returned? && outcome.report != MATCHING ==>
      if fs.displaced.None? then Withheld(fs, request, source, current, outcome.report)
      else outcome.report == RepairedReport(fs.plan) || Unsettled(fs, source, current, outcome.report)
    ensures fs.calm && outcome.Raised? ==> fs.Undisturbed() && Refuses(fs, request, source)
    ensures fs.displaced.Some? && outcome.Raised? ==> !outcome.fault.ValueFault?
    ensures fs.calm && fs.displaced.Some? ==>
      outcome.Returned? && (outcome.report.status.Repaired? || outcome.report.status.Indeterminate?)
    ensures outcome.Returned? && outcome.report.status.Matching? ==>
      && fs.created == {} && fs.displaced.None?
      && Sighting(request.target, current, None, None) in fs.seen && current.digest == source.digest
    ensures outcome.Returned? && outcome.report.status.Blocked? ==>
      fs.held.Some? && fs.displaced.None? && fs.plan.stage !in fs.names
    ensures outcome.Returned? && outcome.report.status.Indeterminate? ==> fs.displaced.Some?
    ensures outcome.Returned? && outcome.report.status.Repaired? ==>
      Evidence(fs, request, source, current, published)
    ensures fs.quiescent && fs.displaced.None? ==> SameEntry(old(fs.Now()), fs.Now(), request.target)
    ensures fs.quiescent && outcome.Returned? && outcome.report.status.Repaired? ==>
      && old(Shows(fs.Now(), request.target, current))
      && Shows(fs.Now(), fs.plan.recovery, current)
      && fs.plan.target in fs.names
      && fs.files[fs.names[fs.plan.target]] == File(true, source.data, Sanitised(current.mode))
    ensures fs.quiescent && request.target in old(fs.names)
            && old(fs.files[fs.names[request.target]].data) == source.data && source.digest == Sha256(source.data) ==>
      && fs.Undisturbed() && (outcome.Returned? ==> outcome.report.status.Matching?)
    ensures outcome.Returned? && outcome.report.status.Repaired? ==> Handles(request, current.mode)
    ensures fs.calm && fs.quiescent && Genuine(source) && old(Satisfied(fs.Now(), request, source)) ==>
      outcome == Returned(MATCHING)
    ensures Undisputed(fs, request) && Genuine(source) && old(Due(fs.Now(), fs.plan, request, source)) ==>
      outcome == Returned(RepairedReport(fs.plan))
  {
    published := source;
    ghost var before := fs.Now();
    var early, captured := Decide(fs, request, source);
    current := captured;
    if fs.quiescent { DecidedRightly(before, fs.Now(), fs.plan, request, source, current); }
    if early.Some? { return early.value, current, published; }
    outcome, published := Replace(fs, request, source, captured);
  }

  function TargetDigest(s: State, request: Request): Digest<Bytes>
    requires Readable(s, request.target)
  {
    Sha256(s.files[s.names[request.target]].data)
  }

  /** The target is readable, of the right kind, and either the new version or the expected old one. */
  predicate Previewable(s: State, request: Request, approved: Digest<Bytes>) {
    && Readable(s, request.target)
    && (request.supportingDocument ==> !Executable(s.files[s.names[request.target]].mode))
    && (TargetDigest(s, request) == approved || TargetDigest(s, request) == request.expectedCurrent)
  }

  lemma PreviewableStands(a: State, b: State, request: Request, approved: Digest<Bytes>)
    requires SameEntry(a, b, request.target)
    ensures Previewable(a, request, approved) ==>
      Previewable(b, request, approved) && TargetDigest(b, request) == TargetDigest(a, request)
  {
  }

  /** What a preview makes of the target, given the approved source. */
  method Preview(fs: FileSystem, request: Request, source: Captured) returns (fault: Fault, captured: Captured)
    requires fs.Valid()
    modifies fs
    ensures fs.interrupted == (old(fs.interrupted) || fault.Unexpected?)
    ensures fs.Valid() && fs.Undisturbed()
    ensures fault.Done? ==>
      && Sighting(request.target, captured, fs.held, fs.displaced) in fs.seen
      && (captured.digest == source.digest || captured.digest == request.expectedCurrent)
      && (request.supportingDocument ==> !Executable(captured.mode))
    ensures fs.calm && !fault.Done? ==> Rejects(fs, request, source.digest)
    ensures fs.calm && fs.quiescent && fs.plan.target == request.target && old(Previewable(fs.Now(), request, source.digest)) ==>
      fault.Done? && captured.digest == old(TargetDigest(fs.Now(), request))
  {
    fault, captured := fs.Capture(request.target);
    assert fault.Done? ==> Sighted(fs, request.target, captured);
    if fault.Done? && request.supportingDocument && Executable(captured.mode) { fault := ValueFault; }
    if fault.Done? && captured.digest != source.digest && captured.digest != request.expectedCurrent {
      fault := ValueFault;
    }
  }

  /** The preview's report, given the approved source. */
  method Assess(fs: FileSystem, request: Request, source: Captured) returns (outcome: Outcome, ghost current: Captured)
    requires fs.Valid() && fs.plan.target == request.target
    modifies fs
    ensures outcome.Returned? ==> fs.interrupted == old(fs.interrupted)
    ensures fs.Valid() && fs.Undisturbed()
    ensures outcome.Returned? ==>
      && outcome.report == Report(if current.digest == source.digest then Matching else Repairable, None, None, None)
      && Sighted(fs, request.target, current)
      && (current.digest == source.digest || current.digest == request.expectedCurrent)
      && (request.supportingDocument ==> !Executable(current.mode))
    ensures fs.calm && outcome.Raised? ==> Rejects(fs, request, source.digest)
    ensures fs.calm && fs.quiescent && old(Previewable(fs.Now(), request, source.digest)) ==>
      outcome.Returned? && current.digest == old(TargetDigest(fs.Now(), request))
  {
    var fault, captured := Preview(fs, request, source);
    current := captured;
    if !fault.Done? { return Raised(fault), current; }
    var status := if captured.digest == source.digest then Matching else Repairable;
    outcome := Returned(Report(status, None, None, None));
  }

  /** `check_entrypoint`: a preview that writes nothing. */
  method Check(fs: FileSystem, request: Request) returns (outcome: Outcome, ghost current: Captured)
    requires fs.Valid() && fs.plan.target == request.target
    modifies fs
    ensures outcome.Returned? ==> fs.interrupted == old(fs.interrupted)
    ensures fs.Valid() && fs.Undisturbed()
    ensures outcome.Returned? ==>
      && outcome.report.EvidenceMatchesStatus()
      && (outcome.report.status.Matching? || outcome.report.status.Repairable?)
      && Sighting(request.target, current, fs.held, fs.displaced) in fs.seen
      && (outcome.report.status.Matching? <==> current.digest == request.expectedSource)
      && (outcome.report.status.Repairable? ==> current.digest == request.expectedCurrent)
      && (request.supportingDocument ==> !Executable(current.mode))
    ensures fs.calm && outcome.Raised? ==>
      Missed(fs, request.source) || Unapproved(fs, request) || Rejects(fs, request, request.expectedSource)
    ensures Undisputed(fs, request) && old(Approved(fs.Now(), request)) ==>
      old(Previewable(fs.Now(), request, request.expectedSource)) ==>
      outcome == Returned(Report(
        if old(TargetDigest(fs.Now(), request)) == request.expectedSource then Matching else Repairable, None, None, None))
  {
    ghost var before := fs.Now();
    var fault, source := Source(fs, request);
    current := source;
    if !fault.Done? { return Raised(fault), current; }
    if fs.quiescent { PreviewableStands(before, fs.Now(), request, request.expectedSource); }
    outcome, current := Assess(fs, request, source);
  }

  lemma SanitisedMode(mode: Mode)
    ensures Executable(Sanitised(mode)) == Executable(mode)
  {
    assert mode & 0x1FF & 0x49 == mode & 0x49;
  }

  /** Repairing again: a second operation, with free private names of its own, on the state a repair
      left. It writes nothing: the target and the first recovery stand, and unless a call fails on its
      own account the report is `matching`. */
  method RepairAgain(fs: FileSystem, request: Request, source: Captured, next: Plan)
    returns (again: FileSystem, outcome: Outcome)
    requires fs.Valid() && Genuine(source) && Satisfied(fs.Now(), request, source)
    requires next.Distinct() && next.Spares() && next.target == request.target && next.bystander == fs.plan.recovery
    requires next.stage !in fs.names && next.backup !in fs.names && next.recovery !in fs.names
    ensures fresh(again) && again.Valid() && again.plan == next
    ensures again.created == {} && again.removals == [] && again.displaced == None && again.held == None
    ensures SameEntry(fs.Now(), again.Now(), request.target) && SameEntry(fs.Now(), again.Now(), fs.plan.recovery)
    ensures outcome.Returned? || again.calm ==> outcome == Returned(MATCHING)
  {
    again := new FileSystem(next, fs.Now(), true);
    ghost var current, published;
    outcome, current, published := Publish(again, request, source);
  }

  /** Repairing twice in a quiescent run: unless a call fails on its own account, the first operation
      makes the repair that is due, and the second, which happens whenever its names are free, reports
      `matching` and writes nothing. */
  method RepairTwice(fs: FileSystem, request: Request, source: Captured, next: Plan)
    returns (first: Outcome, again: FileSystem?, second: Option<Outcome>)
    requires fs.Valid() && fs.plan.target == request.target && fs.quiescent && Genuine(source)
    requires fs.held.None? && fs.displaced.None? && fs.created == {} && fs.plan.stage !in fs.names
    requires next.Distinct() && next.Spares() && next.target == request.target && next.bystander == fs.plan.recovery
    modifies fs
    ensures Undisputed(fs, request) && old(Due(fs.Now(), fs.plan, request, source)) ==>
      first == Returned(RepairedReport(fs.plan))
    ensures second.Some? <==>
      && first.Returned? && first.report.status.Repaired?
      && next.stage !in fs.names && next.backup !in fs.names && next.recovery !in fs.names
    ensures second.Some? ==>
      && again != null && fresh(again) && again.Valid() && again.plan == next
      && again.created == {} && again.removals == [] && again.displaced == None
      && SameEntry(fs.Now(), again.Now(), request.target) && SameEntry(fs.Now(), again.Now(), fs.plan.recovery)
      && (second.value.Returned? || again.calm ==> second.value == Returned(MATCHING))
  {
    ghost var current, published;
    first, current, published := Publish(fs, request, source);
    again, second := null, None;
    var taken := next.stage in fs.names || next.backup in fs.names || next.recovery in fs.names;
    if first.Returned? && first.report.status.Repaired? && !taken {
      SanitisedMode(current.mode);
      var outcome;
      again, outcome := RepairAgain(fs, request, source, next);
      second := Some(outcome);
    }
  }
}
