/** A small host filesystem on which one repair operation and a competitor take turns.

    Every system call is a method. Before it acts, the competitor may make any allowed move; then
    the call may fail, act, or act and be interrupted. `moments` records every state that an
    observer, or a crash, could see. */
module Host {
  import opened Common

  /** An opened directory: the device and inode number of its descriptor. */
  datatype Directory = Directory(device: nat, inode: nat)

  datatype Entry = Entry(parent: Directory, name: string)

  datatype Inode = Inode(device: nat, number: nat)

  /** The permission bits selected by `S_IMODE`. */
  type Mode = bv12

  datatype File = File(regular: bool, data: Bytes, mode: Mode)

  datatype State = State(names: map<Entry, Inode>, files: map<Inode, File>)

  /** How a step ends: an `OSError`, a `ValueError`, or any other exception. */
  datatype Fault = Done | OsError | ValueFault | Unexpected

  datatype Captured = Captured(data: Bytes, digest: Digest<Bytes>, inode: Inode, mode: Mode)

  /** The snapshot that must stay under the backup name from a given moment on. */
  datatype Pledge = Pledge(inode: Inode, file: File)

  /** One observable state, with the obligations in force at that moment. */
  datatype Moment = Moment(state: State, held: Option<Pledge>, displaced: Option<Inode>)

  /** An unlink that took place: which inode lost a name, and the state just before. */
  datatype Removal = Removal(inode: Inode, before: State)

  /** What this operation found under a name, before or after the snapshot and exchange: a captured file,
      or no readable one. */
  datatype Sighting =
    | Sighting(entry: Entry, captured: Captured, held: Option<Pledge>, displaced: Option<Inode>)
    | Unreadable(entry: Entry, held: Option<Pledge>, displaced: Option<Inode>)

  const MAX_ENTRYPOINT_BYTES := 8 * 1024 * 1024

  function Lookup(names: map<Entry, Inode>, entry: Entry): Option<Inode> {
    if entry in names then Some(names[entry]) else None
  }

  predicate WellFormed(s: State) {
    forall e | e in s.names :: s.names[e] in s.files
  }

  /** `stat.S_IMODE(mode) & 0o777`. */
  function Sanitised(mode: Mode): Mode {
    mode & 0x1FF
  }

  /** The name shows exactly the captured regular file. */
  predicate Shows(s: State, entry: Entry, captured: Captured) {
    && Lookup(s.names, entry) == Some(captured.inode)
    && captured.inode in s.files
    && s.files[captured.inode] == File(true, captured.data, captured.mode)
    && captured.digest == Sha256(captured.data)
  }

  /** The same name is bound to the same inode, with the same content. */
  predicate SameEntry(a: State, b: State, entry: Entry) {
    && Lookup(a.names, entry) == Lookup(b.names, entry)
    && (entry in a.names && a.names[entry] in a.files ==>
          a.names[entry] in b.files && a.files[a.names[entry]] == b.files[a.names[entry]])
  }

  /** The name shows a regular file within the size limit. */
  predicate Readable(s: State, entry: Entry) {
    && entry in s.names && s.names[entry] in s.files
    && s.files[s.names[entry]].regular && |s.files[s.names[entry]].data| <= MAX_ENTRYPOINT_BYTES
  }

  /** Names used by one operation: the target it repairs, its three private names, and one more name,
      any, that a quiescent competitor leaves alone. */
  datatype Plan = Plan(target: Entry, stage: Entry, backup: Entry, recovery: Entry, bystander: Entry) {
    predicate Distinct() {
      && stage != target && backup != target && recovery != target
      && stage != backup && stage != recovery && backup != recovery
    }

    predicate Spares() {
      bystander != target && bystander != stage && bystander != backup && bystander != recovery
    }

    /** Only private names lead to the inodes the operation owns. */
    predicate Confined(s: State, owned: set<Inode>) {
      forall e | e in s.names && e != stage && e != backup && e != recovery :: s.names[e] !in owned
    }

    /** Inodes are never forgotten, and the given ones keep their content. */
    predicate Retains(a: State, b: State, kept: set<Inode>) {
      forall i | i in a.files :: i in b.files && (i in kept ==> a.files[i] == b.files[i])
    }

    /** A move the competitor may make: rebind, unlink or create any name that is not private, and
        rewrite any inode except those known only by private names. In a quiescent run it also
        leaves the target, the bystander, and whatever the private names show, alone. */
    predicate Allowed(a: State, b: State, owned: set<Inode>, quiescent: bool) {
      && WellFormed(b)
      && Lookup(a.names, stage) == Lookup(b.names, stage)
      && Lookup(a.names, backup) == Lookup(b.names, backup)
      && Lookup(a.names, recovery) == Lookup(b.names, recovery)
      && Retains(a, b, owned)
      && Confined(b, owned)
      && (quiescent ==> SameEntry(a, b, target) && SameEntry(a, b, stage) && SameEntry(a, b, recovery))
      && (quiescent ==> SameEntry(a, b, bystander))
    }

    /** Obligations that hold at one moment: the pledged snapshot is under the backup name, and the
        displaced inode has a name. */
    predicate Kept(m: Moment) {
      && (m.held.Some? ==>
            && Lookup(m.state.names, backup) == Some(m.held.value.inode)
            && m.held.value.inode in m.state.files
            && m.state.files[m.held.value.inode] == m.held.value.file)
      && (m.displaced.Some? ==>
            || Lookup(m.state.names, stage) == m.displaced
            || Lookup(m.state.names, recovery) == m.displaced)
    }

    /** The invariant of the present state. */
    ghost predicate Sound(
      s: State, created: set<Inode>, owned: set<Inode>, held: Option<Pledge>, displaced: Option<Inode>)
    {
      && WellFormed(s)
      && owned <= created <= s.files.Keys
      && Confined(s, owned)
      && (backup in s.names ==> s.names[backup] in owned)
      && (held.Some? ==> held.value.inode in owned)
      && (displaced.None? ==>
            && created == owned && recovery !in s.names
            && (stage in s.names ==> s.names[stage] in owned && Lookup(s.names, backup) != Some(s.names[stage])))
      && (displaced.Some? ==>
            && displaced.value !in created
            && Lookup(s.names, stage) in {None, displaced} && Lookup(s.names, recovery) in {None, displaced})
      && Kept(Moment(s, held, displaced))
    }

    /** An obligation of the earlier moment is one of the later moment. */
    predicate Binds(a: Moment, b: Moment) {
      (a.held.Some? ==> b.held == a.held) && (a.displaced.Some? ==> b.displaced == a.displaced)
    }

    /** No data is lost along the whole history, and no obligation is ever dropped. */
    ghost predicate Safe(moments: seq<Moment>) {
      && (forall k {:trigger Kept(moments[k])} | 0 <= k < |moments| :: Kept(moments[k]))
      && (forall j, k {:trigger Binds(moments[j], moments[k])} | 0 <= j <= k < |moments| :: Binds(moments[j], moments[k]))
    }

    /** Every recorded capture was true at some moment of the history. */
    ghost predicate Attested(moments: seq<Moment>, seen: set<Sighting>) {
      forall s {:trigger Witnessed(moments, s)} | s in seen :: Witnessed(moments, s)
    }

    ghost predicate Witnessed(moments: seq<Moment>, s: Sighting) {
      exists k | 0 <= k < |moments| :: AtMoment(moments[k], s)
    }

    predicate AtMoment(m: Moment, s: Sighting) {
      && m.held == s.held && m.displaced == s.displaced
      && if s.Sighting? then Shows(m.state, s.entry, s.captured) else !Readable(m.state, s.entry)
    }

    /** Only inodes the operation made itself, or inodes already linked for recovery, lose a name. */
    ghost predicate SafeRemovals(removals: seq<Removal>, created: set<Inode>) {
      forall r | r in removals ::
        r.inode in created || Lookup(r.before.names, recovery) == Some(r.inode)
    }
  }

  lemma FreshNumber(used: set<Inode>, device: nat) returns (bound: nat)
    ensures Inode(device, bound) !in used
    ensures forall i | i in used :: i.number < bound
    decreases used
  {
    if used == {} {
      bound := 0;
    } else {
      var i :| i in used;
      var rest := FreshNumber(used - {i}, device);
      bound := if i.number < rest then rest else i.number + 1;
      forall j | j in used ensures j.number < bound {
        if j != i { assert j in used - {i}; }
      }
    }
  }

  lemma SafeExtends(plan: Plan, moments: seq<Moment>, m: Moment)
    requires plan.Safe(moments) && plan.Kept(m)
    requires moments != [] ==> plan.Binds(moments[|moments| - 1], m)
    ensures plan.Safe(moments + [m])
    ensures (moments + [m])[|moments|] == m
  {
    var all := moments + [m];
    forall k | 0 <= k < |all| ensures plan.Kept(all[k]) {
      if k < |moments| { assert plan.Kept(moments[k]); }
    }
    forall j, k | 0 <= j <= k < |all| ensures plan.Binds(all[j], all[k]) {
      if j < |moments| {
        assert plan.Binds(moments[j], moments[if k < |moments| then k else |moments| - 1]);
      }
    }
  }

  lemma AttestedExtends(plan: Plan, moments: seq<Moment>, m: Moment, seen: set<Sighting>)
    requires plan.Attested(moments, seen)
    ensures plan.Attested(moments + [m], seen)
  {
    forall s | s in seen ensures plan.Witnessed(moments + [m], s) {
      assert plan.Witnessed(moments, s);
      var k :| 0 <= k < |moments| && plan.AtMoment(moments[k], s);
      assert (moments + [m])[k] == moments[k];
    }
  }

  lemma AttestedGrows(plan: Plan, moments: seq<Moment>, seen: set<Sighting>, s: Sighting)
    requires plan.Attested(moments, seen) && moments != [] && plan.AtMoment(moments[|moments| - 1], s)
    ensures plan.Attested(moments, seen + {s})
  {
    forall t | t in seen + {s} ensures plan.Witnessed(moments, t) {
      if t in seen { assert plan.Witnessed(moments, t); }
    }
  }

  /** A new inode under a private name that was free keeps the state sound. */
  lemma PlaceIsSound(
    plan: Plan, s: State, created: set<Inode>, owned: set<Inode>, entry: Entry, inode: Inode, file: File)
    requires plan.Distinct() && plan.Spares() && plan.Sound(s, created, owned, None, None)
    requires entry == plan.stage || entry == plan.backup
    requires entry !in s.names && inode !in s.names.Values && inode !in created
    ensures var next := State(s.names[entry := inode], s.files[inode := file]);
      plan.Sound(next, created + {inode}, owned + {inode}, None, None) && SameEntry(s, next, plan.bystander)
  {
    assert forall e | e in s.names :: s.names[e] in s.names.Values;
  }

  /** The filesystem as one repair operation sees it. */
  class FileSystem {
    const plan: Plan
    const quiescent: bool
    var names: map<Entry, Inode>
    var files: map<Inode, File>
    var created: set<Inode>   // inodes made by this operation
    var owned: set<Inode>     // those of them that are still known only by private names
    ghost var calm: bool      // no call has failed on its own account so far
    ghost var interrupted: bool   // some call has ended with an exception other than `OSError` and `ValueError`
    ghost var held: Option<Pledge>
    ghost var displaced: Option<Inode>
    ghost var moments: seq<Moment>
    ghost var removals: seq<Removal>
    ghost var seen: set<Sighting>

    function Now(): State
      reads this
    {
      State(names, files)
    }

    ghost function Here(): Moment
      reads this
    {
      Moment(Now(), held, displaced)
    }

    ghost predicate Valid()
      reads this
    {
      && plan.Distinct() && plan.Spares()
      && plan.Sound(Now(), created, owned, held, displaced)
      && moments != [] && moments[|moments| - 1] == Here()
      && plan.Safe(moments)
      && plan.SafeRemovals(removals, created)
      && plan.Attested(moments, seen)
    }

    /** What every method keeps: a failure is not forgotten, and in a quiescent run the bystander stands. */
    twostate predicate Steady()
      reads this
    {
      (calm ==> old(calm)) && (quiescent ==> SameEntry(old(Now()), Now(), plan.bystander))
    }

    /** What every step leaves as it was unless its own contract says otherwise. */
    twostate predicate Undisturbed()
      reads this
    {
      && Lookup(names, plan.stage) == old(Lookup(names, plan.stage))
      && Lookup(names, plan.backup) == old(Lookup(names, plan.backup))
      && Lookup(names, plan.recovery) == old(Lookup(names, plan.recovery))
      && plan.Retains(old(Now()), Now(), owned)
      && (quiescent ==>
            && SameEntry(old(Now()), Now(), plan.target)
            && SameEntry(old(Now()), Now(), plan.stage)
            && SameEntry(old(Now()), Now(), plan.recovery))
      && created == old(created) && owned == old(owned)
      && held == old(held) && displaced == old(displaced) && removals == old(removals)
      && old(seen) <= seen && Steady()
    }

    constructor (plan: Plan, start: State, quiescent: bool)
      requires plan.Distinct() && plan.Spares() && WellFormed(start)
      requires plan.stage !in start.names && plan.backup !in start.names && plan.recovery !in start.names
      ensures Valid() && this.plan == plan && this.quiescent == quiescent && Now() == start
      ensures created == {} && owned == {} && held == None && displaced == None && removals == []
      ensures calm && !interrupted
    {
      this.plan, this.quiescent := plan, quiescent;
      names, files := start.names, start.files;
      created, owned := {}, {};
      calm, interrupted, held, displaced, removals, seen := true, false, None, None, [], {};
      moments := [Moment(start, None, None)];
    }

    /** Records the present state as one that a crash could leave behind. */
    ghost method Observe()
      requires plan.Kept(Here()) && plan.Safe(moments) && plan.Attested(moments, seen)
      requires moments != []
      requires plan.Binds(moments[|moments| - 1], Here())
      modifies this`moments
      ensures moments == old(moments) + [Here()] && moments[|moments| - 1] == Here()
      ensures plan.Safe(moments) && plan.Attested(moments, seen)
    {
      SafeExtends(plan, moments, Here());
      AttestedExtends(plan, moments, Here(), seen);
      moments := moments + [Here()];
    }

    /** The competitor takes any allowed move, or none. */
    method Interfere()
      requires Valid()
      modifies this`names, this`files, this`moments
      ensures Valid() && Undisturbed()
    {
      var newNames: map<Entry, Inode> := *;
      var newFiles: map<Inode, File> := *;
      if plan.Allowed(Now(), State(newNames, newFiles), owned, quiescent) {
        names, files := newNames, newFiles;
      }
      Observe();
    }

    /** A step that can fail on its own account: before it acts, or just after. */
    method Chance() returns (fault: Fault)
      modifies this`calm, this`interrupted
      ensures !fault.ValueFault? && (calm <==> old(calm) && fault.Done?)
      ensures interrupted == (old(interrupted) || fault.Unexpected?)
    {
      var pick: nat := *;
      fault := if pick == 0 then OsError else if pick == 1 then Unexpected else Done;
      calm, interrupted := calm && fault.Done?, interrupted || fault.Unexpected?;
    }

    /** A call that changes nothing here, such as a directory sync or a `stat`. */
    method Step() returns (fault: Fault)
      requires Valid()
      modifies this`names, this`files, this`moments, this`calm, this`interrupted
      ensures Valid() && Undisturbed() && !fault.ValueFault? && (calm ==> fault.Done?)
      ensures interrupted == (old(interrupted) || fault.Unexpected?)
    {
      Interfere();
      fault := Chance();
    }

    /** Records that a name shows no readable file now. */
    ghost method Note(entry: Entry)
      requires Valid() && !Readable(Now(), entry)
      modifies this`seen
      ensures Valid() && seen == old(seen) + {Unreadable(entry, held, displaced)}
    {
      AttestedGrows(plan, moments, seen, Unreadable(entry, held, displaced));
      seen := seen + {Unreadable(entry, held, displaced)};
    }

    /** The file that a name shows now, when it is regular, small and not changing under the reader. */
    method Read(entry: Entry) returns (fault: Fault, captured: Captured)
      requires Valid()
      modifies this`seen, this`calm
      ensures Valid() && old(seen) <= seen && (calm ==> old(calm))
      ensures fault.Done? ==> Shows(Now(), entry, captured) && Sighting(entry, captured, held, displaced) in seen
      ensures fault.Done? ==> |captured.data| <= MAX_ENTRYPOINT_BYTES
      ensures calm && Readable(Now(), entry) ==> fault.Done?
      ensures !fault.Unexpected? && (calm && !fault.Done? ==> Unreadable(entry, held, displaced) in seen)
    {
      captured := Captured([], Sha256([]), Inode(0, 0), 0);
      if entry !in names {
        Note(entry);
        return OsError, captured;
      }
      var file := files[names[entry]];
      var changed: bool := *;
      if changed {
        calm := false;
        return ValueFault, captured;
      }
      if !file.regular || |file.data| > MAX_ENTRYPOINT_BYTES {
        Note(entry);
        return ValueFault, captured;
      }
      fault, captured := Done, Captured(file.data, Sha256(file.data), names[entry], file.mode);
      AttestedGrows(plan, moments, seen, Sighting(entry, captured, held, displaced));
      seen := seen + {Sighting(entry, captured, held, displaced)};
    }

    /** `_capture`: read one bounded regular file without following links. */
    method Capture(entry: Entry) returns (fault: Fault, captured: Captured)
      requires Valid()
      modifies this`names, this`files, this`moments, this`seen, this`calm, this`interrupted
      ensures Valid() && Undisturbed() && interrupted == (old(interrupted) || fault.Unexpected?)
      ensures fault.Done? ==> Shows(Now(), entry, captured) && Sighting(entry, captured, held, displaced) in seen
      ensures fault.Done? ==> |captured.data| <= MAX_ENTRYPOINT_BYTES
      ensures calm && Readable(Now(), entry) ==> fault.Done?
      ensures calm && !fault.Done? ==> !fault.Unexpected? && Unreadable(entry, held, displaced) in seen
    {
      fault := Step();
      captured := Captured([], Sha256([]), Inode(0, 0), 0);
      if fault.Done? { fault, captured := Read(entry); }
    }

    /** A call that compares something outside this model and may refuse with a `ValueError`. */
    method Confirm() returns (fault: Fault)
      requires Valid()
      modifies this`names, this`files, this`moments, this`calm, this`interrupted
      ensures Valid() && Undisturbed() && (calm ==> fault.Done?)
      ensures interrupted == (old(interrupted) || fault.Unexpected?)
    {
      fault := Step();
      var refused: bool := *;
      if fault.Done? && refused {
        fault := ValueFault;
        calm := false;
      }
    }

    /** An inode number that no name shows and that this operation does not hold open. */
    method FreeInode(device: nat) returns (inode: Inode)
      ensures inode !in names.Values && inode !in created && inode.device == device
    {
      ghost var floor := FreshNumber(names.Values + created, device);
      assert Inode(device, floor) !in names.Values + created;
      inode :| inode !in names.Values && inode !in created && inode.device == device;
    }

    /** The effect of creating an empty file under a private name. */
    method Place(entry: Entry, inode: Inode, mode: Mode)
      requires Valid() && held.None? && displaced.None?
      requires entry == plan.stage || entry == plan.backup
      requires entry !in names && inode !in names.Values && inode !in created
      modifies this`names, this`files, this`moments, this`created, this`owned
      ensures Valid() && created == old(created) + {inode} && owned == old(owned) + {inode}
      ensures names == old(names)[entry := inode] && files == old(files)[inode := File(true, [], mode)]
      ensures SameEntry(old(Now()), Now(), plan.bystander)
    {
      PlaceIsSound(plan, Now(), created, owned, entry, inode, File(true, [], mode));
      names, files := names[entry := inode], files[inode := File(true, [], mode)];
      created, owned := created + {inode}, owned + {inode};
      Observe();
    }

    /** The effect of writing a file the operation owns, before any obligation exists. */
    method Store(inode: Inode, file: File)
      requires Valid() && held.None? && displaced.None? && inode in owned
      modifies this`files, this`moments
      ensures Valid() && files == old(files)[inode := file]
      ensures SameEntry(old(Now()), Now(), plan.bystander)
    {
      files := files[inode := file];
      Observe();
    }

    /** The effect of unlinking a private name, allowed only when no data can be lost. */
    method Drop(entry: Entry)
      requires Valid() && entry in names
      requires entry == plan.stage || (entry == plan.backup && held.None?)
      requires names[entry] in created || Lookup(names, plan.recovery) == Some(names[entry])
      modifies this`names, this`removals, this`moments
      ensures Valid() && names == old(names) - {entry}
      ensures removals == old(removals) + [Removal(old(names)[entry], old(Now()))]
      ensures SameEntry(old(Now()), Now(), plan.bystander)
    {
      removals := removals + [Removal(names[entry], Now())];
      names := names - {entry};
      Observe();
    }

    /** The effect of exchanging the staged file with the target: the old target inode is displaced. */
    method Swap()
      requires Valid() && displaced.None? && plan.stage in names && plan.target in names
      modifies this`names, this`owned, this`displaced, this`moments
      ensures Valid() && displaced == Some(old(names)[plan.target])
      ensures names == old(names)[plan.stage := old(names)[plan.target]][plan.target := old(names)[plan.stage]]
      ensures owned == old(owned) - {old(names)[plan.stage]}
      ensures SameEntry(old(Now()), Now(), plan.bystander)
    {
      owned, displaced := owned - {names[plan.stage]}, Some(names[plan.target]);
      names := names[plan.stage := names[plan.target]][plan.target := names[plan.stage]];
      Observe();
    }

    /** The effect of hard-linking the displaced inode into the backup directory. */
    method Bind()
      requires Valid() && displaced.Some? && plan.stage in names && plan.recovery !in names
      modifies this`names, this`moments
      ensures Valid() && names == old(names)[plan.recovery := displaced.value]
      ensures SameEntry(old(Now()), Now(), plan.bystander)
    {
      names := names[plan.recovery := names[plan.stage]];
      Observe();
    }

    /** From now on the backup name must show this snapshot. */
    ghost method Promise()
      requires Valid() && held.None? && plan.backup in names
      modifies this`held, this`moments
      ensures Valid() && held == Some(Pledge(names[plan.backup], files[names[plan.backup]]))
    {
      held := Some(Pledge(names[plan.backup], files[names[plan.backup]]));
      Observe();
    }
  }
}
