/** Saving a file without ever truncating the previous one
    (`src/persistence.rs`), over a file system that can crash at any point.
    A fault script says which of the system calls fail. */
module AtomicSave {
  import opened Basics

  // ----- the file system -----

  type Name = nat
  type Ino = nat

  datatype Permissions = Permissions(bits: nat, readonly: bool)

  /** A file's contents; until they are synced a crash can leave anything. */
  datatype File = File(data: seq<byte>, permissions: Permissions, synced: bool)

  datatype Entry = FileAt(ino: Ino) | LinkTo(to: Name) | Directory | Device

  type Dir = map<Name, Entry>

  /** The directory's versions since it was last synced, the current one last;
      a crash can leave any of them. */
  datatype Disk = Disk(versions: seq<Dir>, files: map<Ino, File>) {
    ghost predicate Valid() {
      && versions != []
      && forall v, name :: 0 <= v < |versions| && name in versions[v] && versions[v][name].FileAt? ==>
           versions[v][name].ino in files
    }

    function Current(): Dir
      requires versions != []
    {
      versions[|versions| - 1]
    }
  }

  /** What a reader finds at a name, when nothing crashes. */
  function Contents(d: Disk, name: Name): Option<seq<byte>>
    requires d.Valid()
  {
    if name in d.Current() && d.Current()[name].FileAt? then Some(d.files[d.Current()[name].ino].data) else None
  }

  /** What a crash at this point can leave at a name. */
  ghost predicate CanSurvive(d: Disk, name: Name, contents: Option<seq<byte>>)
    requires d.Valid()
  {
    exists v :: 0 <= v < |d.versions| && Survives(d, v, name, contents)
  }

  predicate Survives(d: Disk, v: nat, name: Name, contents: Option<seq<byte>>)
    requires d.Valid() && v < |d.versions|
  {
    var dir := d.versions[v];
    if name in dir && dir[name].FileAt? then
      contents.Some? && (d.files[dir[name].ino].synced ==> contents.value == d.files[dir[name].ino].data)
    else contents.None?
  }

  /** Compared with the disk before the save: whether or not it crashes here,
      the target holds what it held (or could be left with), whole, or the new
      contents, whole; and every name but the temporary one is as it was. */
  ghost predicate Whole(before: Disk, d: Disk, target: Name, temporary: Name, contents: seq<byte>) {
    && before.Valid() && d.Valid()
    && (Contents(d, target) == Contents(before, target) || Contents(d, target) == Some(contents))
    && (forall c :: CanSurvive(d, target, c) ==> CanSurvive(before, target, c) || c == Some(contents))
    && (forall name :: name != target && name != temporary ==> SameAs(before, d, name))
  }

  ghost predicate SameAs(before: Disk, d: Disk, name: Name)
    requires before.Valid() && d.Valid()
  {
    && Contents(d, name) == Contents(before, name)
    && forall c :: CanSurvive(d, name, c) ==> CanSurvive(before, name, c)
  }

  // ----- the disk along the way -----

  /** The temporary file exists; nothing else has changed. */
  function Staged(d: Disk, temporary: Name, ino: Ino, file: File): Disk
    requires d.versions != []
  {
    Disk(d.versions + [d.Current()[temporary := FileAt(ino)]], d.files[ino := file])
  }

  /** The temporary file was removed again. */
  function Discarded(d: Disk, temporary: Name, ino: Ino, file: File): Disk
    requires d.versions != []
  {
    Disk(Staged(d, temporary, ino, file).versions + [d.Current()], d.files[ino := file])
  }

  /** The temporary file was renamed over the target. */
  function Published(d: Disk, temporary: Name, ino: Ino, file: File, target: Name): Disk
    requires d.versions != []
  {
    Disk(Staged(d, temporary, ino, file).versions + [d.Current()[target := FileAt(ino)]], d.files[ino := file])
  }

  /** And the directory synced. */
  function Durable(d: Disk, ino: Ino, file: File, target: Name): Disk
    requires d.versions != []
  {
    Disk([d.Current()[target := FileAt(ino)]], d.files[ino := file])
  }

  /** The temporary name and file are new. */
  ghost predicate Fresh(d: Disk, temporary: Name, ino: Ino) {
    d.Valid() && temporary !in d.Current() && ino !in d.files
  }

  lemma {:induction false} OldVersionsSurviveAlike(before: Disk, d: Disk, v: nat, ino: Ino, file: File, name: Name,
                                                   c: Option<seq<byte>>)
    requires before.Valid() && d.Valid() && ino !in before.files && d.files == before.files[ino := file]
    requires v < |before.versions| && v < |d.versions| && d.versions[v] == before.versions[v]
    ensures Survives(d, v, name, c) <==> Survives(before, v, name, c)
  {
  }

  /** A version that reads at `name` as the current one did adds nothing new there. */
  lemma {:induction false} SameEntrySurvivesAlike(before: Disk, d: Disk, v: nat, ino: Ino, file: File, name: Name,
                                                  c: Option<seq<byte>>)
    requires before.Valid() && d.Valid() && ino !in before.files && d.files == before.files[ino := file]
    requires v < |d.versions|
    requires name in d.versions[v] <==> name in before.Current()
    requires name in before.Current() ==> d.versions[v][name] == before.Current()[name]
    requires Survives(d, v, name, c)
    ensures CanSurvive(before, name, c)
  {
    assert Survives(before, |before.versions| - 1, name, c);
  }

  /** Appending versions that leave `name` alone changes nothing there. */
  lemma {:induction false} UntouchedName(before: Disk, d: Disk, ino: Ino, file: File, name: Name)
    requires before.Valid() && d.Valid() && ino !in before.files && d.files == before.files[ino := file]
    requires forall v :: 0 <= v < |d.versions| ==> Leaves(before, d, v, name)
    ensures forall c :: CanSurvive(d, name, c) ==> CanSurvive(before, name, c)
  {
    forall c | CanSurvive(d, name, c)
      ensures CanSurvive(before, name, c)
    {
      var v :| 0 <= v < |d.versions| && Survives(d, v, name, c);
      assert Leaves(before, d, v, name);
      if v < |before.versions| && d.versions[v] == before.versions[v] {
        OldVersionsSurviveAlike(before, d, v, ino, file, name, c);
        assert Survives(before, v, name, c);
      } else {
        SameEntrySurvivesAlike(before, d, v, ino, file, name, c);
      }
    }
  }

  /** A version is an old one, or reads at `name` as the current one did. */
  predicate Leaves(before: Disk, d: Disk, v: nat, name: Name)
    requires before.versions != [] && v < |d.versions|
  {
    || (v < |before.versions| && d.versions[v] == before.versions[v])
    || ((name in d.versions[v] <==> name in before.Current())
        && (name in before.Current() ==> d.versions[v][name] == before.Current()[name]))
  }

  lemma {:induction false} StagedIsValid(d: Disk, temporary: Name, ino: Ino, file: File, target: Name)
    requires Fresh(d, temporary, ino)
    ensures Staged(d, temporary, ino, file).Valid() && Discarded(d, temporary, ino, file).Valid()
    ensures Published(d, temporary, ino, file, target).Valid() && Durable(d, ino, file, target).Valid()
  {
  }

  lemma {:induction false} StagedIsInvisible(d: Disk, temporary: Name, ino: Ino, file: File, name: Name)
    requires Fresh(d, temporary, ino) && name != temporary
    requires Staged(d, temporary, ino, file).Valid() && Discarded(d, temporary, ino, file).Valid()
    ensures SameAs(d, Staged(d, temporary, ino, file), name)
    ensures SameAs(d, Discarded(d, temporary, ino, file), name)
  {
    UntouchedName(d, Staged(d, temporary, ino, file), ino, file, name);
    UntouchedName(d, Discarded(d, temporary, ino, file), ino, file, name);
  }

  lemma {:induction false} StagedIsWhole(d: Disk, temporary: Name, ino: Ino, file: File, target: Name, contents: seq<byte>)
    requires Fresh(d, temporary, ino) && temporary != target
    ensures Whole(d, Staged(d, temporary, ino, file), target, temporary, contents)
    ensures Whole(d, Discarded(d, temporary, ino, file), target, temporary, contents)
  {
    StagedIsValid(d, temporary, ino, file, target);
    forall name | name != temporary
      ensures SameAs(d, Staged(d, temporary, ino, file), name)
      ensures SameAs(d, Discarded(d, temporary, ino, file), name)
    {
      StagedIsInvisible(d, temporary, ino, file, name);
    }
    assert SameAs(d, Staged(d, temporary, ino, file), target);
    assert SameAs(d, Discarded(d, temporary, ino, file), target);
  }

  /** Every name but the target, once the file is published. */
  lemma {:induction false} PublishedElsewhere(d: Disk, temporary: Name, ino: Ino, file: File, target: Name, name: Name)
    requires Fresh(d, temporary, ino) && name != temporary && name != target
    requires Published(d, temporary, ino, file, target).Valid() && Durable(d, ino, file, target).Valid()
    ensures SameAs(d, Published(d, temporary, ino, file, target), name)
    ensures SameAs(d, Durable(d, ino, file, target), name)
  {
    UntouchedName(d, Published(d, temporary, ino, file, target), ino, file, name);
    UntouchedName(d, Durable(d, ino, file, target), ino, file, name);
  }

  lemma {:induction false} PublishedAtTarget(d: Disk, temporary: Name, ino: Ino, file: File, target: Name,
                                             c: Option<seq<byte>>)
    requires Fresh(d, temporary, ino) && temporary != target && file.synced
    requires Published(d, temporary, ino, file, target).Valid()
    requires CanSurvive(Published(d, temporary, ino, file, target), target, c)
    ensures CanSurvive(d, target, c) || c == Some(file.data)
  {
    var after := Published(d, temporary, ino, file, target);
    var v :| 0 <= v < |after.versions| && Survives(after, v, target, c);
    if v < |d.versions| {
      OldVersionsSurviveAlike(d, after, v, ino, file, target, c);
      assert Survives(d, v, target, c);
    } else if v == |d.versions| {
      SameEntrySurvivesAlike(d, after, v, ino, file, target, c);
    }
  }

  /** The rename is safe at every point because the data was synced before it. */
  lemma {:induction false} PublishedIsWhole(d: Disk, temporary: Name, ino: Ino, file: File, target: Name)
    requires Fresh(d, temporary, ino) && temporary != target && file.synced
    ensures Whole(d, Published(d, temporary, ino, file, target), target, temporary, file.data)
    ensures Whole(d, Durable(d, ino, file, target), target, temporary, file.data)
    ensures forall c :: CanSurvive(Durable(d, ino, file, target), target, c) <==> c == Some(file.data)
  {
    StagedIsValid(d, temporary, ino, file, target);
    forall name | name != temporary && name != target
      ensures SameAs(d, Published(d, temporary, ino, file, target), name)
      ensures SameAs(d, Durable(d, ino, file, target), name)
    {
      PublishedElsewhere(d, temporary, ino, file, target, name);
    }
    forall c | CanSurvive(Published(d, temporary, ino, file, target), target, c)
      ensures CanSurvive(d, target, c) || c == Some(file.data)
    {
      PublishedAtTarget(d, temporary, ino, file, target, c);
    }
    assert Survives(Durable(d, ino, file, target), 0, target, Some(file.data));
  }

  /** Without the sync it would not be: a crash after the rename could leave
      any bytes at all at the target. */
  lemma {:induction false} UnsyncedRenameLosesBoth(d: Disk, temporary: Name, ino: Ino, file: File, target: Name,
                                                   garbage: seq<byte>)
    requires Fresh(d, temporary, ino) && !file.synced
    ensures Published(d, temporary, ino, file, target).Valid()
    ensures CanSurvive(Published(d, temporary, ino, file, target), target, Some(garbage))
  {
    StagedIsValid(d, temporary, ino, file, target);
    var after := Published(d, temporary, ino, file, target);
    assert Survives(after, |after.versions| - 1, target, Some(garbage));
  }

  // ----- errors and what the destination is -----

  datatype Kind =
    | NotFound | NotADirectory | IsADirectory | PermissionDenied | ReadOnlyFilesystem
    | FilesystemLoop | OtherKind(code: nat)

  datatype Reason =
    | DirectoryDoesNotExist | ParentIsNotADirectory | PathIsADirectory
    | FileNotWritable | DirectoryNotWritable | FileSystemIsReadOnly
    | SymlinkTargetDoesNotExist | KindItself

  datatype SaveError = CannotSave(kind: Kind, reason: Reason) | Raw(kind: Kind)

  datatype Subject = SubjectFile | SubjectDirectory

  function CannotSaveTo(kind: Kind, subject: Subject): SaveError {
    CannotSave(kind,
               match kind
               case NotFound => DirectoryDoesNotExist
               case NotADirectory => ParentIsNotADirectory
               case IsADirectory => PathIsADirectory
               case PermissionDenied => if subject.SubjectFile? then FileNotWritable else DirectoryNotWritable
               case ReadOnlyFilesystem => FileSystemIsReadOnly
               case _ => KindItself)
  }

  /** Which system calls fail, and how; and how much reaches the file, piece by
      piece, before the writer fails or everything is flushed. */
  datatype Faults = Faults(
    metadata: Option<Kind>, openTarget: Option<Kind>, openInPlace: Option<Kind>, linkMetadata: Option<Kind>, canonicalize: Option<Kind>,
    createTemporary: Option<Kind>, setPermissions: Option<Kind>, write: Option<Kind>, flush: Option<Kind>,
    sync: Option<Kind>, persist: Option<Kind>, removeTemporary: Option<Kind>, syncDirectory: Option<Kind>,
    pieces: seq<nat>)

  const MAX_HOPS: nat := 40

  /** The name a chain of links ends at; none when there are too many. */
  function Resolve(dir: Dir, name: Name, hops: nat): (end: Option<Name>)
    ensures end.Some? && end.value in dir ==> !dir[end.value].LinkTo?
    decreases hops
  {
    if name in dir && dir[name].LinkTo? then
      if hops == 0 then None else Resolve(dir, dir[name].to, hops - 1)
    else Some(name)
  }

  /** The names a path leads through: each but the last is a link to the next,
      and the last is no link. */
  predicate IsChain(dir: Dir, path: Name, names: seq<Name>) {
    && names != [] && names[0] == path
    && (forall k :: 0 <= k < |names| - 1 ==> LinksOn(dir, names, k))
    && !(names[|names| - 1] in dir && dir[names[|names| - 1]].LinkTo?)
  }

  predicate LinksOn(dir: Dir, names: seq<Name>, k: nat)
    requires k + 1 < |names|
  {
    names[k] in dir && dir[names[k]] == LinkTo(names[k + 1])
  }

  lemma {:induction false} ChainOf(dir: Dir, path: Name, hops: nat) returns (names: seq<Name>)
    requires Resolve(dir, path, hops).Some?
    ensures IsChain(dir, path, names) && |names| <= hops + 1
    ensures names[|names| - 1] == Resolve(dir, path, hops).value
    decreases hops
  {
    names := [path];
    if path in dir && dir[path].LinkTo? {
      var rest := ChainOf(dir, dir[path].to, hops - 1);
      names := [path] + rest;
      forall k | 0 <= k < |names| - 1
        ensures LinksOn(dir, names, k)
      {
        if k > 0 {
          assert LinksOn(dir, rest, k - 1);
        }
      }
    }
  }

  /** `fs::metadata`: what is at the end of the chain. */
  function EntryAt(d: Disk, path: Name, fault: Option<Kind>): (r: Result<Entry, Kind>)
    requires d.Valid()
    ensures r.Ok? && r.value.FileAt? ==> r.value.ino in d.files
  {
    if fault.Some? then Err(fault.value)
    else match Resolve(d.Current(), path, MAX_HOPS)
      case None => Err(FilesystemLoop)
      case Some(name) => if name in d.Current() then Ok(d.Current()[name]) else Err(NotFound)
  }

  predicate IsLink(d: Disk, path: Name)
    requires d.Valid()
  {
    path in d.Current() && d.Current()[path].LinkTo?
  }

  datatype Destination = Special | Regular(permissions: Permissions) | New

  function Inspect(d: Disk, path: Name, faults: Faults): Result<Destination, SaveError>
    requires d.Valid()
  {
    match EntryAt(d, path, faults.metadata)
    case Ok(Directory) => Err(CannotSaveTo(IsADirectory, SubjectFile))
    case Ok(FileAt(ino)) =>
      if d.files[ino].permissions.readonly then Err(CannotSaveTo(PermissionDenied, SubjectFile))
      else if faults.openTarget.Some? then Err(CannotSaveTo(faults.openTarget.value, SubjectFile))
      else Ok(Regular(d.files[ino].permissions))
    case Ok(_) => Ok(Special)
    case Err(NotFound) => if IsLink(d, path) then Err(CannotSave(NotFound, SymlinkTargetDoesNotExist)) else Ok(New)
    case Err(kind) => Err(CannotSaveTo(kind, SubjectDirectory))
  }

  /** The name to replace: the end of the chain when the path is a link. */
  function TargetOf(d: Disk, path: Name, faults: Faults): Result<Name, SaveError>
    requires d.Valid()
  {
    if faults.linkMetadata == Some(NotFound) then Ok(path)
    else if faults.linkMetadata.Some? then Err(Raw(faults.linkMetadata.value))
    else if !IsLink(d, path) then Ok(path)
    else if faults.canonicalize.Some? then Err(Raw(faults.canonicalize.value))
    else match Resolve(d.Current(), path, MAX_HOPS)
      case None => Err(Raw(FilesystemLoop))
      case Some(name) => Ok(name)
  }

  /** The only two ways to be written in place: a device or pipe, and a
      writable file in a directory that is not writable. */
  predicate WritesInPlace(d: Disk, path: Name, faults: Faults)
    requires d.Valid()
  {
    match Inspect(d, path, faults)
    case Err(_) => false
    case Ok(New) => false
    case Ok(Special) => true
    case Ok(Regular(_)) => TargetOf(d, path, faults).Ok? && faults.createTemporary == Some(PermissionDenied)
  }

  // ----- the effects a save is made of -----

  /** One thing the system does for the program; a crash can come between any two. */
  datatype Effect =
    | Made(name: Name, ino: Ino, permissions: Permissions)
    | Truncated(ino: Ino)
    | Appended(ino: Ino, bytes: seq<byte>)
    | PermissionsSet(ino: Ino, permissions: Permissions)
    | FileSynced(ino: Ino)
    | Moved(from: Name, to: Name)
    | Unlinked(name: Name)
    | DirectorySynced

  /** What an effect does to the file it is about. */
  function FileAfter(f: File, e: Effect): File {
    match e
    case Truncated(_) => f.(data := [], synced := false)
    case Appended(_, bytes) => f.(data := f.data + bytes, synced := false)
    case PermissionsSet(_, permissions) => f.(permissions := permissions)
    case FileSynced(_) => f.(synced := true)
    case _ => f
  }

  predicate IsAbout(e: Effect, ino: Ino) {
    (e.Truncated? || e.Appended? || e.PermissionsSet? || e.FileSynced?) && e.ino == ino
  }

  ghost predicate Possible(d: Disk, e: Effect) {
    && d.Valid()
    && match e
       case Made(name, ino, _) => Fresh(d, name, ino)
       case Moved(from, _) => from in d.Current()
       case Unlinked(_) => true
       case DirectorySynced => true
       case _ => e.ino in d.files
  }

  function Effected(d: Disk, e: Effect): Disk
    requires Possible(d, e)
  {
    match e
    case Made(name, ino, permissions) => Staged(d, name, ino, File([], permissions, false))
    case Moved(from, to) => d.(versions := d.versions + [(d.Current() - {from})[to := d.Current()[from]]])
    case Unlinked(name) => d.(versions := d.versions + [d.Current() - {name}])
    case DirectorySynced => d.(versions := [d.Current()])
    case _ => d.(files := d.files[e.ino := FileAfter(d.files[e.ino], e)])
  }

  lemma {:induction false} EffectedIsValid(d: Disk, e: Effect)
    requires Possible(d, e)
    ensures Effected(d, e).Valid()
  {
  }

  ghost predicate OneEffect(d: Disk, d': Disk) {
    exists e: Effect :: Possible(d, e) && d' == Effected(d, e)
  }

  // ----- the save -----

  class FileSystem {
    var disk: Disk
    /** What has been written to a device. */
    var device: seq<byte>
    /** Every disk there has been, each one effect after the one before. */
    ghost var history: seq<Disk>

    ghost predicate Valid()
      reads this
    {
      && disk.Valid() && history != [] && history[|history| - 1] == disk
      && forall k: nat, l: nat :: k + 1 == l < |history| ==> OneEffect(history[k], history[l])
    }

    constructor (disk: Disk)
      requires disk.Valid()
      ensures Valid() && this.disk == disk && history == [disk] && device == []
    {
      this.disk, device, history := disk, [], [disk];
    }

    method Do(e: Effect)
      requires Valid() && Possible(disk, e)
      modifies `disk, `history
      ensures Valid() && disk == Effected(old(disk), e) && history == old(history) + [disk]
    {
      EffectedIsValid(disk, e);
      match e {
        case Made(name, ino, permissions) =>
          disk := Disk(disk.versions + [disk.Current()[name := FileAt(ino)]], disk.files[ino := File([], permissions, false)]);
        case Moved(from, to) =>
          disk := disk.(versions := disk.versions + [(disk.Current() - {from})[to := disk.Current()[from]]]);
        case Unlinked(name) => disk := disk.(versions := disk.versions + [disk.Current() - {name}]);
        case DirectorySynced => disk := disk.(versions := [disk.Current()]);
        case _ => disk := disk.(files := disk.files[e.ino := FileAfter(disk.files[e.ino], e)]);
      }
      history := history + [disk];
    }

    /** From `mark` on, every crash and every failure leaves the target whole. */
    ghost predicate WholeSince(mark: nat, before: Disk, target: Name, temporary: Name, contents: seq<byte>)
      reads `history
    {
      mark <= |history|
      && forall k :: mark <= k < |history| ==> Whole(before, history[k], target, temporary, contents)
    }

    /** The temporary file exists and nothing else has changed, so far always safely. */
    ghost predicate Staging(mark: nat, before: Disk, target: Name, temporary: Name, ino: Ino, contents: seq<byte>)
      reads this
    {
      && Valid() && Fresh(before, temporary, ino) && temporary != target
      && WholeSince(mark, before, target, temporary, contents)
      && ino in disk.files && disk == Staged(before, temporary, ino, disk.files[ino])
    }

    /** An effect on the temporary file alone. */
    method Stage(ghost mark: nat, ghost before: Disk, ghost target: Name, ghost temporary: Name, ino: Ino,
                 ghost contents: seq<byte>, e: Effect)
      requires Staging(mark, before, target, temporary, ino, contents) && IsAbout(e, ino)
      modifies `disk, `history
      ensures Staging(mark, before, target, temporary, ino, contents) && history == old(history) + [disk]
      ensures disk.files[ino] == FileAfter(old(disk).files[ino], e)
    {
      ghost var file := FileAfter(disk.files[ino], e);
      assert before.files[ino := disk.files[ino]][ino := file] == before.files[ino := file];
      StagedIsWhole(before, temporary, ino, file, target, contents);
      Do(e);
    }

    /** Pieces of the contents reach the file in turn, until the writer fails
        or everything is flushed. */
    method WriteTemporary(ghost mark: nat, ghost before: Disk, ghost target: Name, ghost temporary: Name, ino: Ino,
                          contents: seq<byte>, faults: Faults)
      returns (r: Result<(), SaveError>)
      requires Staging(mark, before, target, temporary, ino, contents)
      requires disk.files[ino].data == []
      modifies `disk, `history
      ensures Staging(mark, before, target, temporary, ino, contents) && old(history) <= history
      ensures r == WriteResult(faults)
      ensures disk.files[ino].permissions == old(disk).files[ino].permissions
      ensures r.Ok? ==> disk.files[ino].data == contents
    {
      var written := 0;
      for i := 0 to |faults.pieces|
        invariant Staging(mark, before, target, temporary, ino, contents) && old(history) <= history
        invariant written <= |contents| && disk.files[ino].data == contents[..written]
        invariant disk.files[ino].permissions == old(disk).files[ino].permissions
      {
        var next := Min(written + faults.pieces[i], |contents|);
        Stage(mark, before, target, temporary, ino, contents, Appended(ino, contents[written..next]));
        assert contents[..written] + contents[written..next] == contents[..next];
        written := next;
      }
      if faults.write.Some? {
        return Err(Raw(faults.write.value));
      }
      if faults.flush.Some? {
        return Err(Raw(faults.flush.value));
      }
      assert contents[..written] + contents[written..] == contents;
      Stage(mark, before, target, temporary, ino, contents, Appended(ino, contents[written..]));
      return Ok(());
    }

    /** Fill the temporary file, sync it and rename it over the target. */
    method Publish(ghost mark: nat, ghost before: Disk, target: Name, temporary: Name, ino: Ino, contents: seq<byte>,
                   permissions: Option<Permissions>, faults: Faults)
      returns (r: Result<(), SaveError>)
      requires Staging(mark, before, target, temporary, ino, contents)
      requires disk.files[ino].data == []
      modifies `disk, `history
      ensures Valid() && r == PublishResult(permissions, faults) && old(history) <= history
      ensures WholeSince(mark, before, target, temporary, contents)
      ensures r.Err? ==> Staging(mark, before, target, temporary, ino, contents)
      ensures r.Ok? ==> ino in disk.files && IsPublished(before, disk, target, temporary, ino, contents, faults.syncDirectory.None?)
      ensures r.Ok? ==> disk.files[ino].permissions
                        == if permissions.Some? then permissions.value else old(disk).files[ino].permissions
    {
      if permissions.Some? {
        if faults.setPermissions.Some? {
          return Err(Raw(faults.setPermissions.value));
        }
        Stage(mark, before, target, temporary, ino, contents, PermissionsSet(ino, permissions.value));
      }
      r := WriteTemporary(mark, before, target, temporary, ino, contents, faults);
      if r.Err? {
        return;
      }
      if faults.sync.Some? {
        return Err(Raw(faults.sync.value));
      }
      Stage(mark, before, target, temporary, ino, contents, FileSynced(ino));
      if faults.persist.Some? {
        return Err(CannotSaveTo(faults.persist.value, SubjectDirectory));
      }
      Replace(mark, before, target, temporary, ino, contents, faults);
      return Ok(());
    }

    /** Rename the synced temporary file over the target, and make that durable. */
    method Replace(ghost mark: nat, ghost before: Disk, target: Name, temporary: Name, ghost ino: Ino,
                   ghost contents: seq<byte>, faults: Faults)
      requires Staging(mark, before, target, temporary, ino, contents)
      requires disk.files[ino].synced && disk.files[ino].data == contents
      modifies `disk, `history
      ensures Valid() && old(history) <= history && WholeSince(mark, before, target, temporary, contents)
      ensures ino in disk.files && disk.files[ino] == old(disk).files[ino]
      ensures IsPublished(before, disk, target, temporary, ino, contents, faults.syncDirectory.None?)
    {
      PublishedIsWhole(before, temporary, ino, disk.files[ino], target);
      RenamePublishes(before, temporary, ino, disk.files[ino], target);
      Do(Moved(temporary, target));
      if faults.syncDirectory.None? {
        Do(DirectorySynced);
      }
    }

    /** Truncate and write, as a plain write would. */
    method WriteInPlace(path: Name, contents: seq<byte>, faults: Faults) returns (r: Result<(), SaveError>)
      requires Valid()
      modifies this
      ensures Valid() && r == InPlaceResult(old(disk), path, faults) && old(history) <= history
      ensures disk == InPlaceDisk(old(disk), path, contents, faults)
      ensures device == old(device) + ToDevice(old(disk), path, contents, faults)
      ensures OpenedInPlace(old(disk), path, faults).Some? ==>
        old(history) + [Overwritten(old(disk), OpenedInPlace(old(disk), path, faults).value, [])] <= history
    {
      var entry := EntryAt(disk, path, faults.openInPlace);
      match entry {
        case Err(kind) => return Err(CannotSaveTo(kind, SubjectFile));
        case Ok(FileAt(ino)) => r := OverwriteFile(ino, contents, faults);
        case Ok(Device) =>
          r := WriteResult(faults);
          device := device + contents[..Reached(contents, faults)];
        case Ok(_) => return Err(CannotSaveTo(IsADirectory, SubjectFile));
      }
    }

    method OverwriteFile(ino: Ino, contents: seq<byte>, faults: Faults) returns (r: Result<(), SaveError>)
      requires Valid() && ino in disk.files
      modifies `disk, `history
      ensures Valid() && r == WriteResult(faults)
      ensures disk == Overwritten(old(disk), ino, contents[..Reached(contents, faults)])
      ensures old(history) + [Overwritten(old(disk), ino, [])] <= history
    {
      Do(Truncated(ino));
      ghost var mark := history;
      var written := 0;
      assert faults.pieces[..0] == [];
      for i := 0 to |faults.pieces|
        invariant Valid() && mark <= history && written == Min(Sum(faults.pieces[..i]), |contents|)
        invariant disk == Overwritten(old(disk), ino, contents[..written])
      {
        var next := Min(written + faults.pieces[i], |contents|);
        assert contents[..written] + contents[written..next] == contents[..next];
        assert faults.pieces[..i + 1][..i] == faults.pieces[..i];
        Do(Appended(ino, contents[written..next]));
        written := next;
      }
      assert faults.pieces[..|faults.pieces|] == faults.pieces;
      if faults.write.Some? {
        return Err(Raw(faults.write.value));
      }
      if faults.flush.Some? {
        return Err(Raw(faults.flush.value));
      }
      assert contents[..written] + contents[written..] == contents;
      assert contents[..|contents|] == contents;
      Do(Appended(ino, contents[written..]));
      return Ok(());
    }

    /** The save through a temporary file: made, filled, renamed, and removed
        again when anything fails. */
    method SaveAtomically(target: Name, contents: seq<byte>, temporary: Name, ino: Ino, made: Permissions,
                          permissions: Option<Permissions>, faults: Faults)
      returns (r: Result<(), SaveError>)
      requires Valid() && Fresh(disk, temporary, ino) && temporary != target
      modifies `disk, `history
      ensures Valid() && r == PublishResult(permissions, faults) && old(history) <= history
      ensures WholeSince(|old(history)|, old(disk), target, temporary, contents)
      ensures r.Ok? ==> ino in disk.files
                        && IsPublished(old(disk), disk, target, temporary, ino, contents, faults.syncDirectory.None?)
      ensures r.Ok? ==> disk.files[ino].permissions == if permissions.Some? then permissions.value else made
      ensures r.Err? ==> Unpublished(old(disk), disk, temporary, ino, faults.removeTemporary.None?)
    {
      ghost var before, mark := disk, |history|;
      var empty := File([], if permissions.Some? then permissions.value else made, false);
      StagedIsWhole(before, temporary, ino, empty, target, contents);
      Do(Made(temporary, ino, empty.permissions));
      r := Publish(mark, before, target, temporary, ino, contents, permissions, faults);
      if r.Err? && faults.removeTemporary.None? {
        StagedIsWhole(before, temporary, ino, disk.files[ino], target, contents);
        RenamePublishes(before, temporary, ino, disk.files[ino], target);
        Do(Unlinked(temporary));
      }
    }

    method SaveInPlace(name: Name, contents: seq<byte>, ghost temporary: Name, faults: Faults) returns (r: Result<(), SaveError>)
      requires Valid()
      modifies this
      ensures Valid() && r == InPlaceResult(old(disk), name, faults) && old(history) <= history
      ensures disk == InPlaceDisk(old(disk), name, contents, faults)
      ensures device == old(device) + ToDevice(old(disk), name, contents, faults)
      ensures LosesBoth(old(disk), name, contents, faults) ==>
        !WholeSince(|old(history)|, old(disk), EndOf(old(disk), name), temporary, contents)
    {
      ghost var mark := |history|;
      r := WriteInPlace(name, contents, faults);
      if LosesBoth(old(disk), name, contents, faults) {
        TruncatedIsNotWhole(old(disk), name, contents, temporary, faults);
        assert history[mark] == Overwritten(old(disk), OpenedInPlace(old(disk), name, faults).value, []);
      }
    }

    /** Save `contents` to `path`. The temporary name and file, and the
        permissions it is made with, are the system's choice. */
    method WriteWith(path: Name, contents: seq<byte>, temporary: Name, ino: Ino, made: Permissions, faults: Faults)
      returns (r: Result<(), SaveError>, ghost names: seq<Name>)
      requires Valid() && Fresh(disk, temporary, ino) && temporary != path
      modifies this
      ensures Valid() && r == SaveResult(old(disk), path, faults) && old(history) <= history
      ensures WritesInPlace(old(disk), path, faults) ==>
        var name := InPlaceName(old(disk), path, faults);
        && disk == InPlaceDisk(old(disk), name, contents, faults)
        && device == old(device) + ToDevice(old(disk), name, contents, faults)
        && (LosesBoth(old(disk), name, contents, faults) ==>
              !WholeSince(|old(history)|, old(disk), EndOf(old(disk), name), temporary, contents))
      ensures !WritesInPlace(old(disk), path, faults) ==>
        var target := TargetName(old(disk), path, faults);
        && WholeSince(|old(history)|, old(disk), target, temporary, contents) && device == old(device)
        && (r.Ok? ==> ino in disk.files
                      && IsPublished(old(disk), disk, target, temporary, ino, contents, faults.syncDirectory.None?)
                      && KeepsPermissions(Inspect(old(disk), path, faults), disk.files[ino])
                      && (Inspect(old(disk), path, faults) == Ok(New) ==> disk.files[ino].permissions == made))
        && (r.Err? ==> disk == old(disk)
                       || Unpublished(old(disk), disk, temporary, ino, faults.removeTemporary.None?))
      // What was saved to is the end of the chain of links the path begins,
      // unless the link has vanished when it is looked at again.
      ensures r.Ok? && faults.linkMetadata != Some(NotFound) ==>
        && IsChain(old(disk).Current(), path, names) && |names| <= 41
        && SavedAtEnd(old(disk), disk, old(device), device, names, contents, faults.metadata.None?)
        && (!WritesInPlace(old(disk), path, faults) ==>
              WholeSince(|old(history)|, old(disk), names[|names| - 1], temporary, contents))
    {
      names := PathChain(disk, path);
      var destination := Inspect(disk, path, faults);
      if destination.Err? {
        return Err(destination.error), names;
      }
      if destination.value.Special? {
        r := SaveInPlace(path, contents, temporary, faults);
        if r.Ok? {
          InPlaceSaves(old(disk), disk, old(device), device, names, path, contents, faults);
        }
        return;
      }
      var resolved := TargetOf(disk, path, faults);
      if resolved.Err? {
        return Err(resolved.error), names;
      }
      var target := resolved.value;
      if faults.createTemporary.Some? {
        if faults.createTemporary.value == PermissionDenied && destination.value.Regular? {
          r := SaveInPlace(target, contents, temporary, faults);
          if r.Ok? && faults.linkMetadata != Some(NotFound) {
            InPlaceSaves(old(disk), disk, old(device), device, names, target, contents, faults);
          }
          return;
        }
        return Err(CannotSaveTo(faults.createTemporary.value, SubjectDirectory)), names;
      }
      r := SaveAtomically(target, contents, temporary, ino, made,
                          if destination.value.Regular? then Some(destination.value.permissions) else None, faults);
      if r.Ok? && faults.linkMetadata != Some(NotFound) {
        AtomicSaves(old(disk), disk, device, path, names, temporary, ino, contents, faults);
      }
    }
  }

  /** The chain a path begins, when it is not too long. */
  lemma {:induction false} PathChain(d: Disk, path: Name) returns (names: seq<Name>)
    requires d.Valid()
    ensures var end := Resolve(d.Current(), path, MAX_HOPS);
      end.Some? ==> IsChain(d.Current(), path, names) && |names| <= 41 && names[|names| - 1] == end.value
  {
    names := [];
    if Resolve(d.Current(), path, MAX_HOPS).Some? {
      names := ChainOf(d.Current(), path, MAX_HOPS);
    }
  }

  /** The links are as they were, and what is at the end of the chain has the
      contents: a device received them, anything else reads as exactly them, a
      file with the permissions it had if those were seen. */
  ghost predicate SavedAtEnd(before: Disk, d: Disk, device: seq<byte>, device': seq<byte>, names: seq<Name>,
                             contents: seq<byte>, seen: bool)
    requires names != [] && before.Valid()
  {
    var end, was := names[|names| - 1], before.Current();
    && d.Valid()
    && (forall k :: 0 <= k < |names| - 1 ==> Kept(was, d.Current(), names[k]))
    && if end in was && was[end] == Device && seen then device' == device + contents && d == before
       else
         && Contents(d, end) == Some(contents) && device' == device
         && (seen && end in was && was[end].FileAt? ==>
               d.files[d.Current()[end].ino].permissions == before.files[was[end].ino].permissions)
  }

  lemma {:induction false} InPlaceSaves(before: Disk, d: Disk, device: seq<byte>, device': seq<byte>, names: seq<Name>,
                                        name: Name, contents: seq<byte>, faults: Faults)
    requires before.Valid() && names != [] && (forall k :: 0 <= k < |names| - 1 ==> LinksOn(before.Current(), names, k))
    requires Resolve(before.Current(), name, MAX_HOPS) == Some(names[|names| - 1])
    requires InPlaceResult(before, name, faults).Ok? && d == InPlaceDisk(before, name, contents, faults)
    requires device' == device + ToDevice(before, name, contents, faults)
    ensures SavedAtEnd(before, d, device, device', names, contents, true)
  {
    assert contents[..|contents|] == contents;
    assert d.versions == before.versions;
    forall k | 0 <= k < |names| - 1
      ensures Kept(before.Current(), d.Current(), names[k])
    {
      assert LinksOn(before.Current(), names, k);
    }
  }

  lemma {:induction false} AtomicSaves(before: Disk, d: Disk, device: seq<byte>, path: Name, names: seq<Name>,
                                       temporary: Name, ino: Ino, contents: seq<byte>, faults: Faults)
    requires Fresh(before, temporary, ino) && Inspect(before, path, faults).Ok? && !Inspect(before, path, faults).value.Special?
    requires IsChain(before.Current(), path, names) && temporary != names[|names| - 1]
    requires Resolve(before.Current(), path, MAX_HOPS) == Some(names[|names| - 1])
    requires ino in d.files && KeepsPermissions(Inspect(before, path, faults), d.files[ino])
    requires IsPublished(before, d, names[|names| - 1], temporary, ino, contents, faults.syncDirectory.None?)
    ensures SavedAtEnd(before, d, device, device, names, contents, faults.metadata.None?)
  {
    var end := names[|names| - 1];
    SavedReadsBack(before, d, end, temporary, ino, contents, faults.syncDirectory.None?);
    forall k | 0 <= k < |names| - 1
      ensures Kept(before.Current(), d.Current(), names[k])
    {
      assert LinksOn(before.Current(), names, k);
    }
  }

  predicate Kept(was: Dir, now: Dir, name: Name) {
    name in was && name in now && now[name] == was[name]
  }

  /** The name that is opened in place. */
  function InPlaceName(d: Disk, path: Name, faults: Faults): Name
    requires d.Valid()
  {
    if Inspect(d, path, faults) == Ok(Special) then path else TargetName(d, path, faults)
  }

  /** The regular file that opening a name in place truncates, if it does. */
  function OpenedInPlace(d: Disk, name: Name, faults: Faults): (ino: Option<Ino>)
    requires d.Valid()
    ensures ino.Some? ==> ino.value in d.files
  {
    match EntryAt(d, name, faults.openInPlace)
    case Ok(FileAt(ino)) => Some(ino)
    case _ => None
  }

  /** How much of the contents reaches the file or device. */
  function Reached(contents: seq<byte>, faults: Faults): (n: nat)
    ensures n <= |contents|
  {
    if WriteResult(faults).Ok? then |contents| else Min(Sum(faults.pieces), |contents|)
  }

  /** The disk an in-place save leaves, whether it succeeds or fails. */
  function InPlaceDisk(d: Disk, name: Name, contents: seq<byte>, faults: Faults): Disk
    requires d.Valid()
  {
    match OpenedInPlace(d, name, faults)
    case Some(ino) => Overwritten(d, ino, contents[..Reached(contents, faults)])
    case None => d
  }

  function ToDevice(d: Disk, name: Name, contents: seq<byte>, faults: Faults): seq<byte>
    requires d.Valid()
  {
    if EntryAt(d, name, faults.openInPlace) == Ok(Device) then contents[..Reached(contents, faults)] else []
  }

  /** The name at the end of a chain of links. */
  function EndOf(d: Disk, name: Name): Name
    requires d.Valid()
  {
    var end := Resolve(d.Current(), name, MAX_HOPS);
    if end.Some? then end.value else name
  }

  /** An in-place save that opens a regular file with something to lose. */
  predicate LosesBoth(d: Disk, name: Name, contents: seq<byte>, faults: Faults)
    requires d.Valid()
  {
    var ino := OpenedInPlace(d, name, faults);
    ino.Some? && d.files[ino.value].data != [] && contents != []
  }

  /** After the truncation neither the old contents nor the new are there. */
  lemma {:induction false} TruncatedIsNotWhole(d: Disk, name: Name, contents: seq<byte>, temporary: Name, faults: Faults)
    requires d.Valid() && LosesBoth(d, name, contents, faults)
    ensures var truncated := Overwritten(d, OpenedInPlace(d, name, faults).value, []);
      !Whole(d, truncated, EndOf(d, name), temporary, contents)
  {
    var truncated := Overwritten(d, OpenedInPlace(d, name, faults).value, []);
    if truncated.Valid() {
      assert Contents(truncated, EndOf(d, name)) == Some([]);
    }
  }

  lemma {:induction false} RenamePublishes(d: Disk, temporary: Name, ino: Ino, file: File, target: Name)
    requires Fresh(d, temporary, ino) && temporary != target
    ensures var staged := Staged(d, temporary, ino, file);
      && temporary in staged.Current()
      && staged.Valid() && Published(d, temporary, ino, file, target).Valid()
      && Effected(staged, Moved(temporary, target)) == Published(d, temporary, ino, file, target)
      && Effected(staged, Unlinked(temporary)) == Discarded(d, temporary, ino, file)
      && Effected(Published(d, temporary, ino, file, target), DirectorySynced) == Durable(d, ino, file, target)
  {
    StagedIsValid(d, temporary, ino, file, target);
    var staged := Staged(d, temporary, ino, file);
    assert (staged.Current() - {temporary})[target := FileAt(ino)] == d.Current()[target := FileAt(ino)];
    assert staged.Current() - {temporary} == d.Current();
  }

  /** The save is in place: the target names a file with exactly the contents,
      synced; and once the directory is synced too no crash can undo it. */
  ghost predicate IsPublished(before: Disk, d: Disk, target: Name, temporary: Name, ino: Ino, contents: seq<byte>,
                              durable: bool)
    requires ino in d.files && before.versions != []
  {
    var file := d.files[ino];
    && file.data == contents && file.synced
    && d == if durable then Durable(before, ino, file, target) else Published(before, temporary, ino, file, target)
  }

  /** A failed save: the temporary file was removed, unless that failed too. */
  ghost predicate Unpublished(before: Disk, d: Disk, temporary: Name, ino: Ino, removed: bool)
    requires before.versions != []
  {
    ino in d.files
    && d == if removed then Discarded(before, temporary, ino, d.files[ino]) else Staged(before, temporary, ino, d.files[ino])
  }

  predicate KeepsPermissions(destination: Result<Destination, SaveError>, file: File) {
    destination.Ok? && destination.value.Regular? ==> file.permissions == destination.value.permissions
  }

  function TargetName(d: Disk, path: Name, faults: Faults): Name
    requires d.Valid()
  {
    var target := TargetOf(d, path, faults);
    if target.Ok? then target.value else path
  }

  function Overwritten(d: Disk, ino: Ino, contents: seq<byte>): Disk
    requires ino in d.files
  {
    d.(files := d.files[ino := File(contents, d.files[ino].permissions, false)])
  }

  function InPlaceResult(d: Disk, path: Name, faults: Faults): Result<(), SaveError>
    requires d.Valid()
  {
    match EntryAt(d, path, faults.openInPlace)
    case Err(kind) => Err(CannotSaveTo(kind, SubjectFile))
    case Ok(FileAt(_)) => WriteResult(faults)
    case Ok(Device) => WriteResult(faults)
    case Ok(_) => Err(CannotSaveTo(IsADirectory, SubjectFile))
  }

  /** Which error a save reports: the first that stops it. */
  function SaveResult(d: Disk, path: Name, faults: Faults): Result<(), SaveError>
    requires d.Valid()
  {
    match Inspect(d, path, faults)
    case Err(e) => Err(e)
    case Ok(Special) => InPlaceResult(d, path, faults)
    case Ok(destination) =>
      match TargetOf(d, path, faults)
      case Err(e) => Err(e)
      case Ok(target) =>
        if faults.createTemporary.Some? then
          if faults.createTemporary.value == PermissionDenied && destination.Regular? then
            InPlaceResult(d, target, faults)
          else Err(CannotSaveTo(faults.createTemporary.value, SubjectDirectory))
        else PublishResult(if destination.Regular? then Some(destination.permissions) else None, faults)
  }

  function WriteResult(faults: Faults): Result<(), SaveError> {
    if faults.write.Some? then Err(Raw(faults.write.value))
    else if faults.flush.Some? then Err(Raw(faults.flush.value))
    else Ok(())
  }

  function PublishResult(permissions: Option<Permissions>, faults: Faults): Result<(), SaveError> {
    if permissions.Some? && faults.setPermissions.Some? then Err(Raw(faults.setPermissions.value))
    else if WriteResult(faults).Err? then WriteResult(faults)
    else if faults.sync.Some? then Err(Raw(faults.sync.value))
    else if faults.persist.Some? then Err(CannotSaveTo(faults.persist.value, SubjectDirectory))
    else Ok(())
  }

  /** What a path leads to, if its chain is not too long and ends at something. */
  predicate LeadsTo(d: Disk, path: Name, names: seq<Name>, entry: Entry)
    requires d.Valid()
  {
    && IsChain(d.Current(), path, names) && |names| <= 41
    && names[|names| - 1] in d.Current() && d.Current()[names[|names| - 1]] == entry
  }

  predicate ContentsGetOut(faults: Faults) {
    faults.write.None? && faults.flush.None?
  }

  /** The temporary file takes the place of the target. */
  predicate Replaces(faults: Faults) {
    faults.createTemporary.None? && ContentsGetOut(faults) && faults.sync.None? && faults.persist.None?
  }

  /** When looking at the path again tells what to replace. */
  predicate TargetIsFound(d: Disk, path: Name, faults: Faults)
    requires d.Valid()
  {
    || faults.linkMetadata == Some(NotFound)
    || (faults.linkMetadata.None? && (IsLink(d, path) ==> faults.canonicalize.None?))
  }

  /** Exactly when a save succeeds. A device is written in place; a file that
      may be written is replaced, or written in place where no temporary file is
      allowed; and a new file is made where nothing is, not even a dangling link. */
  lemma {:induction false} SavesExactlyWhen(d: Disk, path: Name, names: seq<Name>, faults: Faults)
    requires d.Valid() && IsChain(d.Current(), path, names) && |names| <= 41
    ensures SaveResult(d, path, faults).Ok? <==>
      var dir, end := d.Current(), names[|names| - 1];
      || (faults.metadata.None? && end in dir && dir[end] == Device && faults.openInPlace.None? && ContentsGetOut(faults))
      || (&& faults.metadata.None? && end in dir && dir[end].FileAt? && !d.files[dir[end].ino].permissions.readonly
          && faults.openTarget.None? && TargetIsFound(d, path, faults)
          && (|| (Replaces(faults) && faults.setPermissions.None?)
              || (faults.createTemporary == Some(PermissionDenied) && faults.openInPlace.None? && ContentsGetOut(faults))))
      || (&& (faults.metadata == Some(NotFound) || (faults.metadata.None? && end !in dir)) && !IsLink(d, path)
          && TargetIsFound(d, path, faults) && Replaces(faults))
  {
    ChainResolves(d.Current(), names, 0, MAX_HOPS);
  }

  /** What a save through a temporary file reports: the first call that fails,
      named for the user when it is about the directory, as it is otherwise. */
  lemma {:induction false} FirstErrorIsReported(d: Disk, path: Name, faults: Faults)
    requires d.Valid() && TargetIsFound(d, path, faults)
    requires Inspect(d, path, faults).Ok? && !Inspect(d, path, faults).value.Special?
    ensures var r, regular := SaveResult(d, path, faults), Inspect(d, path, faults).value.Regular?;
      match faults.createTemporary
      case Some(kind) => kind != PermissionDenied || !regular ==> r == Err(CannotSaveTo(kind, SubjectDirectory))
      case None =>
        if regular && faults.setPermissions.Some? then r == Err(Raw(faults.setPermissions.value))
        else if faults.write.Some? then r == Err(Raw(faults.write.value))
        else if faults.flush.Some? then r == Err(Raw(faults.flush.value))
        else if faults.sync.Some? then r == Err(Raw(faults.sync.value))
        else if faults.persist.Some? then r == Err(CannotSaveTo(faults.persist.value, SubjectDirectory))
        else r == Ok(())
    ensures CannotSaveTo(PermissionDenied, SubjectDirectory) == CannotSave(PermissionDenied, DirectoryNotWritable)
    ensures CannotSaveTo(NotFound, SubjectDirectory) == CannotSave(NotFound, DirectoryDoesNotExist)
    ensures CannotSaveTo(NotADirectory, SubjectDirectory) == CannotSave(NotADirectory, ParentIsNotADirectory)
    ensures CannotSaveTo(ReadOnlyFilesystem, SubjectDirectory) == CannotSave(ReadOnlyFilesystem, FileSystemIsReadOnly)
  {
  }

  /** The chain from place `k` on resolves to its end. */
  lemma {:induction false} ChainResolves(dir: Dir, names: seq<Name>, k: nat, hops: nat)
    requires k < |names| && IsChain(dir, names[0], names) && |names| - 1 - k <= hops
    ensures Resolve(dir, names[k], hops) == Some(names[|names| - 1])
    decreases |names| - k
  {
    if k + 1 < |names| {
      assert LinksOn(dir, names, k);
      ChainResolves(dir, names, k + 1, hops - 1);
    }
  }

  /** A chain of more links than the system follows resolves to nothing. */
  lemma {:induction false} LongChainFails(dir: Dir, names: seq<Name>, hops: nat)
    requires |names| >= hops + 2 && forall k :: 0 <= k < |names| - 1 ==> LinksOn(dir, names, k)
    ensures Resolve(dir, names[0], hops).None?
    decreases hops
  {
    assert LinksOn(dir, names, 0);
    if hops > 0 {
      var rest := names[1..];
      forall k | 0 <= k < |rest| - 1
        ensures LinksOn(dir, rest, k)
      {
        assert LinksOn(dir, names, k + 1);
      }
      LongChainFails(dir, rest, hops - 1);
    }
  }

  /** What cannot be saved to, and the error that says so, when no call fails. */
  lemma {:induction false} RefusedAs(d: Disk, path: Name, names: seq<Name>, faults: Faults)
    requires d.Valid() && faults.metadata.None?
    ensures LeadsTo(d, path, names, Directory) ==>
      SaveResult(d, path, faults) == Err(CannotSave(IsADirectory, PathIsADirectory))
    ensures forall ino :: LeadsTo(d, path, names, FileAt(ino)) && d.files[ino].permissions.readonly ==>
      SaveResult(d, path, faults) == Err(CannotSave(PermissionDenied, FileNotWritable))
    ensures IsChain(d.Current(), path, names) && 1 < |names| <= 41 && names[|names| - 1] !in d.Current() ==>
      SaveResult(d, path, faults) == Err(CannotSave(NotFound, SymlinkTargetDoesNotExist))
    ensures |names| >= 42 && names[0] == path && (forall k :: 0 <= k < |names| - 1 ==> LinksOn(d.Current(), names, k)) ==>
      SaveResult(d, path, faults) == Err(CannotSave(FilesystemLoop, KindItself))
  {
    if IsChain(d.Current(), path, names) && |names| <= 41 {
      ChainResolves(d.Current(), names, 0, MAX_HOPS);
      assert |names| > 1 ==> LinksOn(d.Current(), names, 0);
    }
    if |names| >= 42 && names[0] == path && (forall k :: 0 <= k < |names| - 1 ==> LinksOn(d.Current(), names, k)) {
      LongChainFails(d.Current(), names, MAX_HOPS);
    }
  }

  // ----- what the two ways of saving come to -----

  /** A save that fails, wherever it fails, leaves every name as it was, to
      readers and to crashes alike; and the temporary name is gone unless
      removing it failed too. */
  lemma {:induction false} FailedSaveChangesNothing(before: Disk, d: Disk, temporary: Name, ino: Ino, removed: bool, name: Name)
    requires Fresh(before, temporary, ino) && name != temporary
    requires Unpublished(before, d, temporary, ino, removed)
    ensures d.Valid() && SameAs(before, d, name)
    ensures removed ==> d.Current() == before.Current()
  {
    StagedIsValid(before, temporary, ino, d.files[ino], name);
    StagedIsInvisible(before, temporary, ino, d.files[ino], name);
  }

  /** A save that succeeds reads back as exactly the contents, leaves no
      temporary name behind, and once the directory is synced no crash can
      leave anything else. */
  lemma {:induction false} SavedReadsBack(before: Disk, d: Disk, target: Name, temporary: Name, ino: Ino,
                                          contents: seq<byte>, durable: bool)
    requires Fresh(before, temporary, ino) && temporary != target && ino in d.files
    requires IsPublished(before, d, target, temporary, ino, contents, durable)
    ensures d.Valid() && Contents(d, target) == Some(contents)
    ensures d.Current() == before.Current()[target := FileAt(ino)] && temporary !in d.Current()
    ensures durable ==> forall c :: CanSurvive(d, target, c) <==> c == Some(contents)
  {
    PublishedIsWhole(before, temporary, ino, d.files[ino], target);
  }

  /** Links still lead where they led: a save through a link replaces the file
      at the end of the chain and keeps the chain. */
  lemma {:induction false} LinksAreFollowed(before: Dir, target: Name, ino: Ino, path: Name, hops: nat)
    requires Resolve(before, path, hops) == Some(target)
    ensures Resolve(before[target := FileAt(ino)], path, hops) == Some(target)
    decreases hops
  {
    if path in before && before[path].LinkTo? && hops > 0 {
      LinksAreFollowed(before, target, ino, before[path].to, hops - 1);
    }
  }

  /** In place there is a moment with neither the old contents nor the new:
      the file is empty to a reader, and a crash can leave anything. */
  lemma {:induction false} InPlaceLosesBoth(d: Disk, target: Name, ino: Ino, contents: seq<byte>, garbage: seq<byte>)
    requires d.Valid() && target in d.Current() && d.Current()[target] == FileAt(ino)
    requires d.files[ino].data != [] && contents != []
    ensures var truncated := Overwritten(d, ino, []);
      && truncated.Valid()
      && Contents(truncated, target) != Contents(d, target) && Contents(truncated, target) != Some(contents)
      && CanSurvive(truncated, target, Some(garbage))
  {
    var truncated := Overwritten(d, ino, []);
    assert Survives(truncated, |d.versions| - 1, target, Some(garbage));
  }
}
