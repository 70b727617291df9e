/** Which answer every call gives, told from grants, tables and disk: each reason exactly when it applies and none
    that the broker asks about earlier does. */
module BrokerReasons {
  import opened Common
  import opened FileSystem
  import opened FileSystemLaws
  import opened Filenames
  import opened BrokerState
  import opened BrokerSafety
  import opened BrokerHandles
  import opened BrokerAnswers
  import Decimal

  // -- what a node was granted ----------------------------------------------------------------------------

  ghost predicate Holds(s: State, node: NodeId, kind: Capability) {
    exists g :: g in Lookup(s.grants, node, []) && g.kind == kind
  }

  /** One of the node's own grants of that kind names a folder that exists and has `dir` in it. */
  ghost predicate Opens(s: State, node: NodeId, kind: Capability, dir: Path) {
    exists g :: g in Lookup(s.grants, node, []) && g.kind == kind && Covers(s.fs, g, dir)
  }

  /** One of them names a folder that exists. */
  ghost predicate NamesAFolder(s: State, node: NodeId, kind: Capability) {
    exists g :: g in Lookup(s.grants, node, []) && g.kind == kind && g.scope.Directory?
                && ResolveDir(s.fs, g.scope.path).Some?
  }

  /** Some configured startup folder that exists has it in it. */
  ghost predicate StartsUp(m: Machine, fs: Fs, dir: Path) {
    exists i :: 0 <= i < |m.startupFolders| && Canonicalize(fs, m.startupFolders[i]).Some?
                && Canonicalize(fs, m.startupFolders[i]).value <= dir
  }

  lemma {:induction false} SomeFolder(fs: Fs, grants: seq<Grant>)
    ensures GrantedFolders(fs, grants) != []
        <==> exists g :: g in grants && g.scope.Directory? && ResolveDir(fs, g.scope.path).Some?
  {
    if grants != [] {
      SomeFolder(fs, grants[1..]);
      assert forall g :: g in grants <==> g == grants[0] || g in grants[1..];
    }
  }

  lemma SomeWritable(s: State, node: NodeId)
    ensures WritableRoots(s, node) != [] <==> NamesAFolder(s, node, FsWrite)
  {
    SomeFolder(s.fs, GrantsFor(s.grants, node, FsWrite));
  }

  // -- reading --------------------------------------------------------------------------------------------

  /** What the host reads through a handle, whoever it is for. */
  lemma HostReadExactly(s: State, handle: Handle, bytes: Bytes)
    ensures HostRead(s, handle) == Done(bytes) <==>
              handle.id in s.handles && ReadFile(s.fs, s.handles[handle.id].path) == Some(bytes)
              && |bytes| <= 512 * 1024 * 1024
    ensures HostRead(s, handle) == Failed(MissingHandle) <==> handle.id !in s.handles
    ensures HostRead(s, handle) == Failed(TooLarge) <==>
              handle.id in s.handles && ReadFile(s.fs, s.handles[handle.id].path).Some?
              && |ReadFile(s.fs, s.handles[handle.id].path).value| > 512 * 1024 * 1024
  {
  }

  /** Opening: the four refusals in their order, and whatever is behind them is what the host reads. */
  lemma OpenAnswers(s: State, node: NodeId, handle: Handle)
    ensures var o := OpenInput(s, node, handle).1;
            && (o == Denied(ReadNotDeclared) <==> !Holds(s, node, FsRead))
            && (o == Denied(NotConnected) <==> Holds(s, node, FsRead) && !CanReach(s, node, handle.id))
            && (o == Denied(NoSuchHandle) <==>
                  Holds(s, node, FsRead) && CanReach(s, node, handle.id) && handle.id !in s.handles)
            && (forall actual, claimed :: o == Denied(KindMismatch(actual, claimed)) <==>
                  && Holds(s, node, FsRead) && CanReach(s, node, handle.id) && handle.id in s.handles
                  && actual == s.handles[handle.id].kind && claimed == handle.kind && actual != claimed)
            && (!o.Denied? ==> o == HostRead(s, handle))
  {
    HasOne(s.grants, node, FsRead);
  }

  // -- writing --------------------------------------------------------------------------------------------

  /** Writing: whether the number was issued, then whether the node was given it; what is left is the system's. */
  lemma WriteAnswers(s: State, node: NodeId, handle: Handle, bytes: Bytes, fault: bool)
    ensures var o := WriteOutput(s, node, handle, bytes, fault).1;
            && (o == Denied(NoSuchHandle) <==> handle.id !in s.handles)
            && (o == Denied(NotThisNodes) <==> handle.id in s.handles && !CanReach(s, node, handle.id))
            && (o.Denied? ==> o.because in {NoSuchHandle, NotThisNodes})
            && (o.Failed? <==> handle.id in s.handles && CanReach(s, node, handle.id)
                               && (fault || WriteFile(s.fs, s.handles[handle.id].path, bytes).None?))
            && (o.Failed? ==> o.code == WriteFailed && WriteOutput(s, node, handle, bytes, fault).0 == s)
  {
  }

  /** Creating is never refused. Without a fault it succeeds exactly when the run's directory is there or can be
      made, and where it is missing behind a folder that is there it is made. */
  lemma CreateAnswers(m: Machine, s: State, node: NodeId, kind: HandleKind, suggested: string, fault: bool)
    requires ValidFs(s.fs)
    ensures var (t, o) := CreateOutput(m, s, node, kind, suggested, fault);
            && (o == Done(Handle(s.nextHandle, kind)) || (o == Failed(WriteFailed) && t == s))
            && (!fault && (ResolveDir(s.fs, s.runDir).Some? || MissingUnderFolder(s.fs, s.runDir)) ==> o.Done?)
            && (WithoutUps(s.runDir) && o.Done? ==>
                  !fault && (ResolveDir(s.fs, s.runDir).Some? || MissingUnderFolder(s.fs, s.runDir)))
            && (o.Done? ==> ResolveDir(t.fs, t.runDir).Some? && OnlyFoldersAdded(s.fs, t.fs))
  {
    DirectoryFacts(s.fs, s.runDir);
  }

  lemma DirectoryFacts(fs: Fs, raw: RawPath)
    requires ValidFs(fs)
    ensures ResolveDir(fs, raw).Some? || MissingUnderFolder(fs, raw) ==> MakeDirs(fs, raw).Some?
    ensures MakeDirs(fs, raw).Some? && WithoutUps(raw) ==> ResolveDir(fs, raw).Some? || MissingUnderFolder(fs, raw)
    ensures MakeDirs(fs, raw).Some? ==>
              ResolveDir(MakeDirs(fs, raw).value, raw).Some? && OnlyFoldersAdded(fs, MakeDirs(fs, raw).value)
  {
    if WithoutUps(raw) {
      MadeExactly(fs, raw);
    }
    if MissingUnderFolder(fs, raw) {
      MissingIsMade(fs, raw);
    }
    if MakeDirs(fs, raw).Some? {
      MakeDirsMakes(fs, raw);
    }
  }

  /** The disk after that, folder by folder. */
  lemma CreateMakesTheDirectory(m: Machine, s: State, node: NodeId, kind: HandleKind, suggested: string,
                                base: RawPath, d: Path, names: seq<Name>)
    requires ValidFs(s.fs) && names != [] && s.runDir == base + Downs(names)
    requires ResolveDir(s.fs, base) == Some(d) && d + [names[0]] !in s.fs
    ensures var (t, o) := CreateOutput(m, s, node, kind, suggested, false);
            o.Done? && t.fs == WithFolders(s.fs, d, names) && ResolveDir(t.fs, t.runDir) == Some(d + names)
  {
    MissingFoldersAreMade(s.fs, base, d, names);
  }

  // -- saving and moving ----------------------------------------------------------------------------------

  /** What stands under that name in that folder. */
  function Standing(fs: Fs, dir: Path, name: Name): Option<Entry> {
    if dir + [name] in fs then Some(fs[dir + [name]]) else None
  }

  /** What a save into that folder is refused for, the first that applies of: a link under that name, a folder
      outside the grants, a startup folder, a name that is taken. */
  ghost predicate FolderIsRefused(m: Machine, s: State, node: NodeId, dir: Path, name: Name, because: Reason) {
    var there := Standing(s.fs, dir, name);
    if there.Some? && there.value.Link? then because == LinkInTheWay
    else if !Opens(s, node, FsWrite, dir) then because == FolderOutsideGrants
    else if StartsUp(m, s.fs, dir) then because == StartupFolder
    else there.Some? && because == NameTaken
  }

  /** What a save is refused for: no folder granted at all, no such handle, no such folder, and then that. */
  ghost predicate SaveIsRefused(m: Machine, s: State, node: NodeId, handle: Handle, directory: RawPath, name: Name,
                                because: Reason)
  {
    if !NamesAFolder(s, node, FsWrite) then because == NoFolderAllowed
    else if handle.id !in s.handles then because == NoSuchHandle
    else match ResolveDir(s.fs, directory)
      case None => because == FolderMissing
      case Some(dir) => FolderIsRefused(m, s, node, dir, name, because)
  }

  lemma SaveAnswers(m: Machine, s: State, node: NodeId, handle: Handle, directory: RawPath, filename: string,
                    fault: bool)
    requires ValidFs(s.fs)
    ensures var o := SaveTo(m, s, node, handle, directory, filename, fault).1;
            && (forall because :: o == Denied(because) <==>
                  SaveIsRefused(m, s, node, handle, directory, Sanitise(m.unicode, filename), because))
            && (o.Failed? ==> o.code == WriteFailed && SaveTo(m, s, node, handle, directory, filename, fault).0 == s)
  {
    var name := Sanitise(m.unicode, filename);
    forall because
      ensures SaveRefusal(m, s, node, handle, directory, name) == Some(because)
          <==> SaveIsRefused(m, s, node, handle, directory, name, because)
    {
      RefusalIsExact(m, s, node, handle, directory, name, because);
    }
  }

  lemma RefusalIsExact(m: Machine, s: State, node: NodeId, handle: Handle, directory: RawPath, name: Name,
                       because: Reason)
    requires ValidFs(s.fs)
    ensures SaveRefusal(m, s, node, handle, directory, name) == Some(because)
        <==> SaveIsRefused(m, s, node, handle, directory, name, because)
  {
    SomeWritable(s, node);
    match ResolveDir(s.fs, directory)
    case None =>
    case Some(dir) => RefusalInFolder(m, s, node, handle, directory, dir, name, because);
  }

  lemma RefusalInFolder(m: Machine, s: State, node: NodeId, handle: Handle, directory: RawPath, dir: Path, name: Name,
                        because: Reason)
    requires ValidFs(s.fs) && ResolveDir(s.fs, directory) == Some(dir)
    ensures WritableRoots(s, node) != [] && handle.id in s.handles ==>
              (SaveRefusal(m, s, node, handle, directory, name) == Some(because)
               <==> FolderIsRefused(m, s, node, dir, name, because))
  {
    FolderFacts(m, s, node, dir, name);
  }

  lemma FolderFacts(m: Machine, s: State, node: NodeId, dir: Path, name: Name)
    requires ValidFs(s.fs) && IsDir(s.fs, dir)
    ensures Within(WritableRoots(s, node), dir) <==> Opens(s, node, FsWrite, dir)
    ensures Within(ForbiddenTrees(s.fs, m.startupFolders), dir) <==> StartsUp(m, s.fs, dir)
    ensures LinkStat(s.fs, RawOf(dir) + [Down(name)]) == Standing(s.fs, dir, name)
  {
    WithinGrantsExactly(s, node, dir);
    ForbiddenExactly(s.fs, m.startupFolders, dir);
    StatOfName(s.fs, dir, name);
  }

  lemma StatOfName(fs: Fs, dir: Path, name: Name)
    requires ValidFs(fs) && IsDir(fs, dir)
    ensures LinkStat(fs, RawOf(dir) + [Down(name)]) == Standing(fs, dir, name)
  {
    FreeNameResolves(fs, dir, name);
  }

  /** What a move is refused for before anything is copied: no such handle, a source without a folder that is
      there, a source folder outside the grants. */
  ghost predicate RemovalIsRefused(s: State, node: NodeId, handle: Handle, because: Reason) {
    if handle.id !in s.handles then because == NoSuchHandle
    else
      var source := s.handles[handle.id].path;
      if source == [] || ResolveDir(s.fs, source[..|source| - 1]).None? then because == SourceNotRemovable
      else !Opens(s, node, FsWrite, ResolveDir(s.fs, source[..|source| - 1]).value) && because == SourceFolderNotAllowed
  }

  /** Nothing of that. */
  ghost predicate MayBeRemoved(s: State, node: NodeId, handle: Handle) {
    && handle.id in s.handles && s.handles[handle.id].path != []
    && var source := s.handles[handle.id].path;
       var home := ResolveDir(s.fs, source[..|source| - 1]);
       home.Some? && Opens(s, node, FsWrite, home.value)
  }

  lemma RemovalIsExact(s: State, node: NodeId, handle: Handle, because: Reason)
    ensures RemovalRefusal(s, node, handle) == Some(because) <==> RemovalIsRefused(s, node, handle, because)
    ensures RemovalRefusal(s, node, handle).None? <==> MayBeRemoved(s, node, handle)
  {
    if handle.id in s.handles && s.handles[handle.id].path != [] {
      var home := ResolveDir(s.fs, Front(s.handles[handle.id].path));
      if home.Some? {
        WithinGrantsExactly(s, node, home.value);
      }
    }
  }

  /** A move is refused for those, and after them for whatever its save is refused for. */
  lemma MoveAnswers(m: Machine, s: State, node: NodeId, handle: Handle, directory: RawPath, filename: string,
                    copyFault: bool, removeFault: bool, because: Reason)
    requires ValidFs(s.fs)
    ensures MoveTo(m, s, node, handle, directory, filename, copyFault, removeFault).1 == Denied(because) <==>
              || RemovalIsRefused(s, node, handle, because)
              || (MayBeRemoved(s, node, handle)
                  && SaveIsRefused(m, s, node, handle, directory, Sanitise(m.unicode, filename), because))
  {
    RemovalIsExact(s, node, handle, because);
    SaveAnswers(m, s, node, handle, directory, filename, copyFault);
  }

  /** When the system will not take the original away after the copy, the move says so: the copy stands, the
      original stands, and the journal holds the copy. */
  lemma IncompleteMoveKeepsBoth(m: Machine, s: State, node: NodeId, handle: Handle, directory: RawPath,
                                filename: string)
    requires ValidFs(s.fs) && MoveTo(m, s, node, handle, directory, filename, false, false).1.Done?
    ensures var (t, o) := MoveTo(m, s, node, handle, directory, filename, false, true);
            && o == Failed(MoveIncomplete) && t == SaveTo(m, s, node, handle, directory, filename, false).0
            && handle.id in s.handles
            && ReadFile(t.fs, s.handles[handle.id].path) == ReadFile(s.fs, s.handles[handle.id].path)
  {
    var dir, bytes := SaveEffect(m, s, node, handle, directory, filename, false);
    var t := SaveTo(m, s, node, handle, directory, filename, false).0;
    WalkGrows(s.fs, t.fs, [], s.handles[handle.id].path, MAX_LINKS);
  }

  // -- listing and importing ------------------------------------------------------------------------------

  /** Listing, for every folder and everything the system may report: done exactly when the folder is there, one
      of the node's read grants covers it, it could be read and it is not over the ceiling; and the reason
      otherwise. */
  lemma ListAnswers(s: State, node: NodeId, directory: RawPath, limit: nat, read: Option<seq<DirItem>>)
    ensures var o, dir := ListDir(s, node, directory, limit, read).1, ResolveDir(s.fs, directory);
            && (o.Done? <==> dir.Some? && Opens(s, node, FsRead, dir.value) && read.Some?
                             && !Overfull(dir.value, read.value, limit))
            && (o == Denied(FolderMissing) <==> dir.None?)
            && (o == Denied(FolderNotReadable) <==> dir.Some? && !Opens(s, node, FsRead, dir.value))
            && (o == Denied(TooManyFiles) <==> dir.Some? && Opens(s, node, FsRead, dir.value) && read.Some?
                                               && Overfull(dir.value, read.value, limit))
            && (o == Failed(ReadFailed) <==> dir.Some? && Opens(s, node, FsRead, dir.value) && read.None?)
            && (o.Denied? ==> o.because in {FolderMissing, FolderNotReadable, TooManyFiles})
            && (o.Failed? ==> o.code == ReadFailed)
  {
    var dir := ResolveDir(s.fs, directory);
    if dir.Some? {
      WithinGrantsExactly(s, node, dir.value);
      if read.Some? {
        CollectsAllOrRefuses(dir.value, read.value, limit);
      }
    }
  }

  /** What a listing says of a file: its name, where it is, its size and its time. */
  lemma {:induction false} EntriesAreTheFiles(dir: Path, items: seq<DirItem>, e: DirEntry)
    ensures e in EntriesOf(dir, items) <==>
              e.path == RawOf(dir + [e.name]) && AFile(e.name, Some(Metadata(e.size, e.modified))) in items
  {
    RawOfSnoc(dir, e.name);
    if items != [] {
      EntriesAreTheFiles(dir, Front(items), e);
      var last := Last(items);
      assert items == Front(items) + [last];
      if Listable(last) {
        RawOfSnoc(dir, last.name);
      }
    }
  }

  lemma ListsTheFiles(s: State, node: NodeId, directory: RawPath, limit: nat, items: seq<DirItem>, e: DirEntry)
    requires ListDir(s, node, directory, limit, Some(items)).1.Done?
    ensures e in ListDir(s, node, directory, limit, Some(items)).1.value <==>
              e.path == RawOf(ResolveDir(s.fs, directory).value + [e.name])
              && AFile(e.name, Some(Metadata(e.size, e.modified))) in items
  {
    ListAnswers(s, node, directory, limit, Some(items));
    var dir := ResolveDir(s.fs, directory).value;
    WithinGrantsExactly(s, node, dir);
    ListingIsCompleteOrRefused(s, node, directory, limit, items);
    EntriesAreTheFiles(dir, items, e);
    var listed := ListDir(s, node, directory, limit, Some(items)).1.value;
    assert e in listed <==> e in multiset(listed);
    assert e in EntriesOf(dir, items) <==> e in multiset(EntriesOf(dir, items));
  }

  /** Importing what a trigger found: no file there, or a file outside what the node may read. */
  lemma ImportAnswers(s: State, node: NodeId, path: RawPath, kind: HandleKind)
    requires ValidFs(s.fs)
    ensures var o := ImportGuarded(s, node, path, kind).1;
            && (o == Denied(NotAFile) <==> ReadFile(s.fs, path).None?)
            && (o == Denied(FolderNotReadable) <==>
                  exists actual :: Resolve(s.fs, path) == At(actual) && IsFile(s.fs, actual)
                                   && !Opens(s, node, FsRead, Parent(actual)))
            && (o.Done? ==> o.value == Handle(s.nextHandle, kind)) && !o.Failed?
  {
    if ReadFile(s.fs, path).Some? {
      WithinGrantsExactly(s, node, Parent(Resolve(s.fs, path).path));
    }
  }

  /** What the host brings in is read as what stands there, under the last name of its path, and under its number
      where the path has none. */
  lemma ImportedIsRead(s: State, path: RawPath, kind: HandleKind)
    ensures var (t, handle) := ImportFile(s, path, kind);
            && handle == Handle(s.nextHandle, kind) && t.nextHandle == s.nextHandle + 1
            && t == s.(nextHandle := t.nextHandle, handles := t.handles)
            && t.handles.Keys == s.handles.Keys + {handle.id}
            && (forall id :: id in s.handles && id != handle.id ==> t.handles[id] == s.handles[id])
            && t.handles[handle.id].kind == kind
            && (forall bytes :: ReadFile(s.fs, path) == Some(bytes) && |bytes| <= 512 * 1024 * 1024 ==>
                  HostRead(t, handle) == Done(bytes))
            && (forall name :: path != [] && path[|path| - 1] == Down(name) ==>
                  t.handles[handle.id].displayName == name)
            && ((path == [] || path[|path| - 1].Up?) ==>
                  t.handles[handle.id].displayName == "file-" + Decimal.Show(handle.id))
  {
  }

  // -- calls that only ask ----------------------------------------------------------------------------------

  lemma AskAnswers(s: State, node: NodeId, text: string)
    ensures var o := CheckHttp(s, node, text).1; o == Done(()) || o == Denied(HostNotAllowed)
    ensures var o := UseClipboard(s, node, text).1; o == Done(()) || o == Denied(ClipboardNotDeclared)
    ensures var o := Notify(s, node, text).1; o == Done(()) || o == Denied(NotificationsNotDeclared)
  {
  }
}
