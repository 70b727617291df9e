/** The capability broker as a function of its state: what every call answers and what it leaves
    behind. The class in `Broker.dfy` does the same in place and is proved against these. */
module BrokerState {
  import opened Common
  import opened FileSystem
  import opened Filenames
  import Decimal

  type NodeId = string

  datatype HandleKind = OfFile | OfDir | OfBytes | OfImage | OfVideo | OfAudio

  /** What a component holds: a number and a claimed kind, never a path. */
  datatype Handle = Handle(id: nat, kind: HandleKind)

  datatype Capability = FsRead | FsWrite | NetHttp | Clipboard | Notifications | OtherCapability(name: string)

  datatype Scope =
    | InputHandles
    | Directory(path: RawPath)
    | HttpHosts(hosts: seq<string>)
    | Allowed

  datatype Grant = Grant(kind: Capability, scope: Scope)

  datatype HandleEntry = HandleEntry(kind: HandleKind, path: RawPath, displayName: string)

  /** Why a call was refused. */
  datatype Reason =
    | ReadNotDeclared
    | NotConnected
    | NoSuchHandle
    | KindMismatch(actual: HandleKind, claimed: HandleKind)
    | NotThisNodes
    | NoFolderAllowed
    | FolderMissing
    | LinkInTheWay
    | FolderOutsideGrants
    | StartupFolder
    | NameTaken
    | SourceNotRemovable
    | SourceFolderNotAllowed
    | FolderNotReadable
    | TooManyFiles
    | NotAFile
    | HostNotAllowed
    | ClipboardNotDeclared
    | NotificationsNotDeclared

  /** What a journal line says about the call. */
  datatype Detail =
    | AboutHandle(kind: HandleKind, id: nat)
    | AboutScratch(kind: HandleKind, id: nat)
    | AboutId(id: nat)
    | AboutSave(id: nat, filename: string)
    | AboutMove(id: nat)
    | AboutName(name: string)
    | AboutListing(count: nat)
    | AboutOpened(id: nat)

  datatype Call = Call(kind: Capability, detail: Detail, because: Option<Reason>)
  {
    predicate IsAllowed() { because.None? }
  }

  datatype Code =
    | MissingHandle
    | ReadFailed
    | TooLarge
    | WriteFailed
    | MoveIncomplete
    | ConversionFailed
    | ConversionUnavailable
    | NotAnImage

  /** How a call ends: it did what was asked, it was refused (and that was written down), or the
      system could not do it. */
  datatype Outcome<+T> =
    | Done(value: T)
    | Denied(because: Reason)
    | Failed(code: Code)

  /** What the machine itself decides: the character tables and where startup folders are
      configured to be. */
  datatype Machine = Machine(unicode: Unicode, startupFolders: seq<RawPath>)

  datatype State = State(
    grants: map<NodeId, seq<Grant>>,
    handles: map<nat, HandleEntry>,
    nextHandle: nat,
    runDir: RawPath,
    reachable: map<NodeId, set<nat>>,
    calls: map<NodeId, seq<Call>>,
    fs: Fs)

  const MAX_READ_BYTES: nat := 512 * 1024 * 1024

  ghost predicate NumbersBelowNext(s: State) {
    forall id :: id in s.handles ==> id < s.nextHandle
  }

  // -- grants ------------------------------------------------------------------------------

  function GrantsFor(grants: map<NodeId, seq<Grant>>, node: NodeId, kind: Capability): seq<Grant> {
    Filter((g: Grant) => g.kind == kind, Lookup(grants, node, []))
  }

  predicate Has(grants: map<NodeId, seq<Grant>>, node: NodeId, kind: Capability) {
    GrantsFor(grants, node, kind) != []
  }

  /** The folders among some grants, resolved; one that is not there counts for nothing. */
  function GrantedFolders(fs: Fs, grants: seq<Grant>): (roots: seq<Path>)
    ensures forall r :: r in roots ==>
              exists g :: g in grants && g.scope.Directory? && ResolveDir(fs, g.scope.path) == Some(r)
  {
    if grants == [] then []
    else
      var g := grants[0];
      var resolved := if g.scope.Directory? then ResolveDir(fs, g.scope.path) else None;
      (if resolved.Some? then [resolved.value] else []) + GrantedFolders(fs, grants[1..])
  }

  function WritableRoots(s: State, node: NodeId): seq<Path> {
    GrantedFolders(s.fs, GrantsFor(s.grants, node, FsWrite))
  }

  function ReadableRoots(s: State, node: NodeId): seq<Path> {
    GrantedFolders(s.fs, GrantsFor(s.grants, node, FsRead))
  }

  predicate Within(roots: seq<Path>, dir: Path) {
    exists root :: root in roots && root <= dir
  }

  /** The startup folders that exist, resolved. */
  function ForbiddenTrees(fs: Fs, folders: seq<RawPath>): seq<Path> {
    if folders == [] then []
    else
      var resolved := Canonicalize(fs, folders[0]);
      (if resolved.Some? then [resolved.value] else []) + ForbiddenTrees(fs, folders[1..])
  }

  function AllowedHosts(grants: seq<Grant>): seq<string> {
    if grants == [] then []
    else (if grants[0].scope.HttpHosts? then grants[0].scope.hosts else []) + AllowedHosts(grants[1..])
  }

  // -- the journal -------------------------------------------------------------------------

  function Record(s: State, node: NodeId, call: Call): State {
    s.(calls := s.calls[node := Lookup(s.calls, node, []) + [call]])
  }

  function Allow(s: State, node: NodeId, kind: Capability, detail: Detail): State {
    Record(s, node, Call(kind, detail, None))
  }

  function Deny<T>(s: State, node: NodeId, kind: Capability, detail: Detail, because: Reason): (State, Outcome<T>) {
    (Record(s, node, Call(kind, detail, Some(because))), Denied(because))
  }

  function TakeCalls(s: State, node: NodeId): (State, seq<Call>) {
    (s.(calls := s.calls - {node}), Lookup(s.calls, node, []))
  }

  // -- host side ---------------------------------------------------------------------------

  function FileName(raw: RawPath): Option<Name> {
    if raw != [] && Last(raw).Down? then Some(Last(raw).name) else None
  }

  function ImportFile(s: State, path: RawPath, kind: HandleKind): (State, Handle) {
    var id := s.nextHandle;
    var displayName := match FileName(path)
      case Some(name) => name
      case None => "file-" + Decimal.Show(id);
    (s.(nextHandle := id + 1, handles := s.handles[id := HandleEntry(kind, path, displayName)]),
     Handle(id, kind))
  }

  function MakeReachable(s: State, node: NodeId, id: nat): State {
    s.(reachable := s.reachable[node := Lookup(s.reachable, node, {}) + {id}])
  }

  function Reclassify(s: State, handle: Handle, kind: HandleKind): (State, Handle) {
    (if handle.id in s.handles
     then s.(handles := s.handles[handle.id := s.handles[handle.id].(kind := kind)])
     else s,
     Handle(handle.id, kind))
  }

  /** `read_bounded`: the size is asked first, and one over the ceiling is not read. */
  function ReadBounded(fs: Fs, raw: RawPath): Outcome<Bytes> {
    match ReadFile(fs, raw)
    case Some(bytes) => if |bytes| > MAX_READ_BYTES then Failed(TooLarge) else Done(bytes)
    case None => Failed(ReadFailed)
  }

  function HostRead(s: State, handle: Handle): Outcome<Bytes> {
    if handle.id !in s.handles then Failed(MissingHandle)
    else ReadBounded(s.fs, s.handles[handle.id].path)
  }

  // -- the component-facing surface --------------------------------------------------------

  predicate CanReach(s: State, node: NodeId, id: nat) {
    id in Lookup(s.reachable, node, {})
  }

  function OpenInput(s: State, node: NodeId, handle: Handle): (State, Outcome<Bytes>) {
    var detail := AboutHandle(handle.kind, handle.id);
    if !Has(s.grants, node, FsRead) then Deny(s, node, FsRead, detail, ReadNotDeclared)
    else if !CanReach(s, node, handle.id) then Deny(s, node, FsRead, detail, NotConnected)
    else if handle.id !in s.handles then Deny(s, node, FsRead, detail, NoSuchHandle)
    else if s.handles[handle.id].kind != handle.kind then
      Deny(s, node, FsRead, detail, KindMismatch(s.handles[handle.id].kind, handle.kind))
    else (Allow(s, node, FsRead, detail), ReadBounded(s.fs, s.handles[handle.id].path))
  }

  function ScratchName(id: nat, name: string): Name {
    Decimal.Show(id) + "-" + name
  }

  function ScratchPath(runDir: RawPath, id: nat, name: string): RawPath {
    runDir + [Down(ScratchName(id, name))]
  }

  function CreateOutput(m: Machine, s: State, node: NodeId, kind: HandleKind, suggested: string, fault: bool)
      : (State, Outcome<Handle>)
  {
    var id := s.nextHandle;
    var safe := Sanitise(m.unicode, suggested);
    match (if fault then None else MakeDirs(s.fs, s.runDir))
    case None => (s, Failed(WriteFailed))
    case Some(fs) =>
      var s1 := s.(nextHandle := id + 1, fs := fs,
                   handles := s.handles[id := HandleEntry(kind, ScratchPath(s.runDir, id, safe), safe)]);
      (Allow(MakeReachable(s1, node, id), node, FsWrite, AboutScratch(kind, id)), Done(Handle(id, kind)))
  }

  function WriteOutput(s: State, node: NodeId, handle: Handle, bytes: Bytes, fault: bool): (State, Outcome<()>) {
    if handle.id !in s.handles then Deny(s, node, FsWrite, AboutId(handle.id), NoSuchHandle)
    else if !CanReach(s, node, handle.id) then Deny(s, node, FsWrite, AboutId(handle.id), NotThisNodes)
    else
      match (if fault then None else WriteFile(s.fs, s.handles[handle.id].path, bytes))
      case Some(fs) => (s.(fs := fs), Done(()))
      case None => (s, Failed(WriteFailed))
  }

  /** Why a result may not be saved there, in the order the broker asks; `None` when it may. The
      last three questions are about the resolved folder and the name inside it, never about the
      path that was passed in. */
  function SaveRefusal(m: Machine, s: State, node: NodeId, handle: Handle, directory: RawPath,
                       safe: Name): Option<Reason> {
    var granted := WritableRoots(s, node);
    if granted == [] then Some(NoFolderAllowed)
    else if handle.id !in s.handles then Some(NoSuchHandle)
    else match ResolveDir(s.fs, directory)
      case None => Some(FolderMissing)
      case Some(dir) =>
        var there := LinkStat(s.fs, RawOf(dir) + [Down(safe)]);
        if there.Some? && there.value.Link? then Some(LinkInTheWay)
        else if !Within(granted, dir) then Some(FolderOutsideGrants)
        else if Within(ForbiddenTrees(s.fs, m.startupFolders), dir) then Some(StartupFolder)
        else if there.Some? then Some(NameTaken)
        else None
  }

  /** Built from the resolved folder. */
  function SaveDestination(s: State, directory: RawPath, safe: Name): RawPath {
    match ResolveDir(s.fs, directory)
    case Some(dir) => RawOf(dir) + [Down(safe)]
    case None => []
  }

  function SaveTo(m: Machine, s: State, node: NodeId, handle: Handle, directory: RawPath, filename: string, fault: bool)
      : (State, Outcome<RawPath>)
  {
    var safe := Sanitise(m.unicode, filename);
    var refusal := SaveRefusal(m, s, node, handle, directory, safe);
    if refusal.Some? then Deny(s, node, FsWrite, AboutSave(handle.id, safe), refusal.value)
    else
      var destination := SaveDestination(s, directory, safe);
      match (if fault then None else CopyFile(s.fs, s.handles[handle.id].path, destination))
      case Some(fs) => (Allow(s.(fs := fs), node, FsWrite, AboutSave(handle.id, safe)), Done(destination))
      case None => (s, Failed(WriteFailed))
  }

  /** Why the original may not be taken away. */
  function RemovalRefusal(s: State, node: NodeId, handle: Handle): Option<Reason> {
    if handle.id !in s.handles then Some(NoSuchHandle)
    else
      var source := s.handles[handle.id].path;
      var sourceDir := if source == [] then None else ResolveDir(s.fs, Front(source));
      if sourceDir.None? then Some(SourceNotRemovable)
      else if !Within(WritableRoots(s, node), sourceDir.value) then Some(SourceFolderNotAllowed)
      else None
  }

  function MoveTo(m: Machine, s: State, node: NodeId, handle: Handle, directory: RawPath, filename: string,
                  copyFault: bool, removeFault: bool): (State, Outcome<RawPath>)
  {
    var refusal := RemovalRefusal(s, node, handle);
    if refusal.Some? then Deny(s, node, FsWrite, AboutId(handle.id), refusal.value)
    else
      var (s1, saved) := SaveTo(m, s, node, handle, directory, filename, copyFault);
      FinishMove(s1, saved, node, handle, s.handles[handle.id].path, removeFault)
  }

  /** Once the copy stands, the original goes; a copy without that is reported as what it is. */
  function FinishMove(s1: State, saved: Outcome<RawPath>, node: NodeId, handle: Handle, source: RawPath,
                      removeFault: bool)
      : (State, Outcome<RawPath>)
  {
    if !saved.Done? then (s1, saved)
    else match (if removeFault then None else RemoveFile(s1.fs, source))
      case Some(fs) => (Allow(s1.(fs := fs), node, FsWrite, AboutMove(handle.id)), saved)
      case None => (s1, Failed(MoveIncomplete))
  }

  /** One thing the system reports while a folder is read. */
  datatype DirItem =
    | Unreadable
    | NoFile(name: Name)
    | AFile(name: Name, metadata: Option<Metadata>)

  datatype Metadata = Metadata(size: nat, modified: nat)

  datatype DirEntry = DirEntry(name: Name, path: RawPath, size: nat, modified: nat)

  function EntryOf(dir: Path, item: DirItem): DirEntry
    requires item.AFile? && item.metadata.Some?
  {
    DirEntry(item.name, RawOf(dir) + [Down(item.name)], item.metadata.value.size, item.metadata.value.modified)
  }

  /** The files read so far, in the order the system gave them; `None` once there is a file more
      than the ceiling allows. */
  function Collect(dir: Path, items: seq<DirItem>, limit: nat): Option<seq<DirEntry>> {
    if items == [] then Some([])
    else
      var before := Collect(dir, Front(items), limit);
      var item := Last(items);
      if before.None? || !item.AFile? then before
      else if |before.value| >= limit then None
      else if item.metadata.None? then before
      else Some(before.value + [EntryOf(dir, item)])
  }

  /** Names in the order of their characters' code points. */
  predicate NotAfter(a: string, b: string) {
    a == [] || (b != [] && (a[0] < b[0] || (a[0] == b[0] && NotAfter(a[1..], b[1..]))))
  }

  function InsertByName(e: DirEntry, sorted: seq<DirEntry>): seq<DirEntry> {
    if sorted == [] || NotAfter(e.name, sorted[0].name) then [e] + sorted
    else [sorted[0]] + InsertByName(e, sorted[1..])
  }

  function SortByName(entries: seq<DirEntry>): seq<DirEntry> {
    if entries == [] then [] else InsertByName(entries[0], SortByName(entries[1..]))
  }

  function ListDir(s: State, node: NodeId, directory: RawPath, limit: nat, read: Option<seq<DirItem>>)
      : (State, Outcome<seq<DirEntry>>)
  {
    var detail := AboutName(match FileName(directory) case Some(name) => name case None => "folder");
    match ResolveDir(s.fs, directory)
    case None => Deny(s, node, FsRead, detail, FolderMissing)
    case Some(dir) =>
      if !Within(ReadableRoots(s, node), dir) then Deny(s, node, FsRead, detail, FolderNotReadable)
      else if read.None? then (s, Failed(ReadFailed))
      else match Collect(dir, read.value, limit)
        case None => Deny(s, node, FsRead, detail, TooManyFiles)
        case Some(files) =>
          (Allow(s, node, FsRead, AboutListing(|files|)), Done(SortByName(files)))
  }

  function ImportGuarded(s: State, node: NodeId, path: RawPath, kind: HandleKind): (State, Outcome<Handle>) {
    var detail := AboutName(match FileName(path) case Some(name) => name case None => "file");
    match Canonicalize(s.fs, path)
    case None => Deny(s, node, FsRead, detail, NotAFile)
    case Some(resolved) =>
      if !IsFile(s.fs, resolved) then Deny(s, node, FsRead, detail, NotAFile)
      else if !Within(ReadableRoots(s, node), Parent(resolved)) then
        Deny(s, node, FsRead, detail, FolderNotReadable)
      else
        var (s1, handle) := ImportFile(s, RawOf(resolved), kind);
        (Allow(s1, node, FsRead, AboutOpened(handle.id)), Done(handle))
  }

  function CheckHttp(s: State, node: NodeId, host: string): (State, Outcome<()>) {
    if host in AllowedHosts(GrantsFor(s.grants, node, NetHttp))
    then (Allow(s, node, NetHttp, AboutName(host)), Done(()))
    else Deny(s, node, NetHttp, AboutName(host), HostNotAllowed)
  }

  function UseClipboard(s: State, node: NodeId, detail: string): (State, Outcome<()>) {
    if !Has(s.grants, node, Clipboard) then Deny(s, node, Clipboard, AboutName(detail), ClipboardNotDeclared)
    else (Allow(s, node, Clipboard, AboutName(detail)), Done(()))
  }

  function Notify(s: State, node: NodeId, title: string): (State, Outcome<()>) {
    if !Has(s.grants, node, Notifications) then
      Deny(s, node, Notifications, AboutName(title), NotificationsNotDeclared)
    else (Allow(s, node, Notifications, AboutName(title)), Done(()))
  }

  // -- runs --------------------------------------------------------------------------------

  /** Everything that can happen to a broker during a run. The fields named `fault` are the
      system failing for reasons of its own; `read` is what it reports about a folder. */
  datatype Event =
    | OpeningInput(node: NodeId, handle: Handle)
    | CreatingOutput(node: NodeId, kind: HandleKind, suggested: string, fault: bool)
    | WritingOutput(node: NodeId, handle: Handle, bytes: Bytes, fault: bool)
    | Saving(node: NodeId, handle: Handle, directory: RawPath, filename: string, fault: bool)
    | Moving(node: NodeId, handle: Handle, directory: RawPath, filename: string, fault: bool, removeFault: bool)
    | Listing(node: NodeId, directory: RawPath, limit: nat, read: Option<seq<DirItem>>)
    | ImportingFound(node: NodeId, path: RawPath, kind: HandleKind)
    | CheckingHttp(node: NodeId, host: string)
    | UsingClipboard(node: NodeId, detail: string)
    | Notifying(node: NodeId, title: string)
    | HostImporting(path: RawPath, kind: HandleKind)
    | HostWiring(node: NodeId, handle: Handle)
    | HostReclassifying(handle: Handle, kind: HandleKind)
    | HostTakingCalls(node: NodeId)
    | ElsewhereChanging(fs: Fs)
  {
    /** A call a component makes, as opposed to a step of the host or of the rest of the machine. */
    predicate IsCall() {
      !(HostImporting? || HostWiring? || HostReclassifying? || HostTakingCalls? || ElsewhereChanging?)
    }
  }

  datatype Verdict = Succeeded | Refused(because: Reason) | Broke(code: Code)

  function VerdictOf<T>(o: Outcome<T>): Verdict {
    match o
    case Done(_) => Succeeded
    case Denied(because) => Refused(because)
    case Failed(code) => Broke(code)
  }

  function Step(m: Machine, s: State, e: Event): (State, Verdict) {
    match e
    case OpeningInput(node, handle) => var (t, o) := OpenInput(s, node, handle); (t, VerdictOf(o))
    case CreatingOutput(node, kind, suggested, fault) =>
      var (t, o) := CreateOutput(m, s, node, kind, suggested, fault); (t, VerdictOf(o))
    case WritingOutput(node, handle, bytes, fault) =>
      var (t, o) := WriteOutput(s, node, handle, bytes, fault); (t, VerdictOf(o))
    case Saving(node, handle, directory, filename, fault) =>
      var (t, o) := SaveTo(m, s, node, handle, directory, filename, fault); (t, VerdictOf(o))
    case Moving(node, handle, directory, filename, fault, removeFault) =>
      var (t, o) := MoveTo(m, s, node, handle, directory, filename, fault, removeFault); (t, VerdictOf(o))
    case Listing(node, directory, limit, read) =>
      var (t, o) := ListDir(s, node, directory, limit, read); (t, VerdictOf(o))
    case ImportingFound(node, path, kind) =>
      var (t, o) := ImportGuarded(s, node, path, kind); (t, VerdictOf(o))
    case CheckingHttp(node, host) => var (t, o) := CheckHttp(s, node, host); (t, VerdictOf(o))
    case UsingClipboard(node, detail) => var (t, o) := UseClipboard(s, node, detail); (t, VerdictOf(o))
    case Notifying(node, title) => var (t, o) := Notify(s, node, title); (t, VerdictOf(o))
    case HostImporting(path, kind) => (ImportFile(s, path, kind).0, Succeeded)
    case HostWiring(node, handle) => (MakeReachable(s, node, handle.id), Succeeded)
    case HostReclassifying(handle, kind) => (Reclassify(s, handle, kind).0, Succeeded)
    case HostTakingCalls(node) => (TakeCalls(s, node).0, Succeeded)
    case ElsewhereChanging(fs) => (s.(fs := fs), Succeeded)
  }

  function Next(m: Machine, s: State, e: Event): State {
    Step(m, s, e).0
  }

  function Run(m: Machine, s: State, es: seq<Event>): State {
    if es == [] then s else Next(m, Run(m, s, Front(es)), Last(es))
  }
}
