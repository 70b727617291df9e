/** When a call does what it was asked: for every call that can be refused or fail, the exact condition on
    grants, handle table and filesystem, so that a broker that refuses too much is as wrong as one that
    allows too much. */
module BrokerAnswers {
  import opened Common
  import opened FileSystem
  import opened Filenames
  import opened BrokerState
  import opened BrokerSafety
  import opened BrokerHandles

  // -- a file that can be read has an entry that can be removed -----------------------------------------

  lemma UpIsNoFile(fs: Fs, folder: RawPath)
    requires ValidFs(fs)
    ensures ReadFile(fs, folder + [Up]).None?
  {
    if Resolve(fs, folder + [Up]).At? {
      var left := WalkSplits(fs, [], folder, [Up], MAX_LINKS);
      var d := Walk(fs, [], folder, MAX_LINKS).path;
      assert [Up][1..] == [];
      assert Resolve(fs, folder + [Up]) == At(Parent(d)) && IsDir(fs, d);
      assert IsDir(fs, Parent(d));
    }
  }

  /** The path of a readable file ends in a name, in a folder that resolves. */
  lemma FileIsInAFolder(fs: Fs, raw: RawPath)
    requires ValidFs(fs) && ReadFile(fs, raw).Some?
    ensures raw != [] && Last(raw).Down? && ResolveDir(fs, Front(raw)).Some?
    ensures Leaf(fs, raw) == Some(ResolveDir(fs, Front(raw)).value + [Last(raw).name])
  {
    var folder := Front(raw);
    assert raw == folder + [Last(raw)];
    if Last(raw).Up? {
      UpIsNoFile(fs, folder);
      assert false;
    } else {
      var left := WalkSplits(fs, [], folder, [Last(raw)], MAX_LINKS);
    }
  }

  /** The entry a path names depends on its folder only. */
  lemma LeafFollowsFolder(fs: Fs, fs1: Fs, raw: RawPath)
    requires raw != [] && ResolveDir(fs, Front(raw)).Some? && ResolveDir(fs1, Front(raw)) == ResolveDir(fs, Front(raw))
    ensures Leaf(fs1, raw) == Leaf(fs, raw)
  {
  }

  /** After a copy to a free place the original can still be taken away. */
  lemma OriginalIsRemovable(fs: Fs, fs1: Fs, source: RawPath, leaf: Path, bytes: Bytes)
    requires ValidFs(fs) && leaf !in fs && fs1 == fs[leaf := File(bytes)] && OnlyFilesChanged(fs, fs1)
    requires ReadFile(fs, source) == Some(bytes)
    ensures RemoveFile(fs1, source).Some?
  {
    EntryOfFile(fs, source);
    LeafStays(fs, fs1, source);
    assert Leaf(fs, source).value != leaf;
  }

  lemma EntryOfFile(fs: Fs, raw: RawPath)
    requires ValidFs(fs) && ReadFile(fs, raw).Some?
    ensures Leaf(fs, raw).Some? && Leaf(fs, raw).value in fs && !fs[Leaf(fs, raw).value].Dir?
  {
    FileIsInAFolder(fs, raw);
    LeafOfSource(fs, raw);
  }

  lemma LeafStays(fs: Fs, fs1: Fs, raw: RawPath)
    requires ValidFs(fs) && OnlyFilesChanged(fs, fs1) && ReadFile(fs, raw).Some?
    ensures Leaf(fs1, raw) == Leaf(fs, raw)
  {
    FileIsInAFolder(fs, raw);
    FoldersStayPut(fs, fs1, Front(raw));
    LeafFollowsFolder(fs, fs1, raw);
  }

  // -- saving and moving --------------------------------------------------------------------------------

  /** The folder is there, granted and no startup folder, and the name in it is free. */
  predicate MaySaveIn(m: Machine, s: State, node: NodeId, directory: RawPath, safe: Name) {
    var dir := ResolveDir(s.fs, directory);
    && dir.Some? && Within(WritableRoots(s, node), dir.value)
    && !Within(ForbiddenTrees(s.fs, m.startupFolders), dir.value)
    && dir.value + [safe] !in s.fs
  }

  predicate Readable(s: State, handle: Handle) {
    handle.id in s.handles && ReadFile(s.fs, s.handles[handle.id].path).Some?
  }

  lemma NothingInTheWay(m: Machine, s: State, node: NodeId, handle: Handle, directory: RawPath, safe: Name)
    requires ValidFs(s.fs)
    ensures SaveRefusal(m, s, node, handle, directory, safe).None?
            <==> handle.id in s.handles && MaySaveIn(m, s, node, directory, safe)
  {
    var dir := ResolveDir(s.fs, directory);
    if dir.Some? {
      FreeNameResolves(s.fs, dir.value, safe);
    }
  }

  /** A save does what it was asked exactly when the handle leads to a readable file and the place it is
      asked to go is granted and free. */
  lemma SavesExactly(m: Machine, s: State, node: NodeId, handle: Handle, directory: RawPath, filename: string)
    requires ValidFs(s.fs)
    ensures SaveTo(m, s, node, handle, directory, filename, false).1.Done?
            <==> Readable(s, handle) && MaySaveIn(m, s, node, directory, Sanitise(m.unicode, filename))
  {
    var safe := Sanitise(m.unicode, filename);
    NothingInTheWay(m, s, node, handle, directory, safe);
    if MaySaveIn(m, s, node, directory, safe) {
      FreeNameResolves(s.fs, ResolveDir(s.fs, directory).value, safe);
    }
  }

  /** The folder the handle's own path lies in is there and granted. */
  predicate MayTakeFrom(s: State, node: NodeId, handle: Handle) {
    && handle.id in s.handles && s.handles[handle.id].path != []
    && var home := ResolveDir(s.fs, Front(s.handles[handle.id].path));
       home.Some? && Within(WritableRoots(s, node), home.value)
  }

  lemma RemovalNeedsItsFolder(s: State, node: NodeId, handle: Handle)
    ensures RemovalRefusal(s, node, handle).None? <==> MayTakeFrom(s, node, handle)
  {
  }

  lemma MoveFollowsSave(m: Machine, s: State, node: NodeId, handle: Handle, directory: RawPath, filename: string)
    requires ValidFs(s.fs) && SaveTo(m, s, node, handle, directory, filename, false).1.Done?
    ensures handle.id in s.handles
    ensures RemoveFile(SaveTo(m, s, node, handle, directory, filename, false).0.fs, s.handles[handle.id].path).Some?
  {
    var s1 := SaveTo(m, s, node, handle, directory, filename, false).0;
    var dir, bytes := SaveEffect(m, s, node, handle, directory, filename, false);
    OriginalIsRemovable(s.fs, s1.fs, s.handles[handle.id].path, dir + [Sanitise(m.unicode, filename)], bytes);
  }

  /** A move does what it was asked exactly when the save does and the folder it takes from is granted
      too. So an incomplete move is always the system's doing: no input alone leads to one. */
  lemma MovesExactly(m: Machine, s: State, node: NodeId, handle: Handle, directory: RawPath, filename: string)
    requires ValidFs(s.fs)
    ensures MoveTo(m, s, node, handle, directory, filename, false, false).1.Done?
            <==> Readable(s, handle) && MayTakeFrom(s, node, handle)
                 && MaySaveIn(m, s, node, directory, Sanitise(m.unicode, filename))
    ensures MoveTo(m, s, node, handle, directory, filename, false, false).1 != Failed(MoveIncomplete)
  {
    RemovalNeedsItsFolder(s, node, handle);
    SavesExactly(m, s, node, handle, directory, filename);
    var (s1, saved) := SaveTo(m, s, node, handle, directory, filename, false);
    SaveFailsOneWay(m, s, node, handle, directory, filename);
    if saved.Done? {
      MoveFollowsSave(m, s, node, handle, directory, filename);
    }
  }

  /** The same broker with other wiring, or with none at all. */
  function Rewired(s: State, reachable: map<NodeId, set<nat>>): State {
    s.(reachable := reachable)
  }

  lemma SavingIgnoresWiring(m: Machine, s: State, node: NodeId, handle: Handle, directory: RawPath, filename: string,
                            fault: bool, reachable: map<NodeId, set<nat>>)
    ensures var (t, o) := SaveTo(m, s, node, handle, directory, filename, fault);
            SaveTo(m, Rewired(s, reachable), node, handle, directory, filename, fault) == (Rewired(t, reachable), o)
  {
  }

  lemma MovingIgnoresWiring(m: Machine, s: State, node: NodeId, handle: Handle, directory: RawPath, filename: string,
                            copyFault: bool, removeFault: bool, reachable: map<NodeId, set<nat>>)
    ensures var (t, o) := MoveTo(m, s, node, handle, directory, filename, copyFault, removeFault);
            MoveTo(m, Rewired(s, reachable), node, handle, directory, filename, copyFault, removeFault) ==
            (Rewired(t, reachable), o)
  {
    SavingIgnoresWiring(m, s, node, handle, directory, filename, copyFault, reachable);
  }

  /** A handle is not what saving and moving ask for: with nothing wired to anybody, a node is refused the file
      behind it when it opens it, and still saves and moves that file wherever its grants let it. */
  lemma SavesWhatItWasNeverGiven(m: Machine, s: State, node: NodeId, handle: Handle, directory: RawPath,
                                 filename: string)
    requires ValidFs(s.fs)
    ensures var bare := Rewired(s, map[]);
            && OpenInput(bare, node, handle).1.Denied?
            && (SaveTo(m, bare, node, handle, directory, filename, false).1.Done?
                <==> Readable(s, handle) && MaySaveIn(m, s, node, directory, Sanitise(m.unicode, filename)))
            && (MoveTo(m, bare, node, handle, directory, filename, false, false).1.Done?
                <==> Readable(s, handle) && MayTakeFrom(s, node, handle)
                     && MaySaveIn(m, s, node, directory, Sanitise(m.unicode, filename)))
  {
    SavingIgnoresWiring(m, s, node, handle, directory, filename, false, map[]);
    MovingIgnoresWiring(m, s, node, handle, directory, filename, false, false, map[]);
    SavesExactly(m, s, node, handle, directory, filename);
    MovesExactly(m, s, node, handle, directory, filename);
  }

  lemma SaveFailsOneWay(m: Machine, s: State, node: NodeId, handle: Handle, directory: RawPath, filename: string)
    ensures var o := SaveTo(m, s, node, handle, directory, filename, false).1;
            o.Failed? ==> o.code == WriteFailed
  {
  }

  // -- a node's own scratch -----------------------------------------------------------------------------

  lemma {:induction false} MakersReach(m: Machine, s: State, es: seq<Event>, id: nat)
    requires Fresh(s) && id in Made(m, s, es)
    ensures CanReach(Run(m, s, es), Made(m, s, es)[id], id)
  {
    var before, e := Run(m, s, Front(es)), Last(es);
    var node := Made(m, s, es)[id];
    StepGives(m, before, e, node, id);
    if !Gives(m, before, e, node, id) {
      MakersReach(m, s, Front(es), id);
    }
  }

  /** At the end of any disciplined run a node can write to a handle it created, exactly unless somebody
      has put a folder where its file belongs. */
  lemma OwnScratchIsWritable(m: Machine, s: State, es: seq<Event>, id: nat, kind: HandleKind, bytes: Bytes)
    requires Fresh(s) && DisciplinedRun(m, s, es) && id in Made(m, s, es)
    ensures var t := Run(m, s, es);
            id in t.handles &&
            (WriteOutput(t, Made(m, s, es)[id], Handle(id, kind), bytes, false).1.Done?
             <==> !IsDir(t.fs, RunRoot(t) + [ScratchName(id, t.handles[id].displayName)]))
  {
    RunStaysConsistent(m, s, es);
    MakersReach(m, s, es, id);
    WritableInConsistentState(Run(m, s, es), Made(m, s, es), Made(m, s, es)[id], id, kind, bytes);
  }

  lemma WritableInConsistentState(t: State, made: map<nat, NodeId>, node: NodeId, id: nat, kind: HandleKind,
                                  bytes: Bytes)
    requires Consistent(t, made) && id in made && CanReach(t, node, id)
    ensures WriteOutput(t, node, Handle(id, kind), bytes, false).1.Done?
            <==> !IsDir(t.fs, RunRoot(t) + [ScratchName(id, t.handles[id].displayName)])
  {
    WritableUnlessFolder(t.fs, t.runDir, RunRoot(t), ScratchName(id, t.handles[id].displayName), bytes);
  }

  lemma WritableUnlessFolder(fs: Fs, folder: RawPath, dir: Path, name: Name, bytes: Bytes)
    requires ResolveDir(fs, folder) == Some(dir)
    requires dir + [name] in fs ==> !fs[dir + [name]].Link?
    ensures WriteFile(fs, folder + [Down(name)], bytes).Some? <==> !IsDir(fs, dir + [name])
  {
    NameInFolder(fs, folder, dir, name);
  }

  // -- calls that only ask --------------------------------------------------------------------------------

  lemma {:induction false} ListedHosts(grants: seq<Grant>, host: string)
    ensures host in AllowedHosts(grants)
            <==> exists g :: g in grants && g.scope.HttpHosts? && host in g.scope.hosts
  {
    if grants != [] {
      ListedHosts(grants[1..], host);
      assert grants == [grants[0]] + grants[1..];
    }
  }

  /** A host is reached exactly when one of the node's own network grants lists it: no grants and an empty
      list both mean no host. */
  lemma ReachesListedHosts(s: State, node: NodeId, host: string)
    ensures CheckHttp(s, node, host).1.Done?
            <==> exists g :: g in Lookup(s.grants, node, []) && g.kind == NetHttp
                             && g.scope.HttpHosts? && host in g.scope.hosts
  {
    ListedHosts(GrantsFor(s.grants, node, NetHttp), host);
  }

  /** The clipboard and notifications are used exactly with a grant of that kind. */
  lemma UsesWhatItWasGranted(s: State, node: NodeId, text: string)
    ensures UseClipboard(s, node, text).1.Done? <==> exists g :: g in Lookup(s.grants, node, []) && g.kind == Clipboard
    ensures Notify(s, node, text).1.Done? <==> exists g :: g in Lookup(s.grants, node, []) && g.kind == Notifications
  {
    HasOne(s.grants, node, Clipboard);
    HasOne(s.grants, node, Notifications);
  }

  lemma HasOne(grants: map<NodeId, seq<Grant>>, node: NodeId, kind: Capability)
    ensures Has(grants, node, kind) <==> exists g :: g in Lookup(grants, node, []) && g.kind == kind
  {
    var found := GrantsFor(grants, node, kind);
    if found != [] {
      assert found[0] in found;
    }
  }

  // -- what lies within a grant -----------------------------------------------------------------------------

  /** A folder grant that is there and has `dir` in it. */
  ghost predicate Covers(fs: Fs, g: Grant, dir: Path) {
    g.scope.Directory? && ResolveDir(fs, g.scope.path).Some? && ResolveDir(fs, g.scope.path).value <= dir
  }

  lemma {:induction false} FoldersCover(fs: Fs, grants: seq<Grant>, dir: Path)
    ensures Within(GrantedFolders(fs, grants), dir) <==> exists g :: g in grants && Covers(fs, g, dir)
  {
    if grants != [] {
      FoldersCover(fs, grants[1..], dir);
      var first, rest := grants[0], GrantedFolders(fs, grants[1..]);
      assert forall r :: r in GrantedFolders(fs, grants) <==>
                           r in rest || (first.scope.Directory? && ResolveDir(fs, first.scope.path) == Some(r));
      assert forall g :: g in grants <==> g == first || g in grants[1..];
    }
  }

  /** A folder may be written exactly when one of the node's own write grants names a folder that exists and
      contains it, links resolved on both sides; and likewise for reading. */
  lemma WithinGrantsExactly(s: State, node: NodeId, dir: Path)
    ensures Within(WritableRoots(s, node), dir)
            <==> exists g :: g in Lookup(s.grants, node, []) && g.kind == FsWrite && Covers(s.fs, g, dir)
    ensures Within(ReadableRoots(s, node), dir)
            <==> exists g :: g in Lookup(s.grants, node, []) && g.kind == FsRead && Covers(s.fs, g, dir)
  {
    FoldersCover(s.fs, GrantsFor(s.grants, node, FsWrite), dir);
    FoldersCover(s.fs, GrantsFor(s.grants, node, FsRead), dir);
  }

  /** A folder is forbidden exactly when a configured startup folder that exists contains it. */
  lemma {:induction false} ForbiddenExactly(fs: Fs, folders: seq<RawPath>, dir: Path)
    ensures Within(ForbiddenTrees(fs, folders), dir)
            <==> exists i :: 0 <= i < |folders| && Canonicalize(fs, folders[i]).Some?
                             && Canonicalize(fs, folders[i]).value <= dir
  {
    if folders != [] {
      var rest := folders[1..];
      ForbiddenExactly(fs, rest, dir);
      var first := Canonicalize(fs, folders[0]);
      assert forall r :: r in ForbiddenTrees(fs, folders) <==> r in ForbiddenTrees(fs, rest) || first == Some(r);
      if i :| 0 <= i < |rest| && Canonicalize(fs, rest[i]).Some? && Canonicalize(fs, rest[i]).value <= dir {
        assert folders[i + 1] == rest[i];
      }
      if i :| 1 <= i < |folders| && Canonicalize(fs, folders[i]).Some? && Canonicalize(fs, folders[i]).value <= dir {
        assert rest[i - 1] == folders[i];
      }
    }
  }
}
