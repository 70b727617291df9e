/** What a run may do to files outside its own directory. */
module BrokerSafety {
  import opened Common
  import opened FileSystem
  import opened Filenames
  import opened BrokerState

  // -- single file operations ----------------------------------------------------------------

  lemma WriteTouchesOneFile(fs: Fs, raw: RawPath, bytes: Bytes)
    requires ValidFs(fs) && WriteFile(fs, raw, bytes).Some?
    ensures var fs' := WriteFile(fs, raw, bytes).value;
            ValidFs(fs') && OnlyFilesChanged(fs, fs')
  {
    WalkLands(fs, [], raw, MAX_LINKS);
    var fs' := WriteFile(fs, raw, bytes).value;
    forall p | p in fs' ensures IsDir(fs', Parent(p)) {
      assert IsDir(fs, Parent(p));
    }
  }

  lemma LeafOfSource(fs: Fs, raw: RawPath)
    requires ValidFs(fs) && ReadFile(fs, raw).Some? && Leaf(fs, raw).Some?
    ensures var p := Leaf(fs, raw).value;
            && p in fs && !fs[p].Dir? && Parent(p) == ResolveDir(fs, Front(raw)).value
            && (fs[p].File? ==> fs[p].bytes == ReadFile(fs, raw).value)
            && (fs[p].Link? ==> LeadsToFile(fs, p))
  {
    var p, left := LastStep(fs, raw);
    if p in fs && fs[p].Link? {
      assert WalkEndsInFile(fs, LinkBase(fs[p], Parent(p)), fs[p].target, left - 1);
    }
  }

  /** The last step of a path that ends in a name. */
  lemma LastStep(fs: Fs, raw: RawPath) returns (p: Path, left: nat)
    requires Leaf(fs, raw).Some?
    ensures p != [] && Leaf(fs, raw) == Some(p) && ResolveDir(fs, Front(raw)) == Some(Parent(p))
    ensures Resolve(fs, raw) ==
              if p !in fs then Absent(p)
              else if !fs[p].Link? then At(p)
              else if left == 0 then Nowhere
              else Walk(fs, LinkBase(fs[p], Parent(p)), fs[p].target, left - 1)
  {
    var folder, name := Front(raw), Last(raw).name;
    assert raw == folder + [Down(name)];
    var d := Canonicalize(fs, folder).value;
    p := d + [name];
    assert Parent(p) == d;
    left := WalkLastName(fs, [], folder, name, MAX_LINKS);
  }

  lemma RemoveTouchesOneFile(fs: Fs, raw: RawPath)
    requires ValidFs(fs) && ReadFile(fs, raw).Some? && RemoveFile(fs, raw).Some?
    ensures var fs' := RemoveFile(fs, raw).value;
            ValidFs(fs') && OnlyFilesChanged(fs, fs')
  {
    LeafOfSource(fs, raw);
    var gone := Leaf(fs, raw).value;
    var fs' := RemoveFile(fs, raw).value;
    forall p | p in fs' ensures IsDir(fs', Parent(p)) {
      assert IsDir(fs, Parent(p));
    }
  }

  /** The last name of a path whose folder resolves. */
  lemma NameInFolder(fs: Fs, folder: RawPath, dir: Path, name: Name)
    requires ResolveDir(fs, folder) == Some(dir)
    ensures Leaf(fs, folder + [Down(name)]) == Some(dir + [name])
    ensures dir + [name] !in fs ==> Resolve(fs, folder + [Down(name)]) == Absent(dir + [name])
    ensures dir + [name] in fs && !fs[dir + [name]].Link? ==>
              Resolve(fs, folder + [Down(name)]) == At(dir + [name])
  {
    var left := WalkLastName(fs, [], folder, name, MAX_LINKS);
    assert Front(folder + [Down(name)]) == folder;
  }

  /** A free name in a resolved folder is where a file written there lands. */
  lemma FreeNameResolves(fs: Fs, dir: Path, name: Name)
    requires ValidFs(fs) && IsDir(fs, dir)
    ensures Leaf(fs, RawOf(dir) + [Down(name)]) == Some(dir + [name])
    ensures dir + [name] !in fs ==> Resolve(fs, RawOf(dir) + [Down(name)]) == Absent(dir + [name])
  {
    CanonicalResolvesToItself(fs, dir);
    NameInFolder(fs, RawOf(dir), dir, name);
  }

  // -- saving and moving ---------------------------------------------------------------------

  /** The two states differ in their files and their journal only. */
  ghost predicate SameTables(s: State, t: State) {
    t == s.(fs := t.fs, calls := t.calls)
  }

  lemma SaveKeepsTables(m: Machine, s: State, node: NodeId, handle: Handle, directory: RawPath, filename: string,
                        fault: bool)
    ensures var (s', o) := SaveTo(m, s, node, handle, directory, filename, fault);
            SameTables(s, s') && (!o.Done? ==> s'.fs == s.fs)
  {
  }

  lemma MoveKeepsTables(m: Machine, s: State, node: NodeId, handle: Handle, directory: RawPath, filename: string,
                        fault: bool, removeFault: bool)
    ensures var (s', o) := MoveTo(m, s, node, handle, directory, filename, fault, removeFault);
            && SameTables(s, s')
            && (!o.Done? ==> s'.fs == s.fs || s'.fs == SaveTo(m, s, node, handle, directory, filename, fault).0.fs)
  {
    SaveKeepsTables(m, s, node, handle, directory, filename, fault);
  }

  /** What a successful save did: a file that was not there now stands in the resolved folder,
      with the source's bytes, and nothing else changed. */
  lemma SaveEffect(m: Machine, s: State, node: NodeId, handle: Handle, directory: RawPath, filename: string,
                   fault: bool)
      returns (dir: Path, bytes: Bytes)
    requires ValidFs(s.fs)
    requires SaveTo(m, s, node, handle, directory, filename, fault).1.Done?
    ensures var (s', o) := SaveTo(m, s, node, handle, directory, filename, fault);
            var leaf := dir + [Sanitise(m.unicode, filename)];
            && handle.id in s.handles && ReadFile(s.fs, s.handles[handle.id].path) == Some(bytes)
            && ResolveDir(s.fs, directory) == Some(dir)
            && Within(WritableRoots(s, node), dir)
            && !Within(ForbiddenTrees(s.fs, m.startupFolders), dir)
            && leaf !in s.fs && s'.fs == s.fs[leaf := File(bytes)]
            && o.value == RawOf(dir) + [Down(Sanitise(m.unicode, filename))]
            && ValidFs(s'.fs) && OnlyFilesChanged(s.fs, s'.fs)
  {
    dir := ResolveDir(s.fs, directory).value;
    var source := s.handles[handle.id].path;
    bytes := ReadFile(s.fs, source).value;
    var safe := Sanitise(m.unicode, filename);
    FreeNameResolves(s.fs, dir, safe);
    WriteTouchesOneFile(s.fs, RawOf(dir) + [Down(safe)], bytes);
  }

  /** Copying somewhere else leaves the source's entry where it was, ready to be removed. */
  lemma SourceSurvivesCopy(fs: Fs, fs1: Fs, source: RawPath, leaf: Path, bytes: Bytes)
    requires ValidFs(fs) && leaf !in fs && fs1 == fs[leaf := File(bytes)] && ValidFs(fs1)
    requires OnlyFilesChanged(fs, fs1)
    requires ReadFile(fs, source) == Some(bytes) && RemoveFile(fs1, source).Some?
    ensures var gone := Leaf(fs, source);
            && gone.Some? && Leaf(fs1, source) == gone && gone.value != leaf
            && gone.value in fs && !fs[gone.value].Dir? && (fs[gone.value].File? ==> fs[gone.value].bytes == bytes)
            && ResolveDir(fs, Front(source)) == Some(Parent(gone.value)) && gone.value != []
            && RemoveFile(fs1, source).value == fs1 - {gone.value}
            && ValidFs(fs1 - {gone.value}) && OnlyFilesChanged(fs1, fs1 - {gone.value})
  {
    FoldersStayPut(fs, fs1, Front(source));
    WalkGrows(fs, fs1, [], source, MAX_LINKS);
    LeafOfSource(fs, source);
    RemoveTouchesOneFile(fs1, source);
  }

  /** What a successful move did: the same, and then the entry the source path ends in is gone. */
  lemma MoveEffect(m: Machine, s: State, node: NodeId, handle: Handle, directory: RawPath, filename: string,
                   fault: bool, removeFault: bool) returns (dir: Path, gone: Path, bytes: Bytes)
    requires ValidFs(s.fs)
    requires MoveTo(m, s, node, handle, directory, filename, fault, removeFault).1.Done?
    ensures var s' := MoveTo(m, s, node, handle, directory, filename, fault, removeFault).0;
            var s1 := SaveTo(m, s, node, handle, directory, filename, fault).0;
            && SaveTo(m, s, node, handle, directory, filename, fault).1.Done? && handle.id in s.handles
            && ReadFile(s.fs, s.handles[handle.id].path) == Some(bytes)
            && Leaf(s.fs, s.handles[handle.id].path) == Some(gone)
            && gone != [] && gone in s.fs && !s.fs[gone].Dir? && (s.fs[gone].File? ==> s.fs[gone].bytes == bytes)
            && Within(WritableRoots(s, node), Parent(gone))
            && dir + [Sanitise(m.unicode, filename)] != gone
            && s1.fs == s.fs[dir + [Sanitise(m.unicode, filename)] := File(bytes)]
            && s'.fs == s1.fs - {gone}
            && ValidFs(s'.fs) && OnlyFilesChanged(s1.fs, s'.fs)
  {
    var s1 := SaveTo(m, s, node, handle, directory, filename, fault).0;
    var source := s.handles[handle.id].path;
    dir, bytes := SaveEffect(m, s, node, handle, directory, filename, fault);
    assert RemoveFile(s1.fs, source).Some?;
    SourceSurvivesCopy(s.fs, s1.fs, source, dir + [Sanitise(m.unicode, filename)], bytes);
    gone := Leaf(s.fs, source).value;
  }

  // -- the invariant of a run ------------------------------------------------------------------

  /** The run's own directory, resolved. */
  function RunRoot(s: State): Path {
    match ResolveDir(s.fs, s.runDir)
    case Some(root) => root
    case None => []
  }

  ghost predicate NoLinksDirectlyIn(fs: Fs, root: Path) {
    forall name: Name :: root + [name] in fs ==> !fs[root + [name]].Link?
  }

  /** `made` says which node created which scratch handle. */
  ghost predicate Consistent(s: State, made: map<nat, NodeId>) {
    && ValidFs(s.fs)
    && ResolveDir(s.fs, s.runDir).Some?
    && NoLinksDirectlyIn(s.fs, RunRoot(s))
    && (forall id :: id in s.handles ==> id < s.nextHandle)
    && (forall id :: id in made ==>
          id in s.handles && s.handles[id].path == ScratchPath(s.runDir, id, s.handles[id].displayName))
  }

  /** The history of who made what, one step further. */
  function Making(m: Machine, s: State, made: map<nat, NodeId>, e: Event): map<nat, NodeId> {
    if e.CreatingOutput? && Step(m, s, e).1.Succeeded? then made[s.nextHandle := e.node] else made
  }

  function Made(m: Machine, s: State, es: seq<Event>): map<nat, NodeId> {
    if es == [] then map[]
    else Making(m, Run(m, s, Front(es)), Made(m, s, Front(es)), Last(es))
  }

  /** The discipline the run is judged under. A component writes only to handles it created, and
      while the run goes on the rest of the machine may do anything except disturb the run's own
      directory. */
  ghost predicate Disciplined(s: State, made: map<nat, NodeId>, e: Event) {
    && (e.WritingOutput? ==> e.handle.id in made && made[e.handle.id] == e.node)
    && (e.ElsewhereChanging? ==>
          && ValidFs(e.fs) && ResolveDir(e.fs, s.runDir) == ResolveDir(s.fs, s.runDir)
          && NoLinksDirectlyIn(e.fs, RunRoot(s)))
  }

  ghost predicate DisciplinedRun(m: Machine, s: State, es: seq<Event>) {
    es == [] ||
    (DisciplinedRun(m, s, Front(es)) && Disciplined(Run(m, s, Front(es)), Made(m, s, Front(es)), Last(es)))
  }

  /** A broker that has just been built over its own, link-free directory. */
  ghost predicate Fresh(s: State) {
    && ValidFs(s.fs) && ResolveDir(s.fs, s.runDir).Some? && NoLinksDirectlyIn(s.fs, RunRoot(s))
    && s.handles == map[] && s.nextHandle == 1 && s.reachable == map[] && s.calls == map[]
  }

  /** The three ways a call may leave a path outside the run's directory. */
  ghost predicate Untouched(fs: Fs, fs': Fs, p: Path) {
    (p in fs <==> p in fs') && (p in fs ==> fs'[p] == fs[p])
  }

  /** A file that was not there, directly in a folder this node was granted, outside every startup
      folder, under the filtered name, holding the bytes behind the handle. */
  ghost predicate CreatedBySave(m: Machine, s: State, e: Event, fs': Fs, p: Path) {
    && (e.Saving? || e.Moving?)
    && p != [] && p !in s.fs && p in fs'
    && e.handle.id in s.handles
    && (var bytes := ReadFile(s.fs, s.handles[e.handle.id].path);
        bytes.Some? && fs'[p] == File(bytes.value))
    && ResolveDir(s.fs, e.directory) == Some(Parent(p))
    && Within(WritableRoots(s, e.node), Parent(p))
    && !Within(ForbiddenTrees(s.fs, m.startupFolders), Parent(p))
    && Last(p) == Sanitise(m.unicode, e.filename)
  }

  /** The entry the moved handle's path ends in, out of a folder this node was granted, with its
      bytes already standing at another place that was free before. */
  ghost predicate RemovedByMove(s: State, e: Event, fs': Fs, p: Path) {
    && e.Moving?
    && p != [] && p in s.fs && p !in fs'
    && e.handle.id in s.handles && Leaf(s.fs, s.handles[e.handle.id].path) == Some(p)
    && Within(WritableRoots(s, e.node), Parent(p))
    && (var bytes := ReadFile(s.fs, s.handles[e.handle.id].path);
        && bytes.Some?
        && (s.fs[p].File? ==> s.fs[p].bytes == bytes.value)
        && exists q :: q != p && q != [] && q !in s.fs && q in fs' && fs'[q] == File(bytes.value)
                       && Within(WritableRoots(s, e.node), Parent(q)))
  }

  ghost predicate AccountedAt(m: Machine, s: State, e: Event, fs': Fs, p: Path) {
    Untouched(s.fs, fs', p) || CreatedBySave(m, s, e, fs', p) || RemovedByMove(s, e, fs', p)
  }

  ghost predicate Accounted(m: Machine, s: State, e: Event, fs': Fs) {
    forall p :: !(RunRoot(s) <= p) ==> AccountedAt(m, s, e, fs', p)
  }

  lemma ScratchWriteStaysInRunDir(s: State, made: map<nat, NodeId>, node: NodeId, handle: Handle, bytes: Bytes,
                                  fault: bool)
    requires Consistent(s, made) && handle.id in made
    ensures var s' := WriteOutput(s, node, handle, bytes, fault).0;
            && (forall p :: !(RunRoot(s) <= p) ==> Untouched(s.fs, s'.fs, p))
            && ValidFs(s'.fs) && OnlyFilesChanged(s.fs, s'.fs)
            && (s'.fs != s.fs ==>
                  s'.fs == s.fs[RunRoot(s) + [ScratchName(handle.id, s.handles[handle.id].displayName)] := File(bytes)])
  {
    var s' := WriteOutput(s, node, handle, bytes, fault).0;
    if s'.fs != s.fs {
      var name := ScratchName(handle.id, s.handles[handle.id].displayName);
      var left := WalkLastName(s.fs, [], s.runDir, name, MAX_LINKS);
      var target := RunRoot(s) + [name];
      assert s'.fs == s.fs[target := File(bytes)];
      WriteTouchesOneFile(s.fs, s.handles[handle.id].path, bytes);
      forall p | !(RunRoot(s) <= p) ensures Untouched(s.fs, s'.fs, p) {
        assert RunRoot(s) <= target;
      }
    }
  }

  lemma RunDirStays(s: State, fs': Fs)
    requires ValidFs(s.fs) && ResolveDir(s.fs, s.runDir).Some? && NoLinksDirectlyIn(s.fs, RunRoot(s))
    requires OnlyFilesChanged(s.fs, fs')
    ensures ResolveDir(fs', s.runDir) == ResolveDir(s.fs, s.runDir)
    ensures NoLinksDirectlyIn(fs', RunRoot(s))
  {
    FoldersStayPut(s.fs, fs', s.runDir);
    forall name: Name | RunRoot(s) + [name] in fs' ensures !fs'[RunRoot(s) + [name]].Link? {
    }
  }

  lemma FileChangesKeepConsistency(s: State, t: State, made: map<nat, NodeId>)
    requires Consistent(s, made) && SameTables(s, t)
    requires ValidFs(t.fs) && OnlyFilesChanged(s.fs, t.fs)
    ensures Consistent(t, made) && RunRoot(t) == RunRoot(s)
  {
    RunDirStays(s, t.fs);
  }

  lemma NewFileIsAccounted(m: Machine, s: State, e: Event, dir: Path, bytes: Bytes)
    requires e.Saving? || e.Moving?
    requires e.handle.id in s.handles && ReadFile(s.fs, s.handles[e.handle.id].path) == Some(bytes)
    requires ResolveDir(s.fs, e.directory) == Some(dir) && Within(WritableRoots(s, e.node), dir)
    requires !Within(ForbiddenTrees(s.fs, m.startupFolders), dir)
    requires dir + [Sanitise(m.unicode, e.filename)] !in s.fs
    ensures Accounted(m, s, e, s.fs[dir + [Sanitise(m.unicode, e.filename)] := File(bytes)])
  {
    var name := Sanitise(m.unicode, e.filename);
    var leaf := dir + [name];
    assert Parent(leaf) == dir && Last(leaf) == name;
    assert CreatedBySave(m, s, e, s.fs[leaf := File(bytes)], leaf);
  }

  lemma RemovalIsAMove(s: State, e: Event, fs': Fs, gone: Path, leaf: Path, bytes: Bytes)
    requires e.Moving?
    requires e.handle.id in s.handles && ReadFile(s.fs, s.handles[e.handle.id].path) == Some(bytes)
    requires Leaf(s.fs, s.handles[e.handle.id].path) == Some(gone) && gone != [] && gone in s.fs
    requires s.fs[gone].File? ==> s.fs[gone].bytes == bytes
    requires Within(WritableRoots(s, e.node), Parent(gone)) && gone !in fs'
    requires leaf != gone && leaf != [] && leaf !in s.fs && leaf in fs' && fs'[leaf] == File(bytes)
    requires Within(WritableRoots(s, e.node), Parent(leaf))
    ensures RemovedByMove(s, e, fs', gone)
  {
  }

  lemma OthersStayAccounted(m: Machine, s: State, e: Event, fs1: Fs, gone: Path, p: Path)
    requires e.Moving? && AccountedAt(m, s, e, fs1, p) && p != gone
    requires e.handle.id in s.handles && Leaf(s.fs, s.handles[e.handle.id].path) == Some(gone)
    ensures AccountedAt(m, s, e, fs1 - {gone}, p)
  {
  }

  lemma RemovalIsAccounted(m: Machine, s: State, e: Event, fs1: Fs, gone: Path, leaf: Path, bytes: Bytes)
    requires e.Moving? && Accounted(m, s, e, fs1)
    requires e.handle.id in s.handles && ReadFile(s.fs, s.handles[e.handle.id].path) == Some(bytes)
    requires Leaf(s.fs, s.handles[e.handle.id].path) == Some(gone) && gone != [] && gone in s.fs
    requires s.fs[gone].File? ==> s.fs[gone].bytes == bytes
    requires Within(WritableRoots(s, e.node), Parent(gone))
    requires leaf != gone && leaf != [] && leaf !in s.fs && leaf in fs1 && fs1[leaf] == File(bytes)
    requires Within(WritableRoots(s, e.node), Parent(leaf))
    ensures Accounted(m, s, e, fs1 - {gone})
  {
    var fs' := fs1 - {gone};
    RemovalIsAMove(s, e, fs', gone, leaf, bytes);
    forall p | !(RunRoot(s) <= p) && p != gone ensures AccountedAt(m, s, e, fs', p) {
      OthersStayAccounted(m, s, e, fs1, gone, p);
    }
  }

  lemma NothingChangedIsAccounted(m: Machine, s: State, e: Event)
    ensures Accounted(m, s, e, s.fs)
  {
    assert forall p :: Untouched(s.fs, s.fs, p);
  }

  lemma SavingIsAccounted(m: Machine, s: State, made: map<nat, NodeId>, e: Event)
    requires Consistent(s, made) && (e.Saving? || e.Moving?)
    ensures var s1 := SaveTo(m, s, e.node, e.handle, e.directory, e.filename, e.fault).0;
            Accounted(m, s, e, s1.fs) && Consistent(s1, made)
  {
    var (s1, o) := SaveTo(m, s, e.node, e.handle, e.directory, e.filename, e.fault);
    SaveKeepsTables(m, s, e.node, e.handle, e.directory, e.filename, e.fault);
    if o.Done? {
      var dir, bytes := SaveEffect(m, s, e.node, e.handle, e.directory, e.filename, e.fault);
      NewFileIsAccounted(m, s, e, dir, bytes);
      FileChangesKeepConsistency(s, s1, made);
    } else {
      NothingChangedIsAccounted(m, s, e);
    }
  }

  /** Everything a completed move did, in one place. */
  lemma WholeMove(m: Machine, s: State, node: NodeId, handle: Handle, directory: RawPath, filename: string,
                  fault: bool, removeFault: bool) returns (leaf: Path, gone: Path, bytes: Bytes)
    requires ValidFs(s.fs)
    requires MoveTo(m, s, node, handle, directory, filename, fault, removeFault).1.Done?
    ensures handle.id in s.handles && ReadFile(s.fs, s.handles[handle.id].path) == Some(bytes)
    ensures Leaf(s.fs, s.handles[handle.id].path) == Some(gone) && gone != [] && gone in s.fs
    ensures (s.fs[gone].File? ==> s.fs[gone].bytes == bytes) && Within(WritableRoots(s, node), Parent(gone))
    ensures leaf != gone && leaf != [] && leaf !in s.fs && Within(WritableRoots(s, node), Parent(leaf))
    ensures ResolveDir(s.fs, directory) == Some(Parent(leaf)) && Last(leaf) == Sanitise(m.unicode, filename)
    ensures !Within(ForbiddenTrees(s.fs, m.startupFolders), Parent(leaf))
    ensures var fs1 := SaveTo(m, s, node, handle, directory, filename, fault).0.fs;
            var fs' := MoveTo(m, s, node, handle, directory, filename, fault, removeFault).0.fs;
            && fs1 == s.fs[leaf := File(bytes)] && fs' == fs1 - {gone}
            && ValidFs(fs') && OnlyFilesChanged(fs1, fs')
  {
    var dir;
    dir, gone, bytes := MoveEffect(m, s, node, handle, directory, filename, fault, removeFault);
    leaf := dir + [Sanitise(m.unicode, filename)];
    assert Parent(leaf) == dir;
    var dir', bytes' := SaveEffect(m, s, node, handle, directory, filename, fault);
    assert dir' + [Sanitise(m.unicode, filename)] == leaf by {
      SameLeaf(s.fs, dir' + [Sanitise(m.unicode, filename)], leaf, File(bytes'), File(bytes));
    }
    assert dir' == Parent(leaf);
  }

  /** Adding a file at one free place is not adding it at another. */
  lemma SameLeaf<V>(fs: map<Path, V>, a: Path, b: Path, x: V, y: V)
    requires a !in fs && fs[a := x] == fs[b := y]
    ensures a == b
  {
    assert a in fs[a := x];
  }

  lemma MovingIsAccounted(m: Machine, s: State, made: map<nat, NodeId>, e: Event)
    requires Consistent(s, made) && e.Moving?
    ensures var s' := MoveTo(m, s, e.node, e.handle, e.directory, e.filename, e.fault, e.removeFault).0;
            Accounted(m, s, e, s'.fs) && Consistent(s', made)
  {
    var s1 := SaveTo(m, s, e.node, e.handle, e.directory, e.filename, e.fault).0;
    var (s', o) := MoveTo(m, s, e.node, e.handle, e.directory, e.filename, e.fault, e.removeFault);
    SavingIsAccounted(m, s, made, e);
    SaveKeepsTables(m, s, e.node, e.handle, e.directory, e.filename, e.fault);
    MoveKeepsTables(m, s, e.node, e.handle, e.directory, e.filename, e.fault, e.removeFault);
    if o.Done? {
      var leaf, gone, bytes := WholeMove(m, s, e.node, e.handle, e.directory, e.filename, e.fault, e.removeFault);
      RemovalIsAccounted(m, s, e, s1.fs, gone, leaf, bytes);
      FileChangesKeepConsistency(s1, s', made);
    } else {
      NothingChangedIsAccounted(m, s, e);
    }
  }

  /** Calls that touch no file keep the invariant because handle numbers only go up. */
  lemma TableChangesKeepConsistency(s: State, t: State, made: map<nat, NodeId>)
    requires Consistent(s, made) && t.fs == s.fs && t.runDir == s.runDir && s.nextHandle <= t.nextHandle
    requires forall id :: id in t.handles ==> id in s.handles || id < t.nextHandle
    requires forall id :: id in made ==>
               id in t.handles && t.handles[id].path == s.handles[id].path
               && t.handles[id].displayName == s.handles[id].displayName
    ensures Consistent(t, made) && RunRoot(t) == RunRoot(s)
  {
  }

  /** Where the run's directory is there, creating adds one entry to the table and touches no file. */
  lemma CreatingEffect(m: Machine, s: State, node: NodeId, kind: HandleKind, suggested: string, fault: bool)
    requires ResolveDir(s.fs, s.runDir).Some?
    ensures var (t, o) := CreateOutput(m, s, node, kind, suggested, fault);
            var safe := Sanitise(m.unicode, suggested);
            if fault then t == s && !o.Done?
            else && o == Done(Handle(s.nextHandle, kind)) && t.fs == s.fs && t.runDir == s.runDir
                 && t.nextHandle == s.nextHandle + 1
                 && t.handles == s.handles[s.nextHandle :=
                                             HandleEntry(kind, ScratchPath(s.runDir, s.nextHandle, safe), safe)]
  {
  }

  lemma NewScratchIsConsistent(s: State, t: State, made: map<nat, NodeId>, node: NodeId, kind: HandleKind, safe: Name)
    requires Consistent(s, made) && t.fs == s.fs && t.runDir == s.runDir && t.nextHandle == s.nextHandle + 1
    requires t.handles == s.handles[s.nextHandle :=
                                      HandleEntry(kind, ScratchPath(s.runDir, s.nextHandle, safe), safe)]
    ensures Consistent(t, made[s.nextHandle := node])
  {
  }

  lemma CreatingIsSafe(m: Machine, s: State, made: map<nat, NodeId>, node: NodeId, kind: HandleKind,
                       suggested: string, fault: bool)
    requires Consistent(s, made)
    ensures var (t, o) := CreateOutput(m, s, node, kind, suggested, fault);
            && Consistent(t, if o.Done? then made[s.nextHandle := node] else made)
            && t.fs == s.fs && (o.Done? ==> o.value.id == s.nextHandle)
  {
    CreatingEffect(m, s, node, kind, suggested, fault);
    if !fault {
      var t := CreateOutput(m, s, node, kind, suggested, fault).0;
      NewScratchIsConsistent(s, t, made, node, kind, Sanitise(m.unicode, suggested));
    }
  }

  lemma UntouchedIsAccounted(m: Machine, s: State, e: Event, fs': Fs)
    requires forall p :: !(RunRoot(s) <= p) ==> Untouched(s.fs, fs', p)
    ensures Accounted(m, s, e, fs')
  {
  }

  lemma WritingKeepsTables(s: State, node: NodeId, handle: Handle, bytes: Bytes, fault: bool)
    ensures SameTables(s, WriteOutput(s, node, handle, bytes, fault).0)
  {
  }

  lemma WritingIsSafe(m: Machine, s: State, made: map<nat, NodeId>, e: Event, node: NodeId, handle: Handle,
                      bytes: Bytes, fault: bool)
    requires Consistent(s, made) && handle.id in made
    ensures var t := WriteOutput(s, node, handle, bytes, fault).0;
            Consistent(t, made) && Accounted(m, s, e, t.fs)
  {
    var t := WriteOutput(s, node, handle, bytes, fault).0;
    WritingKeepsTables(s, node, handle, bytes, fault);
    ScratchWriteStaysInRunDir(s, made, node, handle, bytes, fault);
    UntouchedIsAccounted(m, s, e, t.fs);
    FileChangesKeepConsistency(s, t, made);
  }

  lemma ImportingIsSafe(s: State, made: map<nat, NodeId>, path: RawPath, kind: HandleKind)
    requires Consistent(s, made)
    ensures var t := ImportFile(s, path, kind).0;
            Consistent(t, made) && t.fs == s.fs
  {
    TableChangesKeepConsistency(s, ImportFile(s, path, kind).0, made);
  }

  lemma JournalKeepsConsistency(s: State, t: State, made: map<nat, NodeId>)
    requires Consistent(s, made) && SameTables(s, t) && t.fs == s.fs
    ensures Consistent(t, made)
  {
    TableChangesKeepConsistency(s, t, made);
  }

  lemma ListingKeepsTables(s: State, node: NodeId, directory: RawPath, limit: nat, read: Option<seq<DirItem>>)
    ensures var t := ListDir(s, node, directory, limit, read).0;
            SameTables(s, t) && t.fs == s.fs
  {
  }

  lemma OpeningKeepsTables(s: State, node: NodeId, handle: Handle)
    ensures var t := OpenInput(s, node, handle).0;
            SameTables(s, t) && t.fs == s.fs
  {
  }

  lemma AskingKeepsTables(s: State, node: NodeId, text: string)
    ensures SameTables(s, CheckHttp(s, node, text).0) && CheckHttp(s, node, text).0.fs == s.fs
    ensures SameTables(s, UseClipboard(s, node, text).0) && UseClipboard(s, node, text).0.fs == s.fs
    ensures SameTables(s, Notify(s, node, text).0) && Notify(s, node, text).0.fs == s.fs
  {
  }

  /** The calls that leave nothing but a line in the journal. */
  predicate OnlyJournals(e: Event) {
    e.OpeningInput? || e.Listing? || e.CheckingHttp? || e.UsingClipboard? || e.Notifying?
  }

  lemma JournalStep(m: Machine, s: State, e: Event)
    requires OnlyJournals(e)
    ensures SameTables(s, Next(m, s, e)) && Next(m, s, e).fs == s.fs
  {
    match e {
      case OpeningInput(node, handle) => OpeningKeepsTables(s, node, handle);
      case Listing(node, directory, limit, read) => ListingKeepsTables(s, node, directory, limit, read);
      case CheckingHttp(node, host) => AskingKeepsTables(s, node, host);
      case UsingClipboard(node, detail) => AskingKeepsTables(s, node, detail);
      case Notifying(node, title) => AskingKeepsTables(s, node, title);
    }
  }

  lemma WiringIsSafe(s: State, made: map<nat, NodeId>, node: NodeId, id: nat)
    requires Consistent(s, made)
    ensures var t := MakeReachable(s, node, id); Consistent(t, made) && t.fs == s.fs
  {
    TableChangesKeepConsistency(s, MakeReachable(s, node, id), made);
  }

  lemma RelabellingIsSafe(s: State, made: map<nat, NodeId>, handle: Handle, kind: HandleKind)
    requires Consistent(s, made)
    ensures var t := Reclassify(s, handle, kind).0; Consistent(t, made) && t.fs == s.fs
  {
    TableChangesKeepConsistency(s, Reclassify(s, handle, kind).0, made);
  }

  lemma TakingIsSafe(s: State, made: map<nat, NodeId>, node: NodeId)
    requires Consistent(s, made)
    ensures var t := TakeCalls(s, node).0; Consistent(t, made) && t.fs == s.fs
  {
    TableChangesKeepConsistency(s, TakeCalls(s, node).0, made);
  }

  predicate IsHostStep(e: Event) {
    e.HostImporting? || e.HostWiring? || e.HostReclassifying? || e.HostTakingCalls?
  }

  lemma HostStepIsSafe(m: Machine, s: State, made: map<nat, NodeId>, e: Event)
    requires Consistent(s, made) && IsHostStep(e)
    ensures Consistent(Next(m, s, e), made) && Next(m, s, e).fs == s.fs
  {
    match e {
      case HostImporting(path, kind) => ImportingIsSafe(s, made, path, kind);
      case HostWiring(node, handle) => WiringIsSafe(s, made, node, handle.id);
      case HostReclassifying(handle, kind) => RelabellingIsSafe(s, made, handle, kind);
      case HostTakingCalls(node) => TakingIsSafe(s, made, node);
    }
  }

  lemma ImportingFoundIsSafe(s: State, made: map<nat, NodeId>, node: NodeId, path: RawPath, kind: HandleKind)
    requires Consistent(s, made)
    ensures var t := ImportGuarded(s, node, path, kind).0; Consistent(t, made) && t.fs == s.fs
  {
    var (t, o) := ImportGuarded(s, node, path, kind);
    if o.Done? {
      var resolved := Canonicalize(s.fs, path).value;
      var s1 := ImportFile(s, RawOf(resolved), kind).0;
      ImportingIsSafe(s, made, RawOf(resolved), kind);
      JournalKeepsConsistency(s1, t, made);
    } else {
      JournalKeepsConsistency(s, t, made);
    }
  }

  /** Every step but a save, a move and a write leaves all files as they are. */
  lemma OtherStepIsSafe(m: Machine, s: State, made: map<nat, NodeId>, e: Event)
    requires Consistent(s, made) && !e.Saving? && !e.Moving? && !e.WritingOutput? && !e.ElsewhereChanging?
    ensures Consistent(Next(m, s, e), Making(m, s, made, e)) && Next(m, s, e).fs == s.fs
  {
    if OnlyJournals(e) {
      JournalStep(m, s, e);
      JournalKeepsConsistency(s, Next(m, s, e), made);
    } else if IsHostStep(e) {
      HostStepIsSafe(m, s, made, e);
    } else if e.ImportingFound? {
      ImportingFoundIsSafe(s, made, e.node, e.path, e.kind);
    } else {
      CreatingIsSafe(m, s, made, e.node, e.kind, e.suggested, e.fault);
    }
  }

  lemma StepIsSafe(m: Machine, s: State, made: map<nat, NodeId>, e: Event)
    requires Consistent(s, made) && Disciplined(s, made, e)
    ensures Consistent(Next(m, s, e), Making(m, s, made, e))
    ensures !e.ElsewhereChanging? ==> Accounted(m, s, e, Next(m, s, e).fs)
  {
    if e.Saving? {
      SavingIsAccounted(m, s, made, e);
    } else if e.Moving? {
      MovingIsAccounted(m, s, made, e);
    } else if e.WritingOutput? {
      WritingIsSafe(m, s, made, e, e.node, e.handle, e.bytes, e.fault);
    } else if !e.ElsewhereChanging? {
      NothingChangedIsAccounted(m, s, e);
      OtherStepIsSafe(m, s, made, e);
    }
  }

  lemma {:induction false} RunStaysConsistent(m: Machine, s: State, es: seq<Event>)
    requires Fresh(s) && DisciplinedRun(m, s, es)
    ensures Consistent(Run(m, s, es), Made(m, s, es))
  {
    if es != [] {
      RunStaysConsistent(m, s, Front(es));
      StepIsSafe(m, Run(m, s, Front(es)), Made(m, s, Front(es)), Last(es));
    }
  }

  lemma {:induction false} DisciplinedPrefix(m: Machine, s: State, es: seq<Event>, i: nat)
    requires DisciplinedRun(m, s, es) && i <= |es|
    ensures DisciplinedRun(m, s, es[..i])
    ensures i < |es| ==> Disciplined(Run(m, s, es[..i]), Made(m, s, es[..i]), es[i])
    decreases |es|
  {
    if i == |es| {
      assert es[..i] == es;
    } else {
      assert Front(es)[..i] == es[..i];
      if i < |es| - 1 {
        assert Front(es)[i] == es[i];
      }
      DisciplinedPrefix(m, s, Front(es), i);
    }
  }

  /** The main theorem: over every disciplined run, every change a call makes outside the run's
      directory is the creation of an absent file in a granted folder or a move whose bytes
      already stand elsewhere. Nothing present is ever overwritten. */
  lemma EveryChangeIsAccountedFor(m: Machine, s: State, es: seq<Event>, i: nat)
    requires Fresh(s) && DisciplinedRun(m, s, es) && i < |es| && !es[i].ElsewhereChanging?
    ensures Accounted(m, Run(m, s, es[..i]), es[i], Run(m, s, es[..i + 1]).fs)
  {
    DisciplinedPrefix(m, s, es, i);
    RunStaysConsistent(m, s, es[..i]);
    StepIsSafe(m, Run(m, s, es[..i]), Made(m, s, es[..i]), es[i]);
    assert Front(es[..i + 1]) == es[..i];
  }

  /** What one step leaves standing, whoever created what. */
  ghost predicate Preserved(s: State, t: State) {
    forall made :: Consistent(s, made) ==> Consistent(t, made)
  }

  lemma StepPreserves(m: Machine, s: State, e: Event)
    requires !e.CreatingOutput? && !e.WritingOutput? && !e.ElsewhereChanging?
    ensures Preserved(s, Next(m, s, e))
  {
    forall made | Consistent(s, made) ensures Consistent(Next(m, s, e), made) {
      StepIsSafe(m, s, made, e);
    }
  }

  /** Only the tables changed, and every handle there was still stands for its path under its name. */
  ghost predicate TablesGrow(s: State, t: State) {
    && t.fs == s.fs && t.runDir == s.runDir && s.nextHandle <= t.nextHandle
    && (forall id :: id in t.handles ==> id in s.handles || id < t.nextHandle)
    && (forall id :: id in s.handles && id < s.nextHandle ==>
          && id in t.handles && t.handles[id].path == s.handles[id].path
          && t.handles[id].displayName == s.handles[id].displayName)
  }

  lemma GrowingPreserves(s: State, t: State)
    requires TablesGrow(s, t)
    ensures Preserved(s, t)
  {
    forall made | Consistent(s, made) ensures Consistent(t, made) {
      TableChangesKeepConsistency(s, t, made);
    }
  }

  lemma AllGrowingPreserves(s: State)
    ensures forall t :: TablesGrow(s, t) ==> Preserved(s, t)
  {
    forall t | TablesGrow(s, t) ensures Preserved(s, t) {
      GrowingPreserves(s, t);
    }
  }

  lemma ImportPreserves(s: State, path: RawPath, kind: HandleKind)
    ensures Preserved(s, ImportFile(s, path, kind).0)
  {
    GrowingPreserves(s, ImportFile(s, path, kind).0);
  }

  lemma ImportFoundPreserves(s: State, node: NodeId, path: RawPath, kind: HandleKind)
    ensures Preserved(s, ImportGuarded(s, node, path, kind).0)
  {
    forall made | Consistent(s, made) ensures Consistent(ImportGuarded(s, node, path, kind).0, made) {
      ImportingFoundIsSafe(s, made, node, path, kind);
    }
  }

  lemma ListPreserves(s: State, node: NodeId, directory: RawPath, limit: nat, read: Option<seq<DirItem>>)
    ensures Preserved(s, ListDir(s, node, directory, limit, read).0)
  {
    ListingKeepsTables(s, node, directory, limit, read);
    GrowingPreserves(s, ListDir(s, node, directory, limit, read).0);
  }

  lemma SavePreserves(m: Machine, s: State, node: NodeId, handle: Handle, directory: RawPath, filename: string,
                      fault: bool)
    ensures Preserved(s, SaveTo(m, s, node, handle, directory, filename, fault).0)
  {
    StepPreserves(m, s, Saving(node, handle, directory, filename, fault));
  }

  lemma MovePreserves(m: Machine, s: State, node: NodeId, handle: Handle, directory: RawPath, filename: string,
                      fault: bool, removeFault: bool)
    ensures Preserved(s, MoveTo(m, s, node, handle, directory, filename, fault, removeFault).0)
  {
    StepPreserves(m, s, Moving(node, handle, directory, filename, fault, removeFault));
  }

  /** Creating adds its own handle to the node's; writing is safe for a node that created what it writes. */
  lemma CreatePreserves(m: Machine, s: State, node: NodeId, kind: HandleKind, suggested: string, fault: bool)
    ensures var (t, o) := CreateOutput(m, s, node, kind, suggested, fault);
            forall made :: Consistent(s, made) ==> Consistent(t, if o.Done? then made[o.value.id := node] else made)
  {
    var (t, o) := CreateOutput(m, s, node, kind, suggested, fault);
    forall made | Consistent(s, made) ensures Consistent(t, if o.Done? then made[o.value.id := node] else made) {
      CreatingIsSafe(m, s, made, node, kind, suggested, fault);
    }
  }

  lemma WritePreserves(m: Machine, s: State, node: NodeId, handle: Handle, bytes: Bytes, fault: bool)
    ensures forall made :: Consistent(s, made) && handle.id in made && made[handle.id] == node
              ==> Consistent(WriteOutput(s, node, handle, bytes, fault).0, made)
  {
    forall made | Consistent(s, made) && handle.id in made && made[handle.id] == node
      ensures Consistent(WriteOutput(s, node, handle, bytes, fault).0, made)
    {
      WritingIsSafe(m, s, made, WritingOutput(node, handle, bytes, fault), node, handle, bytes, fault);
    }
  }

  // -- folders stay where they are ------------------------------------------------------------

  ghost predicate SameFolders(fs: Fs, fs': Fs) {
    forall raw :: ResolveDir(fs', raw) == ResolveDir(fs, raw)
  }

  lemma FileChangesKeepFolders(fs: Fs, fs': Fs)
    requires [] !in fs && OnlyFilesChanged(fs, fs')
    ensures SameFolders(fs, fs')
  {
    forall raw ensures ResolveDir(fs', raw) == ResolveDir(fs, raw) {
      FoldersStayPut(fs, fs', raw);
    }
  }

  lemma SavingKeepsFolders(m: Machine, s: State, e: Event)
    requires ValidFs(s.fs) && (e.Saving? || e.Moving?)
    ensures SameFolders(s.fs, SaveTo(m, s, e.node, e.handle, e.directory, e.filename, e.fault).0.fs)
  {
    SaveKeepsTables(m, s, e.node, e.handle, e.directory, e.filename, e.fault);
    if SaveTo(m, s, e.node, e.handle, e.directory, e.filename, e.fault).1.Done? {
      var _, _ := SaveEffect(m, s, e.node, e.handle, e.directory, e.filename, e.fault);
      FileChangesKeepFolders(s.fs, SaveTo(m, s, e.node, e.handle, e.directory, e.filename, e.fault).0.fs);
    }
  }

  lemma MovingKeepsFolders(m: Machine, s: State, e: Event)
    requires ValidFs(s.fs) && e.Moving?
    ensures SameFolders(s.fs, MoveTo(m, s, e.node, e.handle, e.directory, e.filename, e.fault, e.removeFault).0.fs)
  {
    SavingKeepsFolders(m, s, e);
    MoveKeepsTables(m, s, e.node, e.handle, e.directory, e.filename, e.fault, e.removeFault);
    if MoveTo(m, s, e.node, e.handle, e.directory, e.filename, e.fault, e.removeFault).1.Done? {
      var s1 := SaveTo(m, s, e.node, e.handle, e.directory, e.filename, e.fault).0;
      var _, _ := SaveEffect(m, s, e.node, e.handle, e.directory, e.filename, e.fault);
      var _, _, _ := MoveEffect(m, s, e.node, e.handle, e.directory, e.filename, e.fault, e.removeFault);
      FileChangesKeepFolders(s1.fs, MoveTo(m, s, e.node, e.handle, e.directory, e.filename, e.fault,
                                           e.removeFault).0.fs);
    }
  }

  lemma StepKeepsFolders(m: Machine, s: State, made: map<nat, NodeId>, e: Event)
    requires Consistent(s, made) && Disciplined(s, made, e) && !e.ElsewhereChanging?
    ensures SameFolders(s.fs, Next(m, s, e).fs)
  {
    match e {
      case Saving(_, _, _, _, _) => SavingKeepsFolders(m, s, e);
      case Moving(_, _, _, _, _, _) => MovingKeepsFolders(m, s, e);
      case WritingOutput(node, handle, bytes, fault) =>
        ScratchWriteStaysInRunDir(s, made, node, handle, bytes, fault);
        FileChangesKeepFolders(s.fs, WriteOutput(s, node, handle, bytes, fault).0.fs);
      case _ => OtherStepIsSafe(m, s, made, e);
    }
  }

  lemma GrantedFoldersFollow(fs: Fs, fs': Fs, grants: seq<Grant>)
    requires SameFolders(fs, fs')
    ensures GrantedFolders(fs', grants) == GrantedFolders(fs, grants)
  {
  }

  ghost predicate Calm(es: seq<Event>) {
    forall e :: e in es ==> !e.ElsewhereChanging?
  }

  /** Over a calm run grants, run directory and every folder stay as they were. */
  lemma {:induction false} FoldersStay(m: Machine, s: State, es: seq<Event>)
    requires Fresh(s) && DisciplinedRun(m, s, es) && Calm(es)
    ensures var t := Run(m, s, es);
            t.grants == s.grants && t.runDir == s.runDir && SameFolders(s.fs, t.fs) && RunRoot(t) == RunRoot(s)
  {
    if es != [] {
      var before := Run(m, s, Front(es));
      FoldersStay(m, s, Front(es));
      RunStaysConsistent(m, s, Front(es));
      StepKeepsFolders(m, before, Made(m, s, Front(es)), Last(es));
      StepKeepsGrants(m, before, Last(es));
    }
  }

  lemma RootsFollow(s: State, t: State, node: NodeId)
    requires t.grants == s.grants && SameFolders(s.fs, t.fs)
    ensures WritableRoots(t, node) == WritableRoots(s, node)
  {
    GrantedFoldersFollow(s.fs, t.fs, GrantsFor(s.grants, node, FsWrite));
  }

  lemma StepKeepsGrants(m: Machine, s: State, e: Event)
    ensures Next(m, s, e).grants == s.grants && Next(m, s, e).runDir == s.runDir
  {
    if OnlyJournals(e) {
      JournalStep(m, s, e);
    } else if e.Saving? {
      SaveKeepsTables(m, s, e.node, e.handle, e.directory, e.filename, e.fault);
    } else if e.Moving? {
      MoveKeepsTables(m, s, e.node, e.handle, e.directory, e.filename, e.fault, e.removeFault);
    } else {
      match e {
        case ImportingFound(node, path, kind) => ImportingKeepsGrants(s, node, path, kind);
        case CreatingOutput(node, kind, suggested, fault) => CreatingKeepsGrants(m, s, node, kind, suggested, fault);
        case WritingOutput(node, handle, bytes, fault) => WritingKeepsGrants(s, node, handle, bytes, fault);
        case _ =>
      }
    }
  }

  lemma CreatingKeepsGrants(m: Machine, s: State, node: NodeId, kind: HandleKind, suggested: string, fault: bool)
    ensures var t := CreateOutput(m, s, node, kind, suggested, fault).0;
            t.grants == s.grants && t.runDir == s.runDir
  {
  }

  lemma WritingKeepsGrants(s: State, node: NodeId, handle: Handle, bytes: Bytes, fault: bool)
    ensures var t := WriteOutput(s, node, handle, bytes, fault).0;
            t.grants == s.grants && t.runDir == s.runDir
  {
  }

  lemma ImportingKeepsGrants(s: State, node: NodeId, path: RawPath, kind: HandleKind)
    ensures var t := ImportGuarded(s, node, path, kind).0;
            t.grants == s.grants && t.runDir == s.runDir
  {
    if ImportGuarded(s, node, path, kind).1.Done? {
      var s1 := ImportFile(s, RawOf(Canonicalize(s.fs, path).value), kind).0;
      assert s1.grants == s.grants && s1.runDir == s.runDir;
    }
  }

  // -- writing to a handle one did not create ----------------------------------------------------

  /** Where bytes written to a handle would land. */
  function WriteTarget(s: State, handle: Handle): Option<Path> {
    if handle.id !in s.handles then None
    else match Resolve(s.fs, s.handles[handle.id].path)
      case At(p) => if IsFile(s.fs, p) then Some(p) else None
      case Absent(p) => Some(p)
      case Nowhere => None
  }

  /** `write_output` asks whether the node can reach the handle, not whether it created it. So it
      stays inside the run's directory for all bytes exactly when the handle is out of the node's
      reach or leads inside. */
  lemma WriteIsContainedExactly(s: State, node: NodeId, handle: Handle)
    ensures (forall bytes :: forall p :: !(RunRoot(s) <= p) ==>
               Untouched(s.fs, WriteOutput(s, node, handle, bytes, false).0.fs, p))
            <==>
            (!CanReach(s, node, handle.id) || WriteTarget(s, handle).None?
             || RunRoot(s) <= WriteTarget(s, handle).value)
  {
    if CanReach(s, node, handle.id) && WriteTarget(s, handle).Some? && !(RunRoot(s) <= WriteTarget(s, handle).value) {
      var p := WriteTarget(s, handle).value;
      var bytes: Bytes := if p in s.fs && s.fs[p] == File([0]) then [1] else [0];
      assert !Untouched(s.fs, WriteOutput(s, node, handle, bytes, false).0.fs, p);
    }
  }

  /** A disk with a run directory `/run` and one file of the user's, `/home/file`. */
  function SmallDisk(run: Name, home: Name, file: Name, content: Bytes): Fs {
    map[[run] := Dir, [home] := Dir, [home, file] := File(content)]
  }

  lemma SmallDiskIsValid(run: Name, home: Name, file: Name, content: Bytes)
    requires run != home
    ensures ValidFs(SmallDisk(run, home, file, content))
  {
    assert Parent([home, file]) == [home];
  }

  lemma CanonicalFileReads(fs: Fs, p: Path)
    requires ValidFs(fs) && Settled(fs, p)
    ensures Resolve(fs, RawOf(p)) == At(p)
    ensures |p| == 1 ==> RawOf(p) == [Down(p[0])]
    ensures |p| == 2 ==> RawOf(p) == [Down(p[0]), Down(p[1])]
  {
    CanonicalResolvesToItself(fs, p);
  }

  /** A broker with no grants at all over such a disk. */
  function GrantlessBroker(run: Name, fs: Fs): State {
    State(map[], map[], 1, [Down(run)], map[], map[], fs)
  }

  lemma WiringMakesWritable(s: State, node: NodeId, path: RawPath, p: Path, bytes: Bytes)
    requires Resolve(s.fs, path) == At(p) && IsFile(s.fs, p)
    ensures var (s1, handle) := ImportFile(s, path, OfFile);
            WriteOutput(MakeReachable(s1, node, handle.id), node, handle, bytes, false).0.fs == s.fs[p := File(bytes)]
  {
  }

  /** A file of the user's that the graph wired to a node can be overwritten by that node, which
      holds no grant at all: import it, wire it, write to it. */
  lemma WiredFileCanBeOverwritten(m: Machine, run: Name, home: Name, file: Name, node: NodeId, old': Bytes, new': Bytes)
    requires run != home
    ensures var s, p := GrantlessBroker(run, SmallDisk(run, home, file, old')), [home, file];
            var es := [HostImporting([Down(home), Down(file)], OfFile), HostWiring(node, Handle(1, OfFile)),
                       WritingOutput(node, Handle(1, OfFile), new', false)];
            && Fresh(s) && IsFile(s.fs, p) && !(RunRoot(s) <= p)
            && Run(m, s, es).fs == s.fs[p := File(new')]
  {
    var fs := SmallDisk(run, home, file, old');
    var s := GrantlessBroker(run, fs);
    SmallDiskIsValid(run, home, file, old');
    GrantlessIsFresh(run, home, file, old');
    CanonicalFileReads(fs, [home, file]);
    var path := [Down(home), Down(file)];
    WiringMakesWritable(s, node, path, [home, file], new');
    ImportWireWrite(m, s, node, path, new');
  }

  lemma GrantlessIsFresh(run: Name, home: Name, file: Name, bytes: Bytes)
    requires run != home
    ensures var s := GrantlessBroker(run, SmallDisk(run, home, file, bytes)); Fresh(s) && RunRoot(s) == [run]
  {
    var fs := SmallDisk(run, home, file, bytes);
    SmallDiskIsValid(run, home, file, bytes);
    CanonicalFileReads(fs, [run]);
  }

  lemma ImportWireWrite(m: Machine, s: State, node: NodeId, path: RawPath, bytes: Bytes)
    requires s.nextHandle == 1
    ensures var handle := Handle(1, OfFile);
            Run(m, s, [HostImporting(path, OfFile), HostWiring(node, handle),
                       WritingOutput(node, handle, bytes, false)])
            == WriteOutput(MakeReachable(ImportFile(s, path, OfFile).0, node, 1), node, handle, bytes, false).0
  {
    var handle := Handle(1, OfFile);
    RunOfThree(m, s, HostImporting(path, OfFile), HostWiring(node, handle), WritingOutput(node, handle, bytes, false));
  }

  lemma RunOfThree(m: Machine, s: State, e1: Event, e2: Event, e3: Event)
    ensures Run(m, s, [e1, e2, e3]) == Next(m, Next(m, Next(m, s, e1), e2), e3)
  {
    assert Front([e1]) == [] && Front([e1, e2]) == [e1] && Front([e1, e2, e3]) == [e1, e2];
    assert Run(m, s, [e1]) == Next(m, s, e1);
    assert Run(m, s, [e1, e2]) == Next(m, Next(m, s, e1), e2);
  }
}
