/** When a run can lose a user's bytes. Nothing is ever overwritten but a node's own scratch, and scratch lies
    directly in the run's directory; so bytes are lost exactly by first being moved there. */
module BrokerLoss {
  import opened Common
  import opened FileSystem
  import opened Filenames
  import opened BrokerState
  import opened BrokerSafety
  import opened BrokerHandles
  import opened BrokerAnswers

  // -- where bytes can go ---------------------------------------------------------------------------------

  ghost predicate Holds(fs: Fs, q: Path, bytes: Bytes) {
    IsFile(fs, q) && fs[q].bytes == bytes
  }

  /** Some node may move a file from the one folder into the other. */
  ghost predicate Hop(m: Machine, s: State, from: Path, to: Path) {
    && IsDir(s.fs, from) && IsDir(s.fs, to)
    && !Within(ForbiddenTrees(s.fs, m.startupFolders), to)
    && exists node :: Within(WritableRoots(s, node), from) && Within(WritableRoots(s, node), to)
  }

  /** What became of the bytes in `q` when they are in `q'` now: nothing, or one hop. */
  ghost predicate Went(m: Machine, s: State, e: Event, q: Path, q': Path) {
    q' == q || (e.Moving? && ResolveDir(s.fs, e.directory) == Some(Parent(q')) && Hop(m, s, Parent(q), Parent(q')))
  }

  lemma HopOf(m: Machine, s: State, node: NodeId, from: Path, to: Path)
    requires IsDir(s.fs, from) && IsDir(s.fs, to) && !Within(ForbiddenTrees(s.fs, m.startupFolders), to)
    requires Within(WritableRoots(s, node), from) && Within(WritableRoots(s, node), to)
    ensures Hop(m, s, from, to)
  {
  }

  /** What a move makes of the disk, as far as any one file is concerned. */
  lemma MovedMap(fs: Fs, leaf: Path, gone: Path, bytes: Bytes, q: Path)
    requires IsFile(fs, q) && leaf !in fs && leaf != gone && (q == gone ==> fs[q].bytes == bytes)
    ensures Holds(fs[leaf := File(bytes)] - {gone}, if q == gone then leaf else q, fs[q].bytes)
  {
  }

  lemma MovedHop(m: Machine, s: State, node: NodeId, directory: RawPath, gone: Path, leaf: Path)
    requires ValidFs(s.fs) && gone in s.fs && ResolveDir(s.fs, directory) == Some(Parent(leaf))
    requires Within(WritableRoots(s, node), Parent(gone)) && Within(WritableRoots(s, node), Parent(leaf))
    requires !Within(ForbiddenTrees(s.fs, m.startupFolders), Parent(leaf))
    ensures Hop(m, s, Parent(gone), Parent(leaf))
  {
    HopOf(m, s, node, Parent(gone), Parent(leaf));
  }

  lemma MovedBytes(m: Machine, s: State, e: Event, q: Path) returns (q': Path)
    requires ValidFs(s.fs) && e.Moving? && IsFile(s.fs, q)
    requires MoveTo(m, s, e.node, e.handle, e.directory, e.filename, e.fault, e.removeFault).1.Done?
    ensures var fs' := MoveTo(m, s, e.node, e.handle, e.directory, e.filename, e.fault, e.removeFault).0.fs;
            Holds(fs', q', s.fs[q].bytes)
    ensures Went(m, s, e, q, q')
  {
    var leaf, gone, bytes := WholeMove(m, s, e.node, e.handle, e.directory, e.filename, e.fault, e.removeFault);
    MovedMap(s.fs, leaf, gone, bytes, q);
    MovedHop(m, s, e.node, e.directory, gone, leaf);
    q' := if q == gone then leaf else q;
  }

  lemma SavedMap(fs: Fs, leaf: Path, bytes: Bytes, q: Path)
    requires IsFile(fs, q) && leaf !in fs
    ensures Holds(fs[leaf := File(bytes)], q, fs[q].bytes)
  {
  }

  lemma SavedBytes(m: Machine, s: State, node: NodeId, handle: Handle, directory: RawPath, filename: string,
                   fault: bool, q: Path)
    requires ValidFs(s.fs) && IsFile(s.fs, q)
    ensures Holds(SaveTo(m, s, node, handle, directory, filename, fault).0.fs, q, s.fs[q].bytes)
  {
    if SaveTo(m, s, node, handle, directory, filename, fault).1.Done? {
      var dir, bytes := SaveEffect(m, s, node, handle, directory, filename, fault);
      SavedMap(s.fs, dir + [Sanitise(m.unicode, filename)], bytes, q);
    } else {
      SaveKeepsTables(m, s, node, handle, directory, filename, fault);
    }
  }

  lemma OtherPlace(fs: Fs, dir: Path, name: Name, bytes: Bytes, q: Path)
    requires IsFile(fs, q) && Parent(q) != dir
    ensures Holds(fs[dir + [name] := File(bytes)], q, fs[q].bytes)
  {
    assert Parent(dir + [name]) == dir;
  }

  lemma WrittenBytes(s: State, made: map<nat, NodeId>, node: NodeId, handle: Handle, bytes: Bytes, fault: bool, q: Path)
    requires Consistent(s, made) && handle.id in made && IsFile(s.fs, q) && Parent(q) != RunRoot(s)
    ensures Holds(WriteOutput(s, node, handle, bytes, fault).0.fs, q, s.fs[q].bytes)
  {
    ScratchWriteStaysInRunDir(s, made, node, handle, bytes, fault);
    OtherPlace(s.fs, RunRoot(s), ScratchName(handle.id, s.handles[handle.id].displayName), bytes, q);
  }

  /** One step of a calm run: the bytes of a file that does not lie directly in the run's directory stay where
      they are or take one hop. */
  lemma WhereBytesGo(m: Machine, s: State, made: map<nat, NodeId>, e: Event, q: Path) returns (q': Path)
    requires Consistent(s, made) && Disciplined(s, made, e) && !e.ElsewhereChanging?
    requires IsFile(s.fs, q) && Parent(q) != RunRoot(s)
    ensures Holds(Next(m, s, e).fs, q', s.fs[q].bytes) && Went(m, s, e, q, q')
  {
    q' := q;
    match e {
      case Saving(node, handle, directory, filename, fault) =>
        SavedBytes(m, s, node, handle, directory, filename, fault, q);
      case WritingOutput(node, handle, bytes, fault) => WrittenBytes(s, made, node, handle, bytes, fault, q);
      case Moving(node, handle, directory, filename, fault, removeFault) =>
        SavedBytes(m, s, node, handle, directory, filename, fault, q);
        if MoveTo(m, s, node, handle, directory, filename, fault, removeFault).1.Done? {
          q' := MovedBytes(m, s, e, q);
        } else {
          MoveKeepsTables(m, s, node, handle, directory, filename, fault, removeFault);
        }
      case _ => OtherStepIsSafe(m, s, made, e);
    }
  }

  /** Over every disciplined calm run that saves and moves nothing into the run's directory itself, whatever
      the grants: the bytes of every file that does not lie directly in it still stand in such a file. */
  lemma {:induction false} BytesSurvive(m: Machine, s: State, es: seq<Event>, p: Path) returns (q: Path)
    requires Fresh(s) && DisciplinedRun(m, s, es) && Calm(es)
    requires forall e :: e in es && (e.Saving? || e.Moving?) ==> ResolveDir(s.fs, e.directory) != Some(RunRoot(s))
    requires IsFile(s.fs, p) && Parent(p) != RunRoot(s)
    ensures Holds(Run(m, s, es).fs, q, s.fs[p].bytes) && Parent(q) != RunRoot(s)
  {
    if es == [] {
      q := p;
    } else {
      var front, e := Front(es), Last(es);
      var before := BytesSurvive(m, s, front, p);
      RunStaysConsistent(m, s, front);
      FoldersStay(m, s, front);
      q := WhereBytesGo(m, Run(m, s, front), Made(m, s, front), e, before);
      assert e in es;
    }
  }

  /** No hop leads from a folder outside the run's directory into it. */
  ghost predicate NothingLeadsInside(m: Machine, s: State) {
    forall from, to :: Hop(m, s, from, to) && RunRoot(s) <= to ==> RunRoot(s) <= from
  }

  /** Then the bytes of every file outside it stand in some file outside it for as long as the run lasts, however
      many moves and saves it makes. */
  lemma {:induction false} NoBytesAreLost(m: Machine, s: State, es: seq<Event>, p: Path) returns (q: Path)
    requires Fresh(s) && DisciplinedRun(m, s, es) && Calm(es) && NothingLeadsInside(m, s)
    requires IsFile(s.fs, p) && !(RunRoot(s) <= p)
    ensures Holds(Run(m, s, es).fs, q, s.fs[p].bytes) && !(RunRoot(s) <= q)
  {
    if es == [] {
      q := p;
    } else {
      var front, e := Front(es), Last(es);
      var t := Run(m, s, front);
      var before := NoBytesAreLost(m, s, front, p);
      RunStaysConsistent(m, s, front);
      FoldersStay(m, s, front);
      q := WhereBytesGo(m, t, Made(m, s, front), e, before);
      if q != before {
        HopStays(m, s, t, Parent(before), Parent(q));
        assert !(RunRoot(s) <= Parent(q));
        RootIsNoFile(m, s, es, q);
      }
    }
  }

  /** What is a file at the end of a run is not the run's directory. */
  lemma RootIsNoFile(m: Machine, s: State, es: seq<Event>, q: Path)
    requires Fresh(s) && DisciplinedRun(m, s, es) && Calm(es) && IsFile(Run(m, s, es).fs, q)
    ensures q != RunRoot(s) && (!(RunRoot(s) <= Parent(q)) ==> !(RunRoot(s) <= q))
  {
    RunStaysConsistent(m, s, es);
    FoldersStay(m, s, es);
    assert IsDir(Run(m, s, es).fs, RunRoot(s));
  }

  lemma PrefixesCompare(a: Path, b: Path, c: Path)
    requires a <= c && b <= c
    ensures a <= b || b <= a
  {
  }

  /** For one, nothing leads there when every folder granted for writing lies apart from it. */
  lemma ApartLeadsNowhereInside(m: Machine, s: State)
    requires forall node, root :: root in WritableRoots(s, node) ==> !(root <= RunRoot(s)) && !(RunRoot(s) <= root)
    ensures NothingLeadsInside(m, s)
  {
    forall from, to | Hop(m, s, from, to) ensures !(RunRoot(s) <= to) {
      var node :| Within(WritableRoots(s, node), from) && Within(WritableRoots(s, node), to);
      var root :| root in WritableRoots(s, node) && root <= to;
      if RunRoot(s) <= to {
        PrefixesCompare(root, RunRoot(s), to);
      }
    }
  }

  // -- routes of hops ---------------------------------------------------------------------------------------

  /** Folders from which, hop by hop, a file can come to lie directly in the run's directory. */
  ghost predicate Linked(m: Machine, s: State, route: seq<Path>) {
    && route != []
    && Hop(m, s, route[0], if |route| == 1 then RunRoot(s) else route[1])
    && (|route| == 1 || Linked(m, s, route[1..]))
  }

  /** The same, with no folder twice. */
  ghost predicate Route(m: Machine, s: State, route: seq<Path>) {
    Linked(m, s, route) && Distinct(route)
  }

  ghost predicate HasRoute(m: Machine, s: State, from: Path) {
    exists route :: Route(m, s, route) && route[0] == from
  }

  lemma LastHop(m: Machine, s: State, from: Path)
    requires Hop(m, s, from, RunRoot(s))
    ensures HasRoute(m, s, from)
  {
    assert Route(m, s, [from]);
  }

  lemma RouteBehindHop(m: Machine, s: State, from: Path, to: Path)
    requires Hop(m, s, from, to) && HasRoute(m, s, to)
    ensures HasRoute(m, s, from)
  {
    var route :| Route(m, s, route) && route[0] == to;
    if k :| 0 <= k < |route| && route[k] == from {
      RouteFrom(m, s, route, k);
    } else {
      RouteAfter(m, s, from, route);
    }
  }

  lemma {:induction false} RouteFrom(m: Machine, s: State, route: seq<Path>, k: nat)
    requires Route(m, s, route) && k < |route|
    ensures HasRoute(m, s, route[k])
    decreases k
  {
    if k > 0 {
      var rest := route[1..];
      DistinctTail(route);
      RouteFrom(m, s, rest, k - 1);
    }
  }

  lemma LinkedCons(m: Machine, s: State, from: Path, route: seq<Path>)
    requires Linked(m, s, route) && Hop(m, s, from, route[0])
    ensures Linked(m, s, [from] + route)
  {
    var longer := [from] + route;
    assert longer[1..] == route;
  }

  lemma RouteAfter(m: Machine, s: State, from: Path, route: seq<Path>)
    requires Route(m, s, route) && Hop(m, s, from, route[0]) && from !in route
    ensures HasRoute(m, s, from)
  {
    LinkedCons(m, s, from, route);
    DistinctCons(from, route);
    RouteStarts(m, s, [from] + route);
  }

  lemma RouteStarts(m: Machine, s: State, route: seq<Path>)
    requires Route(m, s, route)
    ensures HasRoute(m, s, route[0])
  {
  }

  // -- hops do not change over a run ------------------------------------------------------------------------

  lemma FolderIsResolved(fs: Fs, dir: Path)
    requires ValidFs(fs)
    ensures IsDir(fs, dir) <==> ResolveDir(fs, RawOf(dir)) == Some(dir)
  {
    if IsDir(fs, dir) {
      CanonicalResolvesToItself(fs, dir);
    }
  }

  /** Of what the startup paths resolve to, only folders can contain a folder. */
  lemma ForbiddenFolder(fs: Fs, folders: seq<RawPath>, dir: Path)
    requires ValidFs(fs) && IsDir(fs, dir)
    ensures Within(ForbiddenTrees(fs, folders), dir)
            <==> exists i :: 0 <= i < |folders| && ResolveDir(fs, folders[i]).Some?
                             && ResolveDir(fs, folders[i]).value <= dir
  {
    ForbiddenExactly(fs, folders, dir);
    forall i | 0 <= i < |folders| && Canonicalize(fs, folders[i]).Some? && Canonicalize(fs, folders[i]).value <= dir
      ensures ResolveDir(fs, folders[i]) == Canonicalize(fs, folders[i])
    {
      PartOfFolder(fs, Canonicalize(fs, folders[i]).value, dir);
    }
  }

  lemma PartOfFolder(fs: Fs, part: Path, dir: Path)
    requires ValidFs(fs) && IsDir(fs, dir) && part <= dir
    ensures IsDir(fs, part)
  {
    if part != dir {
      PrefixesAreDirs(fs, dir, |part|);
      assert dir[..|part|] == part;
    }
  }

  lemma HopStays(m: Machine, s: State, t: State, from: Path, to: Path)
    requires ValidFs(s.fs) && ValidFs(t.fs) && t.grants == s.grants && SameFolders(s.fs, t.fs)
    ensures Hop(m, t, from, to) <==> Hop(m, s, from, to)
  {
    FolderIsResolved(s.fs, from);
    FolderIsResolved(t.fs, from);
    FolderIsResolved(s.fs, to);
    FolderIsResolved(t.fs, to);
    if IsDir(s.fs, to) {
      ForbiddenFolder(s.fs, m.startupFolders, to);
      ForbiddenFolder(t.fs, m.startupFolders, to);
    }
    forall node ensures WritableRoots(t, node) == WritableRoots(s, node) {
      RootsFollow(s, t, node);
    }
  }

  // -- without a route nothing is lost ------------------------------------------------------------------------

  /** From a folder without a route to the run's directory, bytes only ever get to such folders. */
  lemma {:induction false} StrandedStays(m: Machine, s: State, es: seq<Event>, p: Path) returns (q: Path)
    requires Fresh(s) && DisciplinedRun(m, s, es) && Calm(es)
    requires IsFile(s.fs, p) && Parent(p) != RunRoot(s) && !HasRoute(m, s, Parent(p))
    ensures Holds(Run(m, s, es).fs, q, s.fs[p].bytes) && Parent(q) != RunRoot(s) && !HasRoute(m, s, Parent(q))
  {
    if es == [] {
      q := p;
    } else {
      var front, e := Front(es), Last(es);
      var t := Run(m, s, front);
      var before := StrandedStays(m, s, front, p);
      RunStaysConsistent(m, s, front);
      FoldersStay(m, s, front);
      q := WhereBytesGo(m, t, Made(m, s, front), e, before);
      if q != before {
        HopStays(m, s, t, Parent(before), Parent(q));
        HopStrands(m, s, Parent(before), Parent(q));
      }
    }
  }

  lemma HopStrands(m: Machine, s: State, from: Path, to: Path)
    requires Hop(m, s, from, to) && !HasRoute(m, s, from)
    ensures to != RunRoot(s) && !HasRoute(m, s, to)
  {
    if to == RunRoot(s) {
      LastHop(m, s, from);
    }
    if HasRoute(m, s, to) {
      RouteBehindHop(m, s, from, to);
    }
  }

  /** Some disciplined run, with nobody else at the disk, ends with these bytes nowhere. */
  ghost predicate CanBeLost(m: Machine, s: State, bytes: Bytes) {
    exists es :: DisciplinedRun(m, s, es) && Calm(es) && forall q :: !Holds(Run(m, s, es).fs, q, bytes)
  }

  /** Every file that holds them, but for those directly in the run's directory, can be moved there. */
  ghost predicate AllHaveRoutes(m: Machine, s: State, bytes: Bytes) {
    forall q :: Holds(s.fs, q, bytes) && Parent(q) != RunRoot(s) ==> HasRoute(m, s, Parent(q))
  }

  lemma LossNeedsRoutes(m: Machine, s: State, bytes: Bytes)
    requires Fresh(s) && CanBeLost(m, s, bytes)
    ensures AllHaveRoutes(m, s, bytes)
  {
    var es :| DisciplinedRun(m, s, es) && Calm(es) && forall q :: !Holds(Run(m, s, es).fs, q, bytes);
    forall p | Holds(s.fs, p, bytes) && Parent(p) != RunRoot(s) ensures HasRoute(m, s, Parent(p)) {
      if !HasRoute(m, s, Parent(p)) {
        var q := StrandedStays(m, s, es, p);
        assert false;
      }
    }
  }
}
