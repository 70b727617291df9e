/** Handle numbers, scratch files, and who may read what. */
module BrokerHandles {
  import opened Common
  import opened FileSystem
  import opened Filenames
  import opened BrokerState
  import opened BrokerSafety
  import Decimal

  // -- numbers are issued once -----------------------------------------------------------------

  /** What one step may do to the handle table: issue the next number, or let the host correct a
      kind. A path or a name behind a number never changes. */
  ghost predicate TableGrows(s: State, t: State, reclassified: set<nat>) {
    && s.nextHandle <= t.nextHandle
    && (forall id :: id in s.handles ==>
          && id in t.handles
          && t.handles[id].path == s.handles[id].path
          && t.handles[id].displayName == s.handles[id].displayName
          && (id !in reclassified ==> t.handles[id].kind == s.handles[id].kind))
    && (forall id :: id in t.handles && id !in s.handles ==> id == s.nextHandle && t.nextHandle == s.nextHandle + 1)
  }

  lemma SavesLeaveTableAlone(m: Machine, s: State, e: Event)
    requires e.Saving? || e.Moving?
    ensures Next(m, s, e).handles == s.handles && Next(m, s, e).nextHandle == s.nextHandle
    ensures Next(m, s, e).reachable == s.reachable
  {
    if e.Saving? {
      SaveKeepsTables(m, s, e.node, e.handle, e.directory, e.filename, e.fault);
    } else {
      MoveKeepsTables(m, s, e.node, e.handle, e.directory, e.filename, e.fault, e.removeFault);
    }
  }

  function Reclassified(e: Event): set<nat> {
    if e.HostReclassifying? then {e.handle.id} else {}
  }

  lemma NewEntryGrows(s: State, t: State, entry: HandleEntry)
    requires NumbersBelowNext(s)
    requires t.handles == s.handles[s.nextHandle := entry] && t.nextHandle == s.nextHandle + 1
    ensures TableGrows(s, t, {}) && NumbersBelowNext(t)
  {
  }

  lemma CreateGrows(m: Machine, s: State, node: NodeId, kind: HandleKind, suggested: string, fault: bool)
    requires NumbersBelowNext(s)
    ensures var t := CreateOutput(m, s, node, kind, suggested, fault).0; TableGrows(s, t, {}) && NumbersBelowNext(t)
  {
    var (t, o) := CreateOutput(m, s, node, kind, suggested, fault);
    if o.Done? {
      NewEntryGrows(s, t, t.handles[s.nextHandle]);
    }
  }

  lemma ImportGrows(s: State, path: RawPath, kind: HandleKind)
    requires NumbersBelowNext(s)
    ensures var t := ImportFile(s, path, kind).0; TableGrows(s, t, {}) && NumbersBelowNext(t)
  {
    var t := ImportFile(s, path, kind).0;
    NewEntryGrows(s, t, t.handles[s.nextHandle]);
  }

  lemma ImportFoundGrows(s: State, node: NodeId, path: RawPath, kind: HandleKind)
    requires NumbersBelowNext(s)
    ensures var t := ImportGuarded(s, node, path, kind).0; TableGrows(s, t, {}) && NumbersBelowNext(t)
  {
    if ImportGuarded(s, node, path, kind).1.Done? {
      ImportGrows(s, RawOf(Canonicalize(s.fs, path).value), kind);
    }
  }

  lemma RelabelledGrows(s: State, t: State, id: nat, kind: HandleKind)
    requires NumbersBelowNext(s) && id in s.handles && t.nextHandle == s.nextHandle
    requires t.handles == s.handles[id := s.handles[id].(kind := kind)]
    ensures TableGrows(s, t, {id}) && NumbersBelowNext(t)
  {
  }

  lemma RelabelGrows(s: State, handle: Handle, kind: HandleKind)
    requires NumbersBelowNext(s)
    ensures var t := Reclassify(s, handle, kind).0; TableGrows(s, t, {handle.id}) && NumbersBelowNext(t)
  {
    var t := Reclassify(s, handle, kind).0;
    if handle.id in s.handles {
      RelabelledGrows(s, t, handle.id, kind);
    } else {
      SameTableGrows(s, t, {handle.id});
    }
  }

  lemma SameTableGrows(s: State, t: State, reclassified: set<nat>)
    requires NumbersBelowNext(s) && t.handles == s.handles && t.nextHandle == s.nextHandle
    ensures TableGrows(s, t, reclassified) && NumbersBelowNext(t)
  {
  }

  /** The steps that may change the handle table. */
  predicate TouchesTable(e: Event) {
    e.CreatingOutput? || e.HostImporting? || e.ImportingFound? || e.HostReclassifying?
  }

  lemma TableIsLeftAlone(m: Machine, s: State, e: Event)
    requires !TouchesTable(e)
    ensures Next(m, s, e).handles == s.handles && Next(m, s, e).nextHandle == s.nextHandle
  {
    if e.Saving? || e.Moving? {
      SavesLeaveTableAlone(m, s, e);
    } else if OnlyJournals(e) {
      JournalStep(m, s, e);
    }
  }

  lemma StepGrowsTable(m: Machine, s: State, e: Event)
    requires NumbersBelowNext(s)
    ensures TableGrows(s, Next(m, s, e), Reclassified(e)) && NumbersBelowNext(Next(m, s, e))
  {
    if TouchesTable(e) {
      match e {
        case CreatingOutput(node, kind, suggested, fault) => CreateGrows(m, s, node, kind, suggested, fault);
        case HostImporting(path, kind) => ImportGrows(s, path, kind);
        case ImportingFound(node, path, kind) => ImportFoundGrows(s, node, path, kind);
        case HostReclassifying(handle, kind) => RelabelGrows(s, handle, kind);
      }
    } else {
      TableIsLeftAlone(m, s, e);
      SameTableGrows(s, Next(m, s, e), Reclassified(e));
    }
  }

  /** Every number in the table is below the next one to be issued, in every reachable state: so
      no number is ever issued twice, and what a number names is fixed for the rest of the run. */
  lemma {:induction false} NumbersAreForever(m: Machine, s: State, es: seq<Event>, i: nat)
    requires Fresh(s) && i <= |es|
    ensures var early, late := Run(m, s, es[..i]), Run(m, s, es);
            && NumbersBelowNext(late) && early.nextHandle <= late.nextHandle
            && (forall id :: id in early.handles ==>
                  id in late.handles && late.handles[id].path == early.handles[id].path
                  && late.handles[id].displayName == early.handles[id].displayName)
            && (forall id :: id in late.handles && id !in early.handles ==> early.nextHandle <= id)
    decreases |es|
  {
    if i == |es| {
      assert es[..i] == es;
      if es != [] {
        NumbersAreForever(m, s, Front(es), |es| - 1);
        StepGrowsTable(m, Run(m, s, Front(es)), Last(es));
      }
    } else {
      NumbersAreForever(m, s, Front(es), i);
      assert Front(es)[..i] == es[..i];
      StepGrowsTable(m, Run(m, s, Front(es)), Last(es));
    }
  }

  /** What a number was last reclassified as, or else what it was before. */
  function LatestKind(es: seq<Event>, id: nat, before: HandleKind): HandleKind {
    if es == [] then before
    else if Last(es).HostReclassifying? && Last(es).handle.id == id then Last(es).kind
    else LatestKind(Front(es), id, before)
  }

  lemma KindAfterStep(m: Machine, s: State, e: Event, id: nat)
    requires NumbersBelowNext(s) && id in s.handles
    ensures var t := Next(m, s, e);
            && NumbersBelowNext(t) && id in t.handles
            && t.handles[id].kind
               == if e.HostReclassifying? && e.handle.id == id then e.kind else s.handles[id].kind
  {
    StepGrowsTable(m, s, e);
  }

  /** Over every run, the recorded kind of a number is the one it was last reclassified as, or else the one it was
      issued with: nothing a component does or claims changes it. */
  lemma {:induction false} KindIsTheLatest(m: Machine, s: State, es: seq<Event>, id: nat)
    requires NumbersBelowNext(s) && id in s.handles
    ensures var t := Run(m, s, es);
            NumbersBelowNext(t) && id in t.handles && t.handles[id].kind == LatestKind(es, id, s.handles[id].kind)
  {
    if es != [] {
      KindIsTheLatest(m, s, Front(es), id);
      KindAfterStep(m, Run(m, s, Front(es)), Last(es), id);
    }
  }

  // -- scratch files are separate ----------------------------------------------------------------

  lemma ScratchNamesDiffer(a: nat, b: nat, x: string, y: string)
    requires a != b
    ensures ScratchName(a, x) != ScratchName(b, y)
  {
    if ScratchName(a, x) == ScratchName(b, y) {
      Decimal.ShowThenRead(a);
      Decimal.ShowThenRead(b);
      assert Decimal.Show(a) + ['-'] + x == ScratchName(a, x);
      assert Decimal.Show(b) + ['-'] + y == ScratchName(b, y);
      Decimal.NumeralPrefixUnique(Decimal.Show(a), Decimal.Show(b), '-', x, y);
      Decimal.ShowInjective(a, b);
    }
  }

  lemma ReadsWhatStandsThere(fs: Fs, folder: RawPath, dir: Path, name: Name)
    requires ResolveDir(fs, folder) == Some(dir)
    requires dir + [name] in fs ==> !fs[dir + [name]].Link?
    ensures ReadFile(fs, folder + [Down(name)]) ==
              if IsFile(fs, dir + [name]) then Some(fs[dir + [name]].bytes) else None
  {
    NameInFolder(fs, folder, dir, name);
  }

  /** Writing one name in a folder leaves what is read through another name there as it was. */
  lemma OtherNameReadsTheSame(fs: Fs, fs': Fs, folder: RawPath, dir: Path, name: Name, other: Name, bytes: Bytes)
    requires ResolveDir(fs, folder) == Some(dir) && ResolveDir(fs', folder) == Some(dir)
    requires fs' == fs || fs' == fs[dir + [other] := File(bytes)]
    requires name != other && (dir + [name] in fs ==> !fs[dir + [name]].Link?)
    ensures ReadFile(fs', folder + [Down(name)]) == ReadFile(fs, folder + [Down(name)])
  {
    assert (dir + [name])[|dir|] != (dir + [other])[|dir|];
    ReadsWhatStandsThere(fs, folder, dir, name);
    ReadsWhatStandsThere(fs', folder, dir, name);
  }

  /** In every state a disciplined run reaches, two scratch handles have different paths, and
      writing through one leaves what is read through the other as it was. */
  lemma ScratchFilesAreSeparate(m: Machine, s: State, es: seq<Event>, node: NodeId, a: Handle, b: Handle,
                                bytes: Bytes, fault: bool)
    requires Fresh(s) && DisciplinedRun(m, s, es)
    requires a.id != b.id && a.id in Made(m, s, es) && b.id in Made(m, s, es)
    ensures var t := Run(m, s, es);
            && a.id in t.handles && b.id in t.handles
            && t.handles[a.id].path != t.handles[b.id].path
            && ReadFile(WriteOutput(t, node, a, bytes, fault).0.fs, t.handles[b.id].path)
               == ReadFile(t.fs, t.handles[b.id].path)
  {
    RunStaysConsistent(m, s, es);
    SeparateInConsistentState(Run(m, s, es), Made(m, s, es), node, a, b, bytes, fault);
  }

  lemma SeparateInConsistentState(t: State, made: map<nat, NodeId>, node: NodeId, a: Handle, b: Handle, bytes: Bytes,
                                  fault: bool)
    requires Consistent(t, made) && a.id != b.id && a.id in made && b.id in made
    ensures t.handles[a.id].path != t.handles[b.id].path
    ensures ReadFile(WriteOutput(t, node, a, bytes, fault).0.fs, t.handles[b.id].path)
            == ReadFile(t.fs, t.handles[b.id].path)
  {
    var nameA := ScratchName(a.id, t.handles[a.id].displayName);
    var nameB := ScratchName(b.id, t.handles[b.id].displayName);
    ScratchNamesDiffer(a.id, b.id, t.handles[a.id].displayName, t.handles[b.id].displayName);
    assert Last(t.handles[a.id].path) == Down(nameA) && Last(t.handles[b.id].path) == Down(nameB);
    var fs' := WriteOutput(t, node, a, bytes, fault).0.fs;
    ScratchWriteStaysInRunDir(t, made, node, a, bytes, fault);
    RunDirStays(t, fs');
    OtherNameReadsTheSame(t.fs, fs', t.runDir, RunRoot(t), nameB, nameA, bytes);
  }

  /** What a node reads back from a handle it created is what it last wrote there. */
  lemma WriteThenOpen(m: Machine, s: State, es: seq<Event>, node: NodeId, id: nat, bytes: Bytes)
    requires Fresh(s) && DisciplinedRun(m, s, es) && id in Made(m, s, es)
    requires |bytes| <= MAX_READ_BYTES
    ensures var t := Run(m, s, es);
            id in t.handles &&
            var handle := Handle(id, t.handles[id].kind);
            var (t', o) := WriteOutput(t, node, handle, bytes, false);
            o.Done? ==>
              OpenInput(t', node, handle).1
              == (if Has(t.grants, node, FsRead) then Done(bytes) else Denied(ReadNotDeclared))
  {
    var t, made := Run(m, s, es), Made(m, s, es);
    RunStaysConsistent(m, s, es);
    var name := ScratchName(id, t.handles[id].displayName);
    var handle := Handle(id, t.handles[id].kind);
    var t' := WriteOutput(t, node, handle, bytes, false).0;
    if WriteOutput(t, node, handle, bytes, false).1.Done? {
      ScratchWriteStaysInRunDir(t, made, node, handle, bytes, false);
      RunDirStays(t, t'.fs);
      WriteLandsAt(t.fs, t.runDir, RunRoot(t), name, bytes);
      ReadsWhatStandsThere(t'.fs, t.runDir, RunRoot(t), name);
    }
  }

  lemma WriteLandsAt(fs: Fs, folder: RawPath, dir: Path, name: Name, bytes: Bytes)
    requires ResolveDir(fs, folder) == Some(dir)
    requires dir + [name] in fs ==> !fs[dir + [name]].Link?
    ensures var written := WriteFile(fs, folder + [Down(name)], bytes);
            written.Some? ==> written.value == fs[dir + [name] := File(bytes)]
  {
    NameInFolder(fs, folder, dir, name);
  }

  // -- who may open what --------------------------------------------------------------------------

  /** The two ways a node comes to reach a handle: the graph wired it, or it created it. */
  ghost predicate Gives(m: Machine, s: State, e: Event, node: NodeId, id: nat) {
    || (e.HostWiring? && e.node == node && e.handle.id == id)
    || (e.CreatingOutput? && e.node == node && id == s.nextHandle && Step(m, s, e).1.Succeeded?)
  }

  ghost predicate Given(m: Machine, s: State, es: seq<Event>, node: NodeId, id: nat) {
    Somewhere((before: seq<Event>, e: Event) => Gives(m, Run(m, s, before), e, node, id), es)
  }

  lemma ImportFoundGives(s: State, node: NodeId, path: RawPath, kind: HandleKind)
    ensures ImportGuarded(s, node, path, kind).0.reachable == s.reachable
  {
    if ImportGuarded(s, node, path, kind).1.Done? {
      assert ImportFile(s, RawOf(Canonicalize(s.fs, path).value), kind).0.reachable == s.reachable;
    }
  }

  lemma StepGives(m: Machine, s: State, e: Event, node: NodeId, id: nat)
    ensures CanReach(Next(m, s, e), node, id) <==> CanReach(s, node, id) || Gives(m, s, e, node, id)
  {
    if e.Saving? || e.Moving? {
      SavesLeaveTableAlone(m, s, e);
    } else if OnlyJournals(e) {
      JournalStep(m, s, e);
    } else if e.CreatingOutput? {
      CreatingGives(m, s, e.node, e.kind, e.suggested, e.fault, node, id);
    } else if e.ImportingFound? {
      ImportFoundGives(s, e.node, e.path, e.kind);
    }
  }

  lemma ReachAdds(reachable: map<NodeId, set<nat>>, maker: NodeId, added: nat, node: NodeId, id: nat)
    ensures id in Lookup(reachable[maker := Lookup(reachable, maker, {}) + {added}], node, {})
            <==> id in Lookup(reachable, node, {}) || (node == maker && id == added)
  {
  }

  lemma CreatingGives(m: Machine, s: State, maker: NodeId, kind: HandleKind, suggested: string, fault: bool,
                      node: NodeId, id: nat)
    ensures var (t, o) := CreateOutput(m, s, maker, kind, suggested, fault);
            CanReach(t, node, id) <==> CanReach(s, node, id) || (o.Done? && node == maker && id == s.nextHandle)
  {
    ReachAdds(s.reachable, maker, s.nextHandle, node, id);
  }

  lemma {:induction false} ReachableIffGiven(m: Machine, s: State, es: seq<Event>, node: NodeId, id: nat)
    requires Fresh(s)
    ensures CanReach(Run(m, s, es), node, id) <==> Given(m, s, es, node, id)
  {
    if es != [] {
      ReachableIffGiven(m, s, Front(es), node, id);
      StepGives(m, Run(m, s, Front(es)), Last(es), node, id);
      SomewhereSnoc((before: seq<Event>, e: Event) => Gives(m, Run(m, s, before), e, node, id), es);
    }
  }

  /** After any run at all, a component reads a file through a handle exactly when it was granted
      reading, the handle was wired to it or created by it in that run, the number was issued, the
      kind it claims is the one the host recorded, and the file can be read; and then it gets that
      file's bytes. */
  lemma OpensExactlyWhatItWasGiven(m: Machine, s: State, es: seq<Event>, node: NodeId, handle: Handle, bytes: Bytes)
    requires Fresh(s)
    ensures var t := Run(m, s, es);
            OpenInput(t, node, handle).1 == Done(bytes) <==>
              && Has(s.grants, node, FsRead)
              && Given(m, s, es, node, handle.id)
              && handle.id in t.handles && t.handles[handle.id].kind == handle.kind
              && ReadFile(t.fs, t.handles[handle.id].path) == Some(bytes) && |bytes| <= MAX_READ_BYTES
  {
    ReachableIffGiven(m, s, es, node, handle.id);
    GrantsAreFixed(m, s, es);
  }

  lemma {:induction false} GrantsAreFixed(m: Machine, s: State, es: seq<Event>)
    ensures Run(m, s, es).grants == s.grants
  {
    if es != [] {
      GrantsAreFixed(m, s, Front(es));
      StepKeepsGrants(m, Run(m, s, Front(es)), Last(es));
    }
  }

  /** A file a trigger found is imported exactly when the file itself, not the name it appeared
      under, lies in a folder the node may read; what is stored resolves to that very file. */
  lemma ImportsOnlyWhatLiesInside(s: State, node: NodeId, path: RawPath, kind: HandleKind)
    requires ValidFs(s.fs)
    ensures var (t, o) := ImportGuarded(s, node, path, kind);
            && (o.Done? <==>
                  exists actual :: Resolve(s.fs, path) == At(actual) && IsFile(s.fs, actual)
                                 && Within(ReadableRoots(s, node), Parent(actual)))
            && (o.Done? ==>
                  && o.value.id == s.nextHandle && o.value.id in t.handles
                  && t.handles[o.value.id].kind == kind
                  && Resolve(t.fs, t.handles[o.value.id].path) == Resolve(s.fs, path))
  {
    if Canonicalize(s.fs, path).Some? {
      WalkLands(s.fs, [], path, MAX_LINKS);
      CanonicalResolvesToItself(s.fs, Canonicalize(s.fs, path).value);
    }
  }

  // -- listings --------------------------------------------------------------------------------

  predicate ByName(files: seq<DirEntry>) {
    forall i :: 0 <= i < |files| - 1 ==> NotAfter(files[i].name, files[i + 1].name)
  }

  lemma {:induction false} NamesAreOrdered(a: string, b: string)
    ensures NotAfter(a, b) || NotAfter(b, a)
  {
    if a != [] && b != [] && a[0] == b[0] {
      NamesAreOrdered(a[1..], b[1..]);
    }
  }

  lemma TailStaysByName(files: seq<DirEntry>)
    requires ByName(files) && files != []
    ensures ByName(files[1..]) && (|files| > 1 ==> NotAfter(files[0].name, files[1].name))
  {
    forall i | 0 <= i < |files[1..]| - 1 ensures NotAfter(files[1..][i].name, files[1..][i + 1].name) {
      assert NotAfter(files[i + 1].name, files[i + 1 + 1].name);
    }
  }

  lemma ConsStaysByName(e: DirEntry, files: seq<DirEntry>)
    requires ByName(files) && (files != [] ==> NotAfter(e.name, files[0].name))
    ensures ByName([e] + files)
  {
    var r := [e] + files;
    forall i | 0 <= i < |r| - 1 ensures NotAfter(r[i].name, r[i + 1].name) {
      assert r[i + 1] == files[i];
      if i > 0 {
        assert r[i] == files[i - 1] && NotAfter(files[i - 1].name, files[i - 1 + 1].name);
      }
    }
  }

  lemma {:induction false} InsertKeepsOrder(e: DirEntry, sorted: seq<DirEntry>)
    requires ByName(sorted)
    ensures var r := InsertByName(e, sorted);
            ByName(r) && multiset(r) == multiset(sorted) + multiset{e} && r != []
            && (r[0] == e || (sorted != [] && r[0] == sorted[0]))
  {
    if sorted == [] || NotAfter(e.name, sorted[0].name) {
      ConsStaysByName(e, sorted);
    } else {
      NamesAreOrdered(e.name, sorted[0].name);
      var rest := sorted[1..];
      TailStaysByName(sorted);
      InsertKeepsOrder(e, rest);
      var tail := InsertByName(e, rest);
      assert sorted == [sorted[0]] + rest;
      ConsStaysByName(sorted[0], tail);
    }
  }

  lemma HeadIsOneMore<T>(s: seq<T>)
    requires s != []
    ensures multiset(s) == multiset(s[1..]) + multiset{s[0]}
  {
    assert s == [s[0]] + s[1..];
  }

  lemma {:induction false} SortingSorts(entries: seq<DirEntry>)
    ensures ByName(SortByName(entries)) && multiset(SortByName(entries)) == multiset(entries)
  {
    if entries != [] {
      var rest := entries[1..];
      SortingSorts(rest);
      InsertKeepsOrder(entries[0], SortByName(rest));
      HeadIsOneMore(entries);
    }
  }

  /** `a` starts `b`, or has the smaller character where they first differ. */
  ghost predicate Precedes(a: string, b: string) {
    a <= b || exists k: nat :: DiffersFirst(a, b, k)
  }

  predicate DiffersFirst(a: string, b: string, k: nat) {
    k < |a| && k < |b| && a[..k] == b[..k] && a[k] < b[k]
  }

  lemma DiffersLater(a: string, b: string, k: nat)
    requires a != [] && b != [] && a[0] == b[0]
    ensures DiffersFirst(a, b, k + 1) <==> DiffersFirst(a[1..], b[1..], k)
  {
    if k + 1 < |a| && k + 1 < |b| {
      assert a[..k + 1] == [a[0]] + a[1..][..k] && b[..k + 1] == [b[0]] + b[1..][..k];
    }
  }

  lemma AlikeBefore(a: string, b: string, k: nat)
    requires DiffersFirst(a, b, k)
    ensures forall i :: 0 <= i < k ==> a[i] == b[i]
  {
    assert forall i :: 0 <= i < k ==> a[i] == a[..k][i] && b[i] == b[..k][i];
  }

  /** The order files are listed in is the one of a dictionary. */
  lemma {:induction false} NotAfterExactly(a: string, b: string)
    ensures NotAfter(a, b) <==> Precedes(a, b)
  {
    if a != [] && b != [] {
      if a[0] == b[0] {
        NotAfterExactly(a[1..], b[1..]);
        assert a <= b <==> a[1..] <= b[1..];
        forall k: nat | DiffersFirst(a[1..], b[1..], k) ensures DiffersFirst(a, b, k + 1) {
          DiffersLater(a, b, k);
        }
        forall k: nat | DiffersFirst(a, b, k) ensures k > 0 && DiffersFirst(a[1..], b[1..], k - 1) {
          DiffersLater(a, b, k - 1);
        }
      } else {
        assert a[0] < b[0] ==> DiffersFirst(a, b, 0);
        forall k: nat | DiffersFirst(a, b, k) ensures k == 0 {
          AlikeBefore(a, b, k);
        }
      }
    }
  }

  predicate Listable(item: DirItem) {
    item.AFile? && item.metadata.Some?
  }

  /** The entries of the listable items, in order. */
  function EntriesOf(dir: Path, items: seq<DirItem>): seq<DirEntry> {
    if items == [] then []
    else EntriesOf(dir, Front(items)) + if Listable(Last(items)) then [EntryOf(dir, Last(items))] else []
  }

  /** Reading is given up exactly when some file turns up after `limit` listable ones. */
  ghost predicate Overfull(dir: Path, items: seq<DirItem>, limit: nat) {
    Somewhere((before: seq<DirItem>, item: DirItem) => item.AFile? && |EntriesOf(dir, before)| >= limit, items)
  }

  lemma {:induction false} CollectsAllOrRefuses(dir: Path, items: seq<DirItem>, limit: nat)
    ensures Collect(dir, items, limit) == if Overfull(dir, items, limit) then None else Some(EntriesOf(dir, items))
  {
    if items != [] {
      CollectsAllOrRefuses(dir, Front(items), limit);
      SomewhereSnoc((before: seq<DirItem>, item: DirItem) => item.AFile? && |EntriesOf(dir, before)| >= limit, items);
      assert EntriesOf(dir, Front(items)) + [] == EntriesOf(dir, Front(items));
    }
  }

  /** A listing that is given is complete: every readable file of the folder, once, in name order.
      It is refused, not cut short, when there are too many. */
  lemma ListingIsCompleteOrRefused(s: State, node: NodeId, directory: RawPath, limit: nat, items: seq<DirItem>)
    requires ResolveDir(s.fs, directory).Some?
    requires Within(ReadableRoots(s, node), ResolveDir(s.fs, directory).value)
    ensures var dir := ResolveDir(s.fs, directory).value;
            var o := ListDir(s, node, directory, limit, Some(items)).1;
            && (o.Done? <==> !Overfull(dir, items, limit))
            && (o.Done? ==> ByName(o.value) && multiset(o.value) == multiset(EntriesOf(dir, items)))
            && (!o.Done? ==> o == Denied(TooManyFiles))
  {
    var dir := ResolveDir(s.fs, directory).value;
    CollectsAllOrRefuses(dir, items, limit);
    SortingSorts(EntriesOf(dir, items));
  }
}
