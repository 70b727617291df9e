/** The runs that do lose bytes: along a route of hops a file is moved into the run's directory under the name
    the next scratch file will have, and that file is written. */
module BrokerLossRuns {
  import opened Common
  import opened Text
  import opened FileSystem
  import opened Filenames
  import opened BrokerState
  import opened BrokerSafety
  import opened BrokerHandles
  import opened BrokerAnswers
  import opened BrokerLoss
  import Decimal

  // -- names that can be numbered ---------------------------------------------------------------------------

  function Pow10(n: nat): nat {
    if n == 0 then 1 else 10 * Pow10(n - 1)
  }

  lemma {:induction false} ShowIsShort(k: nat, d: nat)
    requires 0 < d && k < Pow10(d)
    ensures |Decimal.Show(k)| <= d
    decreases d
  {
    if k >= 10 {
      assert d > 1 by {
        assert Pow10(1) == 10 * Pow10(0);
      }
      ShowIsShort(k / 10, d - 1);
    }
  }

  const X: string := ['x']

  /** The name scratch file number `k` gets when it is asked for as `x`. */
  function Numbered(k: nat): Name {
    ScratchName(k, X)
  }

  const MAX_NUMBER: nat := Pow10(100)

  lemma XIsKept(u: Unicode)
    requires Sound(u)
    ensures Sanitise(u, X) == X
  {
    PlainNameStays(u, X);
  }

  predicate Plain(name: string) {
    forall c :: c in name ==> IsAsciiDigit(c) || c == '-' || c == 'x'
  }

  lemma PlainIsNoDevice(u: Unicode, name: string)
    requires Sound(u) && name != "" && Plain(name)
    ensures !IsReservedDeviceName(u, name)
  {
    assert name[0] in name;
    if IsReservedDeviceName(u, name) {
      ReservedStartsLike(u, name);
    }
  }

  lemma PlainIsKept(u: Unicode, name: string)
    requires Sound(u) && Plain(name)
    ensures forall c :: c in name ==> Kept(u, c)
  {
  }

  lemma PlainIsOrdinary(u: Unicode, name: string)
    requires Sound(u) && 0 < |name| <= MAX_NAME && Plain(name)
    ensures Ordinary(u, name) && name[0] != '.'
  {
    assert name[0] in name && Last(name) in name;
    PlainIsNoDevice(u, name);
    PlainIsKept(u, name);
    NoSeparatorKept(u, name);
    assert forall c :: c in name ==> Kept(u, c);
  }

  /** A short name of digits, dashes and x goes through unchanged. */
  lemma PlainNameStays(u: Unicode, name: string)
    requires Sound(u) && 0 < |name| <= MAX_NAME && Plain(name)
    ensures Sanitise(u, name) == name
  {
    PlainIsOrdinary(u, name);
    SanitiseKeepsExactly(u, name);
  }

  lemma NumberedStays(u: Unicode, k: nat)
    requires Sound(u) && k < MAX_NUMBER
    ensures Sanitise(u, Numbered(k)) == Numbered(k)
  {
    ShowIsShort(k, 100);
    Decimal.ShowThenRead(k);
    var digits, name := Decimal.Show(k), Numbered(k);
    assert name == digits + ['-', 'x'];
    PlainNameStays(u, name);
  }

  ghost predicate FreeIn(paths: set<Path>, k: nat) {
    forall p :: p in paths && p != [] ==> Last(p) != Numbered(k)
  }

  lemma NumberedDiffer(a: nat, b: nat)
    requires a != b
    ensures Numbered(a) != Numbered(b)
  {
    ScratchNamesDiffer(a, b, X, X);
  }

  /** Among one more number than there are entries, one is the name of none. */
  lemma {:induction false} FreeNumber(paths: set<Path>, n: nat) returns (k: nat)
    ensures n <= k <= n + |paths| && FreeIn(paths, k)
    decreases |paths|
  {
    k := n;
    if !FreeIn(paths, n) {
      var p :| p in paths && p != [] && Last(p) == Numbered(n);
      k := FreeNumber(paths - {p}, n + 1);
      NumberedDiffer(n, k);
      forall q | q in paths && q != [] ensures Last(q) != Numbered(k) {
        assert q == p || q in paths - {p};
      }
    }
  }

  // -- states that a losing run goes through ----------------------------------------------------------------

  /** This run keeps the discipline, with nobody else at the disk, and ends there. */
  ghost predicate Leads(m: Machine, s: State, es: seq<Event>, t: State, made: map<nat, NodeId>) {
    DisciplinedRun(m, s, es) && Calm(es) && Run(m, s, es) == t && Made(m, s, es) == made
  }

  lemma LeadsOn(m: Machine, s: State, es: seq<Event>, t: State, made: map<nat, NodeId>, e: Event)
    requires Leads(m, s, es, t, made) && Disciplined(t, made, e) && !e.ElsewhereChanging?
    ensures Leads(m, s, es + [e], Next(m, t, e), Making(m, t, made, e))
  {
    var longer := es + [e];
    assert Front(longer) == es && Last(longer) == e;
    assert forall x :: x in longer <==> x in es || x == e;
  }

  ghost predicate Reached(m: Machine, s: State, t: State, made: map<nat, NodeId>) {
    exists es :: Leads(m, s, es, t, made)
  }

  lemma ReachedAtFirst(m: Machine, s: State)
    ensures Leads(m, s, [], s, map[]) && Reached(m, s, s, map[])
  {
    assert Leads(m, s, [], s, map[]);
  }

  lemma ReachedNext(m: Machine, s: State, t: State, made: map<nat, NodeId>, e: Event)
    requires Reached(m, s, t, made) && Disciplined(t, made, e) && !e.ElsewhereChanging?
    ensures Reached(m, s, Next(m, t, e), Making(m, t, made, e))
  {
    var es :| Leads(m, s, es, t, made);
    LeadsOn(m, s, es, t, made, e);
  }

  /** What stays as it was at first. */
  ghost predicate Familiar(s: State, t: State, made: map<nat, NodeId>) {
    && Consistent(t, made) && t.grants == s.grants && t.runDir == s.runDir
    && SameFolders(s.fs, t.fs) && RunRoot(t) == RunRoot(s)
  }

  lemma ReachedIsFamiliar(m: Machine, s: State, t: State, made: map<nat, NodeId>)
    requires Fresh(s) && Reached(m, s, t, made)
    ensures Familiar(s, t, made)
  {
    var es :| Leads(m, s, es, t, made);
    RunStaysConsistent(m, s, es);
    FoldersStay(m, s, es);
  }

  // -- the four steps -----------------------------------------------------------------------------------------

  lemma CountOne(m: Machine, t: State)
    ensures var t1 := Next(m, t, HostImporting([], OfFile)); t1.fs == t.fs && t1.nextHandle == t.nextHandle + 1
  {
  }

  /** Numbers can be used up without touching anything. */
  lemma {:induction false} CountUpTo(m: Machine, s: State, t: State, made: map<nat, NodeId>, k: nat) returns (t': State)
    requires Reached(m, s, t, made) && t.nextHandle <= k
    ensures Reached(m, s, t', made) && t'.nextHandle == k && t'.fs == t.fs
    decreases k - t.nextHandle
  {
    t' := t;
    if t.nextHandle < k {
      var e := HostImporting([], OfFile);
      CountOne(m, t);
      ReachedNext(m, s, t, made, e);
      t' := CountUpTo(m, s, Next(m, t, e), made, k);
    }
  }

  lemma FrontOfCons<T>(x: T, rest: seq<T>)
    requires rest != []
    ensures Front([x] + rest) == [x] + Front(rest) && Last([x] + rest) == Last(rest)
  {
  }

  lemma {:induction false} FrontOfRaw(p: Path)
    requires p != []
    ensures RawOf(p) != [] && Front(RawOf(p)) == RawOf(Parent(p)) && Last(RawOf(p)) == Down(Last(p))
    decreases |p|
  {
    var rest := p[1..];
    assert RawOf(p) == [Down(p[0])] + RawOf(rest);
    if rest == [] {
      assert RawOf(p) == [Down(p[0])] && Parent(p) == [];
    } else {
      FrontOfRaw(rest);
      assert [p[0]] + rest == p;
      FrontOfCons(p[0], rest);
      FrontOfCons(Down(p[0]), RawOf(rest));
      RawOfCons(p[0], Front(rest));
    }
  }

  lemma RawOfCons(name: Name, rest: Path)
    ensures RawOf([name] + rest) == [Down(name)] + RawOf(rest)
  {
    assert ([name] + rest)[1..] == rest;
  }

  /** A path that leads to this file itself, through no link at its end. */
  ghost predicate LeadsTo(fs: Fs, raw: RawPath, q: Path) {
    && raw != [] && q != [] && IsFile(fs, q) && ReadFile(fs, raw) == Some(fs[q].bytes)
    && Leaf(fs, raw) == Some(q) && ResolveDir(fs, Front(raw)) == Some(Parent(q))
  }

  lemma LeafInFolder(fs: Fs, raw: RawPath, folder: RawPath, q: Path)
    requires raw != [] && q != [] && Front(raw) == folder && Last(raw) == Down(Last(q))
    requires ResolveDir(fs, folder) == Some(Parent(q))
    ensures Leaf(fs, raw) == Some(q)
  {
    assert Parent(q) + [Last(q)] == q;
  }

  /** As its own path does. */
  lemma OwnPath(fs: Fs, q: Path)
    requires ValidFs(fs) && IsFile(fs, q)
    ensures LeadsTo(fs, RawOf(q), q)
  {
    FrontOfRaw(q);
    FolderIsResolved(fs, Parent(q));
    LeafInFolder(fs, RawOf(q), RawOf(Parent(q)), q);
    CanonicalResolvesToItself(fs, q);
  }

  lemma ImportedFile(m: Machine, t: State, raw: RawPath)
    ensures var t1 := Next(m, t, HostImporting(raw, OfFile));
            && t1.fs == t.fs && t1.grants == t.grants && t1.runDir == t.runDir && t1.nextHandle == t.nextHandle + 1
            && t.nextHandle in t1.handles && t1.handles[t.nextHandle].path == raw
  {
  }

  /** A node may take this file and put it there. */
  ghost predicate MayHop(m: Machine, t: State, node: NodeId, q: Path, to: Path) {
    && IsFile(t.fs, q) && IsDir(t.fs, to) && !Within(ForbiddenTrees(t.fs, m.startupFolders), to)
    && Within(WritableRoots(t, node), Parent(q)) && Within(WritableRoots(t, node), to)
  }

  /** The move of that file, from one path to another, to a place that is free. */
  ghost predicate FreeHop(m: Machine, t: State, node: NodeId, raw: RawPath, q: Path, directory: RawPath, to: Path,
                          name: Name) {
    && ValidFs(t.fs) && MayHop(m, t, node, q, to) && LeadsTo(t.fs, raw, q)
    && ResolveDir(t.fs, directory) == Some(to) && Sanitise(m.unicode, name) == name && to + [name] !in t.fs
  }

  lemma MoveIsDone(m: Machine, t: State, node: NodeId, h: Handle, raw: RawPath, q: Path, directory: RawPath, to: Path,
                   name: Name)
    requires FreeHop(m, t, node, raw, q, directory, to, name) && h.id in t.handles && t.handles[h.id].path == raw
    ensures MoveTo(m, t, node, h, directory, name, false, false).1.Done?
  {
    MovesExactly(m, t, node, h, directory, name);
  }

  lemma SamePlace(to: Path, name: Name, leaf: Path)
    requires leaf != [] && Parent(leaf) == to && Last(leaf) == name
    ensures leaf == to + [name]
  {
    assert leaf == Parent(leaf) + [Last(leaf)];
  }

  /** A move from one granted folder into another. */
  lemma MovedThere(m: Machine, t: State, node: NodeId, h: Handle, raw: RawPath, q: Path, directory: RawPath, to: Path,
                   name: Name)
    requires FreeHop(m, t, node, raw, q, directory, to, name) && h.id in t.handles && t.handles[h.id].path == raw
    ensures MoveTo(m, t, node, h, directory, name, false, false).0.fs == t.fs[to + [name] := t.fs[q]] - {q}
  {
    MoveIsDone(m, t, node, h, raw, q, directory, to, name);
    var leaf, gone, bytes := WholeMove(m, t, node, h, directory, name, false, false);
    SamePlace(to, name, leaf);
    assert gone == q && t.fs[q] == File(bytes);
  }

  lemma MovingKeepsNumber(m: Machine, t: State, node: NodeId, h: Handle, directory: RawPath, name: string)
    ensures var t' := MoveTo(m, t, node, h, directory, name, false, false).0;
            Next(m, t, Moving(node, h, directory, name, false, false)) == t' && t'.nextHandle == t.nextHandle
  {
    MoveKeepsTables(m, t, node, h, directory, name, false, false);
    SameTablesSameNumber(t, MoveTo(m, t, node, h, directory, name, false, false).0);
    NextOfMoving(m, t, Moving(node, h, directory, name, false, false));
  }

  lemma SameTablesSameNumber(t: State, t': State)
    requires SameTables(t, t')
    ensures t'.nextHandle == t.nextHandle
  {
  }

  lemma NextOfMoving(m: Machine, t: State, e: Event)
    requires e.Moving?
    ensures Next(m, t, e) == MoveTo(m, t, e.node, e.handle, e.directory, e.filename, e.fault, e.removeFault).0
  {
  }

  lemma HopStep(m: Machine, t: State, node: NodeId, h: Handle, raw: RawPath, q: Path, directory: RawPath, to: Path,
                name: Name)
    requires FreeHop(m, t, node, raw, q, directory, to, name) && h.id in t.handles && t.handles[h.id].path == raw
    ensures var t' := Next(m, t, Moving(node, h, directory, name, false, false));
            t'.fs == t.fs[to + [name] := t.fs[q]] - {q} && t'.nextHandle == t.nextHandle
  {
    MovedThere(m, t, node, h, raw, q, directory, to, name);
    MovingKeepsNumber(m, t, node, h, directory, name);
  }

  lemma FreeHopStays(m: Machine, t: State, t1: State, node: NodeId, raw: RawPath, q: Path, directory: RawPath, to: Path,
                     name: Name)
    requires FreeHop(m, t, node, raw, q, directory, to, name) && t1.fs == t.fs && t1.grants == t.grants
    ensures FreeHop(m, t1, node, raw, q, directory, to, name)
  {
  }

  /** Take the file in, and move it. */
  function FirstAndSecond(next: nat, node: NodeId, raw: RawPath, directory: RawPath, name: Name): seq<Event> {
    [HostImporting(raw, OfFile), Moving(node, Handle(next, OfFile), directory, name, false, false)]
  }

  lemma HopOfTwo(m: Machine, t: State, node: NodeId, raw: RawPath, q: Path, directory: RawPath, to: Path, name: Name)
    returns (t': State)
    requires FreeHop(m, t, node, raw, q, directory, to, name)
    ensures t' == Next(m, Next(m, t, HostImporting(raw, OfFile)),
                       Moving(node, Handle(t.nextHandle, OfFile), directory, name, false, false))
    ensures t'.fs == t.fs[to + [name] := t.fs[q]] - {q} && t'.nextHandle == t.nextHandle + 1
  {
    var t1, h := Next(m, t, HostImporting(raw, OfFile)), Handle(t.nextHandle, OfFile);
    ImportedFile(m, t, raw);
    FreeHopStays(m, t, t1, node, raw, q, directory, to, name);
    HopStep(m, t1, node, h, raw, q, directory, to, name);
    t' := Next(m, t1, Moving(node, h, directory, name, false, false));
  }

  lemma LeadsOnTwice(m: Machine, s: State, es: seq<Event>, t: State, made: map<nat, NodeId>, a: Event, b: Event)
    requires Leads(m, s, es, t, made)
    requires !a.CreatingOutput? && !a.WritingOutput? && !a.ElsewhereChanging?
    requires !b.CreatingOutput? && !b.WritingOutput? && !b.ElsewhereChanging?
    ensures Leads(m, s, es + [a, b], Next(m, Next(m, t, a), b), made)
  {
    LeadsOn(m, s, es, t, made, a);
    LeadsOn(m, s, es + [a], Next(m, t, a), made, b);
    assert es + [a] + [b] == es + [a, b];
  }

  lemma TwoSteps(m: Machine, s: State, es: seq<Event>, t: State, made: map<nat, NodeId>, node: NodeId, raw: RawPath,
                 q: Path, directory: RawPath, to: Path, name: Name)
    returns (t': State)
    requires Leads(m, s, es, t, made) && FreeHop(m, t, node, raw, q, directory, to, name)
    ensures Leads(m, s, es + FirstAndSecond(t.nextHandle, node, raw, directory, name), t', made)
    ensures t'.fs == t.fs[to + [name] := t.fs[q]] - {q} && t'.nextHandle == t.nextHandle + 1
  {
    var h := Handle(t.nextHandle, OfFile);
    t' := HopOfTwo(m, t, node, raw, q, directory, to, name);
    LeadsOnTwice(m, s, es, t, made, HostImporting(raw, OfFile), Moving(node, h, directory, name, false, false));
  }

  /** Such a move to a number no entry has for its name. */
  lemma NumberedHop(m: Machine, t: State, node: NodeId, q: Path, to: Path, k: nat)
    requires ValidFs(t.fs) && Sound(m.unicode) && k < MAX_NUMBER
    requires MayHop(m, t, node, q, to) && to + [Numbered(k)] !in t.fs
    ensures FreeHop(m, t, node, RawOf(q), q, RawOf(to), to, Numbered(k))
  {
    NumberedStays(m.unicode, k);
    OwnPath(t.fs, q);
    FolderIsResolved(t.fs, to);
  }

  lemma HopIsSomeones(m: Machine, s: State, t: State, q: Path, to: Path) returns (node: NodeId)
    requires ValidFs(s.fs) && ValidFs(t.fs) && t.grants == s.grants && SameFolders(s.fs, t.fs)
    requires IsFile(t.fs, q) && Hop(m, s, Parent(q), to)
    ensures MayHop(m, t, node, q, to)
  {
    HopStays(m, s, t, Parent(q), to);
    node :| Within(WritableRoots(t, node), Parent(q)) && Within(WritableRoots(t, node), to);
  }

  lemma FreePlace(u: Unicode, fs: Fs, dir: Path, n: nat) returns (k: nat, name: Name)
    requires Sound(u) && n + |fs| < MAX_NUMBER
    ensures n <= k <= n + |fs| && name == Numbered(k) && Sanitise(u, name) == name && dir + [name] !in fs
  {
    k := FreeNumber(fs.Keys, n);
    name := Numbered(k);
    NumberedStays(u, k);
    assert |fs.Keys| == |fs|;
    assert Last(dir + [Numbered(k)]) == Numbered(k);
  }

  lemma SomePaths(fs: Fs, q: Path, to: Path) returns (raw: RawPath, directory: RawPath)
    requires ValidFs(fs) && IsFile(fs, q) && IsDir(fs, to)
    ensures LeadsTo(fs, raw, q) && ResolveDir(fs, directory) == Some(to)
  {
    raw, directory := RawOf(q), RawOf(to);
    OwnPath(fs, q);
    FolderIsResolved(fs, to);
  }

  lemma HopFrom(m: Machine, s: State, t: State, made: map<nat, NodeId>, q: Path, to: Path, name: Name)
    returns (t': State)
    requires Fresh(s) && Reached(m, s, t, made) && Sanitise(m.unicode, name) == name
    requires to + [name] !in t.fs && IsFile(t.fs, q) && Hop(m, s, Parent(q), to)
    ensures Reached(m, s, t', made) && t'.nextHandle == t.nextHandle + 1
    ensures t'.fs == t.fs[to + [name] := t.fs[q]] - {q}
  {
    ReachedIsFamiliar(m, s, t, made);
    var node := HopIsSomeones(m, s, t, q, to);
    var raw, directory := SomePaths(t.fs, q, to);
    t' := HopAlong(m, s, t, made, node, raw, q, directory, to, name);
  }

  lemma HopAlong(m: Machine, s: State, t: State, made: map<nat, NodeId>, node: NodeId, raw: RawPath, q: Path,
                 directory: RawPath, to: Path, name: Name)
    returns (t': State)
    requires Reached(m, s, t, made) && FreeHop(m, t, node, raw, q, directory, to, name)
    ensures Reached(m, s, t', made) && t'.fs == t.fs[to + [name] := t.fs[q]] - {q} && t'.nextHandle == t.nextHandle + 1
  {
    var es :| Leads(m, s, es, t, made);
    t' := TwoSteps(m, s, es, t, made, node, raw, q, directory, to, name);
  }

  /** Use up numbers until the one after the next is free in this folder. */
  lemma CountToFree(m: Machine, s: State, t: State, made: map<nat, NodeId>, dir: Path)
    returns (t': State, k: nat, name: Name)
    requires Reached(m, s, t, made) && Sound(m.unicode) && t.nextHandle + |t.fs| + 2 <= MAX_NUMBER
    ensures Reached(m, s, t', made) && t'.fs == t.fs && t'.nextHandle <= t.nextHandle + |t.fs|
    ensures t'.nextHandle + 1 == k && name == Numbered(k) && Sanitise(m.unicode, name) == name && dir + [name] !in t.fs
  {
    k, name := FreePlace(m.unicode, t.fs, dir, t.nextHandle + 1);
    t' := CountUpTo(m, s, t, made, k - 1);
  }

  /** One hop. Afterwards the next number is the one in the file's new name. */
  lemma HopTaken(m: Machine, s: State, t: State, made: map<nat, NodeId>, q: Path, to: Path)
    returns (t': State, q': Path)
    requires Fresh(s) && Reached(m, s, t, made) && Sound(m.unicode)
    requires IsFile(t.fs, q) && Hop(m, s, Parent(q), to)
    requires t.nextHandle + |t.fs| + 2 <= MAX_NUMBER
    ensures Reached(m, s, t', made) && t'.nextHandle <= t.nextHandle + |t.fs| + 1
    ensures q' == to + [Numbered(t'.nextHandle)] && q' !in t.fs && t'.fs == t.fs[q' := t.fs[q]] - {q}
  {
    var t0, k, name := CountToFree(m, s, t, made, to);
    t' := HopFrom(m, s, t0, made, q, to, name);
    q' := to + [name];
  }

  // -- writing over it ------------------------------------------------------------------------------------------

  lemma CreatedNumber(m: Machine, t: State, node: NodeId)
    requires Sound(m.unicode) && ResolveDir(t.fs, t.runDir).Some?
    ensures var (t1, o) := CreateOutput(m, t, node, OfFile, X, false);
            && o == Done(Handle(t.nextHandle, OfFile)) && t1.fs == t.fs && t1.nextHandle == t.nextHandle + 1
            && t.nextHandle in t1.handles && t1.handles[t.nextHandle].path == t.runDir + [Down(Numbered(t.nextHandle))]
            && CanReach(t1, node, t.nextHandle)
  {
    XIsKept(m.unicode);
  }

  lemma WrittenOver(t: State, node: NodeId, h: Handle, dir: Path, name: Name, bytes: Bytes)
    requires h.id in t.handles && CanReach(t, node, h.id) && t.handles[h.id].path == t.runDir + [Down(name)]
    requires ResolveDir(t.fs, t.runDir) == Some(dir) && IsFile(t.fs, dir + [name])
    ensures var t' := WriteOutput(t, node, h, bytes, false).0;
            t'.fs == t.fs[dir + [name] := File(bytes)] && t'.nextHandle == t.nextHandle
  {
    NameInFolder(t.fs, t.runDir, dir, name);
  }

  /** Ask for a scratch file, and write it. */
  function ThirdAndFourth(next: nat, node: NodeId, bytes: Bytes): seq<Event> {
    [CreatingOutput(node, OfFile, X, false), WritingOutput(node, Handle(next, OfFile), bytes, false)]
  }

  lemma ThirdStep(m: Machine, s: State, es: seq<Event>, t: State, made: map<nat, NodeId>, node: NodeId, name: Name)
    returns (t': State)
    requires Familiar(s, t, made) && Sound(m.unicode) && Leads(m, s, es, t, made) && name == Numbered(t.nextHandle)
    ensures Leads(m, s, es + [CreatingOutput(node, OfFile, X, false)], t', made[t.nextHandle := node])
    ensures t'.fs == t.fs && t'.nextHandle == t.nextHandle + 1 && t.nextHandle in t'.handles
    ensures CanReach(t', node, t.nextHandle) && ResolveDir(t'.fs, t'.runDir) == Some(RunRoot(s))
    ensures t'.handles[t.nextHandle].path == t'.runDir + [Down(name)]
  {
    var e := CreatingOutput(node, OfFile, X, false);
    CreatedNumber(m, t, node);
    CreatingKeepsGrants(m, t, node, OfFile, X, false);
    LeadsOn(m, s, es, t, made, e);
    t' := Next(m, t, e);
  }

  lemma FourthStep(m: Machine, s: State, es: seq<Event>, t: State, made: map<nat, NodeId>, node: NodeId, bytes: Bytes,
                   dir: Path, k: nat, name: Name)
    returns (t': State)
    requires Leads(m, s, es, t, made) && k in made && made[k] == node && k in t.handles && CanReach(t, node, k)
    requires t.handles[k].path == t.runDir + [Down(name)]
    requires ResolveDir(t.fs, t.runDir) == Some(dir) && IsFile(t.fs, dir + [name])
    ensures Leads(m, s, es + [WritingOutput(node, Handle(k, OfFile), bytes, false)], t', made)
    ensures t'.fs == t.fs[dir + [name] := File(bytes)] && t'.nextHandle == t.nextHandle
  {
    var e := WritingOutput(node, Handle(k, OfFile), bytes, false);
    WrittenOver(t, node, Handle(k, OfFile), dir, name, bytes);
    LeadsOn(m, s, es, t, made, e);
    t' := Next(m, t, e);
  }

  /** What had the next number's name in the run's directory is written over. */
  lemma TwoMoreSteps(m: Machine, s: State, es: seq<Event>, t: State, made: map<nat, NodeId>, node: NodeId, bytes: Bytes,
                     name: Name)
    returns (t': State, made': map<nat, NodeId>)
    requires Familiar(s, t, made) && Sound(m.unicode) && Leads(m, s, es, t, made)
    requires name == Numbered(t.nextHandle) && IsFile(t.fs, RunRoot(s) + [name])
    ensures Leads(m, s, es + ThirdAndFourth(t.nextHandle, node, bytes), t', made')
    ensures t'.nextHandle == t.nextHandle + 1 && t'.fs == t.fs[RunRoot(s) + [name] := File(bytes)]
  {
    var k := t.nextHandle;
    var longer := es + [CreatingOutput(node, OfFile, X, false)];
    assert longer + [WritingOutput(node, Handle(k, OfFile), bytes, false)] == es + ThirdAndFourth(k, node, bytes);
    made' := made[k := node];
    var t1 := ThirdStep(m, s, es, t, made, node, name);
    t' := FourthStep(m, s, longer, t1, made', node, bytes, RunRoot(s), k, name);
  }

  // -- one file at a time ---------------------------------------------------------------------------------------

  function Holders(fs: Fs, bytes: Bytes): set<Path> {
    set q | q in fs && fs[q].File? && fs[q].bytes == bytes
  }

  lemma MovedHolders(fs: Fs, q: Path, q': Path, bytes: Bytes)
    requires q in Holders(fs, bytes) && q' !in fs
    ensures var fs' := fs[q' := fs[q]] - {q};
            Holders(fs', bytes) == Holders(fs, bytes) - {q} + {q'} && |fs'| == |fs|
  {
    var fs' := fs[q' := fs[q]] - {q};
    assert fs'.Keys == fs.Keys - {q} + {q'};
    assert |fs'.Keys| == |fs.Keys|;
  }

  lemma OverwrittenHolders(fs: Fs, q: Path, bytes: Bytes, other: Bytes)
    requires q in fs && other != bytes
    ensures var fs' := fs[q := File(other)];
            Holders(fs', bytes) == Holders(fs, bytes) - {q} && |fs'| == |fs|
  {
    assert fs[q := File(other)].Keys == fs.Keys;
  }

  /** One hop, as far as these bytes are concerned. */
  lemma HopOfHolder(m: Machine, s: State, t: State, made: map<nat, NodeId>, q: Path, to: Path, bytes: Bytes)
    returns (t': State, q': Path)
    requires Fresh(s) && Reached(m, s, t, made) && Sound(m.unicode)
    requires q in Holders(t.fs, bytes) && Hop(m, s, Parent(q), to)
    requires t.nextHandle + |t.fs| + 2 <= MAX_NUMBER
    ensures Reached(m, s, t', made) && t'.nextHandle <= t.nextHandle + |t.fs| + 1 && |t'.fs| == |t.fs|
    ensures q' == to + [Numbered(t'.nextHandle)] && q' in Holders(t'.fs, bytes)
    ensures Holders(t'.fs, bytes) - {q'} == Holders(t.fs, bytes) - {q}
  {
    t', q' := HopTaken(m, s, t, made, q, to);
    MovedHolders(t.fs, q, q', bytes);
    assert q' !in Holders(t.fs, bytes);
  }

  lemma HolderOverwritten(m: Machine, s: State, t: State, made: map<nat, NodeId>, bytes: Bytes, other: Bytes)
    returns (t': State, made': map<nat, NodeId>)
    requires Fresh(s) && Reached(m, s, t, made) && Sound(m.unicode) && other != bytes
    requires RunRoot(s) + [Numbered(t.nextHandle)] in Holders(t.fs, bytes)
    ensures Reached(m, s, t', made') && t'.nextHandle == t.nextHandle + 1 && |t'.fs| == |t.fs|
    ensures Holders(t'.fs, bytes) == Holders(t.fs, bytes) - {RunRoot(s) + [Numbered(t.nextHandle)]}
  {
    ReachedIsFamiliar(m, s, t, made);
    var es :| Leads(m, s, es, t, made);
    t', made' := TwoMoreSteps(m, s, es, t, made, "", other, Numbered(t.nextHandle));
    OverwrittenHolders(t.fs, RunRoot(s) + [Numbered(t.nextHandle)], bytes, other);
  }

  /** How many numbers are used up at most, at `toll` each. */
  function Times(count: nat, toll: nat): nat {
    if count == 0 then 0 else toll + Times(count - 1, toll)
  }

  lemma TimesOne(toll: nat)
    ensures Times(1, toll) == toll
  {
    assert Times(0, toll) == 0;
  }

  /** The last hop, and the overwriting. */
  lemma LastOfMarch(m: Machine, s: State, t: State, made: map<nat, NodeId>, q: Path, bytes: Bytes, other: Bytes)
    returns (t': State, made': map<nat, NodeId>)
    requires Fresh(s) && Reached(m, s, t, made) && Sound(m.unicode) && other != bytes
    requires q in Holders(t.fs, bytes) && Hop(m, s, Parent(q), RunRoot(s))
    requires t.nextHandle + |t.fs| + 2 <= MAX_NUMBER
    ensures Reached(m, s, t', made') && t'.nextHandle <= t.nextHandle + |t.fs| + 2
    ensures Holders(t'.fs, bytes) == Holders(t.fs, bytes) - {q} && |t'.fs| == |t.fs|
  {
    var t1, q1 := HopOfHolder(m, s, t, made, q, RunRoot(s), bytes);
    t', made' := HolderOverwritten(m, s, t1, made, bytes, other);
  }

  lemma ParentOf(p: Path, folder: Path, name: Name)
    requires p == folder + [name]
    ensures Parent(p) == folder
  {
  }

  lemma RestOfRoute(m: Machine, s: State, route: seq<Path>)
    requires Linked(m, s, route)
    ensures |route| == 1 ==> Hop(m, s, route[0], RunRoot(s))
    ensures |route| > 1 ==> Hop(m, s, route[0], route[1]) && Linked(m, s, route[1..])
  {
  }

  /** The first of several hops. */
  lemma FirstOfMarch(m: Machine, s: State, t: State, made: map<nat, NodeId>, q: Path, route: seq<Path>, bytes: Bytes)
    returns (t': State, q': Path)
    requires Fresh(s) && Reached(m, s, t, made) && Sound(m.unicode)
    requires q in Holders(t.fs, bytes) && |route| > 1 && Linked(m, s, route) && route[0] == Parent(q)
    requires t.nextHandle + |t.fs| + 2 <= MAX_NUMBER
    ensures Reached(m, s, t', made) && t'.nextHandle <= t.nextHandle + |t.fs| + 1 && |t'.fs| == |t.fs|
    ensures q' in Holders(t'.fs, bytes) && Holders(t'.fs, bytes) - {q'} == Holders(t.fs, bytes) - {q}
    ensures Linked(m, s, route[1..]) && route[1..][0] == Parent(q')
  {
    RestOfRoute(m, s, route);
    t', q' := HopOfHolder(m, s, t, made, q, route[1], bytes);
    ParentOf(q', route[1], Numbered(t'.nextHandle));
  }

  lemma TollPaid(next: nat, next1: nat, count: nat, toll: nat)
    requires count > 0 && next1 <= next + toll
    ensures next1 + Times(count - 1, toll) <= next + Times(count, toll)
  {
  }

  /** Along its route a file comes to lie in the run's directory, and is written over there. */
  lemma {:induction false} March(m: Machine, s: State, t: State, made: map<nat, NodeId>, q: Path, route: seq<Path>,
                                 bytes: Bytes, other: Bytes, hops: nat, size: nat, toll: nat)
    returns (t': State, made': map<nat, NodeId>)
    requires Fresh(s) && Reached(m, s, t, made) && Sound(m.unicode) && other != bytes
    requires q in Holders(t.fs, bytes) && Linked(m, s, route) && route[0] == Parent(q)
    requires |route| == hops && |t.fs| == size && toll == size + 1 && t.nextHandle + Times(hops, toll) + 1 <= MAX_NUMBER
    ensures Reached(m, s, t', made') && t'.nextHandle <= t.nextHandle + Times(hops, toll) + 1
    ensures Holders(t'.fs, bytes) == Holders(t.fs, bytes) - {q} && |t'.fs| == size
    decreases hops
  {
    if hops == 1 {
      RestOfRoute(m, s, route);
      TimesOne(toll);
      t', made' := LastOfMarch(m, s, t, made, q, bytes, other);
    } else {
      var t1, q1 := FirstOfMarch(m, s, t, made, q, route, bytes);
      TollPaid(t.nextHandle, t1.nextHandle, hops, toll);
      t', made' := March(m, s, t1, made, q1, route[1..], bytes, other, hops - 1, size, toll);
    }
  }

  // -- all of them ------------------------------------------------------------------------------------------------

  /** No route is longer than there are folders. */
  lemma RouteIsShort(m: Machine, s: State, route: seq<Path>)
    requires Route(m, s, route)
    ensures |route| <= |s.fs| + 1
  {
    var folders := s.fs.Keys + {[]};
    RouteOfFolders(m, s, route);
    DistinctSize(route, folders);
  }

  lemma {:induction false} RouteOfFolders(m: Machine, s: State, route: seq<Path>)
    requires Linked(m, s, route)
    ensures forall p :: p in route ==> p in s.fs.Keys + {[]}
  {
    assert IsDir(s.fs, route[0]);
    assert forall p :: p in route <==> p == route[0] || p in route[1..];
    if |route| > 1 {
      RouteOfFolders(m, s, route[1..]);
    }
  }

  lemma {:induction false} DistinctSize<T>(items: seq<T>, all: set<T>)
    requires Distinct(items) && forall x :: x in items ==> x in all
    ensures |items| <= |all|
  {
    if items != [] {
      DistinctTail(items);
      assert items[0] !in items[1..];
      DistinctSize(items[1..], all - {items[0]});
    }
  }

  /** What it costs to send one file through any route. */
  function Toll(size: nat): nat {
    Times(size + 1, size + 1) + 1
  }

  lemma {:induction false} TimesGrows(a: nat, b: nat, toll: nat)
    requires a <= b
    ensures Times(a, toll) <= Times(b, toll)
    decreases b
  {
    if a < b {
      TimesGrows(a, b - 1, toll);
    }
  }

  /** The route of each file that holds the bytes: its folder's, or, in the run's directory itself, the hop from
      there to there that the last hop of any other route proves possible. */
  ghost predicate AllRouted(m: Machine, s: State, paths: set<Path>) {
    forall q :: q in paths ==> HasRoute(m, s, Parent(q))
  }

  lemma MarchOne(m: Machine, s: State, t: State, made: map<nat, NodeId>, q: Path, bytes: Bytes, other: Bytes, size: nat)
    returns (t': State, made': map<nat, NodeId>)
    requires Fresh(s) && Reached(m, s, t, made) && Sound(m.unicode) && other != bytes && |t.fs| == size == |s.fs|
    requires q in Holders(t.fs, bytes) && HasRoute(m, s, Parent(q)) && t.nextHandle + Toll(size) <= MAX_NUMBER
    ensures Reached(m, s, t', made') && t'.nextHandle <= t.nextHandle + Toll(size)
    ensures Holders(t'.fs, bytes) == Holders(t.fs, bytes) - {q} && |t'.fs| == size
  {
    var route :| Route(m, s, route) && route[0] == Parent(q);
    RouteIsShort(m, s, route);
    TimesGrows(|route|, size + 1, size + 1);
    t', made' := March(m, s, t, made, q, route, bytes, other, |route|, size, size + 1);
  }

  lemma OneLess<T>(all: set<T>, x: T)
    requires x in all
    ensures |all - {x}| == |all| - 1
  {
  }

  lemma FewerRouted(m: Machine, s: State, paths: set<Path>, q: Path)
    requires AllRouted(m, s, paths)
    ensures AllRouted(m, s, paths - {q})
  {
  }

  /** One file of those that hold the bytes is written over, and the others are as they were. */
  lemma MarchAny(m: Machine, s: State, t: State, made: map<nat, NodeId>, bytes: Bytes, other: Bytes, size: nat,
                 toll: nat)
    returns (t': State, made': map<nat, NodeId>)
    requires Fresh(s) && Reached(m, s, t, made) && Sound(m.unicode) && other != bytes && |t.fs| == size == |s.fs|
    requires AllRouted(m, s, Holders(t.fs, bytes)) && |Holders(t.fs, bytes)| > 0
    requires toll == Toll(size) && t.nextHandle + toll <= MAX_NUMBER
    ensures Reached(m, s, t', made') && t'.nextHandle <= t.nextHandle + toll && |t'.fs| == size
    ensures AllRouted(m, s, Holders(t'.fs, bytes)) && |Holders(t'.fs, bytes)| == |Holders(t.fs, bytes)| - 1
  {
    var all := Holders(t.fs, bytes);
    var q :| q in all;
    t', made' := MarchOne(m, s, t, made, q, bytes, other, size);
    OneLess(all, q);
    FewerRouted(m, s, all, q);
  }

  lemma {:induction false} MarchAll(m: Machine, s: State, t: State, made: map<nat, NodeId>, bytes: Bytes, other: Bytes,
                                    count: nat, size: nat, toll: nat)
    returns (t': State, made': map<nat, NodeId>)
    requires Fresh(s) && Reached(m, s, t, made) && Sound(m.unicode) && other != bytes && |t.fs| == size == |s.fs|
    requires AllRouted(m, s, Holders(t.fs, bytes)) && count == |Holders(t.fs, bytes)| > 0
    requires toll == Toll(size) && t.nextHandle + Times(count, toll) <= MAX_NUMBER
    ensures Reached(m, s, t', made') && |Holders(t'.fs, bytes)| == 0
    decreases count
  {
    TollPaid(0, toll, count, toll);
    var t1, made1 := MarchAny(m, s, t, made, bytes, other, size, toll);
    if count == 1 {
      t', made' := t1, made1;
    } else {
      TollPaid(t.nextHandle, t1.nextHandle, count, toll);
      t', made' := MarchAll(m, s, t1, made1, bytes, other, count - 1, size, toll);
    }
  }

  lemma NothingHolds(m: Machine, s: State, t: State, made: map<nat, NodeId>, bytes: Bytes)
    requires Reached(m, s, t, made) && |Holders(t.fs, bytes)| == 0
    ensures CanBeLost(m, s, bytes)
  {
    var es :| Leads(m, s, es, t, made);
    forall q ensures !Holds(t.fs, q, bytes) {
      assert Holds(t.fs, q, bytes) ==> q in Holders(t.fs, bytes);
    }
  }

  // -- room for the numbers ---------------------------------------------------------------------------------------

  lemma {:induction false} TimesIsProduct(count: nat, toll: nat)
    ensures Times(count, toll) == count * toll
  {
    if count > 0 {
      TimesIsProduct(count - 1, toll);
    }
  }

  lemma Product(a: nat, b: nat, c: nat, d: nat)
    requires a <= c && b <= d
    ensures a * b <= c * d
  {
    assert a * b <= c * b;
    assert c * b <= c * d;
  }

  const MANY: nat := 0x1_0000_0000_0000_0000

  /** A disk of fewer than 2^64 entries leaves room for every number a losing run uses. */
  lemma RoomForNumbers(size: nat, count: nat)
    requires size < MANY && count <= size
    ensures 1 + Times(count, Toll(size)) <= MAX_NUMBER
  {
    TimesIsProduct(size + 1, size + 1);
    TimesIsProduct(count, Toll(size));
    Product(size + 1, size + 1, MANY, MANY);
    Product(count, Toll(size), MANY, MANY * MANY + 1);
    HundredDigits();
  }

  lemma {:induction false} Pow10Adds(a: nat, b: nat)
    ensures Pow10(a + b) == Pow10(a) * Pow10(b)
  {
    if a > 0 {
      Pow10Adds(a - 1, b);
    }
  }

  lemma FiveTimesTheDigits(many: nat, digits: nat)
    requires 2 <= many <= Pow10(digits)
    ensures many * (many * many + 1) + 2 <= Pow10(5 * digits)
  {
    Pow10Adds(digits, digits);
    Pow10Adds(digits + digits, digits + digits);
    Pow10Adds(digits + digits + (digits + digits), digits);
    assert digits + digits + (digits + digits) + digits == 5 * digits;
    BelowFifthPower(many, Pow10(digits));
  }

  lemma BelowFifthPower(many: nat, top: nat)
    requires 2 <= many <= top
    ensures many * (many * many + 1) + 2 <= top * top * (top * top) * top
  {
    Product(many, many, top, top);
    Cubed(many, top);
    FifthPower(top);
  }

  lemma Cubed(many: nat, top: nat)
    requires many <= top && many * many <= top * top
    ensures many * (many * many + 1) <= top * (top * top + 1)
  {
    Product(many, many * many + 1, top, top * top + 1);
  }

  lemma FifthPower(top: nat)
    requires 2 <= top
    ensures top * (top * top + 1) + 2 <= top * top * (top * top) * top
  {
    var square := top * top;
    Product(2, 2, top, top);
    Product(4, square, square, square);
    Product(4 * square, top, square * square, top);
    Product(1, square, top, square);
    Product(square, 2, square, top);
    assert top * (square + 1) == square * top + top;
    assert 4 * square * top == 4 * (square * top);
    Product(1, top, square, top);
    assert square * square * top == top * top * (top * top) * top;
  }

  lemma TwentyDigits()
    ensures MANY <= Pow10(20)
  {
    assert Pow10(5) == 100000 by {
      assert Pow10(1) == 10 && Pow10(2) == 100 && Pow10(3) == 1000 && Pow10(4) == 10000;
    }
    Pow10Adds(5, 5);
    Pow10Adds(10, 10);
  }

  lemma HundredDigits()
    ensures MANY * (MANY * MANY + 1) + 2 <= MAX_NUMBER
  {
    TwentyDigits();
    FiveTimesTheDigits(MANY, 20);
  }

  lemma {:induction false} RunRootIsRouted(m: Machine, s: State, route: seq<Path>)
    requires Linked(m, s, route)
    ensures HasRoute(m, s, RunRoot(s))
  {
    if |route| == 1 {
      assert Hop(m, s, route[0], RunRoot(s));
      assert Hop(m, s, RunRoot(s), RunRoot(s));
      LastHop(m, s, RunRoot(s));
    } else {
      RunRootIsRouted(m, s, route[1..]);
    }
  }

  /** For every file outside the run's directory, on every disk of fewer than 2^64 entries: some run in which
      every component keeps to its own handles, and nobody else is at the disk, ends with its bytes nowhere, if
      and only if every file that holds them, but for those directly in the run's directory, lies in a folder
      from which hops between granted folders lead to the run's directory itself. */
  lemma LossExactly(m: Machine, s: State, p: Path)
    requires Fresh(s) && Sound(m.unicode) && |s.fs| < MANY
    requires IsFile(s.fs, p) && !(RunRoot(s) <= p)
    ensures CanBeLost(m, s, s.fs[p].bytes) <==> AllHaveRoutes(m, s, s.fs[p].bytes)
  {
    var bytes := s.fs[p].bytes;
    if CanBeLost(m, s, bytes) {
      LossNeedsRoutes(m, s, bytes);
    }
    if AllHaveRoutes(m, s, bytes) {
      AllAreRouted(m, s, p);
      assert p in Holders(s.fs, bytes);
      RoutedIsLost(m, s, bytes, Holders(s.fs, bytes), |s.fs|);
    }
  }

  lemma RoutedIsLost(m: Machine, s: State, bytes: Bytes, all: set<Path>, size: nat)
    requires Fresh(s) && Sound(m.unicode) && size == |s.fs| < MANY
    requires all == Holders(s.fs, bytes) && all != {} && AllRouted(m, s, all)
    ensures CanBeLost(m, s, bytes)
  {
    ReachedAtFirst(m, s);
    SubsetIsNoLarger(all, s.fs.Keys);
    assert |s.fs.Keys| == size;
    RoomForNumbers(size, |all|);
    var t, made := MarchAll(m, s, s, map[], bytes, if bytes == [] then [0] else [], |all|, size, Toll(size));
    NothingHolds(m, s, t, made, bytes);
  }

  lemma AllAreRouted(m: Machine, s: State, p: Path)
    requires IsFile(s.fs, p) && !(RunRoot(s) <= p) && AllHaveRoutes(m, s, s.fs[p].bytes)
    ensures AllRouted(m, s, Holders(s.fs, s.fs[p].bytes))
  {
    OutsideIsNotIn(RunRoot(s), p);
    assert Holds(s.fs, p, s.fs[p].bytes);
    var route :| Route(m, s, route) && route[0] == Parent(p);
    RunRootIsRouted(m, s, route);
    forall q | q in Holders(s.fs, s.fs[p].bytes) ensures HasRoute(m, s, Parent(q)) {
      assert Holds(s.fs, q, s.fs[p].bytes);
    }
  }

  lemma OutsideIsNotIn(root: Path, p: Path)
    requires !(root <= p)
    ensures Parent(p) != root
  {
  }

  // -- on the grants ------------------------------------------------------------------------------------------------

  /** Some node may write into the run's directory itself. */
  ghost predicate SomeoneMayWriteThere(m: Machine, s: State) {
    && !Within(ForbiddenTrees(s.fs, m.startupFolders), RunRoot(s))
    && exists node :: Within(WritableRoots(s, node), RunRoot(s))
  }

  /** So nothing is ever lost where no node may write into the run's directory itself, whatever else is granted
      around it or inside it. */
  lemma NoGrantNoLoss(m: Machine, s: State, p: Path)
    requires Fresh(s) && IsFile(s.fs, p) && !(RunRoot(s) <= p) && !SomeoneMayWriteThere(m, s)
    ensures !CanBeLost(m, s, s.fs[p].bytes)
  {
    OutsideIsNotIn(RunRoot(s), p);
    if CanBeLost(m, s, s.fs[p].bytes) {
      LossNeedsRoutes(m, s, s.fs[p].bytes);
      assert Holds(s.fs, p, s.fs[p].bytes);
      var route :| Route(m, s, route) && route[0] == Parent(p);
      NobodyNoRoute(m, s, route);
    }
  }

  lemma {:induction false} NobodyNoRoute(m: Machine, s: State, route: seq<Path>)
    requires Linked(m, s, route)
    ensures SomeoneMayWriteThere(m, s)
  {
    if |route| == 1 {
      assert Hop(m, s, route[0], RunRoot(s));
    } else {
      NobodyNoRoute(m, s, route[1..]);
    }
  }

  /** And a file whose bytes stand nowhere else can be lost as soon as one node may take from its folder and
      write into the run's directory. */
  lemma OneNodeIsEnough(m: Machine, s: State, p: Path, node: NodeId)
    requires Fresh(s) && Sound(m.unicode) && |s.fs| < MANY
    requires IsFile(s.fs, p) && !(RunRoot(s) <= p)
    requires forall q :: Holds(s.fs, q, s.fs[p].bytes) ==> q == p
    requires Within(WritableRoots(s, node), Parent(p)) && Within(WritableRoots(s, node), RunRoot(s))
    requires !Within(ForbiddenTrees(s.fs, m.startupFolders), RunRoot(s))
    ensures CanBeLost(m, s, s.fs[p].bytes)
  {
    HopOf(m, s, node, Parent(p), RunRoot(s));
    LastHop(m, s, Parent(p));
    LossExactly(m, s, p);
  }

  // -- the shortest losing run --------------------------------------------------------------------------------------

  /** Take the file in, move it into the run's directory under the number after its own, ask for that scratch file
      and write it. */
  function FourSteps(next: nat, node: NodeId, raw: RawPath, directory: RawPath, name: Name, bytes: Bytes): seq<Event> {
    FirstAndSecond(next, node, raw, directory, name) + ThirdAndFourth(next + 1, node, bytes)
  }

  lemma Replaced(fs: Fs, q: Path, q': Path, bytes: Bytes)
    requires q' !in fs && IsFile(fs, q)
    ensures var fs' := fs[q' := fs[q]] - {q};
            IsFile(fs', q') && fs'[q' := File(bytes)] == (fs - {q})[q' := File(bytes)]
  {
  }

  lemma HalfWay(m: Machine, s: State, node: NodeId, raw: RawPath, q: Path, directory: RawPath, name: Name,
                bytes: Bytes)
    returns (t: State)
    requires Fresh(s) && FreeHop(m, s, node, raw, q, directory, RunRoot(s), name)
    ensures Leads(m, s, FirstAndSecond(s.nextHandle, node, raw, directory, name), t, map[]) && Familiar(s, t, map[])
    ensures IsFile(t.fs, RunRoot(s) + [name]) && t.nextHandle == s.nextHandle + 1
    ensures t.fs[RunRoot(s) + [name] := File(bytes)] == (s.fs - {q})[RunRoot(s) + [name] := File(bytes)]
  {
    Replaced(s.fs, q, RunRoot(s) + [name], bytes);
    var half := FirstAndSecond(s.nextHandle, node, raw, directory, name);
    assert [] + half == half;
    ReachedAtFirst(m, s);
    t := TwoSteps(m, s, [], s, map[], node, raw, q, directory, RunRoot(s), name);
    assert Reached(m, s, t, map[]);
    ReachedIsFamiliar(m, s, t, map[]);
  }

  lemma OtherHalf(m: Machine, s: State, half: seq<Event>, t: State, node: NodeId, name: Name, bytes: Bytes, next: nat)
    returns (t': State, made: map<nat, NodeId>)
    requires Leads(m, s, half, t, map[]) && Familiar(s, t, map[]) && Sound(m.unicode) && t.nextHandle == next
    requires name == Numbered(next) && IsFile(t.fs, RunRoot(s) + [name])
    ensures Leads(m, s, half + ThirdAndFourth(next, node, bytes), t', made)
    ensures t'.fs == t.fs[RunRoot(s) + [name] := File(bytes)]
  {
    t', made := TwoMoreSteps(m, s, half, t, map[], node, bytes, name);
  }

  /** Wherever a node may take a file from its folder and put it into the run's directory, these four steps, in
      which it writes to no handle but its own, leave what it wrote in place of what the file held. */
  lemma FourStepsOverwrite(m: Machine, s: State, node: NodeId, raw: RawPath, q: Path, directory: RawPath, name: Name,
                           bytes: Bytes, next: nat)
    returns (t: State, made: map<nat, NodeId>)
    requires Fresh(s) && Sound(m.unicode) && next == s.nextHandle + 1 && name == Numbered(next)
    requires FreeHop(m, s, node, raw, q, directory, RunRoot(s), name)
    ensures Leads(m, s, FirstAndSecond(s.nextHandle, node, raw, directory, name) + ThirdAndFourth(next, node, bytes),
                  t, made)
    ensures t.fs == (s.fs - {q})[RunRoot(s) + [name] := File(bytes)]
  {
    var half := FirstAndSecond(s.nextHandle, node, raw, directory, name);
    var t1 := HalfWay(m, s, node, raw, q, directory, name, bytes);
    t, made := OtherHalf(m, s, half, t1, node, name, bytes, next);
  }

  const HOME: Path := [['u']]
  const RUN: Path := [['u'], ['r']]
  const NOTES: Path := [['u'], ['f']]

  /** A user's folder with the run's directory and one file in it, and a node that may write into the folder. */
  function SharedFolder(node: NodeId): State {
    State(map[node := [Grant(FsWrite, Directory(RawOf(HOME)))]], map[], 1, RawOf(RUN), map[], map[],
          map[HOME := Dir, RUN := Dir, NOTES := File([1])])
  }

  lemma SharedFolderIsFresh(node: NodeId)
    ensures Fresh(SharedFolder(node)) && RunRoot(SharedFolder(node)) == RUN
  {
    var s := SharedFolder(node);
    assert Parent(HOME) == [] && Parent(RUN) == HOME && Parent(NOTES) == HOME;
    assert ValidFs(s.fs);
    FolderIsResolved(s.fs, RUN);
    forall name: Name ensures RUN + [name] !in s.fs {
      assert |RUN + [name]| == 3 && |HOME| == 1 && |RUN| == 2 && |NOTES| == 2;
    }
  }

  lemma OneGrantOneRoot(fs: Fs, folder: RawPath, root: Path)
    requires ResolveDir(fs, folder) == Some(root)
    ensures var all := [Grant(FsWrite, Directory(folder))];
            Filter((g: Grant) => g.kind == FsWrite, all) == all && GrantedFolders(fs, all) == [root]
  {
    var all := [Grant(FsWrite, Directory(folder))];
    assert all[1..] == [];
    assert Filter((g: Grant) => g.kind == FsWrite, all[1..]) == [];
    assert GrantedFolders(fs, all[1..]) == [];
  }

  lemma SharedFolderIsGranted(m: Machine, node: NodeId)
    requires m.startupFolders == []
    ensures MayHop(m, SharedFolder(node), node, NOTES, RUN)
  {
    var s := SharedFolder(node);
    SharedFolderIsFresh(node);
    FolderIsResolved(s.fs, HOME);
    OneGrantOneRoot(s.fs, RawOf(HOME), HOME);
    assert WritableRoots(s, node) == [HOME];
    assert HOME in WritableRoots(s, node) && HOME <= HOME && HOME <= RUN && Parent(NOTES) == HOME;
  }

  lemma SharedFolderHop(m: Machine, node: NodeId)
    requires Sound(m.unicode) && m.startupFolders == []
    ensures FreeHop(m, SharedFolder(node), node, RawOf(NOTES), NOTES, RawOf(RUN), RUN, Numbered(2))
  {
    var s, target := SharedFolder(node), RUN + [Numbered(2)];
    SharedFolderIsFresh(node);
    SharedFolderIsGranted(m, node);
    HundredDigits();
    assert target !in s.fs by {
      assert |target| == 3;
    }
    NumberedHop(m, s, node, NOTES, RUN, 2);
  }

  lemma NothingLeft(fs: Fs, name: Name)
    requires fs == map[HOME := Dir, RUN := Dir, NOTES := File([1])]
    ensures var fs' := (fs - {NOTES})[RUN + [name] := File([9])]; forall q :: !Holds(fs', q, [1])
  {
  }

  /** There four disciplined steps with nobody else at the disk are enough, and the user's file is gone: no file
      holds its bytes any more. */
  lemma LosingRun(m: Machine, node: NodeId) returns (t: State)
    requires Sound(m.unicode) && m.startupFolders == []
    ensures var s, es := SharedFolder(node), FourSteps(1, node, RawOf(NOTES), RawOf(RUN), Numbered(2), [9]);
            && Fresh(s) && IsFile(s.fs, NOTES) && s.fs[NOTES].bytes == [1] && !(RunRoot(s) <= NOTES)
            && DisciplinedRun(m, s, es) && Calm(es) && t == Run(m, s, es)
    ensures forall q :: !Holds(t.fs, q, [1])
  {
    var s := SharedFolder(node);
    SharedFolderIsFresh(node);
    SharedFolderHop(m, node);
    var made;
    t, made := FourStepsOverwrite(m, s, node, RawOf(NOTES), NOTES, RawOf(RUN), Numbered(2), [9], 2);
    NothingLeft(s.fs, Numbered(2));
  }
}
