/** The filesystem the broker works on: a finite map from canonical paths to entries, and the way
    the operating system turns a written path into one of them. Links are followed in the middle
    of a path and at its end, `..` goes to the real parent, and a chain of links longer than the
    system allows resolves to nothing. */
module FileSystem {
  import opened Common

  type Name = string

  /** An absolute path after every link and `..` has been resolved. The root is `[]`. */
  type Path = seq<Name>

  datatype Component = Up | Down(name: Name)

  /** An absolute path as somebody wrote it (the model of `PathBuf`). */
  type RawPath = seq<Component>

  datatype Entry =
    | File(bytes: Bytes)
    | Dir
    | Link(absolute: bool, target: RawPath)

  type Fs = map<Path, Entry>

  /** How many links one resolution may follow before the system gives up (ELOOP on Linux). */
  const MAX_LINKS: nat := 40

  predicate IsDir(fs: Fs, p: Path) {
    p == [] || (p in fs && fs[p].Dir?)
  }

  predicate IsFile(fs: Fs, p: Path) {
    p in fs && fs[p].File?
  }

  /** A place resolution can end: the root, a folder or a file, never a link. */
  predicate Settled(fs: Fs, p: Path) {
    p == [] || (p in fs && !fs[p].Link?)
  }

  function Parent(p: Path): Path {
    if p == [] then [] else Front(p)
  }

  /** Every entry lies in a folder. */
  ghost predicate ValidFs(fs: Fs) {
    [] !in fs && forall p :: p in fs ==> IsDir(fs, Parent(p))
  }

  /** Where a path leads: an existing entry, a free name in an existing folder, or nowhere. */
  datatype Destination = At(path: Path) | Absent(path: Path) | Nowhere

  function Walk(fs: Fs, cur: Path, rest: RawPath, links: nat): Destination
    decreases links, |rest|
  {
    if rest == [] then At(cur)
    else if !IsDir(fs, cur) then Nowhere
    else match rest[0]
      case Up => Walk(fs, Parent(cur), rest[1..], links)
      case Down(name) =>
        var p := cur + [name];
        if p !in fs then (if |rest| == 1 then Absent(p) else Nowhere)
        else if fs[p].Link? then
          if links == 0 then Nowhere
          else Walk(fs, LinkBase(fs[p], cur), fs[p].target + rest[1..], links - 1)
        else Walk(fs, p, rest[1..], links)
  }

  function LinkBase(link: Entry, folder: Path): Path
    requires link.Link?
  {
    if link.absolute then [] else folder
  }

  function Resolve(fs: Fs, raw: RawPath): Destination {
    Walk(fs, [], raw, MAX_LINKS)
  }

  /** `std::fs::canonicalize`. */
  function Canonicalize(fs: Fs, raw: RawPath): Option<Path> {
    match Resolve(fs, raw)
    case At(p) => Some(p)
    case _ => None
  }

  /** A canonical path written out again. */
  function RawOf(p: Path): (raw: RawPath)
    ensures |raw| == |p|
  {
    if p == [] then [] else [Down(p[0])] + RawOf(p[1..])
  }

  /** `std::fs::read`, following links. */
  function ReadFile(fs: Fs, raw: RawPath): Option<Bytes> {
    match Resolve(fs, raw)
    case At(p) => if IsFile(fs, p) then Some(fs[p].bytes) else None
    case _ => None
  }

  /** `std::fs::write`: truncates what it finds and creates what it does not, following links.
      `None` when the system refuses. */
  function WriteFile(fs: Fs, raw: RawPath, bytes: Bytes): Option<Fs> {
    match Resolve(fs, raw)
    case At(p) => if IsFile(fs, p) then Some(fs[p := File(bytes)]) else None
    case Absent(p) => Some(fs[p := File(bytes)])
    case Nowhere => None
  }

  /** `std::fs::copy`. */
  function CopyFile(fs: Fs, source: RawPath, destination: RawPath): Option<Fs> {
    match ReadFile(fs, source)
    case Some(bytes) => WriteFile(fs, destination, bytes)
    case None => None
  }

  /** The entry a path names, without following a link at its end: the folder it is in and its
      name. `None` when the path does not end in a name or the folder does not resolve. */
  function Leaf(fs: Fs, raw: RawPath): Option<Path> {
    if raw == [] || Last(raw).Up? then None
    else match Canonicalize(fs, Front(raw))
      case Some(dir) => if IsDir(fs, dir) then Some(dir + [Last(raw).name]) else None
      case None => None
  }

  /** `std::fs::symlink_metadata` of a path ending in a name. */
  function LinkStat(fs: Fs, raw: RawPath): Option<Entry> {
    match Leaf(fs, raw)
    case Some(p) => if p in fs then Some(fs[p]) else None
    case None => None
  }

  /** `std::fs::remove_file`: takes away a file or the link itself, never a folder. */
  function RemoveFile(fs: Fs, raw: RawPath): Option<Fs> {
    match Leaf(fs, raw)
    case Some(p) => if p in fs && !fs[p].Dir? then Some(fs - {p}) else None
    case None => None
  }

  // -- where resolution ends -------------------------------------------------------------

  lemma {:induction false} WalkLands(fs: Fs, cur: Path, rest: RawPath, links: nat)
    requires ValidFs(fs) && Settled(fs, cur)
    ensures Walk(fs, cur, rest, links).At? ==> Settled(fs, Walk(fs, cur, rest, links).path)
    ensures Walk(fs, cur, rest, links).Absent? ==>
              var p := Walk(fs, cur, rest, links).path;
              p != [] && p !in fs && IsDir(fs, Parent(p))
    decreases links, |rest|
  {
    if rest != [] && IsDir(fs, cur) {
      match rest[0]
      case Up => WalkLands(fs, Parent(cur), rest[1..], links);
      case Down(name) =>
        var p := cur + [name];
        assert Parent(p) == cur;
        if p in fs {
          if fs[p].Link? {
            if links > 0 {
              WalkLands(fs, LinkBase(fs[p], cur), fs[p].target + rest[1..], links - 1);
            }
          } else {
            WalkLands(fs, p, rest[1..], links);
          }
        }
    }
  }

  lemma {:induction false} PrefixesAreDirs(fs: Fs, p: Path, k: nat)
    requires ValidFs(fs) && Settled(fs, p) && k < |p|
    ensures IsDir(fs, p[..k])
    decreases |p| - k
  {
    if k == |p| - 1 {
      assert p[..k] == Parent(p);
    } else {
      PrefixesAreDirs(fs, p, k + 1);
      assert p[..k] == Parent(p[..k + 1]);
    }
  }

  lemma WalkInto(fs: Fs, cur: Path, name: Name, rest: RawPath, links: nat)
    requires IsDir(fs, cur) && cur + [name] in fs && !fs[cur + [name]].Link?
    ensures Walk(fs, cur, [Down(name)] + rest, links) == Walk(fs, cur + [name], rest, links)
  {
    assert ([Down(name)] + rest)[1..] == rest;
  }

  lemma NextOnTheWay(fs: Fs, p: Path, n: nat)
    requires ValidFs(fs) && Settled(fs, p) && 0 < n <= |p|
    ensures p[..n] in fs && !fs[p[..n]].Link?
  {
    if n < |p| {
      PrefixesAreDirs(fs, p, n);
    } else {
      assert p[..n] == p;
    }
  }

  lemma RestOfTheWay(p: Path, k: nat)
    requires k < |p|
    ensures RawOf(p[k..]) == [Down(p[k])] + RawOf(p[k + 1..]) && p[..k] + [p[k]] == p[..k + 1]
  {
    assert p[k..][1..] == p[k + 1..];
  }

  lemma {:induction false} WalkCanonicalFrom(fs: Fs, p: Path, k: nat, links: nat)
    requires ValidFs(fs) && Settled(fs, p) && k <= |p|
    ensures Walk(fs, p[..k], RawOf(p[k..]), links) == At(p)
    decreases |p| - k
  {
    if k == |p| {
      assert p[..k] == p;
    } else {
      PrefixesAreDirs(fs, p, k);
      NextOnTheWay(fs, p, k + 1);
      RestOfTheWay(p, k);
      WalkInto(fs, p[..k], p[k], RawOf(p[k + 1..]), links);
      WalkCanonicalFrom(fs, p, k + 1, links);
    }
  }

  /** A resolved path resolves to itself: checking the resolved path and using it are the same
      thing, which is what storing it relies on. */
  lemma CanonicalResolvesToItself(fs: Fs, p: Path)
    requires ValidFs(fs) && Settled(fs, p)
    ensures Resolve(fs, RawOf(p)) == At(p)
  {
    WalkCanonicalFrom(fs, p, 0, MAX_LINKS);
    assert p[..0] == [] && p[0..] == p;
  }

  /** The last name of a path, once the folder before it has been resolved. When that name is a
      link the walk goes on from it with some number of links left. */
  lemma {:induction false} WalkLastName(fs: Fs, cur: Path, folder: RawPath, name: Name, links: nat)
      returns (left: nat)
    requires Walk(fs, cur, folder, links).At?
    ensures var d := Walk(fs, cur, folder, links).path;
            var p := d + [name];
            Walk(fs, cur, folder + [Down(name)], links) ==
              if !IsDir(fs, d) then Nowhere
              else if p !in fs then Absent(p)
              else if !fs[p].Link? then At(p)
              else if left == 0 then Nowhere
              else Walk(fs, LinkBase(fs[p], d), fs[p].target, left - 1)
    decreases links, |folder|
  {
    var whole := folder + [Down(name)];
    if folder == [] {
      assert whole[1..] == [];
      var p := cur + [name];
      if p in fs && fs[p].Link? {
        assert fs[p].target + [] == fs[p].target;
      }
      left := links;
    } else {
      assert whole[0] == folder[0] && whole[1..] == folder[1..] + [Down(name)];
      match folder[0]
      case Up => left := WalkLastName(fs, Parent(cur), folder[1..], name, links);
      case Down(first) =>
        var p := cur + [first];
        if fs[p].Link? {
          var onward := fs[p].target + folder[1..];
          assert fs[p].target + whole[1..] == onward + [Down(name)];
          left := WalkLastName(fs, LinkBase(fs[p], cur), onward, name, links - 1);
        } else {
          left := WalkLastName(fs, p, folder[1..], name, links);
        }
    }
  }

  // -- folders stay where they are while only files come and go ------------------------------

  /** The link at `p` ends at a file, for some number of links the walk may still follow. */
  ghost predicate LeadsToFile(fs: Fs, p: Path)
    requires p in fs && fs[p].Link?
  {
    exists k: nat :: WalkEndsInFile(fs, LinkBase(fs[p], Parent(p)), fs[p].target, k)
  }

  ghost predicate WalkEndsInFile(fs: Fs, cur: Path, rest: RawPath, links: nat) {
    var end := Walk(fs, cur, rest, links);
    end.At? && IsFile(fs, end.path)
  }

  /** What a broker call may do to the tree: files appear, change and disappear; a link may
      disappear only if it led to a file; folders never change. */
  ghost predicate OnlyFilesChanged(fs: Fs, fs': Fs) {
    && (forall p :: p in fs && fs[p].Dir? ==> p in fs' && fs'[p].Dir?)
    && (forall p :: p in fs' && p in fs ==> fs'[p] == fs[p] || (fs[p].File? && fs'[p].File?))
    && (forall p :: p in fs' && p !in fs ==> fs'[p].File?)
    && (forall p :: p in fs && fs[p].Link? ==> p in fs' || LeadsToFile(fs, p))
  }

  lemma {:induction false} WalkIgnoresSpareLinks(fs: Fs, cur: Path, rest: RawPath, j: nat, k: nat)
    requires Walk(fs, cur, rest, j).At? && Walk(fs, cur, rest, k).At?
    ensures Walk(fs, cur, rest, j) == Walk(fs, cur, rest, k)
    decreases j, |rest|
  {
    if rest != [] {
      match rest[0]
      case Up => WalkIgnoresSpareLinks(fs, Parent(cur), rest[1..], j, k);
      case Down(name) =>
        var p := cur + [name];
        if fs[p].Link? {
          WalkIgnoresSpareLinks(fs, LinkBase(fs[p], cur), fs[p].target + rest[1..], j - 1, k - 1);
        } else {
          WalkIgnoresSpareLinks(fs, p, rest[1..], j, k);
        }
    }
  }

  /** A walk that arrives somewhere arrives in the middle first. */
  lemma {:induction false} WalkSplits(fs: Fs, cur: Path, a: RawPath, b: RawPath, links: nat)
      returns (left: nat)
    requires Walk(fs, cur, a + b, links).At?
    ensures Walk(fs, cur, a, links).At?
    ensures Walk(fs, Walk(fs, cur, a, links).path, b, left) == Walk(fs, cur, a + b, links)
    decreases links, |a|
  {
    if a == [] {
      assert a + b == b;
      left := links;
    } else {
      assert (a + b)[1..] == a[1..] + b;
      match a[0]
      case Up => left := WalkSplits(fs, Parent(cur), a[1..], b, links);
      case Down(name) =>
        var p := cur + [name];
        if fs[p].Link? {
          assert fs[p].target + (a[1..] + b) == (fs[p].target + a[1..]) + b;
          left := WalkSplits(fs, LinkBase(fs[p], cur), fs[p].target + a[1..], b, links - 1);
        } else {
          left := WalkSplits(fs, p, a[1..], b, links);
        }
    }
  }

  /** A link that leads to a file is never on the way to a folder. */
  lemma FileLinkIsNoWayToDir(fs: Fs, p: Path, rest: RawPath, links: nat)
    requires [] !in fs && p in fs && fs[p].Link? && LeadsToFile(fs, p)
    ensures var end := Walk(fs, LinkBase(fs[p], Parent(p)), fs[p].target + rest, links);
            end.At? ==> !IsDir(fs, end.path)
  {
    var base := LinkBase(fs[p], Parent(p));
    var end := Walk(fs, base, fs[p].target + rest, links);
    if end.At? {
      var k: nat :| WalkEndsInFile(fs, base, fs[p].target, k);
      var left := WalkSplits(fs, base, fs[p].target, rest, links);
      WalkIgnoresSpareLinks(fs, base, fs[p].target, links, k);
      var file := Walk(fs, base, fs[p].target, k).path;
      assert Walk(fs, file, rest, left) == end;
      assert rest == [];
    }
  }

  lemma LinkOnTheWayStays(fs: Fs, fs': Fs, p: Path, rest: RawPath, links: nat)
    requires [] !in fs && OnlyFilesChanged(fs, fs') && p in fs && fs[p].Link?
    requires var end := Walk(fs, LinkBase(fs[p], Parent(p)), fs[p].target + rest, links);
             end.At? && IsDir(fs, end.path)
    ensures p in fs' && fs'[p] == fs[p]
  {
    if p !in fs' {
      FileLinkIsNoWayToDir(fs, p, rest, links);
    }
  }

  lemma {:induction false} DirWalkSurvives(fs: Fs, fs': Fs, cur: Path, rest: RawPath, links: nat)
    requires [] !in fs && OnlyFilesChanged(fs, fs')
    requires Walk(fs, cur, rest, links).At? && IsDir(fs, Walk(fs, cur, rest, links).path)
    ensures Walk(fs', cur, rest, links) == Walk(fs, cur, rest, links)
    decreases links, |rest|
  {
    if rest != [] {
      assert IsDir(fs, cur) && IsDir(fs', cur);
      match rest[0]
      case Up => DirWalkSurvives(fs, fs', Parent(cur), rest[1..], links);
      case Down(name) =>
        var p := cur + [name];
        assert Parent(p) == cur;
        if fs[p].Link? {
          LinkOnTheWayStays(fs, fs', p, rest[1..], links - 1);
          DirWalkSurvives(fs, fs', LinkBase(fs[p], cur), fs[p].target + rest[1..], links - 1);
        } else {
          assert fs[p].Dir?;
          DirWalkSurvives(fs, fs', p, rest[1..], links);
        }
    }
  }

  lemma {:induction false} DirWalkWasThere(fs: Fs, fs': Fs, cur: Path, rest: RawPath, links: nat)
    requires OnlyFilesChanged(fs, fs')
    requires Walk(fs', cur, rest, links).At? && IsDir(fs', Walk(fs', cur, rest, links).path)
    ensures Walk(fs, cur, rest, links) == Walk(fs', cur, rest, links)
    decreases links, |rest|
  {
    if rest != [] {
      match rest[0]
      case Up => DirWalkWasThere(fs, fs', Parent(cur), rest[1..], links);
      case Down(name) =>
        var p := cur + [name];
        if fs'[p].Link? {
          DirWalkWasThere(fs, fs', LinkBase(fs'[p], cur), fs'[p].target + rest[1..], links - 1);
        } else {
          DirWalkWasThere(fs, fs', p, rest[1..], links);
        }
    }
  }

  /** `resolve_existing_dir`: the canonical folder a path names, if it names one. */
  function ResolveDir(fs: Fs, raw: RawPath): (dir: Option<Path>)
    ensures dir.Some? ==> IsDir(fs, dir.value) && Canonicalize(fs, raw) == dir
  {
    match Canonicalize(fs, raw)
    case Some(p) => if IsDir(fs, p) then Some(p) else None
    case None => None
  }

  /** The folder a path names is a fact no broker call can change. */
  lemma FoldersStayPut(fs: Fs, fs': Fs, raw: RawPath)
    requires [] !in fs && OnlyFilesChanged(fs, fs')
    ensures ResolveDir(fs', raw) == ResolveDir(fs, raw)
  {
    if ResolveDir(fs, raw).Some? {
      DirWalkSurvives(fs, fs', [], raw, MAX_LINKS);
    }
    if ResolveDir(fs', raw).Some? {
      DirWalkWasThere(fs, fs', [], raw, MAX_LINKS);
    }
  }

  // -- making folders ------------------------------------------------------------------------

  /** More entries never change where an existing path leads. */
  lemma {:induction false} WalkGrows(fs: Fs, fs': Fs, cur: Path, rest: RawPath, links: nat)
    requires forall p :: p in fs ==> p in fs' && fs'[p] == fs[p]
    requires Walk(fs, cur, rest, links).At?
    ensures Walk(fs', cur, rest, links) == Walk(fs, cur, rest, links)
    decreases links, |rest|
  {
    if rest != [] {
      assert IsDir(fs', cur);
      match rest[0]
      case Up => WalkGrows(fs, fs', Parent(cur), rest[1..], links);
      case Down(name) =>
        var p := cur + [name];
        if fs[p].Link? {
          WalkGrows(fs, fs', LinkBase(fs[p], cur), fs[p].target + rest[1..], links - 1);
        } else {
          WalkGrows(fs, fs', p, rest[1..], links);
        }
    }
  }

  /** One folder of `std::fs::create_dir_all`: it is there, or it is made in the folder before it. */
  function MakeDir(fs: Fs, raw: RawPath): Option<Fs> {
    if ResolveDir(fs, raw).Some? then Some(fs)
    else match Leaf(fs, raw)
      case Some(p) => if p in fs then None else Some(fs[p := Dir])
      case None => None
  }

  /** `std::fs::create_dir_all`: the folder a path names, with every folder missing on the way to it. `None`
      when something that is no folder is in the way. */
  function MakeDirs(fs: Fs, raw: RawPath): Option<Fs>
    decreases |raw|
  {
    if ResolveDir(fs, raw).Some? then Some(fs)
    else if raw == [] then None
    else match MakeDirs(fs, Front(raw))
      case Some(fs1) => MakeDir(fs1, raw)
      case None => None
  }

  /** Nothing but new folders. */
  ghost predicate OnlyFoldersAdded(fs: Fs, fs': Fs) {
    && (forall p :: p in fs ==> p in fs' && fs'[p] == fs[p])
    && (forall p :: p in fs' && p !in fs ==> fs'[p].Dir?)
  }

  lemma AddedDirIsValid(fs: Fs, p: Path)
    requires ValidFs(fs) && p != [] && p !in fs && IsDir(fs, Parent(p))
    ensures ValidFs(fs[p := Dir])
  {
  }

  lemma LeafParts(fs: Fs, raw: RawPath)
    requires Leaf(fs, raw).Some?
    ensures raw != [] && Last(raw).Down? && raw == Front(raw) + [Down(Last(raw).name)]
    ensures Canonicalize(fs, Front(raw)).Some? && IsDir(fs, Canonicalize(fs, Front(raw)).value)
    ensures Leaf(fs, raw) == Some(Canonicalize(fs, Front(raw)).value + [Last(raw).name])
  {
  }

  lemma MadeDirResolves(fs: Fs, raw: RawPath, p: Path)
    requires ValidFs(fs) && Leaf(fs, raw) == Some(p) && p !in fs
    ensures ValidFs(fs[p := Dir]) && ResolveDir(fs[p := Dir], raw).Some?
  {
    LeafParts(fs, raw);
    MadeInFolder(fs, Front(raw), Canonicalize(fs, Front(raw)).value, Last(raw).name);
  }

  lemma MadeInFolder(fs: Fs, folder: RawPath, d: Path, name: Name)
    requires ValidFs(fs) && Canonicalize(fs, folder) == Some(d) && IsDir(fs, d) && d + [name] !in fs
    ensures ValidFs(fs[d + [name] := Dir])
    ensures ResolveDir(fs[d + [name] := Dir], folder + [Down(name)]) == Some(d + [name])
  {
    var p := d + [name];
    assert Parent(p) == d;
    AddedDirIsValid(fs, p);
    WalkGrows(fs, fs[p := Dir], [], folder, MAX_LINKS);
    NewNameResolves(fs[p := Dir], folder, d, name);
  }

  lemma NewNameResolves(fs: Fs, folder: RawPath, d: Path, name: Name)
    requires Canonicalize(fs, folder) == Some(d) && IsDir(fs, d) && d + [name] in fs && fs[d + [name]].Dir?
    ensures ResolveDir(fs, folder + [Down(name)]) == Some(d + [name])
  {
    var left := WalkLastName(fs, [], folder, name, MAX_LINKS);
  }

  /** What `create_dir_all` makes: the folder is there afterwards, nothing else has changed but that folders
      were added, and where the folder was there already nothing at all has. */
  lemma {:induction false} MakeDirsMakes(fs: Fs, raw: RawPath)
    requires ValidFs(fs) && MakeDirs(fs, raw).Some?
    ensures var fs' := MakeDirs(fs, raw).value;
            && ValidFs(fs') && ResolveDir(fs', raw).Some? && OnlyFoldersAdded(fs, fs')
            && (ResolveDir(fs, raw).Some? ==> fs' == fs)
    decreases |raw|
  {
    if ResolveDir(fs, raw).None? {
      MakeDirsMakes(fs, Front(raw));
      var fs1 := MakeDirs(fs, Front(raw)).value;
      if ResolveDir(fs1, raw).None? {
        MadeDirResolves(fs1, raw, Leaf(fs1, raw).value);
      }
    }
  }
}
