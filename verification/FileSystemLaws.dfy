/** What a path means, told without the walk: parents, links with relative and absolute targets, chains of links
    up to the system's limit, and which folders `create_dir_all` makes. */
module FileSystemLaws {
  import opened Common
  import opened FileSystem

  // -- one more component --------------------------------------------------------------------------------

  lemma {:induction false} RawOfSnoc(p: Path, name: Name)
    ensures RawOf(p + [name]) == RawOf(p) + [Down(name)]
  {
    if p == [] {
      assert [name][1..] == [] && [] + [name] == [name];
    } else {
      RawOfSnoc(p[1..], name);
      assert (p + [name])[1..] == p[1..] + [name];
    }
  }

  lemma NameBehindParent(d: Path)
    requires d != []
    ensures d == Parent(d) + [Last(d)] && RawOf(d) == RawOf(Parent(d)) + [Down(Last(d))]
  {
    RawOfSnoc(Parent(d), Last(d));
  }

  lemma Regroup(a: RawPath, c: Component, rest: RawPath)
    ensures a + [c] + rest == a + ([c] + rest)
  {
  }

  /** The way to a folder by its own path costs no links. */
  lemma {:induction false} FromFolder(fs: Fs, d: Path, rest: RawPath)
    requires ValidFs(fs) && IsDir(fs, d)
    ensures Resolve(fs, RawOf(d) + rest) == Walk(fs, d, rest, MAX_LINKS)
    decreases |d|
  {
    if d == [] {
      assert RawOf(d) + rest == rest;
    } else {
      NameBehindParent(d);
      Regroup(RawOf(Parent(d)), Down(Last(d)), rest);
      FromFolder(fs, Parent(d), [Down(Last(d))] + rest);
      WalkInto(fs, Parent(d), Last(d), rest, MAX_LINKS);
    }
  }

  /** `..` leads to the real parent, and out of nothing at the root. */
  lemma UpLeadsToParent(fs: Fs, d: Path)
    requires ValidFs(fs) && IsDir(fs, d)
    ensures Resolve(fs, RawOf(d) + [Up]) == At(if d == [] then [] else d[..|d| - 1])
  {
    FromFolder(fs, d, [Up]);
    assert [Up][1..] == [];
  }

  /** A name leads to what stands under it, to the free place when nothing does, and nowhere behind a file. */
  lemma NameLeadsThere(fs: Fs, d: Path, name: Name, further: Component)
    requires ValidFs(fs) && IsDir(fs, d)
    ensures d + [name] !in fs ==>
              && Resolve(fs, RawOf(d) + [Down(name)]) == Absent(d + [name])
              && Resolve(fs, RawOf(d) + [Down(name), further]) == Nowhere
    ensures IsFile(fs, d + [name]) ==>
              && Resolve(fs, RawOf(d) + [Down(name)]) == At(d + [name])
              && Resolve(fs, RawOf(d) + [Down(name), further]) == Nowhere
  {
    FromFolder(fs, d, [Down(name)]);
    FromFolder(fs, d, [Down(name), further]);
    assert [Down(name)][1..] == [] && [Down(name), further][1..] == [further];
  }

  lemma WhereItLeads(fs: Fs, d: Path, name: Name)
    requires ValidFs(fs) && IsDir(fs, d)
    ensures var raw, p := RawOf(d) + [Down(name)], d + [name];
            && Leaf(fs, raw) == Some(p)
            && (p !in fs ==> Resolve(fs, raw) == Absent(p))
            && (p in fs && !fs[p].Link? ==> Resolve(fs, raw) == At(p))
  {
    FromFolder(fs, d, []);
    FromFolder(fs, d, [Down(name)]);
    assert RawOf(d) + [] == RawOf(d) && [Down(name)][1..] == [];
    assert Front(RawOf(d) + [Down(name)]) == RawOf(d);
  }

  /** Behind a folder and a name the library's calls do what the entry there asks for. Nothing there: reading and
      removing fail, writing makes a file. A file: its bytes, those bytes instead, and away. A folder: none of
      them. A link: removing takes the link itself. */
  lemma WhatStandsThere(fs: Fs, d: Path, name: Name, bytes: Bytes)
    requires ValidFs(fs) && IsDir(fs, d)
    ensures var raw, p := RawOf(d) + [Down(name)], d + [name];
            && LinkStat(fs, raw) == (if p in fs then Some(fs[p]) else None)
            && (p !in fs ==>
                  ReadFile(fs, raw) == None && WriteFile(fs, raw, bytes) == Some(fs[p := File(bytes)])
                  && RemoveFile(fs, raw) == None)
            && (IsFile(fs, p) ==>
                  ReadFile(fs, raw) == Some(fs[p].bytes) && WriteFile(fs, raw, bytes) == Some(fs[p := File(bytes)])
                  && RemoveFile(fs, raw) == Some(fs - {p}))
            && (p in fs && fs[p].Dir? ==>
                  ReadFile(fs, raw) == None && WriteFile(fs, raw, bytes) == None && RemoveFile(fs, raw) == None)
            && (p in fs && fs[p].Link? ==> RemoveFile(fs, raw) == Some(fs - {p}))
  {
    WhereItLeads(fs, d, name);
  }

  // -- links -----------------------------------------------------------------------------------------------

  /** A link that needs no other link leads where its target, written out, leads: from the root when the target
      is absolute, and from the link's own folder when it is not. */
  lemma LinkLeadsToTarget(fs: Fs, d: Path, name: Name, there: Path)
    requires ValidFs(fs) && IsDir(fs, d) && IsFile(fs, there)
    ensures d + [name] in fs && fs[d + [name]] == Link(true, RawOf(there)) ==>
              Resolve(fs, RawOf(d) + [Down(name)]) == At(there)
    ensures d + [name] in fs && d <= there && fs[d + [name]] == Link(false, RawOf(there[|d|..])) ==>
              Resolve(fs, RawOf(d) + [Down(name)]) == At(there)
  {
    FromFolder(fs, d, [Down(name)]);
    assert [Down(name)][1..] == [];
    if d + [name] in fs && fs[d + [name]].Link? {
      var target := fs[d + [name]].target;
      assert target + [] == target;
      WalkCanonicalFrom(fs, there, 0, MAX_LINKS - 1);
      assert there[..0] == [] && there[0..] == there;
      if d <= there {
        WalkCanonicalFrom(fs, there, |d|, MAX_LINKS - 1);
        assert there[..|d|] == d;
      }
    }
  }

  /** Each name in a folder is a link to the next. */
  ghost predicate Chain(fs: Fs, d: Path, names: seq<Name>) {
    && names != []
    && forall i :: 0 <= i < |names| - 1 ==>
         d + [names[i]] in fs && fs[d + [names[i]]] == Link(false, [Down(names[i + 1])])
  }

  lemma {:induction false} WalkAlongChain(fs: Fs, d: Path, names: seq<Name>, links: nat)
    requires IsDir(fs, d) && Chain(fs, d, names) && IsFile(fs, d + [Last(names)])
    ensures Walk(fs, d, [Down(names[0])], links) == if |names| - 1 <= links then At(d + [Last(names)]) else Nowhere
    decreases |names|
  {
    assert [Down(names[0])][1..] == [];
    if |names| > 1 {
      var next := [Down(names[1])];
      assert fs[d + [names[0]]] == Link(false, next) && next + [] == next;
      if links > 0 {
        WalkAlongChain(fs, d, names[1..], links - 1);
      }
    }
  }

  /** A chain of links to a file leads to it exactly when it has at most forty links. */
  lemma FortyLinksAtMost(fs: Fs, d: Path, names: seq<Name>)
    requires ValidFs(fs) && IsDir(fs, d) && Chain(fs, d, names) && IsFile(fs, d + [Last(names)])
    ensures Resolve(fs, RawOf(d) + [Down(names[0])]) == if |names| <= 41 then At(d + [Last(names)]) else Nowhere
  {
    FromFolder(fs, d, [Down(names[0])]);
    WalkAlongChain(fs, d, names, MAX_LINKS);
  }

  // -- the folders that are made ------------------------------------------------------------------------------

  function Downs(names: seq<Name>): (raw: RawPath)
    ensures |raw| == |names|
  {
    if names == [] then [] else Downs(Front(names)) + [Down(Last(names))]
  }

  /** The disk with one folder inside the other below `d`. */
  function WithFolders(fs: Fs, d: Path, names: seq<Name>): Fs {
    if names == [] then fs else WithFolders(fs, d, Front(names))[d + names := Dir]
  }

  /** Exactly those: a folder at each prefix, and the rest of the disk as it was. */
  lemma {:induction false} WithFoldersExactly(fs: Fs, d: Path, names: seq<Name>, p: Path)
    ensures var fs' := WithFolders(fs, d, names);
            if exists i :: 1 <= i <= |names| && p == d + names[..i] then p in fs' && fs'[p] == Dir
            else (p in fs' <==> p in fs) && (p in fs ==> fs'[p] == fs[p])
  {
    if names != [] {
      var front := Front(names);
      WithFoldersExactly(fs, d, front, p);
      assert names[..|names|] == names;
      assert forall i :: 1 <= i <= |front| ==> names[..i] == front[..i];
      if i :| 1 <= i <= |names| && p == d + names[..i] && i < |names| {
        assert p == d + front[..i];
      }
    }
  }

  lemma DownsOfOneMore(base: RawPath, names: seq<Name>)
    requires names != []
    ensures base + Downs(names) != [] && Front(base + Downs(names)) == base + Downs(Front(names))
    ensures Last(base + Downs(names)) == Down(Last(names))
  {
    var raw := base + Downs(names);
    assert raw == base + Downs(Front(names)) + [Down(Last(names))];
  }

  /** What leads somewhere led to a folder before its last name. */
  lemma ResolvedThroughFolder(fs: Fs, folder: RawPath, name: Name)
    requires Resolve(fs, folder + [Down(name)]).At?
    ensures Resolve(fs, folder).At? && IsDir(fs, Resolve(fs, folder).path)
  {
    var left := WalkSplits(fs, [], folder, [Down(name)], MAX_LINKS);
  }

  /** Behind a name that leads to no folder nothing resolves. */
  lemma {:induction false} NothingBehind(fs: Fs, base: RawPath, names: seq<Name>)
    requires names != [] && ResolveDir(fs, base + [Down(names[0])]).None?
    ensures ResolveDir(fs, base + Downs(names)).None?
  {
    DownsOfOneMore(base, names);
    if |names| == 1 {
      assert Downs(Front(names)) == [] && base + Downs(names) == base + [Down(names[0])];
    } else {
      NothingBehind(fs, base, Front(names));
      var raw := base + Downs(names);
      assert raw == Front(raw) + [Last(raw)];
      if ResolveDir(fs, raw).Some? {
        ResolvedThroughFolder(fs, Front(raw), Last(names));
      }
    }
  }

  /** Something that is no folder, be it a file or a link that leads to none, is in the way: nothing is made. */
  lemma {:induction false} NothingIsMade(fs: Fs, base: RawPath, d: Path, names: seq<Name>)
    requires names != [] && ResolveDir(fs, base) == Some(d) && d + [names[0]] in fs
    requires ResolveDir(fs, base + [Down(names[0])]).None?
    ensures MakeDirs(fs, base + Downs(names)).None?
  {
    NothingBehind(fs, base, names);
    DownsOfOneMore(base, names);
    if |names| == 1 {
      assert Downs(Front(names)) == [] && base + Downs(names) == base + [Down(names[0])] && base + [] == base;
    } else {
      NothingIsMade(fs, base, d, Front(names));
    }
  }

  lemma {:induction false} BehindNothing(fs: Fs, d: Path, names: seq<Name>)
    requires ValidFs(fs) && names != [] && d + [names[0]] !in fs
    ensures d + names !in fs
  {
    if |names| == 1 {
      assert names == [names[0]];
    } else {
      BehindNothing(fs, d, Front(names));
      assert Parent(d + names) == d + Front(names);
    }
  }

  lemma NewBehindNothing(fs: Fs, d: Path, names: seq<Name>)
    requires ValidFs(fs) && names != [] && d + [names[0]] !in fs
    ensures d + names !in WithFolders(fs, d, Front(names))
  {
    BehindNothing(fs, d, names);
    WithFoldersExactly(fs, d, Front(names), d + names);
    forall i | 1 <= i <= |names| - 1 ensures d + names != d + Front(names)[..i] {
      assert |d + Front(names)[..i]| == |d| + i;
    }
  }

  lemma OneFolderDeeper(fs: Fs, base: RawPath, d: Path, names: seq<Name>)
    requires names != []
    ensures base + Downs(names) == base + Downs(Front(names)) + [Down(Last(names))]
    ensures d + Front(names) + [Last(names)] == d + names
    ensures WithFolders(fs, d, names) == WithFolders(fs, d, Front(names))[d + names := Dir]
    ensures Front(names) == [] ==> base + Downs(Front(names)) == base && d + Front(names) == d
  {
  }

  /** The first name is missing: exactly the folders on the way are made, one inside the other, and the path
      leads to the last. */
  lemma {:induction false} MissingFoldersAreMade(fs: Fs, base: RawPath, d: Path, names: seq<Name>)
    requires ValidFs(fs) && names != [] && ResolveDir(fs, base) == Some(d) && d + [names[0]] !in fs
    ensures MakeDirs(fs, base + Downs(names)) == Some(WithFolders(fs, d, names))
    ensures ValidFs(WithFolders(fs, d, names))
    ensures ResolveDir(WithFolders(fs, d, names), base + Downs(names)) == Some(d + names)
  {
    var front, name := Front(names), Last(names);
    OneFolderDeeper(fs, base, d, names);
    FirstIsMissing(fs, base, d, names);
    NewBehindNothing(fs, d, names);
    if front == [] {
      MadeBehind(fs, base, name, fs, d);
    } else {
      MissingFoldersAreMade(fs, base, d, front);
      MadeBehind(fs, base + Downs(front), name, WithFolders(fs, d, front), d + front);
    }
  }

  lemma MakeDirsOneMore(fs: Fs, folder: RawPath, name: Name, fs1: Fs)
    requires ResolveDir(fs, folder + [Down(name)]).None? && MakeDirs(fs, folder) == Some(fs1)
    ensures MakeDirs(fs, folder + [Down(name)]) == MakeDir(fs1, folder + [Down(name)])
  {
    assert Front(folder + [Down(name)]) == folder;
  }

  lemma MadeBehind(fs: Fs, folder: RawPath, name: Name, fs1: Fs, d: Path)
    requires ResolveDir(fs, folder + [Down(name)]).None? && MakeDirs(fs, folder) == Some(fs1)
    requires ValidFs(fs1) && ResolveDir(fs1, folder) == Some(d) && d + [name] !in fs1
    ensures MakeDirs(fs, folder + [Down(name)]) == Some(fs1[d + [name] := Dir])
    ensures ValidFs(fs1[d + [name] := Dir])
    ensures ResolveDir(fs1[d + [name] := Dir], folder + [Down(name)]) == Some(d + [name])
  {
    MakeDirsOneMore(fs, folder, name, fs1);
    OneFolderMore(fs1, folder, d, name);
    MadeInFolder(fs1, folder, d, name);
  }

  lemma FirstIsMissing(fs: Fs, base: RawPath, d: Path, names: seq<Name>)
    requires names != [] && ResolveDir(fs, base) == Some(d) && d + [names[0]] !in fs
    ensures ResolveDir(fs, base + Downs(names)).None?
  {
    var left := WalkLastName(fs, [], base, names[0], MAX_LINKS);
    NothingBehind(fs, base, names);
  }

  lemma OneFolderMore(fs: Fs, folder: RawPath, d: Path, name: Name)
    requires ResolveDir(fs, folder) == Some(d) && d + [name] !in fs
    ensures MakeDir(fs, folder + [Down(name)]) == Some(fs[d + [name] := Dir])
  {
    FreeIsNoFolder(fs, folder, d, name);
    FreeLeaf(fs, folder, d, name);
  }

  lemma FreeIsNoFolder(fs: Fs, folder: RawPath, d: Path, name: Name)
    requires ResolveDir(fs, folder) == Some(d) && d + [name] !in fs
    ensures ResolveDir(fs, folder + [Down(name)]).None?
  {
    var left := WalkLastName(fs, [], folder, name, MAX_LINKS);
  }

  lemma FreeLeaf(fs: Fs, folder: RawPath, d: Path, name: Name)
    requires ResolveDir(fs, folder) == Some(d)
    ensures Leaf(fs, folder + [Down(name)]) == Some(d + [name])
  {
    assert Front(folder + [Down(name)]) == folder;
  }

  /** A folder that is there, and names behind it of which the first is missing. */
  ghost predicate MissingUnderFolder(fs: Fs, raw: RawPath) {
    exists base, names ::
      && names != [] && raw == base + Downs(names) && ResolveDir(fs, base).Some?
      && ResolveDir(fs, base).value + [names[0]] !in fs
  }

  ghost predicate WithoutUps(raw: RawPath) {
    forall c :: c in raw ==> c.Down?
  }

  lemma {:induction false} NamesOf(raw: RawPath) returns (names: seq<Name>)
    requires WithoutUps(raw)
    ensures Downs(names) == raw
  {
    if raw == [] {
      names := [];
    } else {
      var front := NamesOf(Front(raw));
      names := front + [Last(raw).name];
      assert Last(raw) in raw && Front(names) == front && raw == Front(raw) + [Last(raw)];
    }
  }

  lemma FirstOfDowns(names: seq<Name>)
    requires names != []
    ensures Downs(names)[0] == Down(names[0])
  {
    if |names| > 1 {
      FirstOfDowns(Front(names));
    }
  }

  /** How far a path resolves. */
  lemma {:induction false} ResolvedSoFar(fs: Fs, raw: RawPath, n: nat) returns (k: nat)
    requires n <= |raw| && ResolveDir(fs, raw[..n]).Some?
    ensures n <= k <= |raw| && ResolveDir(fs, raw[..k]).Some?
    ensures k < |raw| ==> ResolveDir(fs, raw[..k + 1]).None?
    decreases |raw| - n
  {
    k := n;
    if n < |raw| && ResolveDir(fs, raw[..n + 1]).Some? {
      k := ResolvedSoFar(fs, raw, n + 1);
    }
  }

  /** A path without `..` is made, or is there already, if and only if it leads to a folder, or through folders
      that are there to a name that is missing: never through a file or a link that leads to no folder. */
  lemma MadeExactly(fs: Fs, raw: RawPath)
    requires ValidFs(fs) && WithoutUps(raw)
    ensures MakeDirs(fs, raw).Some? <==> ResolveDir(fs, raw).Some? || MissingUnderFolder(fs, raw)
  {
    if MissingUnderFolder(fs, raw) {
      MissingIsMade(fs, raw);
    } else if ResolveDir(fs, raw).None? {
      assert raw[..0] == [];
      var k := ResolvedSoFar(fs, raw, 0);
      assert k < |raw| by {
        assert raw[..|raw|] == raw;
      }
      BlockedIsNotMade(fs, raw, k);
    }
  }

  lemma BlockedIsNotMade(fs: Fs, raw: RawPath, k: nat)
    requires WithoutUps(raw) && !MissingUnderFolder(fs, raw)
    requires k < |raw| && ResolveDir(fs, raw[..k]).Some? && ResolveDir(fs, raw[..k + 1]).None?
    ensures MakeDirs(fs, raw).None?
  {
    var base := raw[..k];
    var names := NamesBehind(raw, k);
    assert ResolveDir(fs, base).value + [names[0]] in fs;
    NothingIsMade(fs, base, ResolveDir(fs, base).value, names);
  }

  lemma NamesBehind(raw: RawPath, k: nat) returns (names: seq<Name>)
    requires WithoutUps(raw) && k < |raw|
    ensures names != [] && raw == raw[..k] + Downs(names) && raw[..k + 1] == raw[..k] + [Down(names[0])]
  {
    var rest := raw[k..];
    assert forall c :: c in rest ==> c in raw;
    names := NamesOf(rest);
    FirstOfDowns(names);
    assert raw == raw[..k] + rest;
  }

  /** With or without `..` before it. */
  lemma MissingIsMade(fs: Fs, raw: RawPath)
    requires ValidFs(fs) && MissingUnderFolder(fs, raw)
    ensures MakeDirs(fs, raw).Some?
  {
    var base, names :|
      && names != [] && raw == base + Downs(names) && ResolveDir(fs, base).Some?
      && ResolveDir(fs, base).value + [names[0]] !in fs;
    MissingFoldersAreMade(fs, base, ResolveDir(fs, base).value, names);
  }
}
