/** What a component may call its result: the broker's filename filter. */
module Filenames {
  import opened Common
  import opened Text

  /** The two Unicode character classes the filter asks about. Their tables are not part of this
      model; `Sound` says what about them matters here. */
  datatype Unicode = Unicode(alphanumeric: char -> bool, numeric: char -> bool)

  predicate IsAsciiLetter(c: char) {
    'a' <= c <= 'z' || 'A' <= c <= 'Z'
  }

  predicate IsAsciiDigit(c: char) {
    '0' <= c <= '9'
  }

  /** The tables agree with ASCII: no separator, drive colon, dot, space or control character is
      a letter or digit. */
  ghost predicate Sound(u: Unicode) {
    && (forall c: char :: c < 128 as char ==> u.alphanumeric(c) == (IsAsciiLetter(c) || IsAsciiDigit(c)))
    && (forall c: char :: c < 128 as char ==> u.numeric(c) == IsAsciiDigit(c))
  }

  predicate Kept(u: Unicode, c: char) {
    u.alphanumeric(c) || c == '.' || c == '-' || c == '_' || c == ' '
  }

  /** The character that can still be trimmed as white space once `Kept` has been applied. */
  predicate IsSpace(c: char) {
    c == ' '
  }

  predicate IsDot(c: char) {
    c == '.'
  }

  predicate IsDotOrSpace(c: char) {
    c == '.' || c == ' '
  }

  function Take(s: string, n: nat): string {
    if |s| <= n then s else s[..n]
  }

  function Upper(c: char): char {
    if 'a' <= c <= 'z' then (c as int - 32) as char else c
  }

  /** `word` is `s` in ASCII upper case. */
  predicate Spells(s: string, word: string) {
    |s| == |word| && forall i :: 0 <= i < |s| ==> Upper(s[i]) == word[i]
  }

  /** Everything before the first dot. */
  function BeforeDot(s: string): (r: string)
    ensures r <= s
  {
    if s == [] || s[0] == '.' then [] else [s[0]] + BeforeDot(s[1..])
  }

  /** Names Windows opens as a device in any folder, whatever their extension. */
  predicate IsReservedDeviceName(u: Unicode, name: string) {
    IsDeviceStem(u, TrimEnd(IsSpace, BeforeDot(name)))
  }

  predicate IsDeviceStem(u: Unicode, stem: string) {
    || Spells(stem, "CON") || Spells(stem, "PRN") || Spells(stem, "AUX") || Spells(stem, "NUL")
    || (|stem| == 4 && u.numeric(Upper(stem[3])) && (Spells(stem[..3], "COM") || Spells(stem[..3], "LPT")))
  }

  const MAX_NAME: nat := 120

  function KeepTest(u: Unicode): char -> bool {
    c => Kept(u, c)
  }

  function Trimmed(u: Unicode, name: string): (r: string)
    ensures forall c :: c in r ==> Kept(u, c)
  {
    Trim(IsSpace, TrimStart(IsDot, Trim(IsSpace, Filter(KeepTest(u), name))))
  }

  function Settle(u: Unicode, name: string): (r: string)
    ensures |r| <= MAX_NAME && forall c :: c in r ==> Kept(u, c)
    ensures r != [] ==> r[0] != ' ' && !IsDotOrSpace(Last(r))
  {
    Trim(IsSpace, TrimEnd(IsDotOrSpace, Take(Trimmed(u, name), MAX_NAME)))
  }

  /** The name used for what is left after trimming. */
  function Named(u: Unicode, settled: string): string {
    if settled == [] then "output"
    else if IsReservedDeviceName(u, settled) then "_" + settled
    else settled
  }

  function Sanitise(u: Unicode, name: string): string {
    Named(u, Settle(u, name))
  }

  /** One ordinary path component: non-empty, nothing that separates or climbs, not a spelling
      Windows would rewrite when it opens the file, not a device. */
  ghost predicate Ordinary(u: Unicode, name: string) {
    && name != [] && |name| <= 121
    && (forall c :: c in name ==> u.alphanumeric(c) || c in {'.', '-', '_', ' '})
    && '/' !in name && '\\' !in name && ':' !in name && '\0' !in name
    && name != "." && name != ".."
    && name[0] != ' ' && !IsDotOrSpace(Last(name))
    && !IsReservedDeviceName(u, name)
  }

  lemma ReservedStartsLike(u: Unicode, name: string)
    requires IsReservedDeviceName(u, name)
    ensures name != [] && Upper(name[0]) in {'C', 'P', 'A', 'N', 'L'}
  {
    var stem := TrimEnd(IsSpace, BeforeDot(name));
    assert stem <= name;
    if |stem| == 4 {
      assert stem[0] == stem[..3][0];
    }
  }

  lemma NoSeparatorKept(u: Unicode, r: string)
    requires Sound(u) && forall c :: c in r ==> Kept(u, c)
    ensures '/' !in r && '\\' !in r && ':' !in r && '\0' !in r
  {
    assert !Kept(u, '/') && !Kept(u, '\\') && !Kept(u, ':') && !Kept(u, '\0');
  }

  lemma NamedIsKept(u: Unicode, settled: string)
    requires Sound(u) && forall c :: c in settled ==> Kept(u, c)
    ensures forall c :: c in Named(u, settled) ==> Kept(u, c)
  {
    if settled == [] {
      assert Named(u, settled) == ['o', 'u', 't', 'p', 'u', 't'];
    }
  }

  lemma NamedIsNoDevice(u: Unicode, settled: string)
    ensures !IsReservedDeviceName(u, Named(u, settled))
  {
    if IsReservedDeviceName(u, Named(u, settled)) {
      ReservedStartsLike(u, Named(u, settled));
    }
  }

  /** Whatever a component or a project calls its result, the name used is one ordinary path
      component. */
  lemma SanitisedIsOrdinary(u: Unicode, name: string)
    requires Sound(u)
    ensures Ordinary(u, Sanitise(u, name))
  {
    var s := Settle(u, name);
    NamedIsKept(u, s);
    NamedIsNoDevice(u, s);
    NoSeparatorKept(u, Named(u, s));
    NamedEndsWell(u, s);
  }

  lemma NamedEndsWell(u: Unicode, settled: string)
    requires |settled| <= MAX_NAME && (settled != [] ==> settled[0] != ' ' && !IsDotOrSpace(Last(settled)))
    ensures var name := Named(u, settled);
            && name != [] && |name| <= MAX_NAME + 1 && name[0] != ' ' && !IsDotOrSpace(Last(name))
            && name != "." && name != ".."
  {
    if settled == [] {
      assert Named(u, settled) == ['o', 'u', 't', 'p', 'u', 't'];
    } else if IsReservedDeviceName(u, settled) {
      assert Named(u, settled) == ['_'] + settled;
      assert Last(['_'] + settled) == Last(settled);
    }
  }

  /** Exactly the names that come through unchanged. A name that starts with a dot is not among
      them, so filtering twice is not always filtering once: a dot behind an inner space
      survives the first pass and not the second. */
  lemma SanitiseKeepsExactly(u: Unicode, name: string)
    requires Sound(u)
    ensures Sanitise(u, name) == name <==>
              Ordinary(u, name) && |name| <= 120 && name[0] != '.'
  {
    if Sanitise(u, name) == name {
      SanitisedIsOrdinary(u, name);
      FilterKeepsAll(KeepTest(u), name);
      if name[0] == '.' {
        DotsShorten(u, name);
      }
      if |name| == MAX_NAME + 1 {
        NoPrefixFixpoint(u, name);
      }
    } else if Ordinary(u, name) {
      FilterKeepsAll(KeepTest(u), name);
    }
  }

  lemma DotsShorten(u: Unicode, name: string)
    requires Sound(u) && Ordinary(u, name) && name[0] == '.'
    requires Filter(KeepTest(u), name) == name
    ensures Sanitise(u, name) != name
  {
    assert Trim(IsSpace, name) == name;
    assert |TrimStart(IsDot, name)| < |name|;
    assert |Settle(u, name)| < |name|;
  }

  lemma NoPrefixFixpoint(u: Unicode, name: string)
    requires |name| == MAX_NAME + 1 && Filter(KeepTest(u), name) == name
    requires name[0] != '.' && name[0] != ' ' && !IsDotOrSpace(Last(name))
    ensures Sanitise(u, name) != name
  {
    var s := Settle(u, name);
    if Sanitise(u, name) == name {
      assert name == "_" + s;
      assert Trimmed(u, name) == name;
      var cut := name[..MAX_NAME];
      assert s == Trim(IsSpace, TrimEnd(IsDotOrSpace, cut));
      assert TrimEnd(IsDotOrSpace, cut) == cut;
      assert s == cut;
      ReservedStartsLike(u, s);
    }
  }

  lemma FilterKeepsAll(keep: char -> bool, s: string)
    requires forall c :: c in s ==> keep(c)
    ensures Filter(keep, s) == s
  {
    if s != [] {
      FilterKeepsAll(keep, s[1..]);
    }
  }

  /** The filter is not idempotent: a second pass takes the dot the first one left. */
  lemma SanitiseTwice(u: Unicode)
    requires Sound(u)
    ensures Sanitise(u, Sanitise(u, ". .x")) != Sanitise(u, ". .x")
  {
    var first, second := ['.', ' ', '.', 'x'], ['.', 'x'];
    FirstPass(u, first);
    DotNameIsNoDevice(u, second);
    SanitiseKeepsExactly(u, second);
    assert first == ". .x";
  }

  lemma FirstPass(u: Unicode, first: string)
    requires Sound(u) && first == ['.', ' ', '.', 'x']
    ensures Settle(u, first) == ['.', 'x']
  {
    FilterKeepsAll(KeepTest(u), first);
    DotThenSpace(first);
    SettledAlready(u, first, ['.', 'x']);
  }

  lemma DotThenSpace(first: string)
    requires first == ['.', ' ', '.', 'x']
    ensures Trim(IsSpace, TrimStart(IsDot, Trim(IsSpace, first))) == ['.', 'x']
  {
    assert TrimStart(IsDot, first) == first[1..] == [' ', '.', 'x'];
    assert TrimStart(IsSpace, [' ', '.', 'x']) == [' ', '.', 'x'][1..];
  }

  lemma SettledAlready(u: Unicode, name: string, t: string)
    requires Trimmed(u, name) == t && 0 < |t| <= MAX_NAME && !IsSpace(t[0]) && !IsDotOrSpace(Last(t))
    ensures Settle(u, name) == t
  {
  }

  lemma DotNameIsNoDevice(u: Unicode, name: string)
    requires name != [] && name[0] == '.'
    ensures !IsReservedDeviceName(u, name)
  {
    if IsReservedDeviceName(u, name) {
      ReservedStartsLike(u, name);
    }
  }

  /** Filtering twice is filtering once exactly when what is left after trimming does not start with a dot,
      and is not a device name so long that the underscore put before it goes over the limit. */
  lemma SanitiseTwiceExactly(u: Unicode, name: string)
    requires Sound(u)
    ensures var settled := Settle(u, name);
            Sanitise(u, Sanitise(u, name)) == Sanitise(u, name) <==>
              (settled == [] || settled[0] != '.')
              && !(IsReservedDeviceName(u, settled) && |settled| == MAX_NAME)
  {
    SanitisedIsOrdinary(u, name);
    SanitiseKeepsExactly(u, Sanitise(u, name));
    NamedStartsAndEnds(u, Settle(u, name));
  }

  lemma NamedStartsAndEnds(u: Unicode, settled: string)
    requires |settled| <= MAX_NAME
    ensures var name := Named(u, settled);
            name != [] && (|name| <= MAX_NAME && name[0] != '.' <==>
              (settled == [] || settled[0] != '.') && !(IsReservedDeviceName(u, settled) && |settled| == MAX_NAME))
  {
    if settled == [] {
      assert Named(u, settled) == ['o', 'u', 't', 'p', 'u', 't'];
      EmptyIsNoDevice(u);
    } else if IsReservedDeviceName(u, settled) {
      ReservedStartsLike(u, settled);
      assert Named(u, settled) == ['_'] + settled;
    }
  }

  lemma EmptyIsNoDevice(u: Unicode)
    ensures !IsReservedDeviceName(u, [])
  {
    if IsReservedDeviceName(u, []) {
      ReservedStartsLike(u, []);
    }
  }

  /** The other family: a device name with an extension that fills the limit. */
  lemma LongDeviceNameTwice(u: Unicode, extension: string)
    requires Sound(u) && |extension| == MAX_NAME - 4 && forall c :: c in extension ==> IsAsciiLetter(c)
    ensures var name := ['C', 'O', 'N', '.'] + extension;
            Sanitise(u, Sanitise(u, name)) != Sanitise(u, name)
  {
    var name := ['C', 'O', 'N', '.'] + extension;
    assert forall c :: c in name ==> Kept(u, c);
    FilterKeepsAll(KeepTest(u), name);
    assert Last(name) == Last(extension) && Last(extension) in extension;
    TrimmedAlready(u, name);
    SettledAlready(u, name, name);
    ConIsReserved(u, extension);
    SanitiseTwiceExactly(u, name);
  }

  lemma TrimmedAlready(u: Unicode, name: string)
    requires Filter(KeepTest(u), name) == name && name != []
    requires !IsDotOrSpace(name[0]) && !IsDotOrSpace(Last(name))
    ensures Trimmed(u, name) == name
  {
  }

  lemma ConIsReserved(u: Unicode, extension: string)
    ensures IsReservedDeviceName(u, ['C', 'O', 'N', '.'] + extension)
  {
    var con, rest := ['C', 'O', 'N'], ['.'] + extension;
    assert ['C', 'O', 'N', '.'] + extension == con + rest;
    StemOf(con, rest);
    assert Spells(con, "CON");
  }

  lemma {:induction false} StemOf(stem: string, rest: string)
    requires '.' !in stem && rest != [] && rest[0] == '.'
    ensures BeforeDot(stem + rest) == stem
  {
    if stem == [] {
      assert stem + rest == rest;
    } else {
      assert (stem + rest)[1..] == stem[1..] + rest;
      StemOf(stem[1..], rest);
    }
  }

  // -- device names, read off the name itself ---------------------------------------------------------

  /** A letter in either case. */
  predicate Reads(c: char, letter: char) {
    c == letter || ('a' <= letter <= 'z' && c as int == letter as int - 32)
  }

  predicate ReadsThree(s: string, a: char, b: char, c: char) {
    |s| >= 3 && Reads(s[0], a) && Reads(s[1], b) && Reads(s[2], c)
  }

  /** CON, PRN, AUX and NUL, and COM or LPT with one digit of any kind, in any letters. */
  predicate IsDevice(u: Unicode, stem: string) {
    || (|stem| == 3 && (ReadsThree(stem, 'c', 'o', 'n') || ReadsThree(stem, 'p', 'r', 'n')
                        || ReadsThree(stem, 'a', 'u', 'x') || ReadsThree(stem, 'n', 'u', 'l')))
    || (|stem| == 4 && u.numeric(stem[3]) && (ReadsThree(stem, 'c', 'o', 'm') || ReadsThree(stem, 'l', 'p', 't')))
  }

  /** The first `j` characters come before any dot, the last of them are spaces, and before those stand
      exactly `k` characters. */
  predicate StemEnds(name: string, k: nat, j: nat) {
    && k <= j <= |name| && '.' !in name[..j] && (j == |name| || name[j] == '.')
    && (k == 0 || name[k - 1] != ' ') && (forall i :: k <= i < j ==> name[i] == ' ')
  }

  lemma SpellsThree(s: string, word: string, a: char, b: char, c: char)
    requires 'a' <= a <= 'z' && 'a' <= b <= 'z' && 'a' <= c <= 'z'
    requires |word| == 3 && word[0] == Upper(a) && word[1] == Upper(b) && word[2] == Upper(c)
    ensures Spells(s, word) <==> |s| == 3 && ReadsThree(s, a, b, c)
  {
  }

  lemma NumericInEitherCase(u: Unicode, c: char)
    requires Sound(u)
    ensures u.numeric(Upper(c)) == u.numeric(c)
  {
  }

  lemma DeviceStems(u: Unicode, stem: string)
    requires Sound(u)
    ensures IsDeviceStem(u, stem) <==> IsDevice(u, stem)
  {
    SpellsThree(stem, "CON", 'c', 'o', 'n');
    SpellsThree(stem, "PRN", 'p', 'r', 'n');
    SpellsThree(stem, "AUX", 'a', 'u', 'x');
    SpellsThree(stem, "NUL", 'n', 'u', 'l');
    if |stem| == 4 {
      SpellsThree(stem[..3], "COM", 'c', 'o', 'm');
      SpellsThree(stem[..3], "LPT", 'l', 'p', 't');
      NumericInEitherCase(u, stem[3]);
    }
  }

  lemma {:induction false} BeforeDotEnds(name: string)
    ensures var r := BeforeDot(name); '.' !in r && (|r| == |name| || name[|r|] == '.')
  {
    if name != [] && name[0] != '.' {
      BeforeDotEnds(name[1..]);
    }
  }

  /** A name is taken for a device exactly when what stands before its first dot, spaces behind it left
      out, is one: whatever the extension, and in any letters. */
  lemma ReservedExactly(u: Unicode, name: string)
    requires Sound(u)
    ensures IsReservedDeviceName(u, name) <==> exists k: nat, j: nat :: StemEnds(name, k, j) && IsDevice(u, name[..k])
  {
    var j, k := StemFound(name);
    DeviceStems(u, name[..k]);
    forall k': nat, j': nat | StemEnds(name, k', j') ensures k' == k {
      StemEndsOnce(name, k, j, k', j');
    }
  }

  lemma StemFound(name: string) returns (j: nat, k: nat)
    ensures StemEnds(name, k, j) && name[..k] == TrimEnd(IsSpace, BeforeDot(name))
  {
    j, k := |BeforeDot(name)|, |TrimEnd(IsSpace, BeforeDot(name))|;
    BeforeDotEnds(name);
    EndDropped(IsSpace, BeforeDot(name));
  }

  lemma StemEndsOnce(name: string, k: nat, j: nat, k': nat, j': nat)
    requires StemEnds(name, k, j) && StemEnds(name, k', j')
    ensures k == k' && j == j'
  {
    assert forall i :: 0 <= i < j ==> name[..j][i] == name[i] && name[i] in name[..j];
    assert forall i :: 0 <= i < j' ==> name[..j'][i] == name[i] && name[i] in name[..j'];
  }

  // -- what is kept of a name -----------------------------------------------------------------------

  /** A stretch of `f` with nothing but dots and spaces left out before it and behind it. */
  predicate Stretch(f: string, i: nat, j: nat) {
    && i <= j <= |f|
    && (forall k :: 0 <= k < i ==> IsDotOrSpace(f[k]))
    && (forall k :: j <= k < |f| ==> IsDotOrSpace(f[k]))
  }

  lemma InnerStretch(f: string, g: string, i: nat, j: nat, i': nat, j': nat)
    requires Stretch(f, i, j) && g == f[i..j] && Stretch(g, i', j')
    ensures Stretch(f, i + i', i + j') && f[i + i'..i + j'] == g[i'..j']
  {
    assert forall k :: i <= k < j ==> f[k] == g[k - i];
  }

  lemma SpacesAreAStretch(s: string) returns (i: nat, j: nat)
    ensures Stretch(s, i, j) && Trim(IsSpace, s) == s[i..j]
  {
    i, j := TrimmedStretch(IsSpace, s);
  }

  lemma DotsAreAStretch(s: string) returns (i: nat)
    ensures Stretch(s, i, |s|) && TrimStart(IsDot, s) == s[i..|s|]
  {
    i := StartDropped(IsDot, s);
  }

  lemma FirstTwoTrims(f: string) returns (i: nat, j: nat)
    ensures Stretch(f, i, j) && TrimStart(IsDot, Trim(IsSpace, f)) == f[i..j]
  {
    var g := Trim(IsSpace, f);
    var a, b := SpacesAreAStretch(f);
    var c := DotsAreAStretch(g);
    InnerStretch(f, g, a, b, c, |g|);
    i, j := a + c, b;
  }

  lemma StretchWithin(f: string, g: string, t: string, a: nat, b: nat, d: nat, e: nat)
    requires Stretch(f, a, b) && g == f[a..b] && Stretch(g, d, e) && t == g[d..e]
    ensures Stretch(f, a + d, a + e) && t == f[a + d..a + e]
  {
    InnerStretch(f, g, a, b, d, e);
  }

  lemma TrimmedIsAStretch(u: Unicode, name: string) returns (i: nat, j: nat)
    ensures var f := Filter(KeepTest(u), name); Stretch(f, i, j) && Trimmed(u, name) == f[i..j]
  {
    var f := Filter(KeepTest(u), name);
    var g := TrimStart(IsDot, Trim(IsSpace, f));
    var a, b := FirstTwoTrims(f);
    var d, e := SpacesAreAStretch(g);
    StretchWithin(f, g, Trimmed(u, name), a, b, d, e);
    i, j := a + d, a + e;
  }

  lemma EndOfTaken(t: string)
    requires t != [] ==> !IsSpace(t[0])
    ensures var taken := Take(t, MAX_NAME);
            var cut := TrimEnd(IsDotOrSpace, taken);
            Trim(IsSpace, cut) == cut && cut <= taken <= t
            && forall k :: |cut| <= k < |t| && k < MAX_NAME ==> IsDotOrSpace(t[k])
  {
    var taken := Take(t, MAX_NAME);
    EndDropped(IsDotOrSpace, taken);
    assert forall k :: 0 <= k < |taken| ==> taken[k] == t[k];
  }

  /** Of the characters that may stay, in their order, one stretch is kept: before it only dots and spaces
      are left out, and behind it only dots and spaces or what lies beyond the limit. */
  lemma SettleKeepsAStretch(u: Unicode, name: string) returns (i: nat, j: nat)
    ensures var f := Filter(KeepTest(u), name);
            && i <= j <= |f| && Settle(u, name) == f[i..j]
            && (forall k :: 0 <= k < i ==> IsDotOrSpace(f[k]))
            && (forall k :: j <= k < |f| && k < i + MAX_NAME ==> IsDotOrSpace(f[k]))
  {
    var f, t := Filter(KeepTest(u), name), Trimmed(u, name);
    var b;
    i, b := TrimmedIsAStretch(u, name);
    EndOfTaken(t);
    j := i + |Settle(u, name)|;
    assert forall k :: i <= k < b ==> f[k] == t[k - i];
  }

  /** Of the characters that stay, one that is no dot or space and comes among the first 120 leaves a name. */
  ghost predicate Telling(u: Unicode, name: string) {
    var f := Filter(KeepTest(u), name);
    exists k :: 0 <= k < |f| && k < 120 && !IsDotOrSpace(f[k])
  }

  lemma TellingIsKept(u: Unicode, name: string)
    requires Telling(u, name)
    ensures Settle(u, name) != []
  {
    var i, j := SettleKeepsAStretch(u, name);
    var f := Filter(KeepTest(u), name);
    var k :| 0 <= k < |f| && k < 120 && !IsDotOrSpace(f[k]);
    assert i <= k;
  }

  lemma LastOfStretch(f: string, kept: string, i: nat, j: nat)
    requires i <= j <= |f| && kept == f[i..j]
    ensures kept != [] ==> Last(kept) in f
  {
  }

  lemma NothingToTell(u: Unicode, name: string)
    requires forall c :: c in name ==> !u.alphanumeric(c) && c != '-' && c != '_'
    ensures Settle(u, name) == []
  {
    var f := Filter(KeepTest(u), name);
    var i, j := SettleKeepsAStretch(u, name);
    assert forall c :: c in f ==> IsDotOrSpace(c);
    LastOfStretch(f, Settle(u, name), i, j);
  }

  /** What comes out, read off what goes in: `output` when nothing is left; otherwise the stretch that is kept,
      with an underscore in front exactly when it would be taken for a device. Nothing is left of a name of
      dots, spaces and characters that are dropped; something is when one that tells comes early enough. */
  lemma SanitiseGives(u: Unicode, name: string)
    requires Sound(u)
    ensures var settled := Settle(u, name);
            Sanitise(u, name) == if settled == [] then ['o', 'u', 't', 'p', 'u', 't']
                                 else if exists k: nat, j: nat :: StemEnds(settled, k, j) && IsDevice(u, settled[..k])
                                 then ['_'] + settled
                                 else settled
    ensures (forall c :: c in name ==> !u.alphanumeric(c) && c != '-' && c != '_') ==> Settle(u, name) == []
    ensures Telling(u, name) ==> Settle(u, name) != []
  {
    ReservedExactly(u, Settle(u, name));
    if Telling(u, name) {
      TellingIsKept(u, name);
    }
    if forall c :: c in name ==> !u.alphanumeric(c) && c != '-' && c != '_' {
      NothingToTell(u, name);
    }
  }
}
