/** Exactly where the runtime's reading of an address and the editor's agree: over every ASCII address, with
    white space anywhere around it and any number of `://` in it. */
module UrlAgreement {
  import opened Common
  import opened Text
  import opened UrlAuthority
  import Decimal

  // -- which text each of them reads --------------------------------------------------------------------

  /** A second `://` that starts with the authority's last colon. */
  predicate CutAtColon(rest: string) {
    var authority := UpToDelimiter(rest);
    authority != [] && SeparatorAt(rest, |authority| - 1)
  }

  /** The authority text the editor ends up with, of what follows the first `://`: it has lost that colon, or
      the white space at the end of the address, or nothing. */
  function EditorsAuthority(rest: string): string {
    var authority := UpToDelimiter(rest);
    if CutAtColon(rest) then Front(authority)
    else if authority == rest then TrimEnd(IsSpace, authority)
    else authority
  }

  predicate BlankFrom(s: string, n: nat) {
    forall i :: n <= i < |s| ==> IsSpace(s[i])
  }

  /** What is left after trimming is told by where the white space starts. */
  lemma {:induction false} TrimmedIs(s: string, kept: string)
    requires kept <= s && BlankFrom(s, |kept|) && (kept != [] ==> !IsSpace(Last(kept)))
    ensures TrimEnd(IsSpace, s) == kept
  {
    if |kept| < |s| {
      TrimmedIs(Front(s), kept);
    } else {
      assert kept == s;
    }
  }

  lemma FirstSeparatorOfPrefix(s: string, t: string, from: nat)
    requires t <= s
    ensures match FindSeparator(s, from)
            case Some(at) => if at + 3 <= |t| then FindSeparator(t, from) == Some(at) else FindSeparator(t, from).None?
            case None => FindSeparator(t, from).None?
  {
    assert forall i :: 0 <= i && i + 3 <= |t| ==> SeparatorAt(t, i) == SeparatorAt(s, i);
    assert forall i :: i + 3 > |t| ==> !SeparatorAt(t, i);
  }

  /** Text up to a delimiter depends only on what comes before the delimiter. */
  lemma {:induction false} UpToDelimiterOfPrefix(s: string, t: string)
    requires t <= s
    ensures UpToDelimiter(t) == if |UpToDelimiter(s)| <= |t| then UpToDelimiter(s) else t
  {
    if t != [] && !IsDelimiter(t[0]) {
      assert t[0] == s[0];
      UpToDelimiterOfPrefix(s[1..], t[1..]);
    }
  }

  /** No `://` starts inside the authority but at its last colon. */
  lemma SeparatorsAreLate(rest: string, i: nat)
    requires SeparatorAt(rest, i)
    ensures |UpToDelimiter(rest)| <= i + 1
    ensures |UpToDelimiter(rest)| == i + 1 ==> CutAtColon(rest)
  {
    assert IsDelimiter(rest[i + 1]);
  }

  /** The piece the editor takes: all that was kept, or what comes before the first separator in it. */
  ghost predicate IsPiece(kept: string, piece: string) {
    && piece <= kept
    && (piece != kept ==> SeparatorAt(kept, |piece|) && forall i :: 0 <= i < |piece| ==> !SeparatorAt(kept, i))
    && (piece == kept ==> forall i :: 0 <= i ==> !SeparatorAt(kept, i))
  }

  lemma PieceOfUncut(rest: string, kept: string, piece: string)
    requires kept == TrimEnd(IsSpace, rest) && IsPiece(kept, piece) && !CutAtColon(rest)
    ensures UpToDelimiter(piece) == EditorsAuthority(rest)
  {
    var authority := UpToDelimiter(rest);
    UpToDelimiterOfPrefix(rest, piece);
    EndDropped(IsSpace, rest);
    if piece != kept {
      assert SeparatorAt(rest, |piece|);
      SeparatorsAreLate(rest, |piece|);
    } else if |authority| < |rest| {
      assert IsDelimiter(rest[|authority|]);
    }
  }

  lemma PieceOfCut(rest: string, kept: string, piece: string)
    requires kept == TrimEnd(IsSpace, rest) && IsPiece(kept, piece) && CutAtColon(rest)
    ensures UpToDelimiter(piece) == EditorsAuthority(rest)
  {
    var j := |UpToDelimiter(rest)| - 1;
    EndDropped(IsSpace, rest);
    assert rest[j + 2] == '/';
    assert j + 3 <= |kept|;
    assert SeparatorAt(kept, j);
    assert piece != kept ==> IsDelimiter(rest[|piece| + 1]);
    assert |piece| == j;
    UpToDelimiterOfPrefix(rest, piece);
  }

  lemma PieceIsPiece(t: string, at: nat)
    requires at + 3 <= |t|
    ensures var end := FindSeparator(t, at + 3);
            IsPiece(t[at + 3..], if end.Some? then t[at + 3..end.value] else t[at + 3..])
  {
    var kept := t[at + 3..];
    assert forall i :: 0 <= i ==> SeparatorAt(kept, i) == SeparatorAt(t, at + 3 + i);
  }

  /** Behind the first separator nothing but the trailing white space is lost. */
  lemma KeptIsTrimmed(url: string, at: nat)
    requires FindSeparator(url, 0) == Some(at)
    ensures var t := TrimEnd(IsSpace, url);
            FindSeparator(t, 0) == Some(at) && at + 3 <= |t| && t[..at] == url[..at]
            && t[at + 3..] == TrimEnd(IsSpace, url[at + 3..])
  {
    var t, rest := TrimEnd(IsSpace, url), url[at + 3..];
    EndDropped(IsSpace, url);
    assert url[at + 2] == '/';
    assert at + 3 <= |t|;
    FirstSeparatorOfPrefix(url, t, 0);
    var kept := t[at + 3..];
    assert kept <= rest && BlankFrom(rest, |kept|);
    assert kept != [] ==> Last(kept) == Last(t);
    TrimmedIs(rest, kept);
  }

  lemma NothingInFront(url: string)
    requires url != [] ==> !IsSpace(url[0])
    ensures Trim(IsSpace, url) == TrimEnd(IsSpace, url)
  {
  }

  lemma EditorsPieces(url: string, at: nat) returns (piece: string)
    requires (url != [] ==> !IsSpace(url[0])) && FindSeparator(url, 0) == Some(at)
    ensures SplitPieces(url) == (url[..at], Some(piece)) && UpToDelimiter(piece) == EditorsAuthority(url[at + 3..])
  {
    NothingInFront(url);
    KeptIsTrimmed(url, at);
    var t, rest := TrimEnd(IsSpace, url), url[at + 3..];
    PieceIsPiece(t, at);
    var end := FindSeparator(t, at + 3);
    piece := if end.Some? then t[at + 3..end.value] else t[at + 3..];
    PieceOfRest(rest, t[at + 3..], piece);
  }

  lemma PieceOfRest(rest: string, kept: string, piece: string)
    requires kept == TrimEnd(IsSpace, rest) && IsPiece(kept, piece)
    ensures UpToDelimiter(piece) == EditorsAuthority(rest)
  {
    if CutAtColon(rest) {
      PieceOfCut(rest, kept, piece);
    } else {
      PieceOfUncut(rest, kept, piece);
    }
  }

  lemma NoSeparatorNoPieces(url: string)
    requires FindSeparator(url, 0).None? && (url != [] ==> !IsSpace(url[0]))
    ensures SplitPieces(url).1.None?
  {
    NothingInFront(url);
    FirstSeparatorOfPrefix(url, TrimEnd(IsSpace, url), 0);
  }

  /** With nothing in front of the scheme, the editor asks about its own authority text. */
  lemma EditorReads(url: string)
    requires url != [] ==> !IsSpace(url[0])
    ensures match FindSeparator(url, 0)
            case None => HostOf(url) == ""
            case Some(at) =>
              HostOf(url) == if RuntimeText(url).None? then ""
                             else AskAbout(RuntimeText(url).value.0, EditorsAuthority(url[at + 3..]))
  {
    match FindSeparator(url, 0) {
      case None => NoSeparatorNoPieces(url);
      case Some(at) =>
        var piece := EditorsPieces(url, at);
        PiecesAreRead(url, at, piece);
    }
  }

  lemma PiecesAreRead(url: string, at: nat, piece: string)
    requires FindSeparator(url, 0) == Some(at) && SplitPieces(url) == (url[..at], Some(piece))
    ensures HostOf(url) == if RuntimeText(url).None? then ""
                           else AskAbout(RuntimeText(url).value.0, UpToDelimiter(piece))
  {
  }

  lemma AgreeIsSame(url: string)
    ensures Agree(url) <==> HostOf(url) == Shown(UrlPartsOf(url))
  {
    if RuntimeText(url).Some? {
      AuthorityIsNotEmpty(RuntimeText(url).value.0, RuntimeText(url).value.1);
    }
  }

  // -- what the editor refuses ----------------------------------------------------------------------------

  predicate OnlyDots(s: string) { forall c :: c in s ==> c == '.' }

  /** A port that is there and is no number a port can be. */
  predicate BadPort(p: string) { p != [] && (!Decimal.AllDigits(p) || Decimal.Value(p) > 65535) }

  /** Authority text the editor asks nothing about: none, credentials in it, a bracket that is never closed, a
      host that is dots only, or a bad port. */
  predicate Refused(authority: string) {
    authority == [] || '@' in authority ||
    match SplitHostPort(authority)
    case None => true
    case Some((host, port)) => OnlyDots(host) || (port.Some? && BadPort(port.value))
  }

  lemma DotsTrimAway(s: string)
    ensures WithoutTrailingDots(s) == [] <==> OnlyDots(s)
  {
    EndDropped(IsDot, s);
    if WithoutTrailingDots(s) == [] {
      assert forall i :: 0 <= i < |s| ==> s[i] == '.';
    } else {
      assert Last(WithoutTrailingDots(s)) in s;
    }
  }

  lemma HostRefusedExactly(https: bool, host: string, port: Option<string>)
    ensures AskHost(https, host, port) == "" <==> OnlyDots(host) || (port.Some? && BadPort(port.value))
  {
    DotsTrimAway(host);
  }

  lemma EditorSplits(https: bool, authority: string)
    requires authority != [] && '@' !in authority
    ensures AskAbout(https, authority) ==
              match SplitHostPort(authority)
              case None => ""
              case Some((host, port)) => AskHost(https, host, port)
  {
    if authority[0] == '[' {
      var rest := authority[1..];
      IndexOfAfterOther(authority, ']');
      match IndexOf(rest, ']')
      case None =>
      case Some(close) =>
        assert authority[close + 2..] == rest[close + 1..] && authority[1..close + 1] == rest[..close];
    }
  }

  lemma RefusedExactly(https: bool, authority: string)
    ensures AskAbout(https, authority) == "" <==> Refused(authority)
  {
    if authority != [] && '@' !in authority {
      EditorSplits(https, authority);
      match SplitHostPort(authority)
      case None =>
      case Some((host, port)) => HostRefusedExactly(https, host, port);
    }
  }

  // -- white space behind the authority -----------------------------------------------------------------

  /** The runtime reads the white space as part of the port or of the host. So they agree when both refuse,
      or when the white space stands behind a closing bracket, where neither looks. */
  predicate TrailingAgrees(authority: string) {
    authority != [] &&
    ('@' in authority ||
     match SplitHostPort(authority)
     case None => true
     case Some((_, None)) => authority[0] == '['
     case Some((_, Some(_))) => Refused(authority))
  }

  predicate Blank(s: string) { s != [] && forall c :: c in s ==> IsSpace(c) }

  lemma BlankIsNoPort(p: string, blank: string)
    requires Blank(blank)
    ensures ParseU16(p + blank).None?
  {
    assert Last(blank) in blank && Last(p + blank) == Last(blank);
    var text := p + blank;
    var digits := if text[0] == '+' then text[1..] else text;
    assert digits != [] ==> Last(text) in digits && !Decimal.IsDigit(Last(text));
  }

  /** A port with white space behind it is no port: the runtime refuses. */
  lemma BlankPortRefused(https: bool, hostText: string, p: string, blank: string)
    requires Blank(blank)
    ensures ReadHost(https, hostText, Some(p + blank)).None?
  {
    BlankIsNoPort(p, blank);
  }

  lemma {:induction false} IndexSkipsBehind(s: string, t: string, c: char)
    requires IndexOf(s, c).Some? || c !in t
    ensures IndexOf(s + t, c) == IndexOf(s, c)
  {
    if s == [] {
      assert s + t == t;
    } else {
      assert (s + t)[1..] == s[1..] + t;
      if s[0] != c {
        IndexSkipsBehind(s[1..], t, c);
      }
    }
  }

  /** Where an authority in brackets splits does not depend on what is put behind it. */
  lemma BracketsSplitAlike(authority: string, more: string)
    requires authority != [] && authority[0] == '[' && ']' !in more && more != []
    ensures match SplitHostPort(authority)
            case None => SplitHostPort(authority + more).None?
            case Some((host, Some(p))) => SplitHostPort(authority + more) == Some((host, Some(p + more)))
            case Some((host, None)) =>
              SplitHostPort(authority + more) == Some((host, None))
              || (more[0] == ':' && SplitHostPort(authority + more) == Some((host, Some(more[1..]))))
  {
    var rest := authority[1..];
    assert (authority + more)[1..] == rest + more;
    IndexSkipsBehind(rest, more, ']');
    var close := IndexOf(rest, ']');
    if close.Some? {
      var after := rest[close.value + 1..];
      assert (rest + more)[close.value + 1..] == after + more && (rest + more)[..close.value] == rest[..close.value];
      if after != [] {
        assert (after + more)[1..] == after[1..] + more;
      } else {
        assert after + more == more;
      }
    }
  }

  lemma ColonSplits(authority: string, at: nat, more: string)
    requires authority != [] && authority[0] != '[' && LastIndexOf(authority, ':') == Some(at) && ':' !in more
    ensures SplitHostPort(authority) == Some((authority[..at], Some(authority[at + 1..])))
    ensures SplitHostPort(authority + more) == Some((authority[..at], Some(authority[at + 1..] + more)))
  {
    var whole := authority + more;
    LastIndexSkips(authority, more, ':');
    assert whole[..at] == authority[..at];
    assert whole[at + 1..] == authority[at + 1..] + more;
    assert whole[0] == authority[0];
  }

  /** A bare name with white space behind it is another name. */
  lemma BareNameDiffers(https: bool, name: string, blank: string)
    requires Blank(blank) && LastIndexOf(name, ':').None? && (name != [] ==> name[0] != '[')
    requires '@' !in name
    ensures Shown(ReadAuthority(https, name + blank)) == LowerAll(name + blank)
    ensures AskAbout(https, name) != LowerAll(name + blank)
  {
    LastIndexSkips(name, blank, ':');
    assert '@' !in blank && ':' !in blank && '[' !in blank;
    assert (name + blank)[0] != '[';
    assert Last(name + blank) == Last(blank) && Last(blank) in blank;
    assert WithoutTrailingDots(name + blank) == name + blank;
    ShorterName(https, name);
  }

  lemma ShorterName(https: bool, name: string)
    requires LastIndexOf(name, ':').None? && (name != [] ==> name[0] != '[')
    ensures |AskAbout(https, name)| <= |name|
  {
  }

  lemma TrailingExactly(https: bool, authority: string, blank: string)
    requires Blank(blank)
    ensures AskAbout(https, authority) == Shown(ReadAuthority(https, authority + blank))
            <==> TrailingAgrees(authority)
  {
    assert '@' !in blank && ']' !in blank && ':' !in blank && '[' !in blank;
    if authority == [] {
      assert authority + blank == blank;
      BareNameDiffers(https, authority, blank);
    } else if '@' in authority {
    } else if authority[0] == '[' {
      TrailingBrackets(https, authority, blank);
    } else {
      TrailingName(https, authority, blank);
    }
  }

  lemma TrailingBrackets(https: bool, authority: string, blank: string)
    requires Blank(blank) && authority != [] && authority[0] == '[' && '@' !in authority
    ensures AskAbout(https, authority) == Shown(ReadAuthority(https, authority + blank))
            <==> TrailingAgrees(authority)
  {
    assert '@' !in blank && ']' !in blank && ':' !in blank;
    assert blank[0] in blank;
    RefusedExactly(https, authority);
    BracketsSplitAlike(authority, blank);
    ReadingsAgree(https, authority);
    match SplitHostPort(authority) {
      case Some((host, Some(p))) =>
        BlankPortRefused(https, host, p, blank);
      case _ =>
    }
  }

  lemma TrailingName(https: bool, authority: string, blank: string)
    requires Blank(blank) && authority != [] && authority[0] != '[' && '@' !in authority
    ensures AskAbout(https, authority) == Shown(ReadAuthority(https, authority + blank))
            <==> TrailingAgrees(authority)
  {
    assert '@' !in blank && ':' !in blank;
    match LastIndexOf(authority, ':') {
      case None => BareNameDiffers(https, authority, blank);
      case Some(at) =>
        RefusedExactly(https, authority);
        ColonSplits(authority, at, blank);
        BlankPortRefused(https, authority[..at], authority[at + 1..], blank);
    }
  }

  // -- a second separator at the authority's last colon --------------------------------------------------

  /** A port as it would be printed, and not the scheme's own. */
  predicate PrintedPort(https: bool, p: string) {
    && p != [] && Decimal.AllDigits(p) && Decimal.Value(p) <= 65535 && Decimal.Value(p) != DefaultPort(https)
    && Decimal.Show(Decimal.Value(p)) == p
  }

  /** The runtime reads everything before that colon as the host, port and all; the editor has lost the colon
      and reads the port. They agree when the text with the port is spelled as the editor would print it, when
      there is no port, and when both refuse. */
  predicate ColonAgrees(https: bool, authority: string) {
    || authority == [] || '@' in authority
    || (if authority[0] == '[' then
          match SplitHostPort(authority)
          case Some((_, Some(_))) => Refused(authority)
          case _ => true
        else
          match LastIndexOf(authority, ':')
          case None => true
          case Some(at) =>
            at > 0 && authority[at - 1] != '.' && PrintedPort(https, authority[at + 1..]))
  }

  lemma ColonIsNoPort(p: string)
    ensures ParseU16(p + [':']).None?
  {
    var text := p + [':'];
    var digits := if text[0] == '+' then text[1..] else text;
    assert digits != [] ==> Last(text) in digits && !Decimal.IsDigit(':');
  }

  lemma ColonBehindBrackets(https: bool, authority: string)
    requires authority != [] && authority[0] == '[' && '@' !in authority
    ensures match SplitHostPort(authority)
            case Some((_, Some(_))) => ReadAuthority(https, authority + [':']).None?
            case _ => ReadAuthority(https, authority + [':']) == ReadAuthority(https, authority)
  {
    BracketsSplitAlike(authority, [':']);
    match SplitHostPort(authority) {
      case Some((host, Some(p))) => ColonIsNoPort(p);
      case Some((host, None)) => assert [':'][1..] == [];
      case None =>
    }
  }

  lemma ColonBrackets(https: bool, authority: string)
    requires authority != [] && authority[0] == '[' && '@' !in authority
    ensures AskAbout(https, authority) == Shown(ReadAuthority(https, authority + [':']))
        <==> ColonAgrees(https, authority)
  {
    RefusedExactly(https, authority);
    ColonBehindBrackets(https, authority);
    ReadingsAgree(https, authority);
  }

  lemma RuntimeKeepsAll(https: bool, authority: string)
    requires authority != [] && '@' !in authority && authority[0] != '['
    ensures Shown(ReadAuthority(https, authority + [':'])) == LowerAll(WithoutTrailingDots(authority))
  {
    LastCharFound(authority, ':');
    assert (authority + [':'])[..|authority|] == authority;
  }

  /** A host and port as text, against the same host and the port as a number. */
  lemma SameText(host: string, p: string, n: nat)
    requires Decimal.AllDigits(p)
    ensures LowerAll(WithoutTrailingDots(host)) + [':'] + Decimal.Show(n) == LowerAll(host + [':'] + p)
            <==> (host == [] || Last(host) != '.') && Decimal.Show(n) == p
  {
    var short := WithoutTrailingDots(host);
    LowerParts(host, p);
    Decimal.ShowThenRead(n);
    if LowerAll(short) + [':'] + Decimal.Show(n) == LowerAll(host) + [':'] + p {
      PortSplitsOff(LowerAll(short), Decimal.Show(n));
      PortSplitsOff(LowerAll(host), p);
      assert |short| == |host|;
    }
  }

  lemma LowerParts(host: string, p: string)
    requires Decimal.AllDigits(p)
    ensures LowerAll(host + [':'] + p) == LowerAll(host) + [':'] + p
  {
    assert forall i :: 0 <= i < |p| ==> p[i] in p;
  }

  /** Against a text that still has the colon in it, the bare host is shorter. */
  lemma HostIsShorter(https: bool, host: string, p: string)
    requires p == [] || !Decimal.AllDigits(p) || Decimal.Value(p) > 65535 || Decimal.Value(p) == DefaultPort(https)
    ensures |AskHost(https, host, Some(p))| <= |host|
  {
  }

  lemma HostAndPort(https: bool, host: string, p: string)
    requires p != [] && Decimal.AllDigits(p) && Decimal.Value(p) <= 65535 && Decimal.Value(p) != DefaultPort(https)
    ensures AskHost(https, host, Some(p)) == LowerAll(host + [':'] + p) <==>
              host != [] && Last(host) != '.' && PrintedPort(https, p)
  {
    SameText(host, p, Decimal.Value(p));
    var short := LowerAll(WithoutTrailingDots(host));
    assert short + ":" + Decimal.Show(Decimal.Value(p)) == short + [':'] + Decimal.Show(Decimal.Value(p));
  }

  lemma AskAtColon(https: bool, authority: string, at: nat)
    requires authority != [] && authority[0] != '[' && '@' !in authority && LastIndexOf(authority, ':') == Some(at)
    ensures AskAbout(https, authority) == AskHost(https, authority[..at], Some(authority[at + 1..]))
  {
  }

  lemma CutAt(authority: string, at: nat)
    requires at < |authority| && authority[at] == ':'
    ensures authority == authority[..at] + [':'] + authority[at + 1..]
  {
  }

  lemma ColonName(https: bool, authority: string, at: nat)
    requires authority != [] && authority[0] != '[' && '@' !in authority && LastIndexOf(authority, ':') == Some(at)
    ensures AskAbout(https, authority) == LowerAll(WithoutTrailingDots(authority)) <==> ColonAgrees(https, authority)
  {
    CutAt(authority, at);
    AskAtColon(https, authority, at);
    HostAndText(https, authority[..at], authority[at + 1..]);
  }

  lemma HostAndText(https: bool, host: string, p: string)
    ensures AskHost(https, host, Some(p)) == LowerAll(WithoutTrailingDots(host + [':'] + p)) <==>
              host != [] && Last(host) != '.' && PrintedPort(https, p)
  {
    var authority := host + [':'] + p;
    if p == [] || !Decimal.AllDigits(p) || Decimal.Value(p) > 65535 || Decimal.Value(p) == DefaultPort(https) {
      EndDropped(IsDot, authority);
      assert authority[|host|] == ':';
      HostIsShorter(https, host, p);
    } else {
      assert Last(p) in p && Last(authority) == Last(p);
      assert WithoutTrailingDots(authority) == authority;
      HostAndPort(https, host, p);
    }
  }

  lemma ColonExactly(https: bool, authority: string)
    ensures AskAbout(https, authority) == Shown(ReadAuthority(https, authority + [':']))
        <==> ColonAgrees(https, authority)
  {
    if authority == [] {
      assert authority + [':'] == [':'];
      LastCharFound([], ':');
      assert [] + [':'] == [':'];
    } else if '@' in authority {
    } else if authority[0] == '[' {
      ColonBrackets(https, authority);
    } else {
      RuntimeKeepsAll(https, authority);
      match LastIndexOf(authority, ':') {
        case None =>
        case Some(at) => ColonName(https, authority, at);
      }
    }
  }

  // -- exactly where they agree -------------------------------------------------------------------------

  /** White space in front: the runtime refuses the scheme. */
  lemma LeadingSpaceRefused(url: string)
    requires url != [] && IsSpace(url[0])
    ensures UrlPartsOf(url).None?
  {
    var found := FindSeparator(url, 0);
    if found.Some? {
      assert found.value > 0;
      assert LowerAll(url[..found.value])[0] == url[0];
    }
  }

  /** Space, tab, line feed, vertical tab, form feed and carriage return: in front of an address the editor does not
      see these six. Any other character in front makes it another scheme, with nothing to ask about. */
  lemma WhatTheEditorSkips(c: char, url: string)
    ensures c in {' ', '\t', '\n', 11 as char, 12 as char, '\r'} ==> HostOf([c] + url) == HostOf(url)
    ensures c !in {' ', '\t', '\n', 11 as char, 12 as char, '\r'} && RuntimeText(url).Some? ==> HostOf([c] + url) == ""
  {
    if IsSpace(c) {
      assert ([c] + url)[1..] == url;
      EditorTrimsFirst([c] + url);
      EditorTrimsFirst(url);
    } else if RuntimeText(url).Some? {
      OtherSchemeRefused(c, url);
    }
  }

  lemma OtherSchemeRefused(c: char, url: string)
    requires !IsSpace(c) && RuntimeText(url).Some?
    ensures HostOf([c] + url) == ""
  {
    var longer, at := [c] + url, FindSeparator(url, 0).value;
    var scheme := LowerAll(url[..at]);
    assert |scheme| == at && scheme[0] == 'h' && Lower(url[0]) == 'h';
    SeparatorBehind(c, url, at);
    assert longer[..at + 1] == [c] + url[..at];
    assert LowerAll(longer[..at + 1])[1] == 'h';
    assert RuntimeText(longer).None?;
    EditorRefusesExactly(longer);
  }

  lemma SeparatorBehind(c: char, url: string, at: nat)
    requires FindSeparator(url, 0) == Some(at) && !SeparatorAt([c] + url, 0)
    ensures FindSeparator([c] + url, 0) == Some(at + 1)
  {
    var longer := [c] + url;
    assert SeparatorAt(longer, at + 1);
    forall i | 0 < i < at + 1 ensures !SeparatorAt(longer, i) {
      assert !SeparatorAt(url, i - 1);
    }
  }

  /** Of what follows the first `://`: a second one right at the authority's last colon, else white space
      behind the authority, else a plus before the port. */
  predicate AuthoritiesAlike(https: bool, rest: string) {
    var authority := UpToDelimiter(rest);
    if CutAtColon(rest) then ColonAgrees(https, Front(authority))
    else if authority == rest && authority != [] && IsSpace(Last(authority))
    then TrailingAgrees(TrimEnd(IsSpace, authority))
    else !PlusPort(authority)
  }

  /** With nothing in front: no `://`, another scheme, or refused authority text. */
  predicate RefusedAddress(url: string) {
    RuntimeText(url).None? || Refused(EditorsAuthority(url[FindSeparator(url, 0).value + 3..]))
  }

  /** The condition, read off the address alone: white space in front of it first, where the runtime refuses and
      the editor has to refuse what is left without it. */
  predicate ReadAlike(url: string) {
    if url != [] && IsSpace(url[0]) then RefusedAddress(TrimStart(IsSpace, url))
    else if RuntimeText(url).None? then true
    else AuthoritiesAlike(RuntimeText(url).value.0, url[FindSeparator(url, 0).value + 3..])
  }

  lemma EditorTrimsFirst(url: string)
    ensures HostOf(url) == HostOf(TrimStart(IsSpace, url))
  {
    var shown := TrimStart(IsSpace, url);
    assert TrimStart(IsSpace, shown) == shown;
    assert SplitPieces(url) == SplitPieces(shown);
  }

  lemma EditorRefusesExactly(url: string)
    requires url != [] ==> !IsSpace(url[0])
    ensures HostOf(url) == "" <==> RefusedAddress(url)
  {
    EditorReads(url);
    if RuntimeText(url).Some? {
      RefusedExactly(RuntimeText(url).value.0, EditorsAuthority(url[FindSeparator(url, 0).value + 3..]));
    }
  }

  /** An address with white space in front, any white space and any amount: they agree if and only if the editor
      refuses the rest. */
  lemma LeadingSpaceExactly(url: string)
    requires url != [] && IsSpace(url[0])
    ensures Agree(url) <==> RefusedAddress(TrimStart(IsSpace, url))
  {
    AgreeOnRefusal(url);
    EditorRefusesBehind(url);
  }

  lemma EditorRefusesBehind(url: string)
    ensures HostOf(url) == "" <==> RefusedAddress(TrimStart(IsSpace, url))
  {
    EditorTrimsFirst(url);
    EditorRefusesExactly(TrimStart(IsSpace, url));
  }

  lemma AgreeOnRefusal(url: string)
    requires url != [] && IsSpace(url[0])
    ensures Agree(url) <==> HostOf(url) == ""
  {
    LeadingSpaceRefused(url);
  }

  lemma TrimmedOff(authority: string) returns (blank: string)
    requires authority != [] && IsSpace(Last(authority))
    ensures Blank(blank) && authority == TrimEnd(IsSpace, authority) + blank
  {
    var kept := TrimEnd(IsSpace, authority);
    EndDropped(IsSpace, authority);
    blank := authority[|kept|..];
    assert forall i :: 0 <= i < |blank| ==> blank[i] == authority[|kept| + i];
  }

  lemma LastColonOfCut(rest: string)
    requires CutAtColon(rest)
    ensures UpToDelimiter(rest) == Front(UpToDelimiter(rest)) + [':']
  {
    var authority := UpToDelimiter(rest);
    assert Last(authority) == rest[|authority| - 1];
  }

  /** For every address, without exception: what the editor asks about is what the runtime will look for, and
      it asks about nothing where the runtime refuses, if and only if that condition holds. */
  lemma ParsersAgreeExactly(url: string)
    ensures Agree(url) <==> ReadAlike(url)
  {
    if url != [] && IsSpace(url[0]) {
      LeadingSpaceExactly(url);
    } else {
      ParsersAgreeInside(url);
    }
  }

  lemma ParsersAgreeInside(url: string)
    requires url != [] ==> !IsSpace(url[0])
    ensures Agree(url) <==> ReadAlike(url)
  {
    AgreeIsSame(url);
    EditorReads(url);
    RuntimeShows(url);
    if RuntimeText(url).Some? {
      AuthoritiesAgree(RuntimeText(url).value.0, url[FindSeparator(url, 0).value + 3..]);
    }
  }

  lemma RuntimeShows(url: string)
    ensures RuntimeText(url).None? ==> Shown(UrlPartsOf(url)) == ""
    ensures RuntimeText(url).Some? ==>
              && FindSeparator(url, 0).Some?
              && var rest := url[FindSeparator(url, 0).value + 3..];
                 Shown(UrlPartsOf(url)) == Shown(ReadAuthority(RuntimeText(url).value.0, UpToDelimiter(rest)))
  {
  }

  lemma AuthoritiesAgree(https: bool, rest: string)
    ensures AskAbout(https, EditorsAuthority(rest)) == Shown(ReadAuthority(https, UpToDelimiter(rest)))
            <==> AuthoritiesAlike(https, rest)
  {
    var authority := UpToDelimiter(rest);
    if CutAtColon(rest) {
      LastColonOfCut(rest);
      ColonExactly(https, Front(authority));
    } else if authority == rest && authority != [] && IsSpace(Last(authority)) {
      var blank := TrimmedOff(authority);
      TrailingExactly(https, TrimEnd(IsSpace, authority), blank);
    } else {
      ReadingsAgree(https, authority);
    }
  }

  lemma NotCutNorTrimmed(https: bool, url: string, at: nat)
    requires SeparatorAt(url, at) && !IsSpace(Last(url)) && FindSeparator(url, at + 1).None?
    ensures AuthoritiesAlike(https, url[at + 3..]) <==> !PlusPort(UpToDelimiter(url[at + 3..]))
  {
    var rest := url[at + 3..];
    forall i | 0 <= i ensures !SeparatorAt(rest, i) {
      assert SeparatorAt(rest, i) ==> SeparatorAt(url, at + 3 + i);
    }
    assert !CutAtColon(rest);
    assert rest != [] ==> Last(rest) == Last(url);
  }

  lemma TextOfFound(url: string)
    requires RuntimeText(url).Some?
    ensures var at := FindSeparator(url, 0).value; RuntimeText(url).value.1 == UpToDelimiter(url[at + 3..])
  {
  }

  lemma OrdinaryReadAlike(url: string)
    requires url != [] ==> !IsSpace(url[0]) && !IsSpace(Last(url))
    requires FindSeparator(url, 0).Some? ==> FindSeparator(url, FindSeparator(url, 0).value + 1).None?
    ensures ReadAlike(url) <==> !(RuntimeText(url).Some? && PlusPort(RuntimeText(url).value.1))
  {
    if RuntimeText(url).Some? {
      TextOfFound(url);
      NotCutNorTrimmed(RuntimeText(url).value.0, url, FindSeparator(url, 0).value);
    }
  }

  /** In particular, without surrounding white space and with one `://` at most, a plus before the port is
      the only thing that parts them. */
  lemma OrdinaryAddressesAgreeExactly(url: string)
    requires url != [] ==> !IsSpace(url[0]) && !IsSpace(Last(url))
    requires FindSeparator(url, 0).Some? ==> FindSeparator(url, FindSeparator(url, 0).value + 1).None?
    ensures Agree(url) <==> !(RuntimeText(url).Some? && PlusPort(RuntimeText(url).value.1))
  {
    ParsersAgreeExactly(url);
    OrdinaryReadAlike(url);
  }

  // -- four addresses, one by one ------------------------------------------------------------------------

  const HTTPS := ['h', 't', 't', 'p', 's', ':', '/', '/']

  lemma HttpsText(rest: string)
    ensures FindSeparator(HTTPS + rest, 0) == Some(5) && (HTTPS + rest)[8..] == rest
    ensures RuntimeText(HTTPS + rest) == Some((true, UpToDelimiter(rest)))
  {
    var url := HTTPS + rest;
    assert SeparatorAt(url, 5) && forall i :: 0 <= i < 5 ==> !SeparatorAt(url, i);
    assert url[..5] == "https";
    LowerCaseStays("https");
    assert url[5 + 3..] == rest;
  }

  lemma HttpsAgreesExactly(rest: string)
    ensures Agree(HTTPS + rest) <==> AuthoritiesAlike(true, rest)
  {
    HttpsText(rest);
    assert (HTTPS + rest)[0] == 'h';
    ParsersAgreeExactly(HTTPS + rest);
  }

  lemma {:induction false} NoDelimiterIn(s: string)
    requires forall c :: c in s ==> !IsDelimiter(c)
    ensures UpToDelimiter(s) == s
  {
    if s != [] {
      assert s[0] in s;
      NoDelimiterIn(s[1..]);
    }
  }

  lemma TrailingRest(authority: string, space: char)
    requires IsSpace(space) && authority != [] && !IsSpace(Last(authority))
    requires forall c :: c in authority ==> !IsDelimiter(c)
    ensures AuthoritiesAlike(true, authority + [space]) <==> TrailingAgrees(authority)
  {
    var rest := authority + [space];
    assert forall c :: c in rest ==> !IsDelimiter(c);
    NoDelimiterIn(rest);
    TrimmedIs(rest, authority);
  }

  /** White space behind a bare host: two different hosts. */
  lemma TrailingSpaceDisagrees(host: string, space: char)
    requires IsSpace(space) && host != [] && host[0] != '[' && !IsSpace(Last(host))
    requires forall c :: c in host ==> !IsDelimiter(c) && c != ':' && c != '@'
    ensures !Agree(HTTPS + (host + [space]))
  {
    TrailingRest(host, space);
    HttpsAgreesExactly(host + [space]);
    NoColonFound(host);
  }

  /** White space behind a closing bracket: no harm. */
  lemma TrailingSpaceBehindBracketAgrees(inside: string, space: char)
    requires IsSpace(space) && forall c :: c in inside ==> !IsDelimiter(c) && c != ']'
    ensures Agree(HTTPS + (['['] + inside + [']'] + [space]))
  {
    var authority := ['['] + inside + [']'];
    TrailingRest(authority, space);
    HttpsAgreesExactly(authority + [space]);
    IndexInBrackets(inside);
  }

  lemma FirstBracket(inside: string)
    requires ']' !in inside
    ensures var rest := inside + [']'];
            IndexOf(rest, ']') == Some(|inside|) && rest[..|inside|] == inside && rest[|inside| + 1..] == []
  {
    var rest := inside + [']'];
    assert rest[|inside|] == ']';
    assert forall i :: 0 <= i < |inside| ==> rest[i] == inside[i] && inside[i] in inside;
  }

  lemma IndexInBrackets(inside: string)
    requires ']' !in inside
    ensures SplitHostPort(['['] + inside + [']']) == Some((inside, None))
  {
    var rest := inside + [']'];
    FirstBracket(inside);
    assert ['['] + inside + [']'] == ['['] + rest && (['['] + rest)[1..] == rest;
  }

  lemma ColonRest(authority: string, tail: string)
    requires forall c :: c in authority ==> !IsDelimiter(c)
    ensures AuthoritiesAlike(true, authority + [':', '/', '/'] + tail) <==> ColonAgrees(true, authority)
  {
    var rest, upTo := authority + [':', '/', '/'] + tail, authority + [':'];
    NoDelimiterIn(upTo);
    UpToDelimiterOfPrefix(rest, upTo);
    assert IsDelimiter(rest[|upTo|]);
    assert UpToDelimiter(rest) <= rest && upTo <= rest;
    assert UpToDelimiter(rest) == upTo;
    assert SeparatorAt(rest, |authority|) && Front(upTo) == authority;
  }

  lemma HostThenPort(host: string, p: string)
    requires host != [] && host[0] != '[' && '@' !in host + p && ':' !in p
    ensures ColonAgrees(true, host + [':'] + p) <==> Last(host) != '.' && PrintedPort(true, p)
  {
    var authority := host + [':'] + p;
    LastCharFound(host, ':');
    LastIndexSkips(host + [':'], p, ':');
    assert authority[0] == host[0] && '@' !in authority && authority[|host| - 1] == Last(host);
    assert authority[|host| + 1..] == p;
  }

  /** A port right before a second `://`: they agree if and only if it is written the way it would be printed,
      is not the scheme's own, and the host has no dot at its end. */
  lemma PortBeforeSecondSeparator(host: string, p: string, tail: string)
    requires host != [] && host[0] != '[' && forall c :: c in host + p ==> !IsDelimiter(c) && c != ':' && c != '@'
    ensures Agree(HTTPS + (host + [':'] + p + [':', '/', '/'] + tail)) <==> Last(host) != '.' && PrintedPort(true, p)
  {
    ColonRest(host + [':'] + p, tail);
    HostThenPort(host, p);
    HttpsAgreesExactly(host + [':'] + p + [':', '/', '/'] + tail);
  }

  /** With an empty port there they never agree: the runtime keeps a colon in the host that the editor drops. */
  lemma EmptyPortBeforeSecondSeparator(host: string, tail: string)
    requires host != [] && host[0] != '[' && forall c :: c in host ==> !IsDelimiter(c) && c != '@'
    ensures !Agree(HTTPS + (host + [':'] + [':', '/', '/'] + tail))
  {
    var authority := host + [':'];
    LastCharFound(host, ':');
    assert authority[0] == host[0] && '@' !in authority && authority[|host| + 1..] == [];
    ColonRest(authority, tail);
    HttpsAgreesExactly(authority + [':', '/', '/'] + tail);
  }
}
