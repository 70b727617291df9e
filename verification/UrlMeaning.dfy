/** What an address means (section 3.2 of RFC 3986), written as its parts put together: whatever the parts,
    the runtime's parser takes them apart again. */
module UrlMeaning {
  import opened Common
  import opened Text
  import opened UrlAuthority
  import Decimal

  const SEPARATOR := [':', '/', '/']

  /** What ends an authority. */
  predicate Ends(c: char) { c == '/' || c == '?' || c == '#' }

  predicate Ordinary(c: char) { !Ends(c) && c != '@' }

  /** Nothing that would end the host or start user information. */
  predicate PlainHost(host: string) {
    WithoutTrailingDots(host) != [] && host[0] != '[' && forall c :: c in host ==> Ordinary(c) && c != ':'
  }

  /** What may stand between the brackets of an IPv6 literal. */
  predicate BracketedHost(inside: string) {
    WithoutTrailingDots(inside) != [] && forall c :: c in inside ==> Ordinary(c) && c != ']'
  }

  datatype Host = Plain(name: string) | Bracketed(inside: string) {
    predicate Valid() {
      match this
      case Plain(name) => PlainHost(name)
      case Bracketed(inside) => BracketedHost(inside)
    }

    function Written(): string {
      match this
      case Plain(name) => name
      case Bracketed(inside) => ['['] + inside + [']']
    }

    /** One spelling: no brackets, no trailing dots, small letters. */
    function Named(): string {
      match this
      case Plain(name) => LowerAll(WithoutTrailingDots(name))
      case Bracketed(inside) => LowerAll(WithoutTrailingDots(inside))
    }
  }

  datatype Port = NoPort | Port(digits: string) {
    predicate Valid() {
      Port? ==> Decimal.AllDigits(digits)
    }

    function Written(): string {
      match this
      case NoPort => []
      case Port(digits) => [':'] + digits
    }
  }

  /** The scheme's own port, an empty one and a missing one are one address. */
  function Meaning(https: bool, host: Host, port: Port): Option<UrlParts>
    requires port.Valid()
  {
    if port.NoPort? || port.digits == [] then Some(UrlParts(https, host.Named(), None))
    else
      var n := Decimal.Value(port.digits);
      if n > 65535 then None
      else Some(UrlParts(https, host.Named(), if n == (if https then 443 else 80) then None else Some(n)))
  }

  function PortText(port: Port): Option<string> {
    if port.NoPort? then None else Some(port.digits)
  }

  lemma {:induction false} LowerKeepsEmpty(s: string)
    ensures LowerAll(s) == [] <==> s == []
  {
  }

  lemma PortIsRead(https: bool, hostText: string, port: Port)
    requires WithoutTrailingDots(hostText) != [] && port.Valid()
    ensures ReadHost(https, hostText, PortText(port)) == Meaning(https, Plain(hostText), port)
  {
    LowerKeepsEmpty(WithoutTrailingDots(hostText));
    if port.Port? && port.digits != [] {
      assert port.digits[0] in port.digits;
    }
  }

  predicate AllOrdinary(s: string) { forall c :: c in s ==> Ordinary(c) }

  lemma PortIsOrdinary(port: Port)
    requires port.Valid()
    ensures AllOrdinary(port.Written())
  {
    if port.Port? {
      assert forall c :: c in port.digits ==> Decimal.IsDigit(c);
    }
  }

  lemma OrdinaryTogether(a: string, b: string)
    requires AllOrdinary(a) && AllOrdinary(b)
    ensures AllOrdinary(a + b) && '@' !in a + b
  {
  }

  lemma NameAlone(name: string)
    requires PlainHost(name)
    ensures SplitHostPort(name) == Some((name, None))
  {
    NoColonFound(name);
  }

  lemma NameAndPort(name: string, digits: string)
    requires PlainHost(name) && Decimal.AllDigits(digits)
    ensures SplitHostPort(name + [':'] + digits) == Some((name, Some(digits)))
  {
    PortSplitsOff(name, digits);
    assert (name + [':'] + digits)[0] == name[0];
  }

  lemma PlainSplits(name: string, port: Port)
    requires PlainHost(name) && port.Valid()
    ensures SplitHostPort(name + port.Written()) == Some((name, PortText(port)))
  {
    match port {
      case NoPort =>
        NameAlone(name);
        assert name + [] == name;
      case Port(digits) =>
        NameAndPort(name, digits);
        assert name + ([':'] + digits) == name + [':'] + digits;
    }
  }

  lemma {:induction false} IndexBehind(s: string, c: char, t: string)
    requires c !in s
    ensures IndexOf(s + [c] + t, c) == Some(|s|)
  {
    if s == [] {
    } else {
      assert (s + [c] + t)[1..] == s[1..] + [c] + t;
      IndexBehind(s[1..], c, t);
    }
  }

  lemma BracketsClose(inside: string, behind: string)
    requires ']' !in inside
    ensures SplitHostPort(['['] + inside + [']'] + behind)
            == Some((inside, if behind != [] && behind[0] == ':' then Some(behind[1..]) else None))
  {
    var rest := inside + [']'] + behind;
    IndexBehind(inside, ']', behind);
    assert (['['] + inside + [']'] + behind)[1..] == rest;
    assert rest[..|inside|] == inside && rest[|inside| + 1..] == behind;
  }

  lemma BracketsSplit(inside: string, port: Port)
    requires BracketedHost(inside)
    ensures SplitHostPort(Bracketed(inside).Written() + port.Written()) == Some((inside, PortText(port)))
  {
    BracketsClose(inside, port.Written());
    if port.Port? {
      assert port.Written()[0] == ':' && port.Written()[1..] == port.digits;
    }
  }

  lemma {:induction false} AuthorityEnds(authority: string, tail: string)
    requires AllOrdinary(authority) && (tail == [] || Ends(tail[0]))
    ensures UpToDelimiter(authority + tail) == authority
  {
    if authority == [] {
      assert authority + tail == tail;
    } else {
      assert (authority + tail)[1..] == authority[1..] + tail && authority[0] in authority;
      AuthorityEnds(authority[1..], tail);
    }
  }

  lemma SchemeEnds(scheme: string, rest: string)
    requires ':' !in scheme
    ensures FindSeparator(scheme + SEPARATOR + rest, 0) == Some(|scheme|)
  {
    var url := scheme + SEPARATOR + rest;
    assert SeparatorAt(url, |scheme|);
    forall i | 0 <= i < |scheme| ensures !SeparatorAt(url, i) {
      assert url[i] in scheme;
    }
  }

  lemma WrittenIsOrdinary(host: Host, port: Port)
    requires host.Valid() && port.Valid()
    ensures var authority := host.Written() + port.Written();
            AllOrdinary(authority) && '@' !in authority && authority != []
  {
    assert AllOrdinary(host.Written());
    PortIsOrdinary(port);
    OrdinaryTogether(host.Written(), port.Written());
  }

  function HostText(host: Host): string {
    match host
    case Plain(name) => name
    case Bracketed(inside) => inside
  }

  lemma AuthoritySplits(host: Host, port: Port)
    requires host.Valid() && port.Valid()
    ensures SplitHostPort(host.Written() + port.Written()) == Some((HostText(host), PortText(port)))
  {
    match host
    case Plain(name) => PlainSplits(name, port);
    case Bracketed(inside) => BracketsSplit(inside, port);
  }

  lemma AuthorityIsRead(https: bool, host: Host, port: Port)
    requires host.Valid() && port.Valid()
    ensures ReadAuthority(https, host.Written() + port.Written()) == Meaning(https, host, port)
  {
    WrittenIsOrdinary(host, port);
    AuthoritySplits(host, port);
    PortIsRead(https, HostText(host), port);
  }

  lemma PartsAreFound(scheme: string, authority: string, tail: string)
    requires ':' !in scheme && (LowerAll(scheme) == "https" || LowerAll(scheme) == "http")
    requires AllOrdinary(authority) && (tail == [] || Ends(tail[0]))
    ensures RuntimeText(scheme + SEPARATOR + (authority + tail)) == Some((LowerAll(scheme) == "https", authority))
  {
    var url := scheme + SEPARATOR + (authority + tail);
    SchemeEnds(scheme, authority + tail);
    assert url[..|scheme|] == scheme && url[|scheme| + 3..] == authority + tail;
    AuthorityEnds(authority, tail);
  }

  /** Scheme in any letters, a name or a bracketed literal, a port or none, and any path, query or fragment
      behind: the parser finds exactly these parts, in their one spelling, and refuses exactly a port beyond
      65535. */
  lemma AddressMeansItsParts(scheme: string, host: Host, port: Port, tail: string)
    requires ':' !in scheme && (LowerAll(scheme) == "https" || LowerAll(scheme) == "http")
    requires host.Valid() && port.Valid() && (tail == [] || Ends(tail[0]))
    ensures UrlPartsOf(scheme + SEPARATOR + (host.Written() + port.Written() + tail))
            == Meaning(LowerAll(scheme) == "https", host, port)
  {
    var authority := host.Written() + port.Written();
    WrittenIsOrdinary(host, port);
    PartsAreFound(scheme, authority, tail);
    AuthorityIsRead(LowerAll(scheme) == "https", host, port);
  }

  /** One spelling of a host: only dots at its end go, and all of them. */
  lemma OnlyTrailingDotsGo(host: string)
    ensures var r := WithoutTrailingDots(host);
            r <= host && (r != [] ==> Last(r) != '.') && forall i :: |r| <= i < |host| ==> host[i] == '.'
  {
    EndDropped(IsDot, host);
  }

  // -- exactly which addresses are read, and as what -----------------------------------------------------

  /** An authority is a host and the text of a port: brackets hold a host to the first that closes, and only a
      colon right behind them starts a port; otherwise the last colon does. */
  ghost predicate Splits(authority: string, host: string, port: Option<string>) {
    if authority != [] && authority[0] == '[' then
      exists after :: ']' !in host && authority == ['['] + host + [']'] + after && port == BehindBrackets(after)
    else
      match port
      case None => ':' !in authority && host == authority
      case Some(p) => ':' !in p && authority == host + [':'] + p
  }

  lemma {:induction false} LastIndexIsLast(s: string, c: char)
    ensures match LastIndexOf(s, c)
            case Some(i) => i < |s| && s[i] == c && c !in s[i + 1..]
            case None => c !in s
  {
    if s != [] && Last(s) != c {
      LastIndexIsLast(Front(s), c);
      assert s == Front(s) + [Last(s)];
      match LastIndexOf(s, c)
      case Some(i) => assert s[i + 1..] == Front(s)[i + 1..] + [Last(s)];
      case None =>
    }
  }

  /** What brackets hold, and the port text behind them. */
  function BehindBrackets(after: string): Option<string> {
    if after != [] && after[0] == ':' then Some(after[1..]) else None
  }

  lemma BracketFound(authority: string, host: string, after: string)
    requires ']' !in host && authority == ['['] + host + [']'] + after
    ensures SplitHostPort(authority) == Some((host, BehindBrackets(after)))
  {
    BracketsClose(host, after);
  }

  lemma BracketTaken(authority: string) returns (host: string, after: string)
    requires authority != [] && authority[0] == '[' && SplitHostPort(authority).Some?
    ensures ']' !in host && authority == ['['] + host + [']'] + after
    ensures SplitHostPort(authority) == Some((host, BehindBrackets(after)))
  {
    var rest := authority[1..];
    var close := IndexOf(rest, ']').value;
    host, after := rest[..close], rest[close + 1..];
    assert rest == host + [']'] + after;
  }

  lemma BracketSplits(authority: string, host: string, port: Option<string>)
    requires authority != [] && authority[0] == '['
    ensures Splits(authority, host, port) <==> SplitHostPort(authority) == Some((host, port))
  {
    if Splits(authority, host, port) {
      var after :| ']' !in host && authority == ['['] + host + [']'] + after && port == BehindBrackets(after);
      BracketFound(authority, host, after);
    }
    if SplitHostPort(authority) == Some((host, port)) {
      var inside, after := BracketTaken(authority);
      assert inside == host;
    }
  }

  lemma ColonSplits(authority: string, host: string, port: Option<string>)
    requires authority == [] || authority[0] != '['
    ensures Splits(authority, host, port) <==> SplitHostPort(authority) == Some((host, port))
  {
    LastIndexIsLast(authority, ':');
    match LastIndexOf(authority, ':') {
      case Some(at) =>
        assert authority == authority[..at] + [':'] + authority[at + 1..];
        if Splits(authority, host, port) {
          LastColonOnce(authority, at, host, port.value);
        }
      case None =>
    }
  }

  lemma LastColonOnce(authority: string, at: nat, host: string, p: string)
    requires at < |authority| && authority[at] == ':' && ':' !in authority[at + 1..]
    requires authority == host + [':'] + p && ':' !in p
    ensures host == authority[..at] && p == authority[at + 1..]
  {
    assert authority[|host|] == ':';
    forall i | |host| < i < |authority| ensures authority[i] != ':' {
      assert authority[i] == p[i - |host| - 1];
    }
    forall i | at < i < |authority| ensures authority[i] != ':' {
      assert authority[i] == authority[at + 1..][i - at - 1];
    }
    assert |host| == at;
  }

  lemma SplitsExactly(authority: string, host: string, port: Option<string>)
    ensures Splits(authority, host, port) <==> SplitHostPort(authority) == Some((host, port))
  {
    if authority != [] && authority[0] == '[' {
      BracketSplits(authority, host, port);
    } else {
      ColonSplits(authority, host, port);
    }
  }

  /** A port text means this port; the scheme's own is no port at all. */
  ghost predicate Means(https: bool, text: Option<string>, port: Option<nat>) {
    if text.None? || text.value == [] then port.None?
    else
      exists digits ::
        && digits != [] && Decimal.AllDigits(digits) && (text.value == digits || text.value == ['+'] + digits)
        && Decimal.Value(digits) <= 65535
        && port == if Decimal.Value(digits) == (if https then 443 else 80) then None else Some(Decimal.Value(digits))
  }

  lemma MeansExactly(https: bool, hostText: string, text: Option<string>, parts: UrlParts)
    ensures ReadHost(https, hostText, text) == Some(parts) <==>
              && parts.https == https && parts.host == LowerAll(WithoutTrailingDots(hostText)) && parts.host != []
              && Means(https, text, parts.port)
  {
    if text.Some? && text.value != [] {
      var digits := if text.value[0] == '+' then text.value[1..] else text.value;
      assert text.value == digits || text.value == ['+'] + digits;
      forall other | Decimal.AllDigits(other) && (text.value == other || text.value == ['+'] + other)
        ensures other == digits
      {
        assert text.value == other ==> text.value[0] in other;
      }
    }
  }

  /** The address is these parts put together: scheme, host text and port text, and whatever follows. */
  ghost predicate Composes(url: string, scheme: string, authority: string, tail: string) {
    && url == scheme + SEPARATOR + (authority + tail)
    && (LowerAll(scheme) == "https" || LowerAll(scheme) == "http")
    && AllOrdinary(authority) && authority != [] && (tail == [] || Ends(tail[0]))
  }

  lemma SchemeHasNoColon(scheme: string)
    requires LowerAll(scheme) == "https" || LowerAll(scheme) == "http"
    ensures ':' !in scheme
  {
    assert forall i :: 0 <= i < |scheme| ==> LowerAll(scheme)[i] == Lower(scheme[i]) && LowerAll(scheme)[i] != ':';
  }

  lemma ComposedIsRead(url: string, scheme: string, authority: string, tail: string)
    requires Composes(url, scheme, authority, tail)
    ensures UrlPartsOf(url) == ReadAuthority(LowerAll(scheme) == "https", authority)
  {
    SchemeHasNoColon(scheme);
    PartsAreFound(scheme, authority, tail);
  }

  lemma CutAtSeparator(url: string, at: nat)
    requires SeparatorAt(url, at)
    ensures url == url[..at] + SEPARATOR + url[at + 3..]
  {
  }

  lemma CutAtDelimiter(rest: string)
    ensures var authority := UpToDelimiter(rest);
            var tail := rest[|authority|..];
            rest == authority + tail && (tail == [] || Ends(tail[0])) && forall c :: c in authority ==> !Ends(c)
  {
    var authority := UpToDelimiter(rest);
    forall c | c in authority ensures !Ends(c) {
      var i :| 0 <= i < |authority| && authority[i] == c;
      assert rest[i] == c;
    }
  }

  lemma ReadIsComposed(url: string) returns (scheme: string, authority: string, tail: string)
    requires UrlPartsOf(url).Some?
    ensures Composes(url, scheme, authority, tail)
  {
    var at := FindSeparator(url, 0).value;
    var rest := url[at + 3..];
    scheme, authority := url[..at], UpToDelimiter(rest);
    tail := rest[|authority|..];
    CutAtSeparator(url, at);
    CutAtDelimiter(rest);
    assert forall c :: c in authority ==> c != '@';
  }

  /** The runtime reads an address as these parts if and only if it is put together from a scheme in any letters,
      an authority without user information that splits into a host and a port text meaning them, and a path,
      query or fragment or nothing. Every other address is refused. */
  lemma ReadsExactly(url: string, parts: UrlParts)
    ensures UrlPartsOf(url) == Some(parts) <==>
              exists scheme, authority, tail, host, port ::
                && Composes(url, scheme, authority, tail) && Splits(authority, host, port)
                && parts.https == (LowerAll(scheme) == "https")
                && parts.host == LowerAll(WithoutTrailingDots(host)) && parts.host != []
                && Means(parts.https, port, parts.port)
  {
    forall scheme, authority, tail, host, port | Composes(url, scheme, authority, tail) && Splits(authority, host, port)
      ensures UrlPartsOf(url) == ReadHost(LowerAll(scheme) == "https", host, port)
    {
      ComposedIsRead(url, scheme, authority, tail);
      SplitsExactly(authority, host, port);
    }
    forall https, host, port ensures ReadHost(https, host, port) == Some(parts) <==>
              && parts.https == https && parts.host == LowerAll(WithoutTrailingDots(host)) && parts.host != []
              && Means(https, port, parts.port)
    {
      MeansExactly(https, host, port, parts);
    }
    if UrlPartsOf(url) == Some(parts) {
      var scheme, authority, tail := ReadIsComposed(url);
      ComposedIsRead(url, scheme, authority, tail);
      var (host, port) := SplitHostPort(authority).value;
      SplitsExactly(authority, host, port);
    }
  }

  // -- what the permission is compared by ---------------------------------------------------------------

  predicate LowerOrdinary(s: string) {
    forall c :: c in s ==> Ordinary(c) && Lower(c) == c
  }

  lemma HostStaysOrdinary(host: string)
    requires AllOrdinary(host)
    ensures LowerOrdinary(LowerAll(WithoutTrailingDots(host)))
  {
    var r := WithoutTrailingDots(host);
    forall c | c in LowerAll(r) ensures Ordinary(c) && Lower(c) == c {
      var i :| 0 <= i < |r| && LowerAll(r)[i] == c;
      assert r[i] in host;
    }
  }

  lemma SplitHostIsPart(authority: string)
    requires SplitHostPort(authority).Some?
    ensures forall c :: c in SplitHostPort(authority).value.0 ==> c in authority
  {
  }

  lemma PortKeepsOrdinary(host: string, n: nat)
    requires LowerOrdinary(host)
    ensures LowerOrdinary(host + ":" + Decimal.Show(n))
  {
    Decimal.ShowThenRead(n);
    forall c | c in host + ":" + Decimal.Show(n) ensures Ordinary(c) && Lower(c) == c {
      assert c in host || c == ':' || c in Decimal.Show(n);
    }
  }

  /** Whatever address a permission is for, the text it is compared by is not empty, is in small letters, and
      holds no path, query, fragment or user information. */
  lemma PermissionIsUsable(url: string)
    requires PermissionAuthority(url).Some?
    ensures var authority := PermissionAuthority(url).value;
            && authority != "" && LowerAll(authority) == authority
            && forall c :: c in authority ==> c != '/' && c != '?' && c != '#' && c != '@'
  {
    var parts := UrlPartsOf(url).value;
    var scheme, authority, tail := ReadIsComposed(url);
    ComposedIsRead(url, scheme, authority, tail);
    SplitHostIsPart(authority);
    HostStaysOrdinary(SplitHostPort(authority).value.0);
    assert LowerOrdinary(parts.host);
    if parts.port.Some? {
      PortKeepsOrdinary(parts.host, parts.port.value);
    }
    LowerTextStays(Authority(parts));
  }

  lemma LowerTextStays(s: string)
    requires LowerOrdinary(s)
    ensures LowerAll(s) == s
  {
  }

  // -- what a grant stands for ------------------------------------------------------------------------

  lemma NumeralBehindColon(a: string, m: nat, b: string, n: nat)
    requires a + ":" + Decimal.Show(m) == b + ":" + Decimal.Show(n)
    ensures a == b && m == n
  {
    var x, y := Decimal.Show(m), Decimal.Show(n);
    var left, right := a + ":" + x, b + ":" + y;
    Decimal.ShowThenRead(m);
    Decimal.ShowThenRead(n);
    assert left[|a|] == ':' && right[|b|] == ':';
    assert forall i :: |a| < i < |left| ==> left[i] in x;
    assert forall i :: |b| < i < |right| ==> right[i] in y;
    assert |a| == |b|;
    assert a == left[..|a|] && b == right[..|b|];
    assert x == left[|a| + 1..] && y == right[|b| + 1..];
    Decimal.ShowInjective(m, n);
  }

  /** The second host ends in what is the first one's port. */
  predicate PortInHost(p: UrlParts, q: UrlParts) {
    p.port.Some? && q.port.None? && q.host == p.host + ":" + Decimal.Show(p.port.value)
  }

  /** The text a grant is compared by stands for one host and one port, whatever the scheme, unless one host ends
      in a colon and the other's port. */
  lemma OneGrantExactly(p: UrlParts, q: UrlParts)
    ensures Authority(p) == Authority(q) <==>
              (p.host == q.host && p.port == q.port) || PortInHost(p, q) || PortInHost(q, p)
  {
    if p.port.Some? && q.port.Some? && Authority(p) == Authority(q) {
      NumeralBehindColon(p.host, p.port.value, q.host, q.port.value);
    }
  }

  /** So for hosts without a colon a grant means one host and one port. */
  lemma PlainGrantIsExact(p: UrlParts, q: UrlParts)
    requires ':' !in p.host && ':' !in q.host
    ensures Authority(p) == Authority(q) <==> p.host == q.host && p.port == q.port
  {
    OneGrantExactly(p, q);
  }

  lemma LowerAllTogether(a: string, b: string)
    ensures LowerAll(a + b) == LowerAll(a) + LowerAll(b)
  {
  }

  lemma DigitsStayLow(numeral: string)
    requires Decimal.AllDigits(numeral)
    ensures LowerAll([':'] + numeral) == [':'] + numeral
  {
    assert forall i :: 0 <= i < |numeral| ==> numeral[i] in numeral;
  }

  lemma LongerLiteral(inside: string, numeral: string)
    requires BracketedHost(inside) && numeral != [] && Decimal.AllDigits(numeral)
    ensures BracketedHost(inside + ([':'] + numeral))
    ensures Bracketed(inside + ([':'] + numeral)).Named() == LowerAll(inside) + ([':'] + numeral)
  {
    var longer := inside + ([':'] + numeral);
    assert Last(longer) == Last(numeral) && Last(numeral) in numeral;
    assert WithoutTrailingDots(longer) == longer;
    DigitsStayLow(numeral);
    LowerAllTogether(inside, [':'] + numeral);
  }

  /** The literal, with the port behind its brackets and with it inside them. */
  function PortBehind(https: string, inside: string, numeral: string): string {
    https + SEPARATOR + (['['] + inside + [']'] + ([':'] + numeral) + [])
  }

  function PortInside(https: string, inside: string, numeral: string): string {
    https + SEPARATOR + (['['] + (inside + ([':'] + numeral)) + [']'] + [] + [])
  }

  lemma PortBehindIsRead(https: string, inside: string, n: nat)
    requires https == "https" && BracketedHost(inside) && Last(inside) != '.' && n <= 65535 && n != 443
    ensures UrlPartsOf(PortBehind(https, inside, Decimal.Show(n))) == Some(UrlParts(true, LowerAll(inside), Some(n)))
  {
    Decimal.ShowThenRead(n);
    AddressMeansItsParts(https, Bracketed(inside), Port(Decimal.Show(n)), []);
  }

  lemma PortInsideIsRead(https: string, inside: string, n: nat)
    requires https == "https" && BracketedHost(inside)
    ensures UrlPartsOf(PortInside(https, inside, Decimal.Show(n)))
         == Some(UrlParts(true, LowerAll(inside) + ([':'] + Decimal.Show(n)), None))
  {
    Decimal.ShowThenRead(n);
    LongerLiteral(inside, Decimal.Show(n));
    AddressMeansItsParts(https, Bracketed(inside + ([':'] + Decimal.Show(n))), NoPort, []);
  }

  lemma ShareAGrant(one: string, two: string, p: UrlParts, q: UrlParts)
    requires UrlPartsOf(one) == Some(p) && UrlPartsOf(two) == Some(q) && PortInHost(p, q)
    ensures PermissionAuthority(one) == Some(Authority(p)) && PermissionAuthority(two) == PermissionAuthority(one)
    ensures p.host != q.host
  {
    OneGrantExactly(p, q);
  }

  lemma PortIsInHost(host: string, n: nat)
    ensures PortInHost(UrlParts(true, host, Some(n)), UrlParts(true, host + ([':'] + Decimal.Show(n)), None))
  {
    assert host + ":" + Decimal.Show(n) == host + ([':'] + Decimal.Show(n));
  }

  /** The other case happens: a bracketed literal with a port, and the literal with that port inside its brackets,
      are two addresses, and one grant is both. */
  lemma BracketedHostsShareAGrant(https: string, inside: string, n: nat) returns (one: string, two: string)
    requires https == "https" && BracketedHost(inside) && Last(inside) != '.' && n <= 65535 && n != 443
    ensures one == PortBehind(https, inside, Decimal.Show(n)) && two == PortInside(https, inside, Decimal.Show(n))
    ensures PermissionAuthority(one).Some? && PermissionAuthority(two) == PermissionAuthority(one)
    ensures UrlPartsOf(one).Some? && UrlPartsOf(two).Some? && UrlPartsOf(one).value.host != UrlPartsOf(two).value.host
  {
    one, two := PortBehind(https, inside, Decimal.Show(n)), PortInside(https, inside, Decimal.Show(n));
    var p := UrlParts(true, LowerAll(inside), Some(n));
    var q := UrlParts(true, LowerAll(inside) + ([':'] + Decimal.Show(n)), None);
    PortBehindIsRead(https, inside, n);
    PortInsideIsRead(https, inside, n);
    PortIsInHost(LowerAll(inside), n);
    ShareAGrant(one, two, p, q);
  }
}
