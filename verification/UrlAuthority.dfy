/** Two readings of one web address: the runtime's, which decides, and the editor's, which asks. Both
    are modelled on ASCII addresses, where lower-casing and white space mean the same to both. */
module UrlAuthority {
  import opened Common
  import opened Text
  import Decimal

  // -- what both languages' string libraries do ----------------------------------------------

  predicate SeparatorAt(s: string, i: int) {
    0 <= i && i + 3 <= |s| && s[i] == ':' && s[i + 1] == '/' && s[i + 2] == '/'
  }

  /** The first `://` at or after a place. */
  function FindSeparator(s: string, from: nat): (found: Option<nat>)
    ensures found.Some? ==> from <= found.value && SeparatorAt(s, found.value)
    ensures found.Some? ==> forall i :: from <= i < found.value ==> !SeparatorAt(s, i)
    ensures found.None? ==> forall i :: from <= i ==> !SeparatorAt(s, i)
    decreases |s| - from
  {
    if from + 3 > |s| then None
    else if SeparatorAt(s, from) then Some(from)
    else FindSeparator(s, from + 1)
  }

  predicate IsDelimiter(c: char) {
    c == '/' || c == '?' || c == '#'
  }

  function UpToDelimiter(s: string): (r: string)
    ensures r <= s && (forall i :: 0 <= i < |r| ==> !IsDelimiter(s[i]))
    ensures |r| == |s| || IsDelimiter(s[|r|])
  {
    if s == [] || IsDelimiter(s[0]) then [] else [s[0]] + UpToDelimiter(s[1..])
  }

  function IndexOf(s: string, c: char): (found: Option<nat>)
    ensures found.Some? ==> found.value < |s| && s[found.value] == c && c !in s[..found.value]
    ensures found.None? ==> c !in s
  {
    if s == [] then None
    else if s[0] == c then Some(0)
    else match IndexOf(s[1..], c)
      case Some(i) => assert s[..i + 1] == [s[0]] + s[1..][..i]; Some(i + 1)
      case None => None
  }

  function LastIndexOf(s: string, c: char): (found: Option<nat>)
    ensures found.Some? ==> found.value < |s| && s[found.value] == c
  {
    if s == [] then None
    else if Last(s) == c then Some(|s| - 1)
    else LastIndexOf(Front(s), c)
  }

  predicate IsDot(c: char) { c == '.' }

  function WithoutTrailingDots(s: string): string {
    TrimEnd(IsDot, s)
  }

  // -- the runtime's reading -------------------------------------------------------------------

  datatype UrlParts = UrlParts(https: bool, host: string, port: Option<nat>)

  /** `str::parse::<u16>`: an optional plus, at least one digit, at most 65535. */
  function ParseU16(text: string): Option<nat> {
    var digits := if text != [] && text[0] == '+' then text[1..] else text;
    if digits == [] || !Decimal.AllDigits(digits) || Decimal.Value(digits) > 65535 then None
    else Some(Decimal.Value(digits))
  }

  /** Host and port text of an authority: after the bracket, or at the last colon. */
  function SplitHostPort(authority: string): Option<(string, Option<string>)> {
    if authority != [] && authority[0] == '[' then
      var rest := authority[1..];
      match IndexOf(rest, ']')
      case None => None
      case Some(close) =>
        var after := rest[close + 1..];
        Some((rest[..close], if after != [] && after[0] == ':' then Some(after[1..]) else None))
    else
      match LastIndexOf(authority, ':')
      case Some(colon) => Some((authority[..colon], Some(authority[colon + 1..])))
      case None => Some((authority, None))
  }

  function DefaultPort(https: bool): nat {
    if https then 443 else 80
  }

  function ReadHost(https: bool, hostText: string, portText: Option<string>): Option<UrlParts> {
    var host := LowerAll(WithoutTrailingDots(hostText));
    if host == [] then None
    else if portText.None? || portText.value == [] then Some(UrlParts(https, host, None))
    else match ParseU16(portText.value)
      case None => None
      case Some(given) => Some(UrlParts(https, host, if given != DefaultPort(https) then Some(given) else None))
  }

  function ReadAuthority(https: bool, authority: string): Option<UrlParts> {
    if authority == [] || '@' in authority then None
    else match SplitHostPort(authority)
      case None => None
      case Some((hostText, portText)) => ReadHost(https, hostText, portText)
  }

  /** Scheme and authority text: `split_once("://")`, then everything before `/`, `?` or `#`. */
  function RuntimeText(url: string): Option<(bool, string)> {
    match FindSeparator(url, 0)
    case None => None
    case Some(at) =>
      var scheme := LowerAll(url[..at]);
      if scheme != "https" && scheme != "http" then None
      else Some((scheme == "https", UpToDelimiter(url[at + 3..])))
  }

  function UrlPartsOf(url: string): Option<UrlParts> {
    match RuntimeText(url)
    case None => None
    case Some((https, authority)) => ReadAuthority(https, authority)
  }

  function Authority(parts: UrlParts): string {
    match parts.port
    case Some(port) => parts.host + ":" + Decimal.Show(port)
    case None => parts.host
  }

  /** The string a grant is compared with; empty when the address is refused. */
  function Shown(parts: Option<UrlParts>): string {
    match parts
    case Some(p) => Authority(p)
    case None => ""
  }

  function PermissionAuthority(url: string): Option<string> {
    match UrlPartsOf(url)
    case Some(parts) => Some(Authority(parts))
    case None => None
  }

  // -- the editor's reading ----------------------------------------------------------------------

  predicate IsSpace(c: char) {
    c == ' ' || '\t' <= c <= '\r'
  }

  /** The first two pieces of `url.trim().split('://')`; the second may be missing. */
  function SplitPieces(url: string): (string, Option<string>) {
    var t := Trim(IsSpace, url);
    match FindSeparator(t, 0)
    case None => (t, None)
    case Some(at) =>
      var end := FindSeparator(t, at + 3);
      (t[..at], Some(if end.Some? then t[at + 3..end.value] else t[at + 3..]))
  }

  function EditorText(url: string): Option<(bool, string)> {
    var (rawScheme, rest) := SplitPieces(url);
    var scheme := LowerAll(rawScheme);
    if rest.None? || rest.value == [] || (scheme != "https" && scheme != "http") then None
    else Some((scheme == "https", UpToDelimiter(rest.value)))
  }

  /** What is asked about for this authority text; empty when there is nothing to ask. */
  function AskAbout(https: bool, authority: string): string {
    if authority == [] || '@' in authority then ""
    else if authority[0] == '[' then
      match IndexOf(authority, ']')
      case None => ""
      case Some(close) =>
        var after := authority[close + 1..];
        AskHost(https, authority[1..close], if after != [] && after[0] == ':' then Some(after[1..]) else None)
    else
      match LastIndexOf(authority, ':')
      case None => AskHost(https, authority, None)
      case Some(colon) => AskHost(https, authority[..colon], Some(authority[colon + 1..]))
  }

  function AskHost(https: bool, hostText: string, portText: Option<string>): string {
    var host := LowerAll(WithoutTrailingDots(hostText));
    if host == [] then ""
    else if portText.None? || portText.value == [] then host
    else if !Decimal.AllDigits(portText.value) then ""
    else
      var port := Decimal.Value(portText.value);
      if port > 65535 then ""
      else if port == DefaultPort(https) then host
      else host + ":" + Decimal.Show(port)
  }

  function HostOf(url: string): string {
    match EditorText(url)
    case None => ""
    case Some((https, authority)) => AskAbout(https, authority)
  }

  // -- where they agree ----------------------------------------------------------------------------

  /** The grant the editor would ask for is the one the runtime will look for, and it asks for
      nothing exactly when the runtime refuses. */
  predicate Agree(url: string) {
    match PermissionAuthority(url)
    case Some(authority) => HostOf(url) == authority && authority != ""
    case None => HostOf(url) == ""
  }

  /** A port the runtime reads as a number and the editor does not: it starts with a plus. */
  predicate PlusPortText(hostText: string, portText: Option<string>) {
    && portText.Some? && portText.value != [] && portText.value[0] == '+'
    && ParseU16(portText.value).Some?
    && WithoutTrailingDots(hostText) != []
  }

  predicate PlusPort(authority: string) {
    && '@' !in authority
    && match SplitHostPort(authority)
       case None => false
       case Some((hostText, portText)) => PlusPortText(hostText, portText)
  }

  lemma IndexOfAfterOther(s: string, c: char)
    requires s != [] && s[0] != c
    ensures IndexOf(s, c) == match IndexOf(s[1..], c) case Some(i) => Some(i + 1) case None => None
  {
  }

  lemma HostsAgree(https: bool, hostText: string, portText: Option<string>)
    ensures AskHost(https, hostText, portText) == Shown(ReadHost(https, hostText, portText))
            <==> !PlusPortText(hostText, portText)
  {
    if portText.Some? && portText.value != [] && portText.value[0] == '+' {
      assert '+' in portText.value && !Decimal.AllDigits(portText.value);
    }
  }

  lemma BracketsAgree(https: bool, authority: string)
    requires authority != [] && authority[0] == '[' && '@' !in authority
    ensures AskAbout(https, authority) == Shown(ReadAuthority(https, authority)) <==> !PlusPort(authority)
  {
    IndexOfAfterOther(authority, ']');
    var rest := authority[1..];
    var close := IndexOf(rest, ']');
    if close.Some? {
      var after := rest[close.value + 1..];
      var portText := if after != [] && after[0] == ':' then Some(after[1..]) else None;
      assert authority[close.value + 2..] == after && authority[1..close.value + 1] == rest[..close.value];
      HostsAgree(https, rest[..close.value], portText);
      assert SplitHostPort(authority) == Some((rest[..close.value], portText));
      assert AskAbout(https, authority) == AskHost(https, rest[..close.value], portText);
    }
  }

  /** Over every authority text and either scheme, the two readings of it agree except for a port with
      a leading plus. */
  lemma ReadingsAgree(https: bool, authority: string)
    ensures AskAbout(https, authority) == Shown(ReadAuthority(https, authority)) <==> !PlusPort(authority)
  {
    if authority != [] && '@' !in authority {
      if authority[0] == '[' {
        BracketsAgree(https, authority);
      } else {
        match LastIndexOf(authority, ':') {
          case Some(at) => HostsAgree(https, authority[..at], Some(authority[at + 1..]));
          case None => HostsAgree(https, authority, None);
        }
      }
    }
  }

  lemma AuthorityIsNotEmpty(https: bool, authority: string)
    ensures ReadAuthority(https, authority).Some? ==> Authority(ReadAuthority(https, authority).value) != ""
  {
  }

  // -- finding the last colon ------------------------------------------------------------------------

  lemma LastCharFound(s: string, c: char)
    ensures LastIndexOf(s + [c], c) == Some(|s|)
  {
  }

  lemma {:induction false} NoColonFound(s: string)
    requires ':' !in s
    ensures LastIndexOf(s, ':').None?
  {
    if s != [] {
      assert Last(s) in s && forall c :: c in Front(s) ==> c in s;
      NoColonFound(Front(s));
    }
  }

  lemma {:induction false} LastIndexSkips(s: string, t: string, c: char)
    requires c !in t
    ensures LastIndexOf(s + t, c) == LastIndexOf(s, c)
  {
    if t == [] {
      assert s + t == s;
    } else {
      assert Front(s + t) == s + Front(t) && Last(s + t) == Last(t) && Last(t) in t;
      assert forall x :: x in Front(t) ==> x in t;
      LastIndexSkips(s, Front(t), c);
    }
  }

  lemma PortSplitsOff(host: string, digits: string)
    requires Decimal.AllDigits(digits)
    ensures LastIndexOf(host + [':'] + digits, ':') == Some(|host|)
    ensures (host + [':'] + digits)[..|host|] == host && (host + [':'] + digits)[|host| + 1..] == digits
  {
    LastCharFound(host, ':');
    LastIndexSkips(host + [':'], digits, ':');
  }
}
