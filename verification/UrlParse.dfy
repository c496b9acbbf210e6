/**
 Parsing and printing URLs (payjoin/src/core/url.rs): the subset of RFC 3986 the code accepts,
 as functions. The loops that compute some of them are in UrlObjects.dfy.
 */
module UrlParse {
  import opened Wrappers
  import opened UrlText

  datatype Host = Domain(name: string) | Ipv4(octets: seq<nat>) | Ipv6(groups: seq<nat>)

  datatype Url = Url(
    raw: string,
    scheme: string,
    host: Host,
    port: Option<nat>,
    path: string,
    query: Option<string>,
    fragment: Option<string>)

  datatype ParseError = EmptyHost | InvalidScheme | InvalidFormat | InvalidPort | InvalidHost

  // ----- scheme -----

  predicate IsLower(c: char) { 'a' <= c <= 'z' }
  predicate IsUpper(c: char) { 'A' <= c <= 'Z' }
  predicate IsDecimal(c: char) { '0' <= c <= '9' }

  predicate IsSchemeChar(c: char) {
    IsLower(c) || IsUpper(c) || IsDecimal(c) || c == '+' || c == '-' || c == '.'
  }

  function LowerChar(c: char): char {
    if IsUpper(c) then (c as int - 'A' as int + 'a' as int) as char else c
  }

  function Lower(s: string): (r: string)
    ensures |r| == |s|
  {
    seq(|s|, i requires 0 <= i < |s| => LowerChar(s[i]))
  }

  /** The length of the longest prefix whose characters satisfy `p`. */
  function Span(s: string, p: char -> bool): (n: nat)
    ensures n <= |s|
    ensures forall i :: 0 <= i < n ==> p(s[i])
    ensures n < |s| ==> !p(s[n])
  {
    if s == "" || !p(s[0]) then 0 else 1 + Span(s[1..], p)
  }

  function ParseScheme(input: string): Result<(string, string), ParseError> {
    var n := Span(input, IsSchemeChar);
    if n < |input| && input[n] != ':' then Err(InvalidScheme)
    else if n == 0 then Err(InvalidScheme)
    else Ok((input[n..], Lower(input[..n])))
  }

  // ----- host -----

  predicate EndsHost(c: char) {
    c == ':' || c == '/' || c == '?' || c == '#'
  }

  predicate InHost(c: char) {
    !EndsHost(c)
  }

  predicate IsDomainChar(c: char) {
    IsLower(c) || IsUpper(c) || IsDecimal(c) || c == '-' || c == '.'
  }

  /** Every piece read as a number, or nothing. */
  function ParseAll(parts: seq<string>, radix: nat, max: nat): (r: Option<seq<nat>>)
    ensures r.Some? ==> |r.value| == |parts| && forall i :: 0 <= i < |parts| ==> r.value[i] <= max
    ensures r.Some? <==> forall i :: 0 <= i < |parts| ==> ParseUint(parts[i], radix, max).Some?
    ensures r.Some? ==> forall i :: 0 <= i < |parts| ==> ParseUint(parts[i], radix, max) == Some(r.value[i])
  {
    if parts == [] then Some([])
    else
      match (ParseUint(parts[0], radix, max), ParseAll(parts[1..], radix, max))
      case (Some(v), Some(vs)) => Some([v] + vs)
      case _ => None
  }

  function TryParseIpv4(s: string): Option<Host> {
    var parts := Split(s, '.');
    if |parts| != 4 then None
    else
      match ParseAll(parts, 10, 0xff)
      case Some(octets) => Some(Ipv4(octets))
      case None => None
  }

  function ParseIpv6Groups(s: string): Option<seq<nat>> {
    if s == "" then Some([]) else ParseAll(Split(s, ':'), 16, 0xffff)
  }

  /** Where "::" first occurs. */
  function FindGap(s: string): (r: Option<nat>)
    ensures r.Some? ==> r.value + 2 <= |s|
  {
    if |s| < 2 then None
    else if s[0] == ':' && s[1] == ':' then Some(0)
    else
      match FindGap(s[1..])
      case None => None
      case Some(i) => Some(i + 1)
  }

  function Zeros(n: nat): (z: seq<nat>)
    ensures |z| == n && forall i :: 0 <= i < n ==> z[i] == 0
  {
    seq(n, i => 0)
  }

  /** The groups before and behind a gap, with zeros in between. */
  function Gapped(left: Option<seq<nat>>, right: Option<seq<nat>>): Result<Host, ParseError> {
    match (left, right)
    case (Some(l), Some(r)) =>
      if |l| + |r| > 7 then Err(InvalidHost) else Ok(Ipv6(l + Zeros(8 - |l| - |r|) + r))
    case _ => Err(InvalidHost)
  }

  function ParseIpv6(s: string): Result<Host, ParseError> {
    match FindGap(s)
    case Some(i) => Gapped(ParseIpv6Groups(s[..i]), ParseIpv6Groups(s[i + 2..]))
    case None =>
      (match ParseIpv6Groups(s)
       case Some(groups) => if |groups| != 8 then Err(InvalidHost) else Ok(Ipv6(groups))
       case None => Err(InvalidHost))
  }

  function ParseHost(input: string): Result<(string, Host), ParseError> {
    if input != "" && input[0] == '[' then
      match Find(input, ']')
      case None => Err(InvalidHost)
      case Some(end) =>
        match ParseIpv6(input[1..end])
        case Err(e) => Err(e)
        case Ok(host) => Ok((input[end + 1..], host))
    else
      var end := Span(input, InHost);
      var name, rest := input[..end], input[end..];
      match TryParseIpv4(name)
      case Some(host) => Ok((rest, host))
      case None =>
        if name == "" then Err(EmptyHost)
        else if exists i :: 0 <= i < |name| && !IsDomainChar(name[i]) then Err(InvalidHost)
        else Ok((rest, Domain(name)))
  }

  // ----- port, path, query, fragment -----

  predicate EndsPort(c: char) {
    c == '/' || c == '?' || c == '#'
  }

  function ParsePort(input: string): Result<(string, Option<nat>), ParseError> {
    if input == "" || input[0] != ':' then Ok((input, None))
    else
      var rest := input[1..];
      var n := Span(rest, IsDecimal);
      if n < |rest| && !EndsPort(rest[n]) then Err(InvalidPort)
      else if n == 0 then Ok((rest, None))
      else
        match ParseUint(rest[..n], 10, 0xffff)
        case None => Err(InvalidPort)
        case Some(port) => Ok((rest[n..], Some(port)))
  }

  function CutAt(s: string, c: char): (string, Option<string>) {
    match Find(s, c)
    case Some(i) => (s[..i], Some(s[i + 1..]))
    case None => (s, None)
  }

  function ParsePathQueryFragment(input: string): (string, Option<string>, Option<string>) {
    var (before, fragment) := CutAt(input, '#');
    var (path, query) := CutAt(before, '?');
    (path, query, fragment)
  }

  // ----- printing -----

  function Written(numbers: seq<nat>, radix: nat): (r: seq<string>)
    requires 2 <= radix <= 16
    ensures |r| == |numbers|
    ensures forall i :: 0 <= i < |r| ==> r[i] == ToRadix(numbers[i], radix)
  {
    seq(|numbers|, i requires 0 <= i < |numbers| => ToRadix(numbers[i], radix))
  }

  function HostStr(host: Host): string {
    match host
    case Domain(name) => name
    case Ipv4(octets) => Join(Written(octets, 10), '.')
    case Ipv6(groups) => "[" + Join(Written(groups, 16), ':') + "]"
  }

  function PortStr(port: Option<nat>): string {
    match port
    case None => ""
    case Some(p) => ":" + ToRadix(p, 10)
  }

  function Suffix(mark: char, part: Option<string>): string {
    match part
    case None => ""
    case Some(s) => [mark] + s
  }

  /** Everything behind the port. */
  function Tail(u: Url): string {
    u.path + Suffix('?', u.query) + Suffix('#', u.fragment)
  }

  function Render(u: Url): string {
    u.scheme + "://" + HostStr(u.host) + PortStr(u.port) + Tail(u)
  }

  function Rebuilt(u: Url): Url {
    u.(raw := Render(u))
  }

  // ----- the parser -----

  /** A port that does not parse is not an error: it becomes the start of the path. */
  function ParseAuthorityRest(input: string): (string, Option<nat>) {
    match ParsePort(input)
    case Ok(r) => r
    case Err(_) => (input, None)
  }

  function Parse(input: string): Result<Url, ParseError> {
    match ParseScheme(input)
    case Err(e) => Err(e)
    case Ok((rest, scheme)) =>
      if !("://" <= rest) then Err(InvalidFormat)
      else
        match ParseHost(rest[3..])
        case Err(e) => Err(e)
        case Ok((rest, host)) =>
          var (rest, port) := ParseAuthorityRest(rest);
          var (path, query, fragment) := ParsePathQueryFragment(rest);
          var path := if path == "" then "/" else path;
          Ok(Rebuilt(Url("", scheme, host, port, path, query, fragment)))
  }
}
