/**
 Printing and parsing are inverse: exactly the canonical URLs re-parse to themselves, and
 everything the parser returns is canonical (payjoin/src/core/url.rs).
 */
module UrlRoundTrip {
  import opened Wrappers
  import opened UrlText
  import opened UrlParse

  ghost predicate All(s: string, p: char -> bool) {
    forall i :: 0 <= i < |s| ==> p(s[i])
  }

  ghost predicate ValidHost(h: Host) {
    match h
    case Domain(name) => name != "" && All(name, IsDomainChar) && TryParseIpv4(name).None?
    case Ipv4(octets) => |octets| == 4 && forall i :: 0 <= i < 4 ==> octets[i] <= 0xff
    case Ipv6(groups) => |groups| == 8 && forall i :: 0 <= i < 8 ==> groups[i] <= 0xffff
  }

  predicate NoMarks(path: string) {
    '?' !in path && '#' !in path
  }

  /**
   A path that the parser would hand back: it starts with a slash, or else there is no port and
   it is a port that does not parse, or anything at all right behind an IPv6 literal.
   */
  predicate ValidPath(h: Host, port: Option<nat>, path: string) {
    && path != "" && NoMarks(path)
    && (path[0] == '/' || (port.None? && if path[0] == ':' then ParsePort(path).Err? else h.Ipv6?))
  }

  ghost predicate Canonical(u: Url) {
    && u.scheme != "" && All(u.scheme, c => IsSchemeChar(c) && !IsUpper(c))
    && ValidHost(u.host)
    && (u.port.Some? ==> u.port.value <= 0xffff)
    && ValidPath(u.host, u.port, u.path)
    && (u.query.Some? ==> '#' !in u.query.value)
    && u.raw == Render(u)
  }

  lemma {:induction false} SpanExact(a: string, b: string, p: char -> bool)
    requires All(a, p) && (b == "" || !p(b[0]))
    ensures Span(a + b, p) == |a|
  {
    if a == "" {
      assert a + b == b;
    } else {
      SpanExact(a[1..], b, p);
      assert (a + b)[1..] == a[1..] + b;
    }
  }

  // ----- scheme -----

  lemma SchemeReads(scheme: string, rest: string)
    requires scheme != "" && All(scheme, c => IsSchemeChar(c) && !IsUpper(c))
    requires rest != "" && rest[0] == ':'
    ensures ParseScheme(scheme + rest) == Ok((rest, scheme))
  {
    SpanExact(scheme, rest, IsSchemeChar);
    assert (scheme + rest)[..|scheme|] == scheme && (scheme + rest)[|scheme|..] == rest;
    assert Lower(scheme) == scheme;
  }

  lemma SchemeIsLower(input: string)
    requires ParseScheme(input).Ok?
    ensures var (_, scheme) := ParseScheme(input).value;
            scheme != "" && All(scheme, c => IsSchemeChar(c) && !IsUpper(c))
  {
    var n := Span(input, IsSchemeChar);
    forall i | 0 <= i < n ensures IsSchemeChar(LowerChar(input[i])) && !IsUpper(LowerChar(input[i])) {
      assert IsSchemeChar(input[i]);
    }
  }

  // ----- host -----

  lemma {:induction false} JoinAll(parts: seq<string>, c: char, p: char -> bool)
    requires p(c) && forall i :: 0 <= i < |parts| ==> All(parts[i], p)
    ensures All(Join(parts, c), p)
  {
    if |parts| > 1 {
      JoinAll(parts[1..], c, p);
      assert All([c], p);
    }
  }

  lemma WrittenReads(numbers: seq<nat>, radix: nat, max: nat)
    requires 2 <= radix <= 16 && forall i :: 0 <= i < |numbers| ==> numbers[i] <= max
    ensures ParseAll(Written(numbers, radix), radix, max) == Some(numbers)
  {
    var parts := Written(numbers, radix);
    forall i | 0 <= i < |parts| ensures ParseUint(parts[i], radix, max) == Some(numbers[i]) {
      ParseUintInverts(numbers[i], radix, max);
    }
    var read := ParseAll(parts, radix, max).value;
    assert forall i :: 0 <= i < |parts| ==> Some(read[i]) == Some(numbers[i]);
    assert read == numbers;
  }

  /** Written numbers consist of digits, so no separator is hidden in them. */
  lemma WrittenDigits(numbers: seq<nat>, radix: nat)
    requires 2 <= radix <= 16
    ensures forall i :: 0 <= i < |numbers| ==>
      Written(numbers, radix)[i] != "" && All(Written(numbers, radix)[i], c => IsDigit(c, radix))
  {
    forall i | 0 <= i < |numbers|
      ensures All(Written(numbers, radix)[i], c => IsDigit(c, radix))
    {
      ToRadixReads(numbers[i], radix);
    }
  }

  lemma Ipv4Reads(octets: seq<nat>)
    requires ValidHost(Ipv4(octets))
    ensures TryParseIpv4(HostStr(Ipv4(octets))) == Some(Ipv4(octets))
    ensures HostStr(Ipv4(octets)) != "" && All(HostStr(Ipv4(octets)), c => IsDigit(c, 10) || c == '.')
  {
    var parts := Written(octets, 10);
    WrittenDigits(octets, 10);
    forall i | 0 <= i < |parts| ensures '.' !in parts[i] {
      assert All(parts[i], c => IsDigit(c, 10));
    }
    SplitJoin(parts, '.');
    WrittenReads(octets, 10, 0xff);
    JoinAll(parts, '.', c => IsDigit(c, 10) || c == '.');
  }

  lemma {:induction false} NoGap(parts: seq<string>)
    requires forall i :: 0 <= i < |parts| ==> parts[i] != "" && ':' !in parts[i]
    ensures FindGap(Join(parts, ':')) == None
  {
    if |parts| == 1 {
      NoGapWithin(parts[0], "");
      assert parts[0] + "" == parts[0];
    } else if |parts| > 1 {
      NoGap(parts[1..]);
      var rest := Join(parts[1..], ':');
      StartsWithPart(parts[1..]);
      NoGapWithin(parts[0], ":" + rest);
      assert parts[0] + (":" + rest) == parts[0] + [':'] + rest;
      assert (":" + rest)[1..] == rest;
    }
  }

  lemma StartsWithPart(parts: seq<string>)
    requires parts != [] && parts[0] != "" && ':' !in parts[0]
    ensures Join(parts, ':') != "" && Join(parts, ':')[0] != ':'
  {}

  lemma {:induction false} NoGapWithin(a: string, b: string)
    requires ':' !in a && FindGap(b) == None
    ensures FindGap(a + b) == None
  {
    if a == "" {
      assert a + b == b;
    } else {
      NoGapWithin(a[1..], b);
      assert (a + b)[1..] == a[1..] + b;
    }
  }

  /** Eight printed groups contain no gap and no bracket, and split into themselves. */
  lemma GroupsSplit(groups: seq<nat>)
    requires groups != []
    ensures var s := Join(Written(groups, 16), ':');
            s != "" && FindGap(s).None? && Split(s, ':') == Written(groups, 16) && ']' !in s
  {
    var parts := Written(groups, 16);
    WrittenDigits(groups, 16);
    forall i | 0 <= i < |parts| ensures parts[i] != "" && ':' !in parts[i] && ']' !in parts[i] {
      assert All(parts[i], c => IsDigit(c, 16));
    }
    NoGap(parts);
    SplitJoin(parts, ':');
    StartsWithPart(parts);
    JoinChars(parts, ':', ']');
  }

  lemma Ipv6Reads(groups: seq<nat>)
    requires ValidHost(Ipv6(groups))
    ensures var s := Join(Written(groups, 16), ':');
            ParseIpv6(s) == Ok(Ipv6(groups)) && ']' !in s
  {
    GroupsSplit(groups);
    WrittenReads(groups, 16, 0xffff);
  }

  lemma NameReads(name: string, rest: string)
    requires name != "" && All(name, InHost) && name[0] != '['
    requires rest == "" || EndsHost(rest[0])
    ensures Span(name + rest, InHost) == |name|
    ensures (name + rest)[..|name|] == name && (name + rest)[|name|..] == rest
  {
    SpanExact(name, rest, InHost);
  }

  lemma DomainHostReads(name: string, rest: string)
    requires ValidHost(Domain(name)) && (rest == "" || EndsHost(rest[0]))
    ensures ParseHost(name + rest) == Ok((rest, Domain(name)))
  {
    assert All(name, InHost);
    assert IsDomainChar(name[0]);
    NameReads(name, rest);
  }

  lemma Ipv4HostReads(octets: seq<nat>, rest: string)
    requires ValidHost(Ipv4(octets)) && (rest == "" || EndsHost(rest[0]))
    ensures ParseHost(HostStr(Ipv4(octets)) + rest) == Ok((rest, Ipv4(octets)))
  {
    var name := HostStr(Ipv4(octets));
    Ipv4Reads(octets);
    forall i | 0 <= i < |name| ensures InHost(name[i]) && name[i] != '[' {
      assert IsDigit(name[i], 10) || name[i] == '.';
    }
    NameReads(name, rest);
  }

  lemma BracketReads(inner: string, rest: string)
    requires ']' !in inner
    ensures var s := "[" + inner + "]" + rest;
            && s[0] == '[' && Find(s, ']') == Some(|inner| + 1)
            && s[1..|inner| + 1] == inner && s[|inner| + 2..] == rest
  {
    var s := "[" + inner + "]" + rest;
    assert s == ("[" + inner) + [']'] + rest;
    FindAt("[" + inner, ']', rest);
  }

  lemma Ipv6HostReads(groups: seq<nat>, rest: string)
    requires ValidHost(Ipv6(groups))
    ensures ParseHost(HostStr(Ipv6(groups)) + rest) == Ok((rest, Ipv6(groups)))
  {
    Ipv6Reads(groups);
    BracketReads(Join(Written(groups, 16), ':'), rest);
  }

  /** A printed host reads back, whatever follows that cannot belong to it. */
  lemma HostReads(h: Host, rest: string)
    requires ValidHost(h) && (h.Ipv6? || rest == "" || EndsHost(rest[0]))
    ensures ParseHost(HostStr(h) + rest) == Ok((rest, h))
  {
    match h
    case Domain(name) => DomainHostReads(name, rest);
    case Ipv4(octets) => Ipv4HostReads(octets, rest);
    case Ipv6(groups) => Ipv6HostReads(groups, rest);
  }

  lemma HostIsValid(input: string)
    requires ParseHost(input).Ok?
    ensures var (rest, h) := ParseHost(input).value;
            ValidHost(h) && (h.Ipv6? || rest == "" || EndsHost(rest[0]))
  {
    if input != "" && input[0] == '[' {
      var s := input[1..Find(input, ']').value];
      assert ParseIpv6(s).Ok?;
    }
  }

  // ----- port -----

  predicate AfterPort(rest: string) {
    rest == "" || EndsPort(rest[0])
  }

  /** A run of digits behind the colon is the port, if it fits. */
  lemma DigitsReadAsPort(digits: string, rest: string)
    requires digits != "" && All(digits, IsDecimal) && AfterPort(rest)
    ensures ParsePort(":" + digits + rest) ==
      match ParseUint(digits, 10, 0xffff)
      case None => Err(InvalidPort)
      case Some(port) => Ok((rest, Some(port)))
  {
    SpanExact(digits, rest, IsDecimal);
    assert (":" + digits + rest)[1..] == digits + rest;
    assert (digits + rest)[..|digits|] == digits && (digits + rest)[|digits|..] == rest;
  }

  lemma PortReads(p: nat, rest: string)
    requires p <= 0xffff && AfterPort(rest)
    ensures ParsePort(PortStr(Some(p)) + rest) == Ok((rest, Some(p)))
  {
    ToRadixReads(p, 10);
    ParseUintInverts(p, 10, 0xffff);
    var digits := ToRadix(p, 10);
    forall i | 0 <= i < |digits| ensures IsDecimal(digits[i]) {
      assert IsDigit(digits[i], 10);
    }
    DigitsReadAsPort(digits, rest);
  }

  lemma {:induction false} SpanStable(a: string, b: string, p: char -> bool)
    requires b == "" || !p(b[0])
    ensures Span(a + b, p) == Span(a, p)
  {
    if a == "" {
      assert a + b == b;
    } else {
      SpanStable(a[1..], b, p);
      assert (a + b)[1..] == a[1..] + b;
    }
  }

  /** A port does not parse when its digits run into something else or stand for too large a number. */
  predicate BadDigits(digits: string) {
    var n := Span(digits, IsDecimal);
    (n < |digits| && !EndsPort(digits[n])) || (n > 0 && ParseUint(digits[..n], 10, 0xffff).None?)
  }

  lemma BadPortIsBadDigits(path: string)
    requires path != "" && path[0] == ':'
    ensures ParsePort(path).Err? <==> BadDigits(path[1..])
  {}

  lemma BadDigitsStable(digits: string, more: string)
    requires AfterPort(more)
    ensures BadDigits(digits + more) <==> BadDigits(digits)
  {
    SpanStable(digits, more, IsDecimal);
    var n := Span(digits, IsDecimal);
    assert (digits + more)[..n] == digits[..n];
  }

  /** Whether a path opens with a port that does not parse cannot depend on what follows the path. */
  lemma BadPortStable(path: string, more: string)
    requires path != "" && path[0] == ':' && AfterPort(more)
    ensures ParsePort(path + more).Err? <==> ParsePort(path).Err?
  {
    BadPortIsBadDigits(path);
    BadPortIsBadDigits(path + more);
    assert (path + more)[1..] == path[1..] + more;
    BadDigitsStable(path[1..], more);
  }

  /** What follows the path starts with a mark, if there is anything. */
  lemma MarksEndPort(query: Option<string>, fragment: Option<string>)
    ensures AfterPort(Suffix('?', query) + Suffix('#', fragment))
  {}

  lemma AuthorityRestReads(u: Url)
    requires ValidPath(u.host, u.port, u.path) && (u.port.Some? ==> u.port.value <= 0xffff)
    ensures ParseAuthorityRest(PortStr(u.port) + Tail(u)) == (Tail(u), u.port)
  {
    var marks := Suffix('?', u.query) + Suffix('#', u.fragment);
    MarksEndPort(u.query, u.fragment);
    assert Tail(u) == u.path + marks;
    match u.port
    case Some(p) => PortReads(p, Tail(u));
    case None =>
      assert PortStr(u.port) + Tail(u) == Tail(u);
      if u.path[0] == ':' { BadPortStable(u.path, marks); }
  }

  /** What is left behind the authority, and when it can be taken for a path. */
  lemma AuthorityRestIs(input: string)
    ensures var (rest, port) := ParseAuthorityRest(input);
            && (port.Some? ==> port.value <= 0xffff && AfterPort(rest))
            && (port.None? && !AfterPort(rest) ==> rest == input && (input[0] == ':' ==> ParsePort(input).Err?))
  {}

  // ----- path, query, fragment -----

  lemma CutReads(a: string, c: char, part: Option<string>)
    requires c !in a
    ensures CutAt(a + Suffix(c, part), c) == (a, part)
  {
    match part
    case None => assert a + Suffix(c, part) == a;
    case Some(s) =>
      FindAt(a, c, s);
      assert a + Suffix(c, part) == a + [c] + s;
      assert (a + [c] + s)[..|a|] == a && (a + [c] + s)[|a| + 1..] == s;
  }

  lemma CutIs(s: string, c: char)
    ensures var (a, part) := CutAt(s, c);
            c !in a && s == a + Suffix(c, part)
  {
    match Find(s, c)
    case None =>
    case Some(i) => assert s == s[..i] + [s[i]] + s[i + 1..];
  }

  lemma TailReads(u: Url)
    requires NoMarks(u.path) && (u.query.Some? ==> '#' !in u.query.value)
    ensures ParsePathQueryFragment(Tail(u)) == (u.path, u.query, u.fragment)
  {
    var before := u.path + Suffix('?', u.query);
    assert '#' !in before;
    CutReads(before, '#', u.fragment);
    CutReads(u.path, '?', u.query);
  }

  /** Cutting loses nothing and leaves no mark where it would be read again. */
  lemma TailIs(input: string)
    ensures var (path, query, fragment) := ParsePathQueryFragment(input);
            && NoMarks(path) && (query.Some? ==> '#' !in query.value)
            && input == path + (Suffix('?', query) + Suffix('#', fragment))
  {
    var (before, fragment) := CutAt(input, '#');
    var (path, query) := CutAt(before, '?');
    CutIs(input, '#');
    CutIs(before, '?');
    NotInParts(path, Suffix('?', query), '#');
    if query.Some? {
      NotInParts(['?'], query.value, '#');
    }
    Reassociate(path, Suffix('?', query), Suffix('#', fragment));
  }

  lemma NotInParts(a: string, b: string, c: char)
    requires c !in a + b
    ensures c !in a && c !in b
  {
    assert forall i :: 0 <= i < |a| ==> (a + b)[i] == a[i];
    assert forall i :: 0 <= i < |b| ==> (a + b)[|a| + i] == b[i];
  }

  lemma Reassociate(a: string, b: string, c: string)
    ensures a + b + c == a + (b + c)
  {}

  // ----- the theorems -----

  /** What the parser takes for a path is one that it would take for a path again. */
  lemma PathIsValid(h: Host, input: string)
    requires h.Ipv6? || input == "" || EndsHost(input[0])
    ensures var (rest, port) := ParseAuthorityRest(input);
            var (path, _, _) := ParsePathQueryFragment(rest);
            ValidPath(h, port, if path == "" then "/" else path)
  {
    var (rest, port) := ParseAuthorityRest(input);
    var (path, query, fragment) := ParsePathQueryFragment(rest);
    var marks := Suffix('?', query) + Suffix('#', fragment);
    AuthorityRestIs(input);
    TailIs(rest);
    MarksEndPort(query, fragment);
    if path != "" && path[0] != '/' {
      assert rest[0] == path[0];
      assert path[0] in path;
      if path[0] == ':' { BadPortStable(path, marks); }
    }
  }

  lemma ParseIsCanonical(s: string)
    requires Parse(s).Ok?
    ensures Canonical(Parse(s).value)
  {
    var (rest, scheme) := ParseScheme(s).value;
    SchemeIsLower(s);
    var (after, host) := ParseHost(rest[3..]).value;
    HostIsValid(rest[3..]);
    AuthorityRestIs(after);
    TailIs(ParseAuthorityRest(after).0);
    PathIsValid(host, after);
  }

  /** The stages of the parser put together. */
  lemma ParseStages(s: string, u: Url, authority: string, behind: string, tail: string)
    requires ParseScheme(s) == Ok(("://" + authority, u.scheme))
    requires ParseHost(authority) == Ok((behind, u.host))
    requires ParseAuthorityRest(behind) == (tail, u.port)
    requires ParsePathQueryFragment(tail) == (u.path, u.query, u.fragment) && u.path != ""
    ensures Parse(s) == Ok(Rebuilt(u))
  {
    assert ("://" + authority)[3..] == authority;
  }

  lemma RenderSchemeReads(u: Url, authority: string)
    requires u.scheme != "" && All(u.scheme, c => IsSchemeChar(c) && !IsUpper(c))
    requires authority == HostStr(u.host) + (PortStr(u.port) + Tail(u))
    ensures ParseScheme(Render(u)) == Ok(("://" + authority, u.scheme))
  {
    assert Render(u) == u.scheme + ("://" + authority);
    SchemeReads(u.scheme, "://" + authority);
  }

  lemma CanonicalReparses(u: Url)
    requires Canonical(u)
    ensures Parse(u.raw) == Ok(u)
  {
    var behind := PortStr(u.port) + Tail(u);
    var authority := HostStr(u.host) + behind;
    RenderSchemeReads(u, authority);
    BehindHost(u);
    HostReads(u.host, behind);
    AuthorityRestReads(u);
    TailReads(u);
    ParseStages(u.raw, u, authority, behind, Tail(u));
  }

  lemma BehindHost(u: Url)
    requires ValidPath(u.host, u.port, u.path)
    ensures u.host.Ipv6? || EndsHost((PortStr(u.port) + Tail(u))[0])
  {}

  /** Exactly the canonical URLs are what their printed form parses to. */
  lemma ReparsesIff(u: Url)
    ensures Parse(u.raw) == Ok(u) <==> Canonical(u)
  {
    if Parse(u.raw) == Ok(u) {
      ParseIsCanonical(u.raw);
    }
    if Canonical(u) {
      CanonicalReparses(u);
    }
  }

  /** Printing what was parsed and parsing it again changes no field, for any accepted string. */
  lemma PrintParseFixpoint(s: string)
    requires Parse(s).Ok?
    ensures Parse(Parse(s).value.raw) == Parse(s)
  {
    ParseIsCanonical(s);
    CanonicalReparses(Parse(s).value);
  }
}
