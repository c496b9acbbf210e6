/**
 URLs as the objects the code mutates, and the loops of the parser over its local buffers
 (payjoin/src/core/url.rs). Everything is proved to compute the functions of UrlParse,
 UrlMutate and UrlJoin.
 */
module UrlObjects {
  import opened Wrappers
  import opened UrlText
  import opened UrlParse
  import opened UrlMutate
  import opened UrlJoin
  import Spec = UrlParse

  lemma {:induction false} SpanIs(s: string, p: char -> bool, n: nat)
    requires n <= |s| && (forall i :: 0 <= i < n ==> p(s[i])) && (n < |s| ==> !p(s[n]))
    ensures Span(s, p) == n
    decreases n
  {
    if n > 0 {
      SpanIs(s[1..], p, n - 1);
    }
  }

  // ----- the loops of the parser -----

  method ParseScheme(input: string) returns (r: Result<(string, string), ParseError>)
    ensures r == Spec.ParseScheme(input)
  {
    var scheme := "";
    var i := 0;
    while i < |input|
      invariant i <= |input| && scheme == input[..i]
      invariant forall k :: 0 <= k < i ==> IsSchemeChar(input[k])
    {
      if IsSchemeChar(input[i]) {
        scheme := scheme + [input[i]];
      } else if input[i] == ':' {
        break;
      } else {
        SpanIs(input, IsSchemeChar, i);
        return Err(InvalidScheme);
      }
      i := i + 1;
    }
    SpanIs(input, IsSchemeChar, i);
    if scheme == "" {
      return Err(InvalidScheme);
    }
    scheme := Lower(scheme);
    return Ok((input[|scheme|..], scheme));
  }

  method ParseIpv6(s: string) returns (r: Result<Host, ParseError>)
    ensures r == Spec.ParseIpv6(s)
  {
    var gap := FindGap(s);
    if gap.Some? {
      var left, right := ParseIpv6Groups(s[..gap.value]), ParseIpv6Groups(s[gap.value + 2..]);
      assert Spec.ParseIpv6(s) == Gapped(left, right);
      if left.None? || right.None? || |left.value| + |right.value| > 7 {
        return Err(InvalidHost);
      }
      var groups := FillGroups(left.value, right.value);
      return Ok(Ipv6(groups));
    }
    var parts := ParseIpv6Groups(s);
    if parts.None? || |parts.value| != 8 {
      return Err(InvalidHost);
    }
    var groups := FillGroups(parts.value, []);
    assert parts.value + Zeros(0) + [] == parts.value;
    return Ok(Ipv6(groups));
  }

  /** Fills eight groups from both ends; what lies between stays zero. */
  method FillGroups(left: seq<nat>, right: seq<nat>) returns (filled: seq<nat>)
    requires |left| + |right| <= 8
    ensures filled == left + Zeros(8 - |left| - |right|) + right
  {
    var groups := new nat[8](_ => 0);
    CopyInto(groups, 0, left);
    CopyInto(groups, 8 - |right|, right);
    filled := groups[..];
  }

  method CopyInto(groups: array<nat>, offset: nat, values: seq<nat>)
    requires offset + |values| <= groups.Length
    modifies groups
    ensures groups[..] == old(groups[..offset]) + values + old(groups[offset + |values|..])
  {
    for i := 0 to |values|
      invariant forall k :: 0 <= k < i ==> groups[offset + k] == values[k]
      invariant groups[..offset] == old(groups[..offset])
      invariant groups[offset + i..] == old(groups[offset + i..])
    {
      groups[offset + i] := values[i];
    }
  }

  method ParseHost(input: string) returns (r: Result<(string, Host), ParseError>)
    ensures r == Spec.ParseHost(input)
  {
    if input != "" && input[0] == '[' {
      var end := Find(input, ']');
      if end.None? {
        return Err(InvalidHost);
      }
      var host := ParseIpv6(input[1..end.value]);
      if host.Err? {
        return Err(host.error);
      }
      return Ok((input[end.value + 1..], host.value));
    }
    var end := 0;
    while end < |input| && !EndsHost(input[end])
      invariant end <= |input|
      invariant forall k :: 0 <= k < end ==> InHost(input[k])
    {
      end := end + 1;
    }
    SpanIs(input, InHost, end);
    var name, rest := input[..end], input[end..];
    var ipv4 := TryParseIpv4(name);
    if ipv4.Some? {
      return Ok((rest, ipv4.value));
    }
    if name == "" {
      return Err(EmptyHost);
    }
    if exists i :: 0 <= i < |name| && !IsDomainChar(name[i]) {
      return Err(InvalidHost);
    }
    return Ok((rest, Domain(name)));
  }

  method ParsePort(input: string) returns (r: Result<(string, Option<nat>), ParseError>)
    ensures r == Spec.ParsePort(input)
  {
    if input == "" || input[0] != ':' {
      return Ok((input, None));
    }
    var rest := input[1..];
    var digits := "";
    var i := 0;
    while i < |rest|
      invariant i <= |rest| && digits == rest[..i]
      invariant forall k :: 0 <= k < i ==> IsDecimal(rest[k])
    {
      if IsDecimal(rest[i]) {
        digits := digits + [rest[i]];
      } else if EndsPort(rest[i]) {
        break;
      } else {
        SpanIs(rest, IsDecimal, i);
        return Err(InvalidPort);
      }
      i := i + 1;
    }
    SpanIs(rest, IsDecimal, i);
    if digits == "" {
      return Ok((rest, None));
    }
    var port := ParseUint(digits, 10, 0xffff);
    if port.None? {
      return Err(InvalidPort);
    }
    return Ok((rest[|digits|..], Some(port.value)));
  }

  /** The stack loop of `join`. */
  method ResolveDots(merged: string) returns (path: string)
    ensures path == Resolve(merged)
  {
    var parts := Split(merged, '/');
    var output: seq<string> := [];
    for i := 0 to |parts|
      invariant DotStack(output, parts[i..]) == DotStack([], parts)
    {
      assert parts[i..][1..] == parts[i + 1..];
      if parts[i] == "." {
      } else if parts[i] == ".." {
        if output != [] {
          output := output[..|output| - 1];
        }
      } else {
        output := output + [parts[i]];
      }
    }
    path := Join(output, '/');
    if path == "" || path[0] != '/' {
      path := "/" + path;
    }
  }

  /** Pushes a mark and what it introduces, if there is anything. */
  method PushMarked(text: string, mark: char, part: Option<string>) returns (longer: string)
    ensures longer == text + Suffix(mark, part)
  {
    longer := text;
    if part.Some? {
      longer := longer + [mark];
      longer := longer + part.value;
    }
  }

  lemma Regroup(a: string, b: string, c: string, d: string)
    ensures a + b + c + d == a + (b + c + d)
  {}

  /** Pushes the components one after the other. */
  method Print(
    scheme: string, host: Host, port: Option<nat>, path: string, query: Option<string>, fragment: Option<string>)
    returns (text: string)
    ensures text == Render(Url("", scheme, host, port, path, query, fragment))
  {
    text := scheme + "://" + HostStr(host);
    text := PushMarked(text, ':', if port.Some? then Some(ToRadix(port.value, 10)) else None);
    assert text == scheme + "://" + HostStr(host) + PortStr(port);
    Regroup(text, path, Suffix('?', query), Suffix('#', fragment));
    text := text + path;
    text := PushMarked(text, '?', query);
    text := PushMarked(text, '#', fragment);
  }

  // ----- the object -----

  class UrlObject {
    var raw: string
    var scheme: string
    var host: Host
    var port: Option<nat>
    var path: string
    var query: Option<string>
    var fragment: Option<string>

    function Abs(): Url
      reads this
    {
      Url(raw, scheme, host, port, path, query, fragment)
    }

    /** A fresh object with the fields of `u`. */
    constructor (u: Url)
      ensures Abs() == u
    {
      raw, scheme, host, port, path, query, fragment :=
        u.raw, u.scheme, u.host, u.port, u.path, u.query, u.fragment;
    }

    method RebuildRaw()
      modifies this`raw
      ensures Abs() == Rebuilt(old(Abs()))
    {
      var text := Print(scheme, host, port, path, query, fragment);
      raw := text;
    }

    method SetPort(port: Option<nat>)
      modifies this`port, this`raw
      ensures Abs() == WithPort(old(Abs()), port)
    {
      this.port := port;
      RebuildRaw();
    }

    method SetFragment(fragment: Option<string>)
      modifies this`fragment, this`raw
      ensures Abs() == WithFragment(old(Abs()), fragment)
    {
      this.fragment := fragment;
      RebuildRaw();
    }

    method ClearQuery()
      modifies this`query, this`raw
      ensures Abs() == WithoutQuery(old(Abs()))
    {
      query := None;
      RebuildRaw();
    }

    method AppendPair(key: string, value: string)
      modifies this`query, this`raw
      ensures Abs() == WithPair(old(Abs()), key, value)
    {
      var pair := key + "=" + value;
      if query.Some? {
        assert query.value + ("&" + pair) == query.value + "&" + pair;
        query := Some(query.value + ("&" + pair));
      } else {
        query := Some(pair);
      }
      RebuildRaw();
    }

    method Join(segment: string) returns (r: Result<UrlObject, ParseError>)
      ensures r.Ok? ==> fresh(r.value)
      ensures match Joined(Abs(), segment)
              case Ok(u) => r.Ok? && r.value.Abs() == u
              case Err(e) => r == Err(e)
    {
      if IsAbsolute(segment) {
        r := ParseUrl(segment);
        return;
      }
      var joined := new UrlObject(Abs());
      if segment != "" && segment[0] == '/' {
        joined.path := segment;
      } else {
        joined.path := ResolveDots(BasePath(joined.path) + segment);
      }
      joined.query, joined.fragment := None, None;
      joined.RebuildRaw();
      return Ok(joined);
    }
  }

  method ParseUrl(input: string) returns (r: Result<UrlObject, ParseError>)
    ensures r.Ok? ==> fresh(r.value)
    ensures match Parse(input)
            case Ok(u) => r.Ok? && r.value.Abs() == u
            case Err(e) => r == Err(e)
  {
    var parsed := ParseScheme(input);
    if parsed.Err? {
      return Err(parsed.error);
    }
    var (rest, scheme) := parsed.value;
    if !("://" <= rest) {
      return Err(InvalidFormat);
    }
    var found := ParseHost(rest[3..]);
    if found.Err? {
      return Err(found.error);
    }
    var (behind, host) := found.value;
    var port := ParsePort(behind);
    var (tail, number) := if port.Ok? then port.value else (behind, None);
    var (path, query, fragment) := ParsePathQueryFragment(tail);
    var url := new UrlObject(Url("", scheme, host, number, if path == "" then "/" else path, query, fragment));
    url.RebuildRaw();
    return Ok(url);
  }

  /** The handle that appends path segments; dropping it rebuilds the printed form. */
  class PathSegmentsMut {
    const url: UrlObject

    constructor (url: UrlObject)
      ensures this.url == url
    {
      this.url := url;
    }

    method Push(segment: string)
      modifies url`path
      ensures url.path == Pushed(old(url.path), segment)
    {
      if url.path != "" && url.path[|url.path| - 1] != '/' {
        url.path := url.path + "/";
      }
      url.path := url.path + segment;
    }

    method Drop()
      modifies url`raw
      ensures url.Abs() == Rebuilt(old(url.Abs()))
    {
      url.RebuildRaw();
    }
  }

  /** A handle from creation to drop, with a push for every segment in between. */
  method PushSegments(url: UrlObject, segments: seq<string>)
    modifies url
    ensures url.Abs() == WithSegments(old(url.Abs()), segments)
  {
    var handle := new PathSegmentsMut(url);
    for i := 0 to |segments|
      invariant PushedAll(url.path, segments[i..]) == PushedAll(old(url.path), segments)
      invariant url.Abs() == old(url.Abs()).(path := url.path)
    {
      assert segments[i..][1..] == segments[i + 1..];
      handle.Push(segments[i]);
    }
    handle.Drop();
  }
}
