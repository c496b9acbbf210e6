/**
 What the mutators of a URL do to it, as its reader sees it (payjoin/src/core/url.rs): which
 component changes to what when the printed form is parsed again, which pairs a query then holds
 and which segments a path then has.
 */
module UrlFields {
  import opened Wrappers
  import opened UrlText
  import opened UrlParse
  import opened UrlRoundTrip
  import opened UrlMutate

  /** The same URL but for how it is printed. */
  predicate SameFields(u: Url, v: Url) {
    u.(raw := "") == v.(raw := "")
  }

  /** After a harmless mutation the printed form parses to a URL with that component changed and no other. */
  lemma MutationIsRead(u: Url, op: Op)
    requires Canonical(u) && WellTyped(op) && Harmless(u, op)
    ensures Parse(Apply(u, op).raw).Ok?
    ensures var v := Parse(Apply(u, op).raw).value;
            match op
            case SetPort(port) => v.port == port && SameFields(v, u.(port := port))
            case SetFragment(fragment) => v.fragment == fragment && SameFields(v, u.(fragment := fragment))
            case ClearQuery => v.query == None && SameFields(v, u.(query := None))
            case AppendPair(_, _) => v.query.Some? && SameFields(v, u.(query := v.query))
            case PushSegments(_) => SameFields(v, u.(path := v.path))
  {
    MutationKeepsIff(u, op);
  }

  // ----- the pairs of a query -----

  /** The pairs in the parts of a query, each cut at its first equals sign; `decode` undoes percent encoding. */
  function PairsOf(parts: seq<string>, decode: string -> Option<string>): seq<(string, string)> {
    if parts == [] then []
    else
      PairsOf(parts[..|parts| - 1], decode) + PairOf(parts[|parts| - 1], decode)
  }

  function PairOf(part: string, decode: string -> Option<string>): seq<(string, string)> {
    match CutAt(part, '=')
    case (key, Some(value)) =>
      if decode(key).Some? && decode(value).Some? then [(decode(key).value, decode(value).value)] else []
    case _ => []
  }

  /** What `query_pairs` gives. A part without an equals sign, an empty one among them, gives nothing. */
  function QueryPairs(u: Url, decode: string -> Option<string>): seq<(string, string)> {
    if u.query.None? then [] else PairsOf(Split(u.query.value, '&'), decode)
  }

  lemma PairsPush(parts: seq<string>, part: string, decode: string -> Option<string>)
    ensures PairsOf(parts + [part], decode) == PairsOf(parts, decode) + PairOf(part, decode)
  {
    assert (parts + [part])[..|parts|] == parts;
  }

  lemma PairIsRead(key: string, value: string, decode: string -> Option<string>)
    requires '=' !in key && decode(key).Some? && decode(value).Some?
    ensures PairOf(key + "=" + value, decode) == [(decode(key).value, decode(value).value)]
  {
    assert key + "=" + value == key + Suffix('=', Some(value));
    CutReads(key, '=', Some(value));
  }

  lemma NoAmpersand(part: string)
    requires '&' !in part
    ensures Split(part, '&') == [part]
  {}

  /** A pair appended is read back as the last pair of the query, behind all that were there. */
  lemma AppendedPairIsRead(u: Url, key: string, value: string, decode: string -> Option<string>)
    requires '=' !in key && '&' !in key && '&' !in value
    requires decode(key).Some? && decode(value).Some?
    ensures QueryPairs(WithPair(u, key, value), decode)
            == QueryPairs(u, decode) + [(decode(key).value, decode(value).value)]
  {
    var pair := key + "=" + value;
    PairIsRead(key, value, decode);
    NoAmpersand(pair);
    if u.query.Some? {
      assert u.query.value + "&" + pair == u.query.value + ['&'] + pair;
      SplitAppend(u.query.value, '&', pair);
      PairsPush(Split(u.query.value, '&'), pair, decode);
    } else {
      PairsPush([], pair, decode);
      assert [] + [pair] == [pair];
    }
  }

  // ----- the segments of a path -----

  /** The parts of a path between slashes, without an empty one at the end. */
  function Segments(path: string): (r: seq<string>)
  {
    var parts := Split(path, '/');
    if parts[|parts| - 1] == "" then parts[..|parts| - 1] else parts
  }

  lemma {:induction false} SplitLast(path: string)
    ensures var parts := Split(path, '/');
            parts[|parts| - 1] == "" <==> path == "" || path[|path| - 1] == '/'
    decreases |path|
  {
    match Find(path, '/')
    case None =>
    case Some(i) =>
      SplitLast(path[i + 1..]);
      var parts := Split(path, '/');
      assert parts[|parts| - 1] == Split(path[i + 1..], '/')[|parts| - 2];
  }

  lemma SplitNothing()
    ensures Split("", '/') == [""]
  {}

  lemma SplitBehindSlash(stem: string, segment: string)
    ensures Split(stem + "/", '/') == Split(stem, '/') + [""]
    ensures Split(stem + "/" + segment, '/') == Split(stem, '/') + Split(segment, '/')
  {
    SplitAppend(stem, '/', "");
    SplitAppend(stem, '/', segment);
    SplitNothing();
    assert stem + ['/'] + "" == stem + "/";
  }

  lemma PushToNothing(path: string, segment: string)
    requires path == ""
    ensures Pushed(path, segment) == segment && Segments(path) == []
  {
    SplitNothing();
  }

  lemma PushToDirectory(path: string, segment: string)
    requires path != "" && path[|path| - 1] == '/'
    ensures Split(Pushed(path, segment), '/') == Segments(path) + Split(segment, '/')
  {
    var stem := path[..|path| - 1];
    assert path == stem + "/";
    SplitBehindSlash(stem, segment);
  }

  lemma NameSegments(path: string)
    requires path != "" && path[|path| - 1] != '/'
    ensures Segments(path) == Split(path, '/')
  {
    SplitLast(path);
  }

  lemma PushToName(path: string, segment: string)
    requires path != "" && path[|path| - 1] != '/'
    ensures Split(Pushed(path, segment), '/') == Segments(path) + Split(segment, '/')
  {
    NameSegments(path);
    SplitBehindSlash(path, segment);
  }

  /** A segment pushed comes behind the segments there were, with exactly one slash in between. */
  lemma PushedSegments(path: string, segment: string)
    ensures Split(Pushed(path, segment), '/') == Segments(path) + Split(segment, '/')
  {
    if path == "" {
      PushToNothing(path, segment);
    } else if path[|path| - 1] == '/' {
      PushToDirectory(path, segment);
    } else {
      PushToName(path, segment);
    }
  }

  /** Plain segments pushed through one handle are the last segments of the path, in that order. */
  lemma {:induction false} AllPushedSegments(path: string, segments: seq<string>)
    requires forall i :: 0 <= i < |segments| ==> segments[i] != "" && '/' !in segments[i]
    ensures Segments(PushedAll(path, segments)) == Segments(path) + segments
    decreases |segments|
  {
    if segments == [] {
      assert Segments(path) + [] == Segments(path);
    } else {
      OnePushedSegment(path, segments[0]);
      AllPushedSegments(Pushed(path, segments[0]), segments[1..]);
      FirstAndRest(Segments(path), segments);
    }
  }

  lemma FirstAndRest(a: seq<string>, b: seq<string>)
    requires b != []
    ensures a + [b[0]] + b[1..] == a + b
  {}

  lemma OnePushedSegment(path: string, segment: string)
    requires segment != "" && '/' !in segment
    ensures Split(Pushed(path, segment), '/') == Segments(path) + [segment]
    ensures Segments(Pushed(path, segment)) == Segments(path) + [segment]
  {
    PushedSegments(path, segment);
    assert Split(segment, '/') == [segment];
  }

  // ----- the printed form -----

  /** Numbers are printed without leading zeros. */
  lemma {:induction false} NoLeadingZero(n: nat, radix: nat)
    requires 2 <= radix <= 16
    ensures n == 0 || ToRadix(n, radix)[0] != '0'
    ensures n < radix ==> |ToRadix(n, radix)| == 1
    decreases n
  {
    if n >= radix {
      DivShrinks(n, radix);
      NoLeadingZero(n / radix, radix);
      DivMod(n, radix);
    }
  }

  /** An IPv6 host is printed in brackets, with all eight groups between colons and no gap. */
  lemma Ipv6Printed(groups: seq<nat>)
    requires ValidHost(Ipv6(groups))
    ensures var s := HostStr(Ipv6(groups));
            && |s| >= 2 && s[0] == '[' && s[|s| - 1] == ']'
            && var parts := Split(s[1..|s| - 1], ':');
               && |parts| == 8
               && forall i :: 0 <= i < 8 ==> parts[i] == ToRadix(groups[i], 16)
  {
    var inner := Join(Written(groups, 16), ':');
    GroupsSplit(groups);
    assert HostStr(Ipv6(groups))[1..|inner| + 1] == inner;
  }

  /** An IPv4 host is printed as four decimal octets between dots. */
  lemma Ipv4Printed(octets: seq<nat>)
    requires ValidHost(Ipv4(octets))
    ensures var parts := Split(HostStr(Ipv4(octets)), '.');
            |parts| == 4 && forall i :: 0 <= i < 4 ==> parts[i] == ToRadix(octets[i], 10)
  {
    var parts := Written(octets, 10);
    WrittenDigits(octets, 10);
    forall i | 0 <= i < |parts| ensures '.' !in parts[i] {
      assert All(parts[i], c => IsDigit(c, 10));
    }
    SplitJoin(parts, '.');
  }
}
