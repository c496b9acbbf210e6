/**
 The mutators of a URL (payjoin/src/core/url.rs): which of them keep the printed form and the
 fields in step, so that the URL still re-parses to itself, and which arguments break that.
 */
module UrlMutate {
  import opened Wrappers
  import opened UrlText
  import opened UrlParse
  import opened UrlRoundTrip

  function WithPort(u: Url, port: Option<nat>): Url {
    Rebuilt(u.(port := port))
  }

  function WithFragment(u: Url, fragment: Option<string>): Url {
    Rebuilt(u.(fragment := fragment))
  }

  function WithoutQuery(u: Url): Url {
    Rebuilt(u.(query := None))
  }

  function WithPair(u: Url, key: string, value: string): Url {
    var pair := key + "=" + value;
    Rebuilt(u.(query := Some(if u.query.Some? then u.query.value + "&" + pair else pair)))
  }

  /** One more segment behind a path, with a separator unless there is one or no path yet. */
  function Pushed(path: string, segment: string): string {
    if path != "" && path[|path| - 1] != '/' then path + "/" + segment else path + segment
  }

  function PushedAll(path: string, segments: seq<string>): string
    decreases |segments|
  {
    if segments == [] then path else PushedAll(Pushed(path, segments[0]), segments[1..])
  }

  /** Segments pushed through one handle; the printed form is rebuilt when it is dropped. */
  function WithSegments(u: Url, segments: seq<string>): Url {
    Rebuilt(u.(path := PushedAll(u.path, segments)))
  }

  datatype Op =
    | SetPort(port: Option<nat>)
    | SetFragment(fragment: Option<string>)
    | ClearQuery
    | AppendPair(key: string, value: string)
    | PushSegments(segments: seq<string>)

  function Apply(u: Url, op: Op): Url {
    match op
    case SetPort(port) => WithPort(u, port)
    case SetFragment(fragment) => WithFragment(u, fragment)
    case ClearQuery => WithoutQuery(u)
    case AppendPair(key, value) => WithPair(u, key, value)
    case PushSegments(segments) => WithSegments(u, segments)
  }

  /** Ports are 16-bit numbers. */
  predicate WellTyped(op: Op) {
    op.SetPort? && op.port.Some? ==> op.port.value <= 0xffff
  }

  /** The arguments that break nothing. */
  predicate Harmless(u: Url, op: Op) {
    match op
    case SetPort(port) => port.Some? ==> u.path != "" && u.path[0] == '/'
    case AppendPair(key, value) => '#' !in key && '#' !in value
    case PushSegments(segments) => forall i :: 0 <= i < |segments| ==> NoMarks(segments[i])
    case _ => true
  }

  lemma PairMarks(u: Url, key: string, value: string)
    requires u.query.Some? ==> '#' !in u.query.value
    ensures '#' !in WithPair(u, key, value).query.value <==> '#' !in key && '#' !in value
  {
    var pair := key + "=" + value;
    assert '#' in pair <==> '#' in key || '#' in value;
  }

  lemma PushedMarks(path: string, segment: string)
    ensures NoMarks(Pushed(path, segment)) <==> NoMarks(path) && NoMarks(segment)
  {}

  /** Pushing changes neither where a path starts nor whether it starts with a bad port. */
  lemma PushedStart(path: string, segment: string)
    requires path != ""
    ensures var path' := Pushed(path, segment);
            && path' != "" && path'[0] == path[0]
            && (path[0] == ':' && ParsePort(path).Err? ==> ParsePort(path').Err?)
  {
    if path[0] == ':' && ParsePort(path).Err? {
      if path[|path| - 1] == '/' {
        var stem := path[..|path| - 1];
        assert path == stem + "/";
        BadPortStable(stem, "/");
        BadPortStable(stem, "/" + segment);
        assert Pushed(path, segment) == stem + ("/" + segment);
      } else {
        BadPortStable(path, "/" + segment);
        assert Pushed(path, segment) == path + ("/" + segment);
      }
    }
  }

  lemma {:induction false} PushedAllIff(h: Host, port: Option<nat>, path: string, segments: seq<string>)
    requires path != "" && (NoMarks(path) ==> ValidPath(h, port, path))
    ensures ValidPath(h, port, PushedAll(path, segments))
            <==> NoMarks(path) && forall i :: 0 <= i < |segments| ==> NoMarks(segments[i])
    decreases |segments|
  {
    if segments != [] {
      PushedStart(path, segments[0]);
      PushedMarks(path, segments[0]);
      PushedAllIff(h, port, Pushed(path, segments[0]), segments[1..]);
    }
  }

  /**
   For every canonical URL, and so for every parsed one, and every mutation: the result still
   re-parses to itself exactly when the arguments are harmless.
   */
  lemma MutationKeepsIff(u: Url, op: Op)
    requires Canonical(u) && WellTyped(op)
    ensures Parse(Apply(u, op).raw) == Ok(Apply(u, op)) <==> Harmless(u, op)
  {
    ReparsesIff(Apply(u, op));
    match op
    case AppendPair(key, value) => PairMarks(u, key, value);
    case PushSegments(segments) => PushedAllIff(u.host, u.port, u.path, segments);
    case _ =>
  }

  function ApplyAll(u: Url, ops: seq<Op>): Url
    decreases |ops|
  {
    if ops == [] then u else ApplyAll(Apply(u, ops[0]), ops[1..])
  }

  predicate HarmlessAll(u: Url, ops: seq<Op>)
    decreases |ops|
  {
    ops == [] || (WellTyped(ops[0]) && Harmless(u, ops[0]) && HarmlessAll(Apply(u, ops[0]), ops[1..]))
  }

  lemma {:induction false} MutationsKeepFrom(u: Url, ops: seq<Op>)
    requires Canonical(u) && HarmlessAll(u, ops)
    ensures Canonical(ApplyAll(u, ops))
    decreases |ops|
  {
    if ops != [] {
      MutationKeepsIff(u, ops[0]);
      ReparsesIff(Apply(u, ops[0]));
      MutationsKeepFrom(Apply(u, ops[0]), ops[1..]);
    }
  }

  /** From a parsed URL, any sequence of harmless mutations ends in one that re-parses to itself. */
  lemma MutationsKeepParsed(s: string, ops: seq<Op>)
    requires Parse(s).Ok? && HarmlessAll(Parse(s).value, ops)
    ensures var u := ApplyAll(Parse(s).value, ops);
            u.raw == Render(u) && Parse(u.raw) == Ok(u)
  {
    ParseIsCanonical(s);
    MutationsKeepFrom(Parse(s).value, ops);
    CanonicalReparses(ApplyAll(Parse(s).value, ops));
  }

  // ----- a promise the code does not keep -----

  /**
   A parsed path starts with a slash exactly when what follows the host is nothing, a slash, a
   mark, or a colon with a port that parses.
   */
  lemma PathStartsWithSlashIff(s: string)
    requires Parse(s).Ok?
    ensures var behind := ParseHost(ParseScheme(s).value.0[3..]).value.0;
            Parse(s).value.path[0] == '/'
            <==> AfterPort(behind) || (behind[0] == ':' && ParsePort(behind).Ok?)
  {
    var behind := ParseHost(ParseScheme(s).value.0[3..]).value.0;
    var (rest, port) := ParseAuthorityRest(behind);
    var (path, query, fragment) := ParsePathQueryFragment(rest);
    ParseIsCanonical(s);
    AuthorityRestIs(behind);
    TailIs(rest);
    PathShape(behind);
    MarksEndPort(query, fragment);
    if path != "" { assert rest[0] == path[0]; assert path[0] in path; }
    else { assert rest == Suffix('?', query) + Suffix('#', fragment); }
  }

  lemma PathShape(behind: string)
    ensures var (rest, port) := ParseAuthorityRest(behind);
            (AfterPort(behind) || (behind[0] == ':' && ParsePort(behind).Ok?)) <==> AfterPort(rest)
  {}

  /** Such a path does come up: a port that is not a number. */
  lemma BadPortBecomesPath()
    ensures Parse("a://b:c") == Ok(Url("a://b:c", "a", Domain("b"), None, ":c", None, None))
  {
    var u := Url("a://b:c", "a", Domain("b"), None, ":c", None, None);
    assert Span("c", IsDecimal) == 0;
    assert ":c"[1..] == "c";
    assert Find("b", '.').None?;
    assert Render(u) == u.raw;
    CanonicalReparses(u);
  }
}
