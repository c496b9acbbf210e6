/**
 Resolving a reference against a URL (payjoin/src/core/url.rs, `join`): the code's own stack
 rule for dot segments. UrlRfc compares it with RFC 3986.
 */
module UrlJoin {
  import opened Wrappers
  import opened UrlText
  import opened UrlParse
  import opened UrlRoundTrip

  predicate IsDots(part: string) {
    part == "." || part == ".."
  }

  /** One part against the stack of segments kept so far. */
  function DotStep(stack: seq<string>, part: string): seq<string> {
    if part == "." then stack
    else if part == ".." then (if stack == [] then [] else stack[..|stack| - 1])
    else stack + [part]
  }

  function DotStack(stack: seq<string>, parts: seq<string>): seq<string>
    decreases |parts|
  {
    if parts == [] then stack else DotStack(DotStep(stack, parts[0]), parts[1..])
  }

  function Rooted(path: string): string {
    if path != "" && path[0] == '/' then path else "/" + path
  }

  function Resolve(merged: string): string {
    Rooted(Join(DotStack([], Split(merged, '/')), '/'))
  }

  /** Everything up to the last slash, or just a slash. */
  function BasePath(path: string): string {
    if '/' !in path then "/"
    else if path[|path| - 1] == '/' then path
    else BasePath(path[..|path| - 1])
  }

  /** Where "://" first occurs. */
  function FindAuthority(s: string): (r: Option<nat>)
    ensures r.Some? ==> r.value + 3 <= |s| && s[r.value] == ':' && s[r.value + 1] == '/' && s[r.value + 2] == '/'
  {
    if |s| < 3 then None
    else if s[0] == ':' && s[1] == '/' && s[2] == '/' then Some(0)
    else
      match FindAuthority(s[1..])
      case None => None
      case Some(i) => Some(i + 1)
  }

  predicate IsAbsolute(segment: string) {
    var pos := FindAuthority(segment);
    pos.Some? && '/' !in segment[..pos.value]
  }

  function JoinedPath(path: string, segment: string): string {
    if segment != "" && segment[0] == '/' then segment else Resolve(BasePath(path) + segment)
  }

  function Joined(u: Url, segment: string): Result<Url, ParseError> {
    if IsAbsolute(segment) then Parse(segment)
    else Ok(Rebuilt(u.(path := JoinedPath(u.path, segment), query := None, fragment := None)))
  }

  lemma {:induction false} AuthorityAt(a: string, b: string)
    requires '/' !in a
    ensures FindAuthority(a + "://" + b) == Some(|a|)
    decreases |a|
  {
    var s := a + "://" + b;
    if a != "" {
      assert s[1..] == a[1..] + "://" + b;
      AuthorityAt(a[1..], b);
      assert s[1] == if |a| > 1 then a[1] else ':';
    }
  }

  lemma AuthorityIs(s: string, i: nat)
    requires FindAuthority(s) == Some(i)
    ensures s == s[..i] + "://" + s[i + 3..]
  {}

  lemma MarkedAbsolute(scheme: string, behind: string)
    requires '/' !in scheme
    ensures IsAbsolute(scheme + "://" + behind)
  {
    AuthorityAt(scheme, behind);
    assert (scheme + "://" + behind)[..|scheme|] == scheme;
  }

  /** A reference is taken for a URL of its own exactly when it has "://" behind something without a slash. */
  lemma IsAbsoluteIff(segment: string)
    ensures IsAbsolute(segment) <==> exists a: string, b: string :: segment == a + "://" + b && '/' !in a
  {
    if IsAbsolute(segment) {
      AuthorityIs(segment, FindAuthority(segment).value);
    } else if a: string, b: string :| segment == a + "://" + b && '/' !in a {
      MarkedAbsolute(a, b);
    }
  }

  /** Such a reference, written as a canonical URL is printed, gives that URL whatever the base. */
  lemma JoinAbsolute(base: Url, u: Url)
    requires Canonical(u)
    ensures IsAbsolute(u.raw) && Joined(base, u.raw) == Ok(u)
  {
    CanonicalReparses(u);
    RenderedIsAbsolute(u);
  }

  lemma SchemeHasNoSlash(scheme: string)
    requires All(scheme, c => IsSchemeChar(c) && !IsUpper(c))
    ensures '/' !in scheme
  {
    forall i | 0 <= i < |scheme| ensures scheme[i] != '/' {
      assert IsSchemeChar(scheme[i]);
    }
  }

  lemma RenderedIsAbsolute(u: Url)
    requires All(u.scheme, c => IsSchemeChar(c) && !IsUpper(c))
    ensures IsAbsolute(Render(u))
  {
    var host, port, tail := HostStr(u.host), PortStr(u.port), Tail(u);
    SchemeHasNoSlash(u.scheme);
    MarkedAbsolute(u.scheme, host + port + tail);
    assert u.scheme + "://" + host + port + tail == u.scheme + "://" + (host + port + tail);
  }

  /** Without a scheme the reference changes path, query and fragment only. */
  lemma JoinKeepsAuthority(base: Url, segment: string)
    requires !IsAbsolute(segment)
    ensures Joined(base, segment).Ok?
    ensures var j := Joined(base, segment).value;
            j.scheme == base.scheme && j.host == base.host && j.port == base.port
            && j.query == None && j.fragment == None && j.raw == Render(j)
            && (segment != "" && segment[0] == '/' ==> j.path == segment)
  {}

  // ----- dot segments -----

  /** Segments of a path: no slash within, and none of them dots. */
  ghost predicate Clean(segments: seq<string>) {
    forall i :: 0 <= i < |segments| ==> !IsDots(segments[i]) && '/' !in segments[i]
  }

  lemma {:induction false} DotStackClean(stack: seq<string>, parts: seq<string>)
    requires Clean(stack) && forall i :: 0 <= i < |parts| ==> '/' !in parts[i]
    ensures Clean(DotStack(stack, parts))
    decreases |parts|
  {
    if parts != [] {
      assert Clean(DotStep(stack, parts[0]));
      DotStackClean(DotStep(stack, parts[0]), parts[1..]);
    }
  }

  lemma {:induction false} DotStackPlain(stack: seq<string>, parts: seq<string>)
    requires forall i :: 0 <= i < |parts| ==> !IsDots(parts[i])
    ensures DotStack(stack, parts) == stack + parts
    decreases |parts|
  {
    if parts == [] {
      assert stack + parts == stack;
    } else {
      DotStackPlain(stack + [parts[0]], parts[1..]);
      assert stack + [parts[0]] + parts[1..] == stack + parts;
    }
  }

  lemma RestOfSum(a: seq<string>, b: seq<string>)
    requires a != []
    ensures (a + b)[1..] == a[1..] + b && (a + b)[0] == a[0]
  {}

  lemma {:induction false} DotStackAppend(stack: seq<string>, a: seq<string>, b: seq<string>)
    ensures DotStack(stack, a + b) == DotStack(DotStack(stack, a), b)
    decreases |a|
  {
    if a == [] {
      assert a + b == b;
    } else {
      DotStackAppend(DotStep(stack, a[0]), a[1..], b);
      RestOfSum(a, b);
    }
  }

  /** Going down into a segment and up again changes nothing. */
  lemma UpUndoesDown(stack: seq<string>, parts: seq<string>, name: string)
    requires !IsDots(name)
    ensures DotStack(stack, parts + [name, ".."]) == DotStack(stack, parts)
  {
    DotStackAppend(stack, parts, [name, ".."]);
    var kept := DotStack(stack, parts);
    assert DotStack(kept, [name, ".."]) == DotStack(kept + [name], [".."]) by {
      assert [name, ".."][1..] == [".."];
    }
    assert DotStack(kept + [name], [".."]) == DotStep(kept + [name], "..");
    assert (kept + [name])[..|kept|] == kept;
  }

  /** A path without dot segments. */
  ghost predicate DotFree(path: string) {
    forall i :: 0 <= i < |Split(path, '/')| ==> !IsDots(Split(path, '/')[i])
  }

  lemma SplitSlash(path: string)
    ensures Split("/" + path, '/') == [""] + Split(path, '/')
  {
    SplitFirst("", '/', path);
    assert "" + ['/'] + path == "/" + path;
  }

  lemma SplitEmpty()
    ensures Split("", '/') == [""]
  {}

  /** Rooting a clean stack of segments gives a clean path. */
  lemma RootedClean(stack: seq<string>)
    requires Clean(stack)
    ensures Rooted(Join(stack, '/'))[0] == '/' && DotFree(Rooted(Join(stack, '/')))
  {
    var path := Join(stack, '/');
    if stack == [] {
      SplitEmpty();
    } else {
      SplitJoin(stack, '/');
    }
    SplitSlash(path);
  }

  /** Whatever is resolved, the result starts with a slash and has no dot segment. */
  lemma ResolveClean(merged: string)
    ensures Resolve(merged)[0] == '/' && DotFree(Resolve(merged))
  {
    DotStackClean([], Split(merged, '/'));
    RootedClean(DotStack([], Split(merged, '/')));
  }

  lemma ResolveDotFree(path: string)
    requires path != "" && path[0] == '/' && DotFree(path)
    ensures Resolve(path) == path
  {
    DotStackPlain([], Split(path, '/'));
    assert [] + Split(path, '/') == Split(path, '/');
    JoinSplit(path, '/');
  }

  lemma ResolveIdempotent(merged: string)
    ensures Resolve(Resolve(merged)) == Resolve(merged)
  {
    ResolveClean(merged);
    ResolveDotFree(Resolve(merged));
  }

  // ----- joining -----

  /** A relative reference always resolves to a rooted path without dot segments. */
  lemma RelativeJoinClean(u: Url, segment: string)
    requires !IsAbsolute(segment) && (segment == "" || segment[0] != '/')
    ensures Joined(u, segment).Ok?
    ensures var path := Joined(u, segment).value.path;
            path != "" && path[0] == '/' && DotFree(path) && Resolve(path) == path
  {
    ResolveClean(BasePath(u.path) + segment);
    ResolveDotFree(Resolve(BasePath(u.path) + segment));
  }

  lemma {:induction false} BasePathEnds(path: string)
    ensures BasePath(path) != "" && BasePath(path)[|BasePath(path)| - 1] == '/'
    decreases |path|
  {
    if '/' in path && path[|path| - 1] != '/' {
      BasePathEnds(path[..|path| - 1]);
    }
  }

  lemma {:induction false} BasePathOf(base: string, name: string)
    requires base != "" && base[|base| - 1] == '/' && '/' !in name
    ensures BasePath(base + name) == base
    decreases |name|
  {
    if name == "" {
      assert base + name == base;
      assert base[|base| - 1] in base;
    } else {
      var n := |name| - 1;
      assert (base + name)[..|base + name| - 1] == base + name[..n];
      BasePathOf(base, name[..n]);
      assert (base + name)[|base| - 1] == '/';
    }
  }

  lemma DotStackLast(parts: seq<string>, name: string)
    requires !IsDots(name)
    ensures DotStack([], parts + [name]) == DotStack([], parts) + [name]
  {
    DotStackAppend([], parts, [name]);
    assert [name][1..] == [];
  }

  /** Resolving a base with a plain name behind it keeps that name last. */
  lemma ResolveKeepsName(base: string, name: string)
    requires base != "" && base[|base| - 1] == '/' && '/' !in name && !IsDots(name)
    ensures exists b: string :: b != "" && b[|b| - 1] == '/' && Resolve(base + name) == b + name
  {
    var stem := base[..|base| - 1];
    assert base + name == stem + ['/'] + name;
    SplitAppend(stem, '/', name);
    DotStackLast(Split(stem, '/'), name);
    var kept := DotStack([], Split(stem, '/'));
    assert Resolve(base + name) == Rooted(Join(kept + [name], '/'));
    if kept == [] {
      assert kept + [name] == [name];
      NameRooted("", name);
    } else {
      JoinAppend(kept, name, '/');
      NameRooted(Join(kept, '/') + "/", name);
    }
  }

  lemma NameRooted(b: string, name: string)
    requires b == "" || b[|b| - 1] == '/'
    requires '/' !in name
    ensures exists r: string :: r != "" && r[|r| - 1] == '/' && Rooted(b + name) == r + name
  {
    var r := if b != "" && b[0] == '/' then b else "/" + b;
    assert "/" + (b + name) == ("/" + b) + name;
    assert r != "" && r[|r| - 1] == '/' && Rooted(b + name) == r + name;
  }

  /** A directory: rooted, closed by a slash, and without dot segments. */
  ghost predicate Directory(b: string) {
    b != "" && b[0] == '/' && b[|b| - 1] == '/' && DotFree(b)
  }

  predicate PlainName(name: string) {
    '/' !in name && !IsDots(name)
  }

  lemma DirectorySegments(b: string)
    requires Directory(b)
    ensures var stem := b[..|b| - 1];
            b == stem + "/" && DotStack([], Split(stem, '/')) == Split(stem, '/') && Join(Split(stem, '/'), '/') == stem
  {
    var stem := b[..|b| - 1];
    assert b == stem + ['/'] + "";
    SplitAppend(stem, '/', "");
    SplitEmpty();
    forall i | 0 <= i < |Split(stem, '/')| ensures !IsDots(Split(stem, '/')[i]) {
      assert Split(b, '/')[i] == Split(stem, '/')[i];
    }
    DotStackPlain([], Split(stem, '/'));
    assert [] + Split(stem, '/') == Split(stem, '/');
    JoinSplit(stem, '/');
  }

  lemma ResolveInDirectory(b: string, middle: seq<string>, name: string, merged: string)
    requires Directory(b) && PlainName(name)
    requires Split(merged, '/') == Split(b[..|b| - 1], '/') + middle + [name]
    requires DotStack([], Split(b[..|b| - 1], '/') + middle) == DotStack([], Split(b[..|b| - 1], '/'))
    ensures Resolve(merged) == b + name
  {
    var stem := b[..|b| - 1];
    DirectorySegments(b);
    DotStackLast(Split(stem, '/') + middle, name);
    JoinAppend(Split(stem, '/'), name, '/');
    assert stem + ['/'] + name == b + name;
  }

  /** A sibling name takes the place of the last segment. */
  lemma JoinSibling(b: string, last: string, name: string)
    requires Directory(b) && '/' !in last && PlainName(name)
    ensures JoinedPath(b + last, name) == b + name
  {
    var stem := b[..|b| - 1];
    BasePathOf(b, last);
    NameIsRelative(name);
    SplitAppend(stem, '/', name);
    assert b + name == stem + ['/'] + name;
    assert Split(stem, '/') + [] == Split(stem, '/');
    SplitName(name);
    ResolveInDirectory(b, [], name, b + name);
  }

  lemma SplitName(name: string)
    requires '/' !in name
    ensures Split(name, '/') == [name]
  {}

  lemma ThreeMore(parts: seq<string>, x: string, y: string, z: string)
    ensures parts + ([x] + ([y] + [z])) == parts + [x, y] + [z]
  {}

  lemma ParentSplit(stem: string, dir: string, up: string, name: string)
    requires '/' !in dir && '/' !in up && '/' !in name
    ensures Split(stem + ['/'] + (dir + ['/'] + (up + ['/'] + name)), '/') == Split(stem, '/') + [dir, up] + [name]
  {
    SplitName(name);
    SplitFirst(up, '/', name);
    SplitFirst(dir, '/', up + ['/'] + name);
    SplitAppend(stem, '/', dir + ['/'] + (up + ['/'] + name));
    ThreeMore(Split(stem, '/'), dir, up, name);
  }

  /** One level up and then a name: the last two segments give way to it. */
  lemma JoinParentSibling(b: string, dir: string, last: string, name: string)
    requires Directory(b) && PlainName(dir) && '/' !in last && PlainName(name)
    ensures JoinedPath(b + dir + "/" + last, "../" + name) == b + name
  {
    var stem := b[..|b| - 1];
    var merged := b + dir + "/" + ("../" + name);
    BasePathOf(b + dir + "/", last);
    assert merged == stem + ['/'] + (dir + ['/'] + (".." + ['/'] + name));
    ParentSplit(stem, dir, "..", name);
    UpUndoesDown([], Split(stem, '/'), dir);
    ResolveInDirectory(b, [dir, ".."], name, merged);
  }

  lemma UpSplit(stem: string, dir: string, up: string)
    requires '/' !in dir && '/' !in up
    ensures Split(stem + ['/'] + (dir + ['/'] + up), '/') == Split(stem, '/') + [dir, up]
  {
    SplitName(up);
    SplitFirst(dir, '/', up);
    SplitAppend(stem, '/', dir + ['/'] + up);
    assert [dir] + [up] == [dir, up];
  }

  lemma ResolveUp(b: string, dir: string)
    requires Directory(b) && PlainName(dir)
    ensures Resolve(b[..|b| - 1] + ['/'] + (dir + ['/'] + "..")) == Rooted(b[..|b| - 1])
  {
    var stem := b[..|b| - 1];
    UpSplit(stem, dir, "..");
    UpUndoesDown([], Split(stem, '/'), dir);
    DirectorySegments(b);
  }

  lemma NameIsRelative(name: string)
    requires '/' !in name
    ensures !IsAbsolute(name) && (name == "" || name[0] != '/')
  {}

  /** Joining the same plain name twice is joining it once. */
  lemma JoinPlainNameTwice(u: Url, name: string)
    requires '/' !in name && !IsDots(name)
    ensures Joined(u, name).Ok?
    ensures Joined(Joined(u, name).value, name) == Joined(u, name)
  {
    NameIsRelative(name);
    BasePathEnds(u.path);
    var path := Resolve(BasePath(u.path) + name);
    ResolveKeepsName(BasePath(u.path), name);
    var b: string :| b != "" && b[|b| - 1] == '/' && path == b + name;
    BasePathOf(b, name);
    ResolveIdempotent(BasePath(u.path) + name);
    assert JoinedPath(path, name) == path;
  }

  // ----- joining and re-parsing -----

  /** Going up removes a reference's own segments before any of the base's. */
  lemma {:induction false} DotStackOver(base: seq<string>, own: seq<string>, parts: seq<string>)
    ensures exists n: nat :: n <= |base| && DotStack(base + own, parts) == base[..n] + DotStack(own, parts)
    decreases |parts|
  {
    if parts == [] {
      assert base[..|base|] == base;
    } else if parts[0] == ".." && own == [] {
      var rest := DotStep(base, "..");
      assert base + own == base && rest + [] == rest;
      DotStackOver(rest, [], parts[1..]);
      var n: nat :| n <= |rest| && DotStack(rest + [], parts[1..]) == rest[..n] + DotStack([], parts[1..]);
      assert rest[..n] == base[..n];
    } else {
      assert DotStep(base + own, parts[0]) == base + DotStep(own, parts[0]);
      DotStackOver(base, DotStep(own, parts[0]), parts[1..]);
    }
  }

  predicate NoneMarked(segments: seq<string>) {
    forall i :: 0 <= i < |segments| ==> NoMarks(segments[i])
  }

  lemma {:induction false} JoinMarks(segments: seq<string>)
    ensures NoMarks(Join(segments, '/')) <==> NoneMarked(segments)
    decreases |segments|
  {
    if |segments| > 1 {
      JoinMarks(segments[1..]);
      MarksInThree(segments[0], Join(segments[1..], '/'));
      assert segments == [segments[0]] + segments[1..];
    }
  }

  lemma MarksInThree(a: string, b: string)
    ensures NoMarks(a + ['/'] + b) <==> NoMarks(a) && NoMarks(b)
  {}

  lemma RootedMarks(path: string)
    ensures NoMarks(Rooted(path)) <==> NoMarks(path)
  {}

  lemma {:induction false} DotStackMarks(stack: seq<string>, parts: seq<string>)
    requires NoneMarked(stack) && NoneMarked(parts)
    ensures NoneMarked(DotStack(stack, parts))
    decreases |parts|
  {
    if parts != [] {
      DotStackMarks(DotStep(stack, parts[0]), parts[1..]);
    }
  }

  lemma {:induction false} BasePathMarks(path: string)
    requires NoMarks(path)
    ensures NoMarks(BasePath(path))
    decreases |path|
  {
    if '/' in path && path[|path| - 1] != '/' {
      BasePathMarks(path[..|path| - 1]);
    }
  }

  /**
   No mark in a rooted reference, and none in what is left of a relative one once its own double
   dots have removed what they can.
   */
  predicate LeavesNoMark(segment: string) {
    if segment != "" && segment[0] == '/' then NoMarks(segment)
    else NoneMarked(DotStack([], Split(segment, '/')))
  }

  lemma StackBelow(base: string) returns (below: seq<string>)
    requires base != "" && base[|base| - 1] == '/' && NoMarks(base)
    ensures NoneMarked(below)
    ensures forall segment :: DotStack([], Split(base + segment, '/')) == DotStack(below, Split(segment, '/'))
  {
    var stem := base[..|base| - 1];
    below := DotStack([], Split(stem, '/'));
    forall segment ensures DotStack([], Split(base + segment, '/')) == DotStack(below, Split(segment, '/')) {
      assert base + segment == stem + ['/'] + segment;
      SplitAppend(stem, '/', segment);
      DotStackAppend([], Split(stem, '/'), Split(segment, '/'));
    }
    JoinSplit(stem, '/');
    JoinMarks(Split(stem, '/'));
    DotStackMarks([], Split(stem, '/'));
  }

  lemma MarksAbove(below: seq<string>, parts: seq<string>)
    requires NoneMarked(below)
    ensures NoneMarked(DotStack(below, parts)) <==> NoneMarked(DotStack([], parts))
  {
    DotStackOver(below, [], parts);
    assert below + [] == below;
    var n: nat :| n <= |below| && DotStack(below, parts) == below[..n] + DotStack([], parts);
    PartsMarked(below[..n], DotStack([], parts));
  }

  lemma ResolveMarksIff(base: string, segment: string)
    requires base != "" && base[|base| - 1] == '/' && NoMarks(base)
    ensures NoMarks(Resolve(base + segment)) <==> NoneMarked(DotStack([], Split(segment, '/')))
  {
    var below := StackBelow(base);
    var kept := DotStack(below, Split(segment, '/'));
    MarksAbove(below, Split(segment, '/'));
    JoinMarks(kept);
    RootedMarks(Join(kept, '/'));
  }

  lemma PartsMarked(a: seq<string>, b: seq<string>)
    requires NoneMarked(a)
    ensures NoneMarked(a + b) <==> NoneMarked(b)
  {
    assert forall i :: 0 <= i < |b| ==> (a + b)[|a| + i] == b[i];
  }

  lemma JoinedPathMarks(path: string, segment: string)
    requires NoMarks(path)
    ensures JoinedPath(path, segment) != "" && JoinedPath(path, segment)[0] == '/'
    ensures NoMarks(JoinedPath(path, segment)) <==> LeavesNoMark(segment)
  {
    if segment == "" || segment[0] != '/' {
      ResolveClean(BasePath(path) + segment);
      BasePathEnds(path);
      BasePathMarks(path);
      ResolveMarksIff(BasePath(path), segment);
    }
  }

  /**
   Against a canonical URL a reference without a scheme gives a URL that re-parses to itself
   exactly when the reference leaves no mark.
   */
  lemma JoinKeepsIff(u: Url, segment: string)
    requires Canonical(u) && !IsAbsolute(segment)
    ensures var j := Joined(u, segment).value;
            Parse(j.raw) == Ok(j) <==> LeavesNoMark(segment)
  {
    JoinedPathMarks(u.path, segment);
    ReparsesIff(Joined(u, segment).value);
  }

  lemma MarkedReference(a: string, b: string)
    requires '/' !in a + "?" + b
    ensures !LeavesNoMark(a + "?" + b) && !IsAbsolute(a + "?" + b)
    ensures LeavesNoMark(a + "?" + b + "/..")
  {
    var name := a + "?" + b;
    assert name[|a|] == '?';
    NameIsRelative(name);
    SplitName(name);
    assert DotStack([], [name]) == [name] by { assert [name][1..] == []; }
    SplitFirst(name, '/', "..");
    SplitName("..");
    assert name + ['/'] + ".." == name + "/.." && [name] + [".."] == [] + [name, ".."];
    UpUndoesDown([], [], name);
    assert [name][0] == name;
  }

  /**
   It fails: a query in the reference becomes part of the path, where it is printed as a query
   again. A segment that the reference itself removes does no harm.
   */
  lemma QueryReferenceBreaks(u: Url, a: string, b: string)
    requires Canonical(u) && '/' !in a + "?" + b
    ensures var j := Joined(u, a + "?" + b).value; Parse(j.raw) != Ok(j)
    ensures LeavesNoMark(a + "?" + b + "/..")
  {
    MarkedReference(a, b);
    JoinKeepsIff(u, a + "?" + b);
  }
}
