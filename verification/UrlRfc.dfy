/**
 Reference resolution as RFC 3986 has it (sections 5.2.2 to 5.2.4), next to what `join` in
 payjoin/src/core/url.rs does: exactly when the two agree, and inputs on which they do not.
 */
module UrlRfc {
  import opened Wrappers
  import opened UrlText
  import opened UrlParse
  import opened UrlRoundTrip
  import opened UrlJoin

  // ----- section 5.2.4 -----

  /** The output buffer without its last segment and the slash before it, if any. */
  function DropSegment(output: string): string {
    if output == "" then ""
    else if output[|output| - 1] == '/' then output[..|output| - 1]
    else DropSegment(output[..|output| - 1])
  }

  /** The first segment of the input buffer with its slash, up to the next slash. */
  function SegmentEnd(input: string): (n: nat)
    requires input != ""
    ensures 1 <= n <= |input| && forall i :: 1 <= i < n ==> input[i] != '/'
    ensures n < |input| ==> input[n] == '/'
  {
    match Find(input[1..], '/')
    case None =>
      assert forall j :: 1 <= j < |input| ==> input[j] == input[1..][j - 1];
      |input|
    case Some(i) =>
      assert forall j :: 1 <= j < i + 1 ==> input[j] == input[1..][..i][j - 1];
      i + 1
  }

  /** One of the steps A to E on the input and output buffers. */
  function RfcStep(input: string, output: string): (r: (string, string))
    requires input != ""
    ensures |r.0| < |input|
  {
    if "../" <= input then (input[3..], output)
    else if "./" <= input then (input[2..], output)
    else if "/./" <= input then (input[2..], output)
    else if input == "/." then ("/", output)
    else if "/../" <= input then (input[3..], DropSegment(output))
    else if input == "/.." then ("/", DropSegment(output))
    else if input == "." || input == ".." then ("", output)
    else (input[SegmentEnd(input)..], output + input[..SegmentEnd(input)])
  }

  function RemoveDots(input: string, output: string): string
    decreases |input|
  {
    if input == "" then output else RemoveDots(RfcStep(input, output).0, RfcStep(input, output).1)
  }

  function RemoveDotSegments(path: string): string {
    RemoveDots(path, "")
  }

  // ----- the same on segments -----

  /** Segments as the output buffer holds them, a slash before each. */
  function Slashed(segments: seq<string>): string {
    if segments == [] then ""
    else Slashed(segments[..|segments| - 1]) + "/" + segments[|segments| - 1]
  }

  lemma SlashedPush(segments: seq<string>, last: string)
    ensures Slashed(segments + [last]) == Slashed(segments) + "/" + last
  {
    assert (segments + [last])[..|segments|] == segments;
  }

  lemma {:induction false} DropSegmentIs(before: string, last: string)
    requires '/' !in last
    ensures DropSegment(before + "/" + last) == before
    decreases |last|
  {
    var output := before + "/" + last;
    if last == "" {
      assert output[..|output| - 1] == before;
    } else {
      assert output[..|output| - 1] == before + "/" + last[..|last| - 1];
      DropSegmentIs(before, last[..|last| - 1]);
    }
  }

  ghost predicate NoSlashes(segments: seq<string>) {
    forall i :: 0 <= i < |segments| ==> '/' !in segments[i]
  }

  lemma DropSlashed(kept: seq<string>)
    requires NoSlashes(kept)
    ensures DropSegment(Slashed(kept)) == Slashed(DotStep(kept, ".."))
  {
    if kept != [] {
      DropSegmentIs(Slashed(kept[..|kept| - 1]), kept[|kept| - 1]);
    }
  }

  /** What the RFC keeps: a dot segment at the end leaves an empty segment, and so a slash. */
  function RfcStack(kept: seq<string>, parts: seq<string>): seq<string>
    requires parts != []
  {
    DotStack(kept, parts) + if IsDots(parts[|parts| - 1]) then [""] else []
  }

  lemma PrefixThree(part: string, tail: string)
    requires '/' !in part && tail != "" && tail[0] == '/'
    ensures "/./" <= "/" + part + tail <==> part == "."
  {
    var input := "/" + part + tail;
    assert input[1 + |part|] == '/';
    assert forall i :: 0 <= i < |part| ==> input[1 + i] == part[i];
    if "/./" <= input { assert input[1] == '.' && input[2] == '/'; }
  }

  lemma PrefixFour(part: string, tail: string)
    requires '/' !in part && tail != "" && tail[0] == '/'
    ensures "/../" <= "/" + part + tail <==> part == ".."
  {
    var input := "/" + part + tail;
    assert input[1 + |part|] == '/';
    assert forall i :: 0 <= i < |part| ==> input[1 + i] == part[i];
    if "/../" <= input { assert input[1] == '.' && input[2] == '.' && input[3] == '/'; }
  }

  lemma FirstSegment(part: string, tail: string)
    requires '/' !in part && (tail == "" || tail[0] == '/')
    ensures SegmentEnd("/" + part + tail) == 1 + |part|
  {
    var input := "/" + part + tail;
    var n := SegmentEnd(input);
    assert forall i :: 0 <= i < |part| ==> input[1 + i] == part[i];
    assert tail != "" ==> input[1 + |part|] == '/';
  }

  /** One step on the buffers is one step on the segments. */
  lemma StepOnSegments(kept: seq<string>, part: string, tail: string)
    requires NoSlashes(kept) && '/' !in part && tail != "" && tail[0] == '/'
    ensures RfcStep("/" + part + tail, Slashed(kept)) == (tail, Slashed(DotStep(kept, part)))
  {
    var input := "/" + part + tail;
    assert input[0] == '/' && input[1 + |part|] == '/';
    PrefixThree(part, tail);
    PrefixFour(part, tail);
    if part == "." {
      assert input[2..] == tail;
    } else if part == ".." {
      assert input[3..] == tail;
      DropSlashed(kept);
    } else {
      FirstSegment(part, tail);
      SlashedPush(kept, part);
      assert input[1 + |part|..] == tail && input[..1 + |part|] == "/" + part;
      assert Slashed(kept) + ("/" + part) == Slashed(kept) + "/" + part;
      assert input != "/." && input != "/..";
    }
  }

  lemma StepOnPlainLast(output: string, part: string)
    requires '/' !in part && !IsDots(part)
    ensures RfcStep("/" + part, output) == ("", output + "/" + part)
  {
    var input := "/" + part;
    assert input[0] == '/' && input[1..] == part;
    NoSecondSlash(part);
    FirstSegment(part, "");
    assert input + "" == input;
    assert SegmentEnd(input) == |input| && input[|input|..] == "" && input[..|input|] == input;
    assert output + input == output + "/" + part;
  }

  lemma NoPrefix(prefix: string, s: string, i: nat)
    requires i < |prefix| && (i < |s| ==> s[i] != prefix[i])
    ensures !(prefix <= s)
  {}

  lemma NoSecondSlash(part: string)
    requires '/' !in part
    ensures !("/./" <= "/" + part) && !("/../" <= "/" + part)
  {
    var input := "/" + part;
    assert forall i :: 0 <= i < |part| ==> input[1 + i] == part[i];
    NoPrefix("/./", input, 2);
    NoPrefix("/../", input, 3);
  }

  lemma SlashLast(output: string)
    ensures RemoveDots("/", output) == output + "/"
  {
    assert SegmentEnd("/") == 1;
    assert "/"[1..] == "" && "/"[..1] == "/";
    assert RfcStep("/", output) == ("", output + "/");
  }

  lemma DotStackOne(kept: seq<string>, part: string)
    ensures DotStack(kept, [part]) == DotStep(kept, part)
  {
    assert [part][1..] == [];
  }

  lemma StepOnDots(output: string)
    ensures RfcStep("/.", output) == ("/", output)
    ensures RfcStep("/..", output) == ("/", DropSegment(output))
  {
    NoSecondSlash(".");
    NoSecondSlash("..");
    assert "/" + "." == "/." && "/" + ".." == "/..";
    assert "/."[0] == '/' && "/.."[0] == '/';
  }

  /** At the end a dot segment leaves a slash. */
  lemma LastSegment(kept: seq<string>, part: string)
    requires NoSlashes(kept) && '/' !in part
    ensures RemoveDots("/" + part, Slashed(kept)) == Slashed(RfcStack(kept, [part]))
  {
    var next := DotStep(kept, part);
    DotStackOne(kept, part);
    if IsDots(part) {
      if part == ".." { DropSlashed(kept); }
      StepOnDots(Slashed(kept));
      assert "/" + part == if part == "." then "/." else "/..";
      SlashLast(Slashed(next));
      SlashedPush(next, "");
    } else {
      StepOnPlainLast(Slashed(kept), part);
      SlashedPush(kept, part);
      assert next + [] == next;
    }
  }

  lemma JoinMore(parts: seq<string>)
    requires |parts| > 1
    ensures "/" + Join(parts, '/') == "/" + parts[0] + ("/" + Join(parts[1..], '/'))
  {}

  lemma RfcStackMore(kept: seq<string>, parts: seq<string>)
    requires |parts| > 1
    ensures RfcStack(kept, parts) == RfcStack(DotStep(kept, parts[0]), parts[1..])
  {}

  lemma {:induction false} RemoveDotsIs(kept: seq<string>, parts: seq<string>)
    requires NoSlashes(kept) && NoSlashes(parts) && parts != []
    ensures RemoveDots("/" + Join(parts, '/'), Slashed(kept)) == Slashed(RfcStack(kept, parts))
    decreases |parts|
  {
    if |parts| == 1 {
      assert parts == [parts[0]];
      LastSegment(kept, parts[0]);
    } else {
      var tail := "/" + Join(parts[1..], '/');
      JoinMore(parts);
      RfcStackMore(kept, parts);
      StepOnSegments(kept, parts[0], tail);
      RemoveDotsIs(DotStep(kept, parts[0]), parts[1..]);
    }
  }

  lemma {:induction false} SlashedJoin(segments: seq<string>)
    requires segments != []
    ensures Slashed(segments) == "/" + Join(segments, '/')
    decreases |segments|
  {
    var n := |segments| - 1;
    assert segments == segments[..n] + [segments[n]];
    if n == 0 {
      assert Slashed(segments) == Slashed([]) + "/" + segments[0];
    } else {
      SlashedJoin(segments[..n]);
      JoinAppend(segments[..n], segments[n], '/');
      assert "/" + (Join(segments[..n], '/') + ['/'] + segments[n]) == "/" + Join(segments[..n], '/') + "/" + segments[n];
    }
  }

  /** For a rooted path the buffers come to a stack of segments. */
  lemma RemoveDotSegmentsIs(path: string)
    requires path != "" && path[0] == '/'
    ensures RfcStack([], Split(path[1..], '/')) != []
    ensures RemoveDotSegments(path) == "/" + Join(RfcStack([], Split(path[1..], '/')), '/')
  {
    var parts := Split(path[1..], '/');
    JoinSplit(path[1..], '/');
    assert path == "/" + path[1..];
    RemoveDotsIs([], parts);
    assert Slashed([]) == "";
    LastKept([], parts);
    SlashedJoin(RfcStack([], parts));
  }

  lemma {:induction false} LastKept(kept: seq<string>, parts: seq<string>)
    requires parts != []
    ensures RfcStack(kept, parts) != []
    decreases |parts|
  {
    if |parts| == 1 {
      assert DotStack(DotStep(kept, parts[0]), parts[1..]) == DotStep(kept, parts[0]);
    } else {
      LastKept(DotStep(kept, parts[0]), parts[1..]);
    }
  }

  // ----- where the code's stack rule agrees -----

  /** Some double dot finds nothing left to remove. */
  predicate Climbs(kept: seq<string>, parts: seq<string>)
    decreases |parts|
  {
    parts != [] && ((parts[0] == ".." && kept == []) || Climbs(DotStep(kept, parts[0]), parts[1..]))
  }

  /** The code keeps the empty part before the first slash as a segment, and may pop it. */
  lemma {:induction false} RootPart(kept: seq<string>, parts: seq<string>)
    ensures DotStack([""] + kept, parts) ==
            if Climbs(kept, parts) then DotStack(kept, parts) else [""] + DotStack(kept, parts)
    decreases |parts|
  {
    if parts != [] {
      var next := DotStep(kept, parts[0]);
      if parts[0] == ".." && kept == [] {
        assert DotStep([""] + kept, parts[0]) == next;
      } else {
        assert DotStep([""] + kept, parts[0]) == [""] + next by {
          if parts[0] == ".." { assert ([""] + kept)[..|kept|] == [""] + kept[..|kept| - 1]; }
        }
        RootPart(next, parts[1..]);
      }
    }
  }

  /** No second slash would have to be kept at the front. */
  predicate StartsPlain(left: seq<string>) {
    left == [] || left == [""] || left[0] != ""
  }

  lemma RootedLeft(left: seq<string>)
    requires NoSlashes(left)
    ensures Rooted(Join([""] + left, '/')) == "/" + Join(left, '/')
    ensures StartsPlain(left) ==> Rooted(Join(left, '/')) == "/" + Join(left, '/')
    ensures !StartsPlain(left) ==> Rooted(Join(left, '/')) == Join(left, '/')
  {
    if left != [] {
      JoinCons("", left, '/');
      assert "" + ['/'] + Join(left, '/') == "/" + Join(left, '/');
      if |left| > 1 {
        assert Join(left, '/') == left[0] + ['/'] + Join(left[1..], '/');
      }
    }
  }

  lemma {:induction false} StackNoSlashes(kept: seq<string>, parts: seq<string>)
    requires NoSlashes(kept) && NoSlashes(parts)
    ensures NoSlashes(DotStack(kept, parts))
    decreases |parts|
  {
    if parts != [] {
      StackNoSlashes(DotStep(kept, parts[0]), parts[1..]);
    }
  }

  /**
   The last segment is no dot segment, or nothing is left; and no double dot climbs above the
   root, or what is left starts with a single slash all the same.
   */
  predicate WithinDotRule(path: string)
    requires path != "" && path[0] == '/'
  {
    var parts := Split(path[1..], '/');
    var left := DotStack([], parts);
    (IsDots(parts[|parts| - 1]) ==> left == []) && (Climbs([], parts) ==> StartsPlain(left))
  }

  /** The code resolves dot segments as section 5.2.4 does for exactly those paths. */
  lemma ResolveIsRfcIff(path: string)
    requires path != "" && path[0] == '/'
    ensures Resolve(path) == RemoveDotSegments(path) <==> WithinDotRule(path)
  {
    var parts := Split(path[1..], '/');
    var left := DotStack([], parts);
    RemoveDotSegmentsIs(path);
    StackNoSlashes([], parts);
    ResolveLeft(path);
    RootedLeft(left);
    if IsDots(parts[|parts| - 1]) && left != [] {
      JoinAppend(left, "", '/');
    } else {
      assert left + [] == left;
    }
  }

  lemma ResolveLeft(path: string)
    requires path != "" && path[0] == '/'
    ensures var parts := Split(path[1..], '/');
            var left := DotStack([], parts);
            Resolve(path) == Rooted(Join(if Climbs([], parts) then left else [""] + left, '/'))
  {
    var parts := Split(path[1..], '/');
    assert path == "/" + path[1..];
    SplitSlash(path[1..]);
    assert ([""] + parts)[1..] == parts && DotStep([], "") == [""] && [""] + [] == [""];
    assert DotStack([], [""] + parts) == DotStack([""], parts);
    RootPart([], parts);
  }

  lemma RemoveNothing(path: string)
    requires path != "" && path[0] == '/' && DotFree(path)
    ensures RemoveDotSegments(path) == path
  {
    var parts := Split(path[1..], '/');
    RemoveDotSegmentsIs(path);
    assert path == "/" + path[1..];
    SplitSlash(path[1..]);
    JoinSplit(path[1..], '/');
    PlainStack(parts);
  }

  lemma PlainStack(parts: seq<string>)
    requires parts != [] && forall i :: 0 <= i < |[""] + parts| ==> !IsDots(([""] + parts)[i])
    ensures RfcStack([], parts) == parts
  {
    forall i | 0 <= i < |parts| ensures !IsDots(parts[i]) {
      assert parts[i] == ([""] + parts)[i + 1];
    }
    DotStackPlain([], parts);
    assert [] + parts + [] == parts;
  }

  lemma RemovedClean(path: string)
    requires path != "" && path[0] == '/'
    ensures DotFree(RemoveDotSegments(path))
  {
    var parts := Split(path[1..], '/');
    var kept := RfcStack([], parts);
    RemoveDotSegmentsIs(path);
    DotStackClean([], parts);
    assert Clean(kept);
    SplitJoin(kept, '/');
    SplitSlash(Join(kept, '/'));
  }

  /** Removing dot segments changes exactly the paths that have some. */
  lemma RemoveChangesIff(path: string)
    requires path != "" && path[0] == '/'
    ensures RemoveDotSegments(path) == path <==> DotFree(path)
  {
    RemovedClean(path);
    if DotFree(path) {
      RemoveNothing(path);
    }
  }

  // ----- section 5.2.2 for references that are only a path -----

  /** No query, no fragment, no scheme and no authority. */
  predicate PathReference(reference: string) {
    && NoMarks(reference) && !("//" <= reference)
    && (forall i :: 0 <= i < |reference| && reference[i] == ':' ==> '/' in reference[..i])
  }

  /** Resolving such a reference against a base with an authority and a rooted path. */
  function RfcJoined(u: Url, reference: string): Url {
    var (path, query) :=
      if reference == "" then (u.path, u.query)
      else if reference[0] == '/' then (RemoveDotSegments(reference), None)
      else (RemoveDotSegments(BasePath(u.path) + reference), None);
    Rebuilt(u.(path := path, query := query, fragment := None))
  }

  lemma PathReferenceRelative(reference: string)
    requires PathReference(reference)
    ensures !IsAbsolute(reference)
  {
    assert FindAuthority(reference).Some? ==> reference[FindAuthority(reference).value] == ':';
  }

  lemma {:induction false} BasePathRooted(path: string)
    requires path != "" && path[0] == '/'
    ensures BasePath(path) != "" && BasePath(path)[0] == '/'
    ensures path[|path| - 1] == '/' <==> BasePath(path) == path
    decreases |path|
  {
    if path[|path| - 1] != '/' {
      BasePathRooted(path[..|path| - 1]);
      BasePathShorter(path[..|path| - 1]);
    }
  }

  lemma {:induction false} BasePathShorter(path: string)
    requires path != "" && path[0] == '/'
    ensures |BasePath(path)| <= |path|
    decreases |path|
  {
    if path[|path| - 1] != '/' {
      BasePathShorter(path[..|path| - 1]);
    }
  }

  /** The code resolves a directory to something that ends in a slash. */
  lemma ResolveKeepsSlash(path: string)
    requires path != "" && path[0] == '/' && path[|path| - 1] == '/'
    ensures Resolve(path)[|Resolve(path)| - 1] == '/'
  {
    var stem := path[..|path| - 1];
    assert path == stem + ['/'] + "";
    SplitAppend(stem, '/', "");
    SplitEmpty();
    DotStackLast(Split(stem, '/'), "");
    var kept := DotStack([], Split(stem, '/'));
    if kept != [] {
      JoinAppend(kept, "", '/');
    } else {
      assert [] + [""] == [""];
    }
  }

  lemma EmptyReferenceIff(path: string)
    requires path != "" && path[0] == '/'
    ensures JoinedPath(path, "") == path <==> DotFree(path) && path[|path| - 1] == '/'
  {
    var b := BasePath(path);
    BasePathRooted(path);
    BasePathEnds(path);
    assert b + "" == b;
    ResolveClean(b);
    ResolveKeepsSlash(b);
    if DotFree(path) && path[|path| - 1] == '/' {
      ResolveDotFree(path);
    }
  }

  /**
   For a rooted base path and any reference that is only a path, `join` gives the target of
   section 5.2.2 exactly when: an empty reference meets a clean directory without a query, a
   rooted one has no dot segment, and a relative one stays within the dot rule once merged.
   */
  lemma JoinIsRfcIff(u: Url, reference: string)
    requires u.path != "" && u.path[0] == '/' && PathReference(reference)
    ensures BasePath(u.path) != "" && (BasePath(u.path) + reference)[0] == '/'
    ensures Joined(u, reference) == Ok(RfcJoined(u, reference)) <==>
            if reference == "" then u.query.None? && DotFree(u.path) && u.path[|u.path| - 1] == '/'
            else if reference[0] == '/' then DotFree(reference)
            else WithinDotRule(BasePath(u.path) + reference)
  {
    PathReferenceRelative(reference);
    BasePathRooted(u.path);
    if reference == "" {
      EmptyReferenceIff(u.path);
    } else if reference[0] == '/' {
      RemoveChangesIff(reference);
    } else {
      ResolveIsRfcIff(BasePath(u.path) + reference);
    }
    assert Joined(u, reference).value == RfcJoined(u, reference) <==>
      Joined(u, reference).value.path == RfcJoined(u, reference).path
      && Joined(u, reference).value.query == RfcJoined(u, reference).query;
  }

  // ----- where they differ -----

  /** The segments in front of the last slash of a rooted path. */
  function Before(b: string): (q: seq<string>)
    requires b != ""
  {
    Split(b[..|b| - 1], '/')[1..]
  }

  lemma SameRest(a: seq<string>, rest: seq<string>, whole: seq<string>)
    requires [""] + a == whole && |whole| > 0 && rest == whole[1..]
    ensures a == rest
  {}

  lemma SplitRest(path: string)
    requires path != "" && path[0] == '/'
    ensures Split(path[1..], '/') == Split(path, '/')[1..]
  {
    assert path == "/" + path[1..];
    SplitSlash(path[1..]);
    SameRest(Split(path[1..], '/'), Split(path, '/')[1..], Split(path, '/'));
  }

  lemma DirectoryBefore(b: string)
    requires Directory(b)
    ensures Split(b[1..], '/') == Before(b) + [""] && Split(b, '/') == Split(b[..|b| - 1], '/') + [""]
    ensures forall i :: 0 <= i < |Before(b)| ==> !IsDots(Before(b)[i])
  {
    var stem := b[..|b| - 1];
    assert b == stem + ['/'] + "";
    SplitAppend(stem, '/', "");
    SplitEmpty();
    SplitRest(b);
    forall i | 0 <= i < |Before(b)| ensures !IsDots(Before(b)[i]) {
      assert Before(b)[i] == Split(b, '/')[i + 1];
    }
  }

  lemma UpParts(b: string, dir: string, merged: string)
    requires Directory(b) && PlainName(dir) && merged == b[..|b| - 1] + ['/'] + (dir + ['/'] + "..")
    ensures merged[0] == '/' && Split(merged[1..], '/') == Before(b) + [dir, ".."]
  {
    if |b| > 1 { assert b[..|b| - 1][0] == '/'; }
    UpSplit(b[..|b| - 1], dir, "..");
    SplitRest(merged);
  }

  lemma UpInRfc(q: seq<string>, dir: string)
    requires PlainName(dir) && forall i :: 0 <= i < |q| ==> !IsDots(q[i])
    ensures RfcStack([], q + [dir, ".."]) == q + [""]
  {
    UpUndoesDown([], q, dir);
    DotStackPlain([], q);
    assert [] + q == q;
  }

  lemma RfcUp(b: string, dir: string, merged: string)
    requires Directory(b) && PlainName(dir) && merged == b[..|b| - 1] + ['/'] + (dir + ['/'] + "..")
    ensures RemoveDotSegments(merged) == b
  {
    UpParts(b, dir, merged);
    DirectoryBefore(b);
    UpInRfc(Before(b), dir);
    RemoveDotSegmentsIs(merged);
    JoinSplit(b[1..], '/');
    assert b == "/" + b[1..];
  }

  lemma CodeUp(b: string, dir: string, merged: string)
    requires Directory(b) && PlainName(dir) && merged == b[..|b| - 1] + ['/'] + (dir + ['/'] + "..")
    ensures Resolve(merged) == if b == "/" then "/" else b[..|b| - 1]
  {
    ResolveUp(b, dir);
    if |b| > 1 { assert b[..|b| - 1][0] == '/'; }
  }

  /**
   Going up ends on the parent, but without the closing slash that the RFC keeps: the two differ
   whenever the parent is not the root.
   */
  lemma JoinParent(b: string, dir: string, last: string)
    requires Directory(b) && PlainName(dir) && '/' !in last
    ensures JoinedPath(b + dir + "/" + last, "..") == if b == "/" then "/" else b[..|b| - 1]
    ensures RemoveDotSegments(BasePath(b + dir + "/" + last) + "..") == b
  {
    var base := b + dir + "/";
    BasePathOf(base, last);
    MergedUp(b, dir);
    RfcUp(b, dir, base + "..");
    CodeUp(b, dir, base + "..");
    JoinRelative(base + last, "..");
  }

  lemma MergedUp(b: string, dir: string)
    requires b != "" && b[|b| - 1] == '/'
    ensures b + dir + "/" + ".." == b[..|b| - 1] + ['/'] + (dir + ['/'] + "..")
  {
    assert b == b[..|b| - 1] + ['/'];
  }

  lemma JoinRelative(path: string, reference: string)
    requires reference == "" || reference[0] != '/'
    ensures JoinedPath(path, reference) == Resolve(BasePath(path) + reference)
  {}

  lemma OnSegments(parts: seq<string>)
    requires parts != [] && NoSlashes(parts)
    ensures var path, left := "/" + Join(parts, '/'), DotStack([], parts);
            && RemoveDotSegments(path) == "/" + Join(RfcStack([], parts), '/')
            && Resolve(path) == Rooted(Join(if Climbs([], parts) then left else [""] + left, '/'))
  {
    var path := "/" + Join(parts, '/');
    SplitJoin(parts, '/');
    assert path[1..] == Join(parts, '/');
    RemoveDotSegmentsIs(path);
    ResolveLeft(path);
  }

  lemma JoinTwo(a: string, b: string)
    ensures Join([a, b], '/') == a + "/" + b
  {
    assert [a, b][1..] == [b];
  }

  lemma JoinThree(a: string, b: string, c: string)
    ensures Join([a, b, c], '/') == a + "/" + (b + "/" + c)
  {
    assert [a, b, c][1..] == [b, c];
    JoinTwo(b, c);
  }

  lemma DotStackThree(a: string, b: string, c: string)
    ensures DotStack([], [a, b, c]) == DotStep(DotStep(DotStep([], a), b), c)
    ensures Climbs([], [a, b, c]) <==>
            a == ".." || (b == ".." && DotStep([], a) == []) || (c == ".." && DotStep(DotStep([], a), b) == [])
  {
    var s1 := DotStep([], a);
    assert [a, b, c][1..] == [b, c] && [b, c][1..] == [c] && [c][1..] == [];
    assert DotStack([], [a, b, c]) == DotStack(s1, [b, c]) == DotStack(DotStep(s1, b), [c]);
    DotStackOne(DotStep(s1, b), c);
    assert Climbs(DotStep(s1, b), [c]) <==> c == ".." && DotStep(s1, b) == [] by { assert [c][1..] == []; }
    assert Climbs([], [a, b, c]) <==> a == ".." || Climbs(s1, [b, c]);
    assert Climbs(s1, [b, c]) <==> (b == ".." && s1 == []) || Climbs(DotStep(s1, b), [c]);
  }

  lemma ClimbingParts(name: string, path: string)
    requires PlainName(name) && path == "/" + (".." + "/" + ("" + "/" + name))
    ensures Resolve(path) == Rooted("/" + name) && RemoveDotSegments(path) == "/" + ("/" + name)
  {
    OnSegments(["..", "", name]);
    JoinThree("..", "", name);
    JoinTwo("", name);
    DotStackThree("..", "", name);
    assert ["", name] + [] == ["", name] && "" + "/" + name == "/" + name;
  }

  /** A double dot above the root costs the empty segment in front, and a slash with it. */
  lemma ClimbingDiffers(name: string)
    requires PlainName(name)
    ensures Resolve("/..//" + name) == "/" + name && RemoveDotSegments("/..//" + name) == "//" + name
  {
    assert "/..//" + name == "/" + (".." + "/" + ("" + "/" + name)) && "/" + ("/" + name) == "//" + name;
    ClimbingParts(name, "/..//" + name);
  }

  /** A final dot costs the closing slash. */
  lemma FinalDotDiffers(name: string)
    requires PlainName(name) && name != ""
    ensures Resolve("/" + name + "/.") == "/" + name && RemoveDotSegments("/" + name + "/.") == "/" + name + "/"
  {
    OnSegments([name, "."]);
    JoinTwo(name, ".");
    JoinTwo(name, "");
    JoinTwo("", name);
    assert [name, "."][1..] == ["."] && ["."][1..] == [];
    assert "/" + (name + "/" + ".") == "/" + name + "/." && "/" + (name + "/" + "") == "/" + name + "/";
    assert "" + "/" + name == "/" + name;
    assert [name] + [""] == [name, ""] && [""] + [name] == ["", name];
  }

  lemma JoinRooted(path: string, reference: string)
    requires reference != "" && reference[0] == '/'
    ensures JoinedPath(path, reference) == reference
  {}

  lemma RfcSibling(dir: string, name: string, path: string)
    requires PlainName(dir) && PlainName(name) && path == "/" + (dir + "/" + (".." + "/" + name))
    ensures RemoveDotSegments(path) == "/" + name
  {
    OnSegments([dir, "..", name]);
    JoinThree(dir, "..", name);
    DotStackThree(dir, "..", name);
    assert [name] + [] == [name];
  }

  /** A rooted reference keeps its dot segments. */
  lemma RootedReferenceDiffers(path: string, dir: string, name: string)
    requires PlainName(dir) && PlainName(name)
    ensures JoinedPath(path, "/" + dir + "/../" + name) == "/" + dir + "/../" + name
    ensures RemoveDotSegments("/" + dir + "/../" + name) == "/" + name
  {
    var reference := "/" + dir + "/../" + name;
    assert reference == "/" + (dir + "/" + (".." + "/" + name));
    RfcSibling(dir, name, reference);
    JoinRooted(path, reference);
  }

  /** An empty reference loses the last segment of the base, where the RFC keeps the whole path. */
  lemma EmptyReferenceDiffers(b: string, last: string)
    requires Directory(b) && '/' !in last
    ensures JoinedPath(b + last, "") == b
  {
    JoinSibling(b, last, "");
    assert b + "" == b;
  }
}
