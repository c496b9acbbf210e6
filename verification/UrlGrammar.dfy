/**
 Which strings are URLs, and which URL each of them is: a definition by the text of every
 component, independent of how payjoin/src/core/url.rs scans for their ends, and the proof that
 its parser accepts exactly those strings and reads each of them as that URL.
 */
module UrlGrammar {
  import opened Wrappers
  import opened UrlText
  import opened UrlNumbers
  import opened UrlParse
  import opened UrlRoundTrip

  // ----- characters -----

  /** Which characters may stand where. */
  lemma CharacterClasses(c: char)
    ensures IsDecimal(c) <==> '0' <= c <= '9'
    ensures IsSchemeChar(c) <==> 'a' <= c <= 'z' || 'A' <= c <= 'Z' || '0' <= c <= '9' || c in "+-."
    ensures IsDomainChar(c) <==> 'a' <= c <= 'z' || 'A' <= c <= 'Z' || '0' <= c <= '9' || c in "-."
    ensures EndsHost(c) <==> c in ":/?#"
    ensures EndsPort(c) <==> c in "/?#"
  {}

  // ----- scheme -----

  /** The small letter for a capital, 32 places on in the character set, and any other character for itself. */
  predicate LowerCase(c: char, l: char) {
    l as int == if 'A' <= c <= 'Z' then c as int + 32 else c as int
  }

  lemma LowerIff(c: char, l: char)
    ensures LowerChar(c) == l <==> LowerCase(c, l)
  {}

  /** One or more letters, digits, plus signs, hyphens and dots, in either case. */
  ghost predicate SchemeText(text: string, scheme: string) {
    && text != "" && All(text, IsSchemeChar)
    && |scheme| == |text| && forall i :: 0 <= i < |text| ==> LowerCase(text[i], scheme[i])
  }

  lemma SchemeTextReads(text: string, scheme: string, rest: string)
    requires SchemeText(text, scheme) && rest != "" && rest[0] == ':'
    ensures ParseScheme(text + rest) == Ok((rest, scheme))
  {
    SpanExact(text, rest, IsSchemeChar);
    assert (text + rest)[..|text|] == text && (text + rest)[|text|..] == rest;
    forall i | 0 <= i < |text| ensures Lower(text)[i] == scheme[i] {
      LowerIff(text[i], scheme[i]);
    }
    assert Lower(text) == scheme;
  }

  lemma SchemeReadIsText(input: string) returns (text: string)
    requires ParseScheme(input).Ok?
    ensures var (rest, scheme) := ParseScheme(input).value;
            input == text + rest && SchemeText(text, scheme)
  {
    text := input[..Span(input, IsSchemeChar)];
    forall i | 0 <= i < |text| ensures LowerCase(text[i], Lower(text)[i]) {
      LowerIff(text[i], LowerChar(text[i]));
    }
  }

  // ----- host -----

  ghost predicate SpellAll(parts: seq<string>, numbers: seq<nat>, radix: nat, max: nat)
    requires 2 <= radix <= 16
  {
    && |parts| == |numbers|
    && forall i :: 0 <= i < |parts| ==> numbers[i] <= max && Spells(parts[i], numbers[i], radix)
  }

  /** Four decimal numbers below 256 between dots. */
  ghost predicate Ipv4Text(text: string, octets: seq<nat>) {
    exists parts: seq<string> :: |parts| == 4 && text == Join(parts, '.') && SpellAll(parts, octets, 10, 0xff)
  }

  /** Eight hexadecimal groups between colons. */
  ghost predicate EightGroups(text: string, groups: seq<nat>, parts: seq<string>) {
    |parts| == 8 && text == Join(parts, ':') && SpellAll(parts, groups, 16, 0xffff)
  }

  /** Some groups `l`, two colons standing for at least one zero group, and some more groups `r`. */
  ghost predicate WithGap(
    text: string, groups: seq<nat>, left: seq<string>, right: seq<string>, l: seq<nat>, r: seq<nat>)
  {
    && SpellAll(left, l, 16, 0xffff) && SpellAll(right, r, 16, 0xffff) && |l| + |r| <= 7
    && text == Join(left, ':') + "::" + Join(right, ':') && groups == l + Zeros(8 - |l| - |r|) + r
  }

  ghost predicate Ipv6Text(text: string, groups: seq<nat>) {
    || (exists parts: seq<string> :: EightGroups(text, groups, parts))
    || (exists left: seq<string>, right: seq<string>, l: seq<nat>, r: seq<nat> :: WithGap(text, groups, left, right, l, r))
  }

  lemma ReadAllIff(parts: seq<string>, numbers: seq<nat>, radix: nat, max: nat)
    requires 2 <= radix <= 16
    ensures ParseAll(parts, radix, max) == Some(numbers) <==> SpellAll(parts, numbers, radix, max)
  {
    forall i | 0 <= i < |parts| && |parts| == |numbers|
      ensures ParseUint(parts[i], radix, max) == Some(numbers[i])
              <==> numbers[i] <= max && Spells(parts[i], numbers[i], radix)
    {
      NumberIff(parts[i], numbers[i], radix, max);
    }
    if SpellAll(parts, numbers, radix, max) {
      assert ParseAll(parts, radix, max).value == numbers;
    }
  }

  /** Numbers are not empty and contain neither separator. */
  lemma SpelledParts(parts: seq<string>, numbers: seq<nat>, radix: nat, max: nat)
    requires 2 <= radix <= 16 && SpellAll(parts, numbers, radix, max)
    ensures forall i :: 0 <= i < |parts| ==>
      parts[i] != "" && '.' !in parts[i] && ':' !in parts[i] && ']' !in parts[i] && All(parts[i], InHost)
      && parts[i][0] != '['
  {
    forall i | 0 <= i < |parts|
      ensures parts[i] != "" && All(parts[i], c => InHost(c) && c != '.' && c != ']' && c != '[')
    {
      SpelledChars(parts[i], numbers[i], radix);
    }
  }

  lemma Ipv4Iff(text: string, octets: seq<nat>)
    ensures TryParseIpv4(text) == Some(Ipv4(octets)) <==> Ipv4Text(text, octets)
  {
    if TryParseIpv4(text) == Some(Ipv4(octets)) {
      ReadAllIff(Split(text, '.'), octets, 10, 0xff);
      JoinSplit(text, '.');
    }
    if Ipv4Text(text, octets) {
      var parts: seq<string> :|
        |parts| == 4 && text == Join(parts, '.') && SpellAll(parts, octets, 10, 0xff);
      SpelledParts(parts, octets, 10, 0xff);
      SplitJoin(parts, '.');
      ReadAllIff(parts, octets, 10, 0xff);
    }
  }

  /** Groups between colons, and nothing for none. */
  lemma GroupsRead(parts: seq<string>, groups: seq<nat>)
    requires SpellAll(parts, groups, 16, 0xffff)
    ensures ParseIpv6Groups(Join(parts, ':')) == Some(groups)
    ensures FindGap(Join(parts, ':')).None? && ']' !in Join(parts, ':')
    ensures Join(parts, ':') != "" ==> Join(parts, ':')[|Join(parts, ':')| - 1] != ':'
  {
    SpelledParts(parts, groups, 16, 0xffff);
    NoGap(parts);
    JoinChars(parts, ':', ']');
    if parts != [] {
      SplitJoin(parts, ':');
      ReadAllIff(parts, groups, 16, 0xffff);
      StartsWithPart(parts);
      EndsWithPart(parts);
    }
  }

  lemma {:induction false} EndsWithPart(parts: seq<string>)
    requires parts != [] && forall i :: 0 <= i < |parts| ==> parts[i] != "" && ':' !in parts[i]
    ensures Join(parts, ':') != "" && Join(parts, ':')[|Join(parts, ':')| - 1] != ':'
    decreases |parts|
  {
    if |parts| > 1 {
      EndsWithPart(parts[1..]);
    }
  }

  lemma GroupsAreText(text: string) returns (parts: seq<string>)
    requires ParseIpv6Groups(text).Some?
    ensures text == Join(parts, ':') && SpellAll(parts, ParseIpv6Groups(text).value, 16, 0xffff)
  {
    if text == "" {
      parts := [];
    } else {
      parts := Split(text, ':');
      JoinSplit(text, ':');
      ReadAllIff(parts, ParseIpv6Groups(text).value, 16, 0xffff);
    }
  }

  /** The first gap is where one is written. */
  lemma {:induction false} GapAt(a: string, b: string)
    requires FindGap(a).None? && (a != "" ==> a[|a| - 1] != ':')
    ensures FindGap(a + "::" + b) == Some(|a|)
    decreases |a|
  {
    var s := a + "::" + b;
    if a == "" {
      assert s == "::" + b;
    } else {
      assert s[1..] == a[1..] + "::" + b;
      if |a| > 1 { assert s[0] == a[0] && s[1] == a[1]; }
      GapAt(a[1..], b);
    }
  }

  lemma {:induction false} GapIs(s: string)
    requires FindGap(s).Some?
    ensures var i := FindGap(s).value; s == s[..i] + "::" + s[i + 2..]
    decreases |s|
  {
    if !(s[0] == ':' && s[1] == ':') {
      GapIs(s[1..]);
      var i := FindGap(s[1..]).value;
      assert s == [s[0]] + s[1..] && s[..i + 1] == [s[0]] + s[1..][..i] && s[i + 3..] == s[1..][i + 2..];
    }
  }

  lemma GapCuts(a: string, b: string)
    ensures var s := a + "::" + b; s[..|a|] == a && s[|a| + 2..] == b
  {}

  lemma GapParses(s: string, i: nat, l: seq<nat>, r: seq<nat>)
    requires FindGap(s) == Some(i) && |l| + |r| <= 7
    requires ParseIpv6Groups(s[..i]) == Some(l) && ParseIpv6Groups(s[i + 2..]) == Some(r)
    ensures ParseIpv6(s) == Ok(Ipv6(l + Zeros(8 - |l| - |r|) + r))
  {
    GappedIs(l, r);
  }

  lemma GappedIs(l: seq<nat>, r: seq<nat>)
    requires |l| + |r| <= 7
    ensures Gapped(Some(l), Some(r)) == Ok(Ipv6(l + Zeros(8 - |l| - |r|) + r))
  {}

  /** Groups before a gap come first and groups behind it last, with zeros in between. */
  lemma GapReads(left: seq<string>, right: seq<string>, l: seq<nat>, r: seq<nat>)
    requires SpellAll(left, l, 16, 0xffff) && SpellAll(right, r, 16, 0xffff) && |l| + |r| <= 7
    ensures ParseIpv6(Join(left, ':') + "::" + Join(right, ':')) == Ok(Ipv6(l + Zeros(8 - |l| - |r|) + r))
  {
    var a, b := Join(left, ':'), Join(right, ':');
    GroupsRead(left, l);
    GroupsRead(right, r);
    GapAt(a, b);
    GapCuts(a, b);
    GapParses(a + "::" + b, |a|, l, r);
  }

  lemma WrittenSpell(numbers: seq<nat>, radix: nat, max: nat)
    requires 2 <= radix <= 16 && forall i :: 0 <= i < |numbers| ==> numbers[i] <= max
    ensures SpellAll(Written(numbers, radix), numbers, radix, max)
  {
    WrittenReads(numbers, radix, max);
    ReadAllIff(Written(numbers, radix), numbers, radix, max);
  }

  /** Any compressed form of an address is the same host as its eight groups written out. */
  lemma CompressedIsExpanded(l: seq<nat>, r: seq<nat>)
    requires |l| + |r| <= 7
    requires (forall i :: 0 <= i < |l| ==> l[i] <= 0xffff) && (forall i :: 0 <= i < |r| ==> r[i] <= 0xffff)
    ensures var groups := l + Zeros(8 - |l| - |r|) + r;
            && ParseIpv6(Join(Written(l, 16), ':') + "::" + Join(Written(r, 16), ':')) == Ok(Ipv6(groups))
            && ParseIpv6(Join(Written(groups, 16), ':')) == Ok(Ipv6(groups))
  {
    WrittenSpell(l, 16, 0xffff);
    WrittenSpell(r, 16, 0xffff);
    GapReads(Written(l, 16), Written(r, 16), l, r);
    Ipv6Reads(l + Zeros(8 - |l| - |r|) + r);
  }

  lemma EightGroupsRead(text: string, groups: seq<nat>, parts: seq<string>)
    requires EightGroups(text, groups, parts)
    ensures ParseIpv6(text) == Ok(Ipv6(groups)) && ']' !in text
  {
    GroupsRead(parts, groups);
  }

  lemma WithGapReads(
    text: string, groups: seq<nat>, left: seq<string>, right: seq<string>, l: seq<nat>, r: seq<nat>)
    requires WithGap(text, groups, left, right, l, r)
    ensures ParseIpv6(text) == Ok(Ipv6(groups)) && ']' !in text
  {
    GapReads(left, right, l, r);
    GroupsRead(left, l);
    GroupsRead(right, r);
  }

  lemma GapParsed(s: string, i: nat)
    requires FindGap(s) == Some(i) && ParseIpv6(s).Ok?
    ensures i + 2 <= |s| && ParseIpv6Groups(s[..i]).Some? && ParseIpv6Groups(s[i + 2..]).Some?
    ensures var l, r := ParseIpv6Groups(s[..i]).value, ParseIpv6Groups(s[i + 2..]).value;
            |l| + |r| <= 7 && ParseIpv6(s) == Ok(Ipv6(l + Zeros(8 - |l| - |r|) + r))
  {}

  lemma GapReadIsText(text: string, i: nat, groups: seq<nat>)
    requires FindGap(text) == Some(i) && ParseIpv6(text) == Ok(Ipv6(groups))
    ensures Ipv6Text(text, groups)
  {
    GapIs(text);
    GapParsed(text, i);
    var left := GroupsAreText(text[..i]);
    var right := GroupsAreText(text[i + 2..]);
    assert WithGap(text, groups, left, right, ParseIpv6Groups(text[..i]).value, ParseIpv6Groups(text[i + 2..]).value);
  }

  lemma EightReadIsText(text: string, groups: seq<nat>)
    requires FindGap(text).None? && ParseIpv6(text) == Ok(Ipv6(groups))
    ensures Ipv6Text(text, groups)
  {
    var parts := GroupsAreText(text);
    assert EightGroups(text, groups, parts);
  }

  lemma Ipv6Iff(text: string, groups: seq<nat>)
    ensures ParseIpv6(text) == Ok(Ipv6(groups)) <==> Ipv6Text(text, groups)
    ensures Ipv6Text(text, groups) ==> ']' !in text
  {
    if ParseIpv6(text) == Ok(Ipv6(groups)) {
      match FindGap(text)
      case Some(i) => GapReadIsText(text, i, groups);
      case None => EightReadIsText(text, groups);
    }
    if parts: seq<string> :| EightGroups(text, groups, parts) {
      EightGroupsRead(text, groups, parts);
    }
    if left: seq<string>, right: seq<string>, l: seq<nat>, r: seq<nat> :| WithGap(text, groups, left, right, l, r) {
      WithGapReads(text, groups, left, right, l, r);
    }
  }

  ghost predicate HostText(text: string, h: Host) {
    match h
    case Ipv4(octets) => Ipv4Text(text, octets)
    case Domain(name) => text == name && name != "" && All(name, IsDomainChar) && forall o :: !Ipv4Text(name, o)
    case Ipv6(groups) => |text| >= 2 && text == "[" + text[1..|text| - 1] + "]" && Ipv6Text(text[1..|text| - 1], groups)
  }

  lemma Ipv4TextReads(text: string, octets: seq<nat>, rest: string)
    requires Ipv4Text(text, octets) && (rest == "" || EndsHost(rest[0]))
    ensures ParseHost(text + rest) == Ok((rest, Ipv4(octets)))
  {
    Ipv4Iff(text, octets);
    var parts: seq<string> :| |parts| == 4 && text == Join(parts, '.') && SpellAll(parts, octets, 10, 0xff);
    SpelledParts(parts, octets, 10, 0xff);
    JoinAll(parts, '.', InHost);
    assert text == parts[0] + ['.'] + Join(parts[1..], '.');
    NameReads(text, rest);
  }

  lemma NotIpv4(name: string)
    ensures TryParseIpv4(name).None? <==> forall o :: !Ipv4Text(name, o)
  {
    forall o ensures TryParseIpv4(name) == Some(Ipv4(o)) <==> Ipv4Text(name, o) {
      Ipv4Iff(name, o);
    }
  }

  lemma HostTextReads(text: string, h: Host, rest: string)
    requires HostText(text, h) && (h.Ipv6? || rest == "" || EndsHost(rest[0]))
    ensures ParseHost(text + rest) == Ok((rest, h))
  {
    match h
    case Ipv4(octets) => Ipv4TextReads(text, octets, rest);
    case Domain(name) =>
      NotIpv4(name);
      DomainHostReads(name, rest);
    case Ipv6(groups) =>
      var inner := text[1..|text| - 1];
      Ipv6Iff(inner, groups);
      BracketReads(inner, rest);
  }

  lemma BracketParsed(input: string, end: nat)
    requires input != "" && input[0] == '[' && Find(input, ']') == Some(end) && ParseHost(input).Ok?
    ensures end >= 1 && ParseHost(input).value.0 == input[end + 1..]
    ensures ParseIpv6(input[1..end]) == Ok(ParseHost(input).value.1)
  {}

  lemma BracketIsText(input: string, end: nat)
    requires input != "" && input[0] == '[' && Find(input, ']') == Some(end) && ParseHost(input).Ok?
    ensures ParseHost(input).value.0 == input[end + 1..] && HostText(input[..end + 1], ParseHost(input).value.1)
  {
    var text := input[..end + 1];
    BracketParsed(input, end);
    assert text[1..|text| - 1] == input[1..end] && text == "[" + input[1..end] + "]";
    Ipv6Iff(input[1..end], ParseHost(input).value.1.groups);
  }

  lemma NameIsText(input: string)
    requires (input == "" || input[0] != '[') && ParseHost(input).Ok?
    ensures var end := Span(input, InHost);
            ParseHost(input).value.0 == input[end..] && HostText(input[..end], ParseHost(input).value.1)
  {
    var text := input[..Span(input, InHost)];
    NotIpv4(text);
    if TryParseIpv4(text).Some? {
      Ipv4Iff(text, ParseHost(input).value.1.octets);
    }
  }

  lemma HostReadIsText(input: string) returns (text: string)
    requires ParseHost(input).Ok?
    ensures var (rest, h) := ParseHost(input).value;
            input == text + rest && HostText(text, h)
  {
    if input != "" && input[0] == '[' {
      var end := Find(input, ']').value;
      BracketIsText(input, end);
      text := input[..end + 1];
    } else {
      NameIsText(input);
      text := input[..Span(input, InHost)];
    }
  }

  // ----- port and path -----

  /** Nothing, a colon alone, or a colon and a decimal number that fits. */
  ghost predicate PortText(text: string, port: Option<nat>) {
    match port
    case None => text == "" || text == ":"
    case Some(p) =>
      && p <= 0xffff && text != "" && text[0] == ':'
      && All(text[1..], IsDecimal) && Spells(text[1..], p, 10)
  }

  /** A colon and digits that run into something else or are no number that fits. */
  ghost predicate BadPort(text: string) {
    exists digits: string, more: string :: text == ":" + digits + more && NoPort(digits, more)
  }

  ghost predicate NoPort(digits: string, more: string) {
    && All(digits, IsDecimal) && (more == "" || !IsDecimal(more[0]))
    && ((more != "" && !EndsPort(more[0])) || (digits != "" && forall p :: p <= 0xffff ==> !Spells(digits, p, 10)))
  }

  /** Behind `port`: a slash and anything, nothing at all, or what cannot be a port. */
  ghost predicate PathText(text: string, h: Host, port: string) {
    && NoMarks(text)
    && (text == "" || text[0] == '/' || (port == "" && if text[0] == ':' then BadPort(text) else h.Ipv6?))
  }

  lemma BadDigitsIff(digits: string, more: string)
    requires All(digits, IsDecimal) && (more == "" || !IsDecimal(more[0]))
    ensures BadDigits(digits + more) <==> NoPort(digits, more)
  {
    SpanExact(digits, more, IsDecimal);
    assert (digits + more)[..|digits|] == digits;
    if more != "" { assert (digits + more)[|digits|] == more[0]; }
    forall p: nat ensures ParseUint(digits, 10, 0xffff) == Some(p) <==> p <= 0xffff && Spells(digits, p, 10) {
      NumberIff(digits, p, 10, 0xffff);
    }
  }

  lemma BadDigitsAre(text: string)
    ensures BadDigits(text) <==> NoPort(text[..Span(text, IsDecimal)], text[Span(text, IsDecimal)..])
  {
    var n := Span(text, IsDecimal);
    assert text == text[..n] + text[n..];
    BadDigitsIff(text[..n], text[n..]);
  }

  lemma BadPortHasBadDigits(text: string)
    requires BadPort(":" + text)
    ensures BadDigits(text)
  {
    var digits: string, more: string :| ":" + text == ":" + digits + more && NoPort(digits, more);
    assert (":" + text)[1..] == text && (":" + digits + more)[1..] == digits + more;
    BadDigitsIff(digits, more);
  }

  lemma BadDigitsMakeBadPort(text: string)
    requires BadDigits(text)
    ensures BadPort(":" + text)
  {
    BadDigitsAre(text);
    var n := Span(text, IsDecimal);
    assert ":" + text == ":" + text[..n] + text[n..];
  }

  lemma BadPortIff(path: string)
    requires path != "" && path[0] == ':'
    ensures ParsePort(path).Err? <==> BadPort(path)
  {
    BadPortIsBadDigits(path);
    assert path == ":" + path[1..];
    if BadDigits(path[1..]) {
      BadDigitsMakeBadPort(path[1..]);
    } else if BadPort(path) {
      BadPortHasBadDigits(path[1..]);
    }
  }

  lemma PortNumberReads(port: string, p: nat, rest: string)
    requires PortText(port, Some(p)) && AfterPort(rest)
    ensures ParseAuthorityRest(port + rest) == (rest, Some(p))
  {
    NumberIff(port[1..], p, 10, 0xffff);
    SpelledChars(port[1..], p, 10);
    DigitsReadAsPort(port[1..], rest);
    assert port + rest == ":" + port[1..] + rest;
  }

  lemma ColonReads(rest: string)
    requires AfterPort(rest)
    ensures ParseAuthorityRest(":" + rest) == (rest, None)
  {
    assert (":" + rest)[1..] == rest;
  }

  lemma NoPortReads(h: Host, path: string, marks: string)
    requires PathText(path, h, "") && AfterPort(marks)
    ensures ParseAuthorityRest(path + marks) == (path + marks, None)
  {
    if path != "" && path[0] == ':' {
      BadPortIff(path);
      BadPortStable(path, marks);
    }
  }

  lemma PortTextReads(port: string, p: Option<nat>, h: Host, path: string, marks: string)
    requires PortText(port, p) && PathText(path, h, port) && AfterPort(marks)
    ensures ParseAuthorityRest(port + (path + marks)) == (path + marks, p)
  {
    if p.Some? {
      PortNumberReads(port, p.value, path + marks);
    } else if port == ":" {
      ColonReads(path + marks);
    } else {
      assert port + (path + marks) == path + marks;
      NoPortReads(h, path, marks);
    }
  }

  lemma PortReadIsText(input: string) returns (text: string)
    ensures var (rest, p) := ParseAuthorityRest(input);
            && input == text + rest && PortText(text, p)
            && (text != "" ==> AfterPort(rest))
            && (text == "" && !AfterPort(rest) ==> rest == input && (input[0] == ':' ==> ParsePort(input).Err?))
  {
    var (rest, p) := ParseAuthorityRest(input);
    text := input[..|input| - |rest|];
    if p.Some? {
      var digits := input[1..][..Span(input[1..], IsDecimal)];
      NumberIff(digits, p.value, 10, 0xffff);
      assert text[1..] == digits;
    }
  }

  // ----- the whole -----

  /** The components of a URL as they are written. */
  datatype Spelling = Spelling(scheme: string, host: string, port: string, path: string)

  ghost predicate SpelledUrl(s: string, sp: Spelling, u: Url) {
    && s == sp.scheme + "://" + sp.host + sp.port + sp.path + Suffix('?', u.query) + Suffix('#', u.fragment)
    && SchemeText(sp.scheme, u.scheme) && HostText(sp.host, u.host) && PortText(sp.port, u.port)
    && PathText(sp.path, u.host, sp.port) && u.path == (if sp.path == "" then "/" else sp.path)
    && (u.query.Some? ==> '#' !in u.query.value)
    && u.raw == Render(u)
  }

  lemma HostEnds(port: string, p: Option<nat>, h: Host, path: string, marks: string)
    requires PortText(port, p) && PathText(path, h, port) && AfterPort(marks)
    ensures h.Ipv6? || port + (path + marks) == "" || EndsHost((port + (path + marks))[0])
  {}

  lemma PathMarksRead(path: string, query: Option<string>, fragment: Option<string>)
    requires NoMarks(path) && (query.Some? ==> '#' !in query.value)
    ensures ParsePathQueryFragment(path + (Suffix('?', query) + Suffix('#', fragment))) == (path, query, fragment)
  {
    var before := path + Suffix('?', query);
    assert '#' !in before;
    Reassociate(path, Suffix('?', query), Suffix('#', fragment));
    CutReads(before, '#', fragment);
    CutReads(path, '?', query);
  }

  lemma Regrouped(a: string, b: string, c: string, d: string, e: string, f: string)
    ensures a + "://" + b + c + d + e + f == a + ("://" + (b + (c + (d + (e + f)))))
  {}

  lemma SpelledParses(s: string, sp: Spelling, u: Url)
    requires SpelledUrl(s, sp, u)
    ensures Parse(s) == Ok(u)
  {
    var marks := Suffix('?', u.query) + Suffix('#', u.fragment);
    var rest := sp.port + (sp.path + marks);
    Regrouped(sp.scheme, sp.host, sp.port, sp.path, Suffix('?', u.query), Suffix('#', u.fragment));
    SchemeTextReads(sp.scheme, u.scheme, "://" + (sp.host + rest));
    assert ("://" + (sp.host + rest))[3..] == sp.host + rest;
    MarksEndPort(u.query, u.fragment);
    HostEnds(sp.port, u.port, u.host, sp.path, marks);
    HostTextReads(sp.host, u.host, rest);
    PortTextReads(sp.port, u.port, u.host, sp.path, marks);
    PathMarksRead(sp.path, u.query, u.fragment);
  }

  lemma PathReadIsText(behind: string, h: Host, text: string)
    requires h.Ipv6? || behind == "" || EndsHost(behind[0])
    requires var (rest, p) := ParseAuthorityRest(behind);
             && (text != "" ==> AfterPort(rest))
             && (text == "" && !AfterPort(rest) ==> rest == behind && (behind[0] == ':' ==> ParsePort(behind).Err?))
    ensures PathText(ParsePathQueryFragment(ParseAuthorityRest(behind).0).0, h, text)
  {
    var rest := ParseAuthorityRest(behind).0;
    var (path, query, fragment) := ParsePathQueryFragment(rest);
    var marks := Suffix('?', query) + Suffix('#', fragment);
    TailIs(rest);
    MarksEndPort(query, fragment);
    if path != "" && path[0] != '/' {
      assert rest[0] == path[0] && path[0] in path;
      if path[0] == ':' {
        BadPortStable(path, marks);
        BadPortIff(path);
      }
    }
  }

  lemma Reassembled(
    s: string, scheme: string, after: string, host: string, behind: string, port: string, rest: string, path: string,
    query: string, fragment: string)
    requires s == scheme + after && |after| >= 3 && after[..3] == "://" && after[3..] == host + behind
    requires behind == port + rest && rest == path + (query + fragment)
    ensures s == scheme + "://" + host + port + path + query + fragment
  {
    Regrouped(scheme, host, port, path, query, fragment);
    assert after == after[..3] + after[3..];
  }

  lemma ParsedIsSpelled(s: string) returns (sp: Spelling)
    requires Parse(s).Ok?
    ensures SpelledUrl(s, sp, Parse(s).value)
  {
    var u := Parse(s).value;
    var scheme := SchemeReadIsText(s);
    var after := ParseScheme(s).value.0;
    var host := HostReadIsText(after[3..]);
    HostIsValid(after[3..]);
    var behind := ParseHost(after[3..]).value.0;
    var port := PortReadIsText(behind);
    var rest := ParseAuthorityRest(behind).0;
    TailIs(rest);
    PathReadIsText(behind, u.host, port);
    var path := ParsePathQueryFragment(rest).0;
    sp := Spelling(scheme, host, port, path);
    Reassembled(s, scheme, after, host, behind, port, rest, path, Suffix('?', u.query), Suffix('#', u.fragment));
  }

  /** The parser accepts exactly the spellings of URLs, and reads each of them as the URL it spells. */
  lemma ParseIff(s: string, u: Url)
    ensures Parse(s) == Ok(u) <==> exists sp :: SpelledUrl(s, sp, u)
  {
    if Parse(s) == Ok(u) {
      var sp := ParsedIsSpelled(s);
    }
    if sp :| SpelledUrl(s, sp, u) {
      SpelledParses(s, sp, u);
    }
  }

  // ----- errors -----

  /** A scheme in front, up to the end or a colon. */
  ghost predicate HasScheme(s: string, text: string) {
    text <= s && text != "" && All(text, IsSchemeChar) && (|text| < |s| ==> s[|text|] == ':')
  }

  lemma SchemeErrorIff(s: string)
    ensures ParseScheme(s).Err? <==> !exists text :: HasScheme(s, text)
    ensures ParseScheme(s).Err? ==> ParseScheme(s).error == InvalidScheme
  {
    var n := Span(s, IsSchemeChar);
    if ParseScheme(s).Ok? {
      assert HasScheme(s, s[..n]);
    }
    if text :| HasScheme(s, text) {
      assert s == text + s[|text|..];
      SpanExact(text, s[|text|..], IsSchemeChar);
    }
  }

  lemma HostErrorIff(after: string)
    ensures ParseHost(after) == Err(EmptyHost) <==> after == "" || EndsHost(after[0])
    ensures ParseHost(after).Err? ==> ParseHost(after).error.EmptyHost? || ParseHost(after).error.InvalidHost?
  {
    if after == "" || EndsHost(after[0]) {
      assert after[..0] == "";
      NotIpv4("");
      assert TryParseIpv4("").None? by { assert Split("", '.') == [""]; }
    }
  }

  /** Which error a string that is no URL gets: for its scheme, for what follows it, or for its host. */
  lemma ErrorIff(s: string)
    ensures Parse(s) == Err(InvalidScheme) <==> !exists text :: HasScheme(s, text)
    ensures Parse(s) == Err(InvalidFormat) <==>
            (exists text :: HasScheme(s, text)) && !("://" <= ParseScheme(s).value.0)
    ensures Parse(s) == Err(EmptyHost) <==>
            (exists text :: HasScheme(s, text)) && "://" <= ParseScheme(s).value.0
            && var after := ParseScheme(s).value.0[3..]; after == "" || EndsHost(after[0])
    ensures Parse(s) != Err(InvalidPort)
  {
    SchemeErrorIff(s);
    if ParseScheme(s).Ok? && "://" <= ParseScheme(s).value.0 {
      HostErrorIff(ParseScheme(s).value.0[3..]);
    }
  }
}
