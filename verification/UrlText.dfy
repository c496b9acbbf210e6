/**
 The text operations that payjoin/src/core/url.rs takes from the Rust standard library:
 finding and splitting at a character, joining, and reading and writing unsigned numbers.
 */
module UrlText {
  import opened Wrappers

  /** Where `c` first occurs. */
  function Find(s: string, c: char): (r: Option<nat>)
    ensures r.Some? ==> r.value < |s| && s[r.value] == c && c !in s[..r.value]
    ensures r.None? ==> c !in s
  {
    if s == "" then None
    else if s[0] == c then Some(0)
    else
      match Find(s[1..], c)
      case None => None
      case Some(i) =>
        assert s[..i + 1] == [s[0]] + s[1..][..i];
        Some(i + 1)
  }

  lemma {:induction false} FindAt(a: string, c: char, b: string)
    requires c !in a
    ensures Find(a + [c] + b, c) == Some(|a|)
  {
    if a != "" {
      FindAt(a[1..], c, b);
      assert (a + [c] + b)[1..] == a[1..] + [c] + b;
    }
  }

  /** The pieces between occurrences of `c`; always at least one. */
  function Split(s: string, c: char): (r: seq<string>)
    ensures |r| >= 1
    ensures forall i :: 0 <= i < |r| ==> c !in r[i]
    decreases |s|
  {
    match Find(s, c)
    case None => [s]
    case Some(i) => [s[..i]] + Split(s[i + 1..], c)
  }

  function Join(parts: seq<string>, c: char): string {
    if parts == [] then ""
    else if |parts| == 1 then parts[0]
    else parts[0] + [c] + Join(parts[1..], c)
  }

  lemma JoinCons(first: string, rest: seq<string>, c: char)
    requires rest != []
    ensures Join([first] + rest, c) == first + [c] + Join(rest, c)
  {
    assert ([first] + rest)[1..] == rest;
  }

  lemma {:induction false} JoinSplit(s: string, c: char)
    ensures Join(Split(s, c), c) == s
    decreases |s|
  {
    match Find(s, c)
    case None =>
    case Some(i) =>
      JoinSplit(s[i + 1..], c);
      JoinCons(s[..i], Split(s[i + 1..], c), c);
      assert s == s[..i] + [s[i]] + s[i + 1..];
  }

  lemma SplitFirst(a: string, c: char, b: string)
    requires c !in a
    ensures Split(a + [c] + b, c) == [a] + Split(b, c)
  {
    FindAt(a, c, b);
    assert (a + [c] + b)[..|a|] == a;
    assert (a + [c] + b)[|a| + 1..] == b;
  }

  lemma CutInThree(a: string, c: char, b: string, i: nat)
    requires i < |a| && a[i] == c
    ensures a + [c] + b == a[..i] + [c] + (a[i + 1..] + [c] + b)
  {
    assert a == a[..i] + [c] + a[i + 1..];
  }

  lemma Regroup(a: seq<string>, b: seq<string>, d: seq<string>)
    ensures a + (b + d) == a + b + d
  {}

  /** Splitting distributes over a separator anywhere. */
  lemma {:induction false} SplitAppend(a: string, c: char, b: string)
    ensures Split(a + [c] + b, c) == Split(a, c) + Split(b, c)
    decreases |a|
  {
    match Find(a, c)
    case None => SplitFirst(a, c, b);
    case Some(i) =>
      SplitAppend(a[i + 1..], c, b);
      CutInThree(a, c, b, i);
      SplitFirst(a[..i], c, a[i + 1..] + [c] + b);
      Regroup([a[..i]], Split(a[i + 1..], c), Split(b, c));
  }

  lemma {:induction false} JoinAppend(init: seq<string>, last: string, c: char)
    requires init != []
    ensures Join(init + [last], c) == Join(init, c) + [c] + last
    decreases |init|
  {
    JoinCons(init[0], init[1..] + [last], c);
    assert init + [last] == [init[0]] + (init[1..] + [last]);
    if |init| == 1 {
      assert init[1..] + [last] == [last];
    } else {
      JoinAppend(init[1..], last, c);
    }
  }

  lemma {:induction false} SplitJoin(parts: seq<string>, c: char)
    requires parts != [] && forall i :: 0 <= i < |parts| ==> c !in parts[i]
    ensures Split(Join(parts, c), c) == parts
  {
    if |parts| > 1 {
      SplitJoin(parts[1..], c);
      SplitFirst(parts[0], c, Join(parts[1..], c));
      assert [parts[0]] + parts[1..] == parts;
    }
  }

  lemma {:induction false} JoinChars(parts: seq<string>, c: char, other: char)
    requires other != c && forall i :: 0 <= i < |parts| ==> other !in parts[i]
    ensures other !in Join(parts, c)
  {
    if |parts| > 1 {
      JoinChars(parts[1..], c, other);
    }
  }

  // ----- numbers -----

  function DigitValue(c: char, radix: nat): (r: Option<nat>)
    ensures r.Some? ==> r.value < radix
  {
    var v :=
      if '0' <= c <= '9' then (c as int) - ('0' as int)
      else if 'a' <= c <= 'f' then (c as int) - ('a' as int) + 10
      else if 'A' <= c <= 'F' then (c as int) - ('A' as int) + 10
      else 16;
    if v < radix && v < 16 then Some(v) else None
  }

  function Shifted(high: Option<nat>, low: Option<nat>, radix: nat): Option<nat> {
    if high.Some? && low.Some? then Some(high.value * radix + low.value) else None
  }

  function DigitsValue(s: string, radix: nat): Option<nat> {
    if s == "" then Some(0)
    else Shifted(DigitsValue(s[..|s| - 1], radix), DigitValue(s[|s| - 1], radix), radix)
  }

  /**
   Reading an unsigned integer the way the standard library does: one leading plus sign is
   allowed, then at least one digit and nothing else, and the value must fit.
   */
  function ParseUint(s: string, radix: nat, max: nat): (r: Option<nat>)
    ensures r.Some? ==> r.value <= max
  {
    var digits := if s != "" && s[0] == '+' then s[1..] else s;
    if digits == "" then None
    else
      match DigitsValue(digits, radix)
      case Some(v) => if v <= max then Some(v) else None
      case None => None
  }

  function DigitChar(d: nat): (c: char)
    requires d < 16
    ensures forall radix :: d < radix ==> DigitValue(c, radix) == Some(d)
  {
    if d < 10 then ('0' as int + d) as char else ('a' as int + d - 10) as char
  }

  function ToRadix(n: nat, radix: nat): (s: string)
    requires 2 <= radix <= 16
    ensures s != ""
  {
    if n < radix then [DigitChar(n)]
    else
      DivShrinks(n, radix);
      ToRadix(n / radix, radix) + [DigitChar(n % radix)]
  }

  lemma DivShrinks(n: nat, radix: nat)
    requires 2 <= radix <= n
    ensures n / radix < n
  {
    var q := n / radix;
    DivMod(n, radix);
    Doubles(q, radix);
  }

  lemma Doubles(q: nat, radix: nat)
    requires radix >= 2
    ensures 2 * q <= q * radix
  {
    assert q * radix == 2 * q + q * (radix - 2);
  }

  predicate IsDigit(c: char, radix: nat) {
    DigitValue(c, radix).Some?
  }

  lemma {:induction false} ToRadixReads(n: nat, radix: nat)
    requires 2 <= radix <= 16
    ensures DigitsValue(ToRadix(n, radix), radix) == Some(n)
    ensures forall i :: 0 <= i < |ToRadix(n, radix)| ==> IsDigit(ToRadix(n, radix)[i], radix)
    decreases n
  {
    if n < radix {
      assert DigitsValue(""  , radix) == Some(0);
      assert [DigitChar(n)][..0] == "";
    } else {
      DivShrinks(n, radix);
      ToRadixReads(n / radix, radix);
      var high := ToRadix(n / radix, radix);
      assert ToRadix(n, radix)[..|high|] == high;
      DivMod(n, radix);
    }
  }

  lemma DivMod(n: nat, radix: nat)
    requires 0 < radix
    ensures (n / radix) * radix + n % radix == n
  {}

  /** Written numbers read back, in any radix from 2 to 16. */
  lemma ParseUintInverts(n: nat, radix: nat, max: nat)
    requires 2 <= radix <= 16 && n <= max
    ensures ParseUint(ToRadix(n, radix), radix, max) == Some(n)
  {
    ToRadixReads(n, radix);
    assert IsDigit(ToRadix(n, radix)[0], radix);
    assert ToRadix(n, radix)[0] != '+';
  }
}
