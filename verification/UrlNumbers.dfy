/**
 The numbers in a URL: exactly which texts the parser of payjoin/src/core/url.rs takes for which
 octet, group or port. A plus sign, leading zeros and either case of letter are accepted.
 */
module UrlNumbers {
  import opened Wrappers
  import opened UrlText

  const LOWER: string := "0123456789abcdef"
  const UPPER: string := "0123456789ABCDEF"

  predicate DigitFor(c: char, d: nat) {
    d < 16 && (c == LOWER[d] || c == UPPER[d])
  }

  /** The digits there are. */
  lemma DigitIff(c: char, d: nat, radix: nat)
    requires 2 <= radix <= 16
    ensures DigitValue(c, radix) == Some(d) <==> d < radix && DigitFor(c, d)
  {}

  /** Numbers are printed in lower-case digits. */
  lemma DigitPrinted(d: nat)
    requires d < 16
    ensures DigitChar(d) == LOWER[d]
  {}

  ghost predicate SameDigit(a: char, b: char) {
    exists d: nat :: DigitFor(a, d) && DigitFor(b, d)
  }

  ghost predicate SameDigits(a: string, b: string) {
    |a| == |b| && forall i :: 0 <= i < |a| ==> SameDigit(a[i], b[i])
  }

  function Noughts(n: nat): (s: string)
    ensures |s| == n && forall i :: 0 <= i < n ==> s[i] == '0'
  {
    seq(n, i => '0')
  }

  /** The number as it is printed, but for letter case, leading zeros and a plus sign. */
  ghost predicate Spells(s: string, n: nat, radix: nat)
    requires 2 <= radix <= 16
  {
    exists plus: bool, zeros: nat, digits: string :: SpelledAs(s, n, radix, plus, zeros, digits)
  }

  ghost predicate SpelledAs(s: string, n: nat, radix: nat, plus: bool, zeros: nat, digits: string)
    requires 2 <= radix <= 16
  {
    s == (if plus then "+" else "") + (Noughts(zeros) + digits) && SameDigits(digits, ToRadix(n, radix))
  }

  lemma SameDigitValue(a: char, b: char, radix: nat)
    requires 2 <= radix <= 16 && SameDigit(a, b)
    ensures DigitValue(a, radix) == DigitValue(b, radix) && DigitValue(a, 16).Some? && a != '+'
  {}

  lemma SameStep(a: string, b: string, radix: nat)
    requires a != "" && b != "" && DigitsValue(a[..|a| - 1], radix) == DigitsValue(b[..|b| - 1], radix)
    requires DigitValue(a[|a| - 1], radix) == DigitValue(b[|b| - 1], radix)
    ensures DigitsValue(a, radix) == DigitsValue(b, radix)
  {}

  lemma {:induction false} SameValue(a: string, b: string, radix: nat)
    requires 2 <= radix <= 16 && SameDigits(a, b)
    ensures DigitsValue(a, radix) == DigitsValue(b, radix)
    decreases |a|
  {
    if a != "" {
      var n := |a| - 1;
      SameValue(a[..n], b[..n], radix);
      SameDigitValue(a[n], b[n], radix);
      SameStep(a, b, radix);
    }
  }

  lemma DigitsPush(s: string, c: char, radix: nat)
    ensures DigitsValue(s + [c], radix) == Shifted(DigitsValue(s, radix), DigitValue(c, radix), radix)
  {
    assert (s + [c])[..|s|] == s;
  }

  lemma {:induction false} LeadingZeros(zeros: nat, s: string, radix: nat)
    requires 2 <= radix <= 16
    ensures DigitsValue(Noughts(zeros) + s, radix) == DigitsValue(s, radix)
    decreases |s|, zeros
  {
    if s != "" {
      var n := |s| - 1;
      LeadingZeros(zeros, s[..n], radix);
      DigitsPush(Noughts(zeros) + s[..n], s[n], radix);
      assert Noughts(zeros) + s == Noughts(zeros) + s[..n] + [s[n]];
    } else if zeros > 0 {
      LeadingZeros(zeros - 1, "", radix);
      DigitsPush(Noughts(zeros - 1), '0', radix);
      assert Noughts(zeros - 1) + "" == Noughts(zeros - 1);
      assert Noughts(zeros) + "" == Noughts(zeros - 1) + ['0'];
    } else {
      assert Noughts(0) + "" == "";
    }
  }

  lemma MoreDigits(h: nat, d: nat, radix: nat)
    requires 2 <= radix <= 16 && 0 < h && d < radix
    ensures ToRadix(h * radix + d, radix) == ToRadix(h, radix) + [DigitChar(d)]
  {
    var n := h * radix + d;
    QuotientOf(h, d, radix);
    assert n >= radix by { Doubles(1, radix); AtLeast(h, radix); }
  }

  lemma AtLeast(h: nat, radix: nat)
    requires h > 0
    ensures h * radix >= radix
  {
    assert h * radix == radix + (h - 1) * radix;
  }

  lemma QuotientOf(h: nat, d: nat, radix: nat)
    requires d < radix
    ensures (h * radix + d) / radix == h && (h * radix + d) % radix == d
  {
    var n := h * radix + d;
    DivMod(n, radix);
    var q, r := n / radix, n % radix;
    assert (q - h) * radix == d - r;
    if q > h { AtLeast(q - h, radix); }
    if q < h { assert (h - q) * radix == r - d; AtLeast(h - q, radix); }
  }

  lemma OneDigit(c: char, d: nat, radix: nat)
    requires 2 <= radix <= 16 && DigitValue(c, radix) == Some(d)
    ensures SameDigits([c], ToRadix(d, radix)) && |ToRadix(d, radix)| == 1
  {
    DigitIff(c, d, radix);
    DigitPrinted(d);
    assert SameDigit(c, DigitChar(d));
  }

  lemma SameDigitsPush(a: string, b: string, c: char, d: nat, radix: nat)
    requires 2 <= radix <= 16 && SameDigits(a, b) && DigitValue(c, radix) == Some(d)
    ensures SameDigits(a + [c], b + [DigitChar(d)])
  {
    DigitIff(c, d, radix);
    DigitPrinted(d);
    assert SameDigit(c, DigitChar(d));
  }

  lemma OnlyNought(t: string, radix: nat)
    requires 2 <= radix <= 16 && SameDigits(t, ToRadix(0, radix))
    ensures t == "0"
  {
    assert SameDigit(t[0], '0') && t == [t[0]];
  }

  /** One more digit behind the spelling of zero, or of something else. */
  lemma SpellAfterZeros(k: nat, t: string, c: char, d: nat, radix: nat)
    requires 2 <= radix <= 16 && SameDigits(t, ToRadix(0, radix)) && DigitValue(c, radix) == Some(d)
    ensures Noughts(k) + t + [c] == Noughts(k + 1) + [c] && SameDigits([c], ToRadix(d, radix))
  {
    OnlyNought(t, radix);
    OneDigit(c, d, radix);
    assert Noughts(k) + "0" == Noughts(k + 1);
  }

  lemma SpellNext(k: nat, t: string, h: nat, c: char, d: nat, radix: nat)
    requires 2 <= radix <= 16 && h > 0 && SameDigits(t, ToRadix(h, radix)) && DigitValue(c, radix) == Some(d)
    ensures Noughts(k) + t + [c] == Noughts(k) + (t + [c]) && SameDigits(t + [c], ToRadix(h * radix + d, radix))
  {
    MoreDigits(h, d, radix);
    SameDigitsPush(t, ToRadix(h, radix), c, d, radix);
  }

  lemma LastDigit(s: string, n: nat, radix: nat)
    requires s != "" && DigitsValue(s, radix) == Some(n)
    ensures var h, d := DigitsValue(s[..|s| - 1], radix), DigitValue(s[|s| - 1], radix);
            h.Some? && d.Some? && n == h.value * radix + d.value
  {}

  /** The spelling of a number from that of all its digits but the last. */
  lemma SpellMore(init: string, c: char, h: nat, d: nat, radix: nat, k: nat, t: string)
    returns (zeros: nat, digits: string)
    requires 2 <= radix <= 16 && init == Noughts(k) + t && SameDigits(t, ToRadix(h, radix))
    requires DigitValue(c, radix) == Some(d)
    ensures init + [c] == Noughts(zeros) + digits && SameDigits(digits, ToRadix(h * radix + d, radix))
  {
    if h == 0 {
      SpellAfterZeros(k, t, c, d, radix);
      zeros, digits := k + 1, [c];
    } else {
      SpellNext(k, t, h, c, d, radix);
      zeros, digits := k, t + [c];
    }
  }

  /** Digits that have a value are that number as printed, behind zeros. */
  lemma {:induction false} DigitsSpell(s: string, n: nat, radix: nat) returns (zeros: nat, digits: string)
    requires 2 <= radix <= 16 && s != "" && DigitsValue(s, radix) == Some(n)
    ensures s == Noughts(zeros) + digits && SameDigits(digits, ToRadix(n, radix))
    decreases |s|
  {
    var init, c := s[..|s| - 1], s[|s| - 1];
    LastDigit(s, n, radix);
    var h, d := DigitsValue(init, radix).value, DigitValue(c, radix).value;
    if init == "" {
      NoDigits(radix, d);
      OneDigit(c, d, radix);
      zeros, digits := 0, [c];
    } else {
      var k, t := DigitsSpell(init, h, radix);
      zeros, digits := SpellMore(init, c, h, d, radix, k, t);
    }
    assert s == init + [c];
  }

  lemma NoDigits(radix: nat, d: nat)
    ensures DigitsValue("", radix) == Some(0) && 0 * radix + d == d
  {}

  lemma SpelledReads(zeros: nat, digits: string, n: nat, radix: nat)
    requires 2 <= radix <= 16 && SameDigits(digits, ToRadix(n, radix))
    ensures var s := Noughts(zeros) + digits;
            s != "" && s[0] != '+' && DigitsValue(s, radix) == Some(n)
  {
    LeadingZeros(zeros, digits, radix);
    SameValue(digits, ToRadix(n, radix), radix);
    ToRadixReads(n, radix);
    SameDigitValue(digits[0], ToRadix(n, radix)[0], radix);
  }

  lemma PlusIsSkipped(digits: string, n: nat, radix: nat, max: nat)
    requires digits != "" && digits[0] != '+' && DigitsValue(digits, radix) == Some(n) && n <= max
    ensures ParseUint(digits, radix, max) == Some(n) && ParseUint("+" + digits, radix, max) == Some(n)
  {
    assert ("+" + digits)[1..] == digits;
  }

  lemma SpellingReads(s: string, n: nat, radix: nat, max: nat)
    requires 2 <= radix <= 16 && n <= max && Spells(s, n, radix)
    ensures ParseUint(s, radix, max) == Some(n)
  {
    var plus: bool, zeros: nat, digits: string :| SpelledAs(s, n, radix, plus, zeros, digits);
    SpelledReads(zeros, digits, n, radix);
    PlusIsSkipped(Noughts(zeros) + digits, n, radix, max);
    assert "" + (Noughts(zeros) + digits) == Noughts(zeros) + digits;
  }

  lemma ReadDigits(s: string, n: nat, radix: nat, max: nat) returns (plus: bool, rest: string)
    requires ParseUint(s, radix, max) == Some(n)
    ensures n <= max && rest != "" && DigitsValue(rest, radix) == Some(n)
    ensures s == (if plus then "+" else "") + rest
  {
    plus := s != "" && s[0] == '+';
    rest := if plus then s[1..] else s;
  }

  lemma SpellingRead(s: string, n: nat, radix: nat, max: nat)
    requires 2 <= radix <= 16 && ParseUint(s, radix, max) == Some(n)
    ensures n <= max && Spells(s, n, radix)
  {
    var plus, rest := ReadDigits(s, n, radix, max);
    var zeros, digits := DigitsSpell(rest, n, radix);
    assert SpelledAs(s, n, radix, plus, zeros, digits);
  }

  /** A text is read as a number exactly when it spells it and the number fits. */
  lemma NumberIff(s: string, n: nat, radix: nat, max: nat)
    requires 2 <= radix <= 16
    ensures ParseUint(s, radix, max) == Some(n) <==> n <= max && Spells(s, n, radix)
  {
    if ParseUint(s, radix, max) == Some(n) {
      SpellingRead(s, n, radix, max);
    } else if n <= max && Spells(s, n, radix) {
      SpellingReads(s, n, radix, max);
    }
  }

  lemma SameDigitsAreDigits(a: string, b: string)
    requires SameDigits(a, b)
    ensures forall i :: 0 <= i < |a| ==> DigitValue(a[i], 16).Some?
  {
    forall i | 0 <= i < |a| ensures DigitValue(a[i], 16).Some? {
      SameDigitValue(a[i], b[i], 16);
    }
  }

  /** Nothing that separates numbers is part of one. */
  lemma SpelledChars(s: string, n: nat, radix: nat)
    requires 2 <= radix <= 16 && Spells(s, n, radix)
    ensures s != "" && forall i :: 0 <= i < |s| ==> s[i] == '+' || DigitValue(s[i], 16).Some?
  {
    var plus: bool, zeros: nat, digits: string :| SpelledAs(s, n, radix, plus, zeros, digits);
    SpelledReads(zeros, digits, n, radix);
    SameDigitsAreDigits(digits, ToRadix(n, radix));
    var sign := if plus then "+" else "";
    assert forall i :: 0 <= i < |s| ==> s[i] in sign || s[i] == '0' || s[i] in digits;
  }
}
