/**
 The length-prefixed list of allowed purposes
 (payjoin-mailroom/src/ohttp_relay/gateway_prober.rs, `parse_alpn_encoded`): a big-endian
 16-bit item count, then every item behind its one-byte length, and nothing after that.
 */
module AlpnList {
  import opened Wrappers

  newtype byte = b: int | 0 <= b < 0x100

  type Item = seq<byte>

  datatype ParseError = Truncated | TrailingData

  function BigEndian(hi: byte, lo: byte): (n: nat)
    ensures n < 0x1_0000 && n / 0x100 == hi as int && n % 0x100 == lo as int
  {
    hi as nat * 0x100 + lo as nat
  }

  /** What the format can carry: a 16-bit count and 8-bit lengths. */
  predicate Encodable(items: seq<Item>) {
    |items| < 0x1_0000 && forall i :: 0 <= i < |items| ==> |items[i]| < 0x100
  }

  function EncodeItems(items: seq<Item>): seq<byte>
    requires forall i :: 0 <= i < |items| ==> |items[i]| < 0x100
  {
    if items == [] then [] else [|items[0]| as byte] + items[0] + EncodeItems(items[1..])
  }

  function Encode(items: seq<Item>): seq<byte>
    requires Encodable(items)
  {
    [(|items| / 0x100) as byte, (|items| % 0x100) as byte] + EncodeItems(items)
  }

  /** Exactly `n` items off the front of `input`, and what is left. */
  function ParseItems(n: nat, input: seq<byte>): Result<(seq<Item>, seq<byte>), ParseError> {
    if n == 0 then Ok(([], input))
    else if input == [] || |input| - 1 < input[0] as nat then Err(Truncated)
    else
      match ParseItems(n - 1, input[1 + input[0] as nat..])
      case Err(e) => Err(e)
      case Ok((items, rest)) => Ok(([input[1..1 + input[0] as nat]] + items, rest))
  }

  /** A parse of the remaining items behind the items already read. */
  function After(done: seq<Item>, parsed: Result<(seq<Item>, seq<byte>), ParseError>)
    : Result<(seq<Item>, seq<byte>), ParseError>
  {
    match parsed
    case Err(e) => Err(e)
    case Ok((items, rest)) => Ok((done + items, rest))
  }

  function ParseList(input: seq<byte>): Result<seq<Item>, ParseError> {
    if |input| < 2 then Err(Truncated)
    else
      match ParseItems(BigEndian(input[0], input[1]), input[2..])
      case Err(e) => Err(e)
      case Ok((items, rest)) => if rest == [] then Ok(items) else Err(TrailingData)
  }

  lemma EncodeOneMore(item: Item, items: seq<Item>)
    requires |item| < 0x100 && forall i :: 0 <= i < |items| ==> |items[i]| < 0x100
    ensures EncodeItems([item] + items) == [|item| as byte] + item + EncodeItems(items)
  {
    assert ([item] + items)[1..] == items;
  }

  lemma SplitOff(input: seq<byte>)
    requires input != [] && input[0] as nat <= |input| - 1
    ensures input == [input[0]] + input[1..1 + input[0] as nat] + input[1 + input[0] as nat..]
  {}

  lemma Regroup(a: seq<byte>, b: seq<byte>, c: seq<byte>)
    ensures a + (b + c) == a + b + c
  {}

  lemma {:induction false} ParsedItemsEncode(n: nat, input: seq<byte>)
    requires ParseItems(n, input).Ok?
    ensures var (items, rest) := ParseItems(n, input).value;
            |items| == n && (forall i :: 0 <= i < n ==> |items[i]| < 0x100)
            && input == EncodeItems(items) + rest
  {
    if n > 0 {
      var item, after := input[1..1 + input[0] as nat], input[1 + input[0] as nat..];
      ParsedItemsEncode(n - 1, after);
      var (tail, rest) := ParseItems(n - 1, after).value;
      EncodeOneMore(item, tail);
      SplitOff(input);
      Regroup([|item| as byte] + item, EncodeItems(tail), rest);
    }
  }

  lemma FirstItem(item: Item, tail: seq<byte>)
    requires |item| < 0x100
    ensures var input := [|item| as byte] + item + tail;
            input[0] as nat == |item| && input[1..1 + |item|] == item && input[1 + |item|..] == tail
  {}

  lemma ParseOneItem(n: nat, item: Item, tail: seq<byte>)
    requires |item| < 0x100 && n > 0
    ensures ParseItems(n, [|item| as byte] + item + tail) == After([item], ParseItems(n - 1, tail))
  {
    FirstItem(item, tail);
  }

  lemma {:induction false} EncodedItemsParse(items: seq<Item>, rest: seq<byte>)
    requires forall i :: 0 <= i < |items| ==> |items[i]| < 0x100
    ensures ParseItems(|items|, EncodeItems(items) + rest) == Ok((items, rest))
  {
    if items == [] {
      assert EncodeItems(items) + rest == rest;
    } else {
      var item, tail := items[0], EncodeItems(items[1..]) + rest;
      EncodedItemsParse(items[1..], rest);
      assert EncodeItems(items) + rest == [|item| as byte] + item + tail;
      ParseOneItem(|items|, item, tail);
      assert [item] + items[1..] == items;
    }
  }

  /** The parser is the exact inverse of the encoder: it accepts encodings and nothing else. */
  lemma ParseIffEncoding(input: seq<byte>, items: seq<Item>)
    ensures ParseList(input) == Ok(items) <==> Encodable(items) && input == Encode(items)
  {
    if ParseList(input) == Ok(items) {
      ParsedItemsEncode(BigEndian(input[0], input[1]), input[2..]);
      assert input == [input[0], input[1]] + input[2..];
      assert EncodeItems(items) + [] == EncodeItems(items);
    }
    if Encodable(items) && input == Encode(items) {
      assert input[2..] == EncodeItems(items) + [];
      EncodedItemsParse(items, []);
      assert BigEndian(input[0], input[1]) == |items|;
    }
  }

  /** The first two bytes say how many items there are, the more significant one first. */
  lemma CountInFront(input: seq<byte>, items: seq<Item>)
    requires ParseList(input) == Ok(items)
    ensures |input| >= 2 && |items| == input[0] as nat * 256 + input[1] as nat
  {
    ParsedItemsEncode(BigEndian(input[0], input[1]), input[2..]);
  }

  lemma {:induction false} ItemsError(n: nat, input: seq<byte>)
    ensures ParseItems(n, input).Err? ==> ParseItems(n, input).error == Truncated
    decreases n
  {
    if n > 0 && input != [] && input[0] as nat <= |input| - 1 {
      ItemsError(n - 1, input[1 + input[0] as nat..]);
    }
  }

  /** A complete list with something behind it. */
  ghost predicate Trailing(input: seq<byte>, items: seq<Item>, more: seq<byte>) {
    Encodable(items) && more != [] && input == Encode(items) + more
  }

  lemma TrailingIsList(input: seq<byte>) returns (items: seq<Item>, more: seq<byte>)
    requires ParseList(input) == Err(TrailingData)
    ensures Trailing(input, items, more)
  {
    var n := BigEndian(input[0], input[1]);
    ItemsError(n, input[2..]);
    items, more := ParseItems(n, input[2..]).value.0, ParseItems(n, input[2..]).value.1;
    ParsedItemsEncode(n, input[2..]);
    Regroup([input[0], input[1]], EncodeItems(items), more);
    assert input == [input[0], input[1]] + input[2..];
  }

  lemma TrailingFails(input: seq<byte>, items: seq<Item>, more: seq<byte>)
    requires Trailing(input, items, more)
    ensures ParseList(input) == Err(TrailingData)
  {
    Regroup([(|items| / 0x100) as byte, (|items| % 0x100) as byte], EncodeItems(items), more);
    assert input[2..] == EncodeItems(items) + more;
    EncodedItemsParse(items, more);
    assert BigEndian(input[0], input[1]) == |items|;
  }

  /** What goes wrong: bytes behind a complete list, or too few for one. */
  lemma ErrorIff(input: seq<byte>)
    ensures ParseList(input) == Err(TrailingData) <==>
            exists items: seq<Item>, more: seq<byte> :: Trailing(input, items, more)
    ensures ParseList(input).Err? ==> ParseList(input).error == Truncated || ParseList(input).error == TrailingData
  {
    if ParseList(input) == Err(TrailingData) {
      var items, more := TrailingIsList(input);
    }
    if items: seq<Item>, more: seq<byte> :| Trailing(input, items, more) {
      TrailingFails(input, items, more);
    }
  }

  lemma OneItemMore(done: seq<Item>, n: nat, rest: seq<byte>)
    requires n > 0 && rest != [] && rest[0] as nat <= |rest| - 1
    ensures After(done, ParseItems(n, rest)) ==
      After(done + [rest[1..1 + rest[0] as nat]], ParseItems(n - 1, rest[1 + rest[0] as nat..]))
  {
    var item, tail := rest[1..1 + rest[0] as nat], ParseItems(n - 1, rest[1 + rest[0] as nat..]);
    if tail.Ok? {
      assert done + ([item] + tail.value.0) == done + [item] + tail.value.0;
    }
  }

  /**
   The loop that fills the output while it consumes the input. A vector allocated for `n`
   items is taken to have capacity exactly `n`.
   */
  method ParseAlpnEncoded(input: seq<byte>) returns (r: Result<seq<Item>, ParseError>)
    ensures r == ParseList(input)
  {
    if |input| < 2 {
      return Err(Truncated);
    }
    var capacity := BigEndian(input[0], input[1]);
    var rest := input[2..];
    var output: seq<Item> := [];
    ghost var parsed := ParseItems(capacity, rest);
    assert After(output, parsed) == parsed by {
      if parsed.Ok? { assert output + parsed.value.0 == parsed.value.0; }
    }
    while capacity != |output|
      invariant |output| <= capacity
      invariant After(output, ParseItems(capacity - |output|, rest)) == parsed
      decreases capacity - |output|
    {
      if rest == [] {
        return Err(Truncated);
      }
      var len := rest[0] as nat;
      if |rest| - 1 < len {
        return Err(Truncated);
      }
      OneItemMore(output, capacity - |output|, rest);
      output := output + [rest[1..1 + len]];
      rest := rest[1 + len..];
    }
    assert output + [] == output;
    if rest != [] {
      return Err(TrailingData);
    }
    return Ok(output);
  }
}
