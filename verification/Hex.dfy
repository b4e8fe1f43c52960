/** Base16 as section 8 of RFC 4648 defines it: encoding in lower case, decoding either case. */
module Hex {
  import opened Common

  datatype HexError = OddLength | InvalidHexCharacter

  function Digit(n: nat): (c: char)
    requires n < 16
  {
    if n < 10 then '0' + n as char else 'a' + (n - 10) as char
  }

  function DigitValue(c: char): (r: Option<nat>)
    ensures r.Some? ==> r.value < 16
  {
    if '0' <= c <= '9' then Some(c as nat - '0' as nat)
    else if 'a' <= c <= 'f' then Some(c as nat - 'a' as nat + 10)
    else if 'A' <= c <= 'F' then Some(c as nat - 'A' as nat + 10)
    else None
  }

  predicate IsLowerDigit(c: char) {
    '0' <= c <= '9' || 'a' <= c <= 'f'
  }

  lemma DigitRoundTrip(n: nat)
    requires n < 16
    ensures DigitValue(Digit(n)) == Some(n) && IsLowerDigit(Digit(n))
  {
  }

  lemma LowerDigitRoundTrip(c: char)
    requires IsLowerDigit(c)
    ensures DigitValue(c).Some? && Digit(DigitValue(c).value) == c
  {
  }

  function Encode(bytes: seq<Byte>): (s: string)
    ensures |s| == 2 * |bytes|
  {
    if bytes == [] then "" else [Digit(bytes[0] / 16), Digit(bytes[0] % 16)] + Encode(bytes[1..])
  }

  function Decode(s: string): (r: Result<seq<Byte>, HexError>) {
    if |s| % 2 != 0 then Err(OddLength) else DecodePairs(s)
  }

  function DecodePairs(s: string): (r: Result<seq<Byte>, HexError>)
    requires |s| % 2 == 0
  {
    if s == "" then Ok([])
    else match (DigitValue(s[0]), DigitValue(s[1]))
      case (Some(hi), Some(lo)) =>
        (match DecodePairs(s[2..])
         case Ok(rest) => Ok([16 * hi + lo] + rest)
         case Err(e) => Err(e))
      case _ => Err(InvalidHexCharacter)
  }

  /** What `Encode` writes: an even number of lower-case digits. */
  predicate IsLowerHex(s: string) {
    |s| % 2 == 0 && forall i :: 0 <= i < |s| ==> IsLowerDigit(s[i])
  }

  lemma {:induction false} EncodeIsLowerHex(bytes: seq<Byte>)
    ensures IsLowerHex(Encode(bytes))
  {
    if bytes != [] {
      EncodeIsLowerHex(bytes[1..]);
      DigitRoundTrip(bytes[0] / 16);
      DigitRoundTrip(bytes[0] % 16);
      var s, rest := Encode(bytes), Encode(bytes[1..]);
      forall i | 0 <= i < |s| ensures IsLowerDigit(s[i]) {
        if i >= 2 { assert s[i] == rest[i - 2]; }
      }
    }
  }

  const DIGITS := "0123456789abcdef"

  /** Each byte is written high digit first, in its place. */
  lemma {:induction false} EncodeAt(bytes: seq<Byte>, i: nat)
    requires i < |bytes|
    ensures Encode(bytes)[2 * i] == DIGITS[bytes[i] / 16] && Encode(bytes)[2 * i + 1] == DIGITS[bytes[i] % 16]
    decreases i
  {
    if i == 0 {
      DigitIs(bytes[0] / 16);
      DigitIs(bytes[0] % 16);
    } else {
      EncodeAt(bytes[1..], i - 1);
    }
  }

  lemma DigitIs(n: nat)
    requires n < 16
    ensures Digit(n) == DIGITS[n]
  {
  }

  lemma {:induction false} DecodeEncode(bytes: seq<Byte>)
    ensures Decode(Encode(bytes)) == Ok(bytes)
  {
    if bytes != [] {
      var s := Encode(bytes);
      assert s[2..] == Encode(bytes[1..]);
      DigitRoundTrip(bytes[0] / 16);
      DigitRoundTrip(bytes[0] % 16);
      DecodeEncode(bytes[1..]);
      assert 16 * (bytes[0] / 16) + bytes[0] % 16 == bytes[0];
      assert bytes == [bytes[0]] + bytes[1..];
    }
  }

  /** The number a digit of either case stands for, by character code. */
  predicate StandsFor(c: char, n: nat) {
    if n < 10 then c as nat == 48 + n else n < 16 && (c as nat == 87 + n || c as nat == 55 + n)
  }

  predicate IsDigit(c: char) {
    '0' <= c <= '9' || 'a' <= c <= 'f' || 'A' <= c <= 'F'
  }

  lemma DigitValueIs(c: char)
    ensures DigitValue(c).Some? <==> IsDigit(c)
    ensures DigitValue(c).Some? ==> StandsFor(c, DigitValue(c).value)
  {
  }

  /** A string decodes exactly when it has digits of either case, an even number of them. */
  lemma {:induction false} DecodesIff(s: string)
    ensures Decode(s).Ok? <==> |s| % 2 == 0 && forall i :: 0 <= i < |s| ==> IsDigit(s[i])
    ensures Decode(s) == Err(OddLength) <==> |s| % 2 == 1
    ensures Decode(s).Ok? ==> 2 * |Decode(s).value| == |s|
    decreases |s|
  {
    if |s| % 2 == 0 && s != "" {
      DigitValueIs(s[0]);
      DigitValueIs(s[1]);
      DecodesIff(s[2..]);
      assert (forall i :: 0 <= i < |s| ==> IsDigit(s[i])) <==>
             IsDigit(s[0]) && IsDigit(s[1]) && forall i :: 0 <= i < |s[2..]| ==> IsDigit(s[2..][i]) by {
        assert forall i :: 2 <= i < |s| ==> s[i] == s[2..][i - 2];
      }
    }
  }

  /** Each pair of digits gives its byte, the first digit highest. */
  lemma {:induction false} DecodeAt(s: string, i: nat) returns (hi: nat, lo: nat)
    requires Decode(s).Ok? && 2 * i < |s|
    ensures |s| % 2 == 0 && i < |Decode(s).value|
    ensures StandsFor(s[2 * i], hi) && StandsFor(s[2 * i + 1], lo) && Decode(s).value[i] == 16 * hi + lo
    decreases i
  {
    DecodesIff(s);
    if i == 0 {
      DigitValueIs(s[0]);
      DigitValueIs(s[1]);
      hi, lo := DigitValue(s[0]).value, DigitValue(s[1]).value;
    } else {
      hi, lo := DecodeAt(s[2..], i - 1);
    }
  }

  /** Encoding inverts decoding on what `Encode` can write, and only there: upper-case digits decode too. */
  lemma {:induction false} EncodeDecode(s: string)
    ensures IsLowerHex(s) <==> Decode(s).Ok? && Encode(Decode(s).value) == s
    decreases |s|
  {
    if Decode(s).Ok? && Encode(Decode(s).value) == s {
      EncodeIsLowerHex(Decode(s).value);
    }
    if IsLowerHex(s) && s != "" {
      var rest := s[2..];
      EncodeDecode(rest);
      LowerDigitRoundTrip(s[0]);
      LowerDigitRoundTrip(s[1]);
      var hi, lo := DigitValue(s[0]).value, DigitValue(s[1]).value;
      assert (16 * hi + lo) / 16 == hi && (16 * hi + lo) % 16 == lo;
      var bytes := [16 * hi + lo] + Decode(rest).value;
      assert Decode(s) == Ok(bytes) && bytes[1..] == Decode(rest).value;
      assert s == [s[0], s[1]] + rest;
    }
  }
}
