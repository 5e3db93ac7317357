/**
 * Percent-encoding of query values and the decoding of form values, on the
 * UTF-8 bytes of the strings (RFC 3986 sections 2.1 and 2.3, RFC 6749
 * appendix B).
 */
module FormEncoding {
  import opened Basics

  const PERCENT: byte := 0x25
  const PLUS: byte := 0x2B
  const SPACE: byte := 0x20

  /** Letters, digits, '-', '_', '.' and '~'. */
  predicate Unreserved(b: byte) {
    0x41 <= b <= 0x5A || 0x61 <= b <= 0x7A || 0x30 <= b <= 0x39 || b == 0x2D || b == 0x5F || b == 0x2E || b == 0x7E
  }

  /** The unreserved characters of section 2.3 of RFC 3986. */
  predicate IsUnreserved(c: char) {
    'A' <= c <= 'Z' || 'a' <= c <= 'z' || '0' <= c <= '9' || c in {'-', '.', '_', '~'}
  }

  lemma KeptIffUnreserved(b: byte)
    ensures EncodeByte(b) == [b] <==> IsUnreserved(b as int as char)
    ensures EncodeByte(b) != [b] ==> |EncodeByte(b)| == 3
  {
    assert '-' as int == 0x2D && '.' as int == 0x2E && '_' as int == 0x5F && '~' as int == 0x7E;
  }

  /** An upper-case hexadecimal digit. */
  function HexDigit(n: nat): byte
    requires n < 16
  {
    if n < 10 then (0x30 + n) as byte else (0x41 + n - 10) as byte
  }

  /** `to_digit(16)`: either case. */
  function DigitValue(b: byte): (v: Option<nat>)
    ensures v.Some? ==> v.value < 16
  {
    if 0x30 <= b <= 0x39 then Some(b as nat - 0x30)
    else if 0x41 <= b <= 0x46 then Some(b as nat - 0x41 + 10)
    else if 0x61 <= b <= 0x66 then Some(b as nat - 0x61 + 10)
    else None
  }

  function EncodeByte(b: byte): Bytes {
    if Unreserved(b) then [b] else [PERCENT, HexDigit(b as nat / 16), HexDigit(b as nat % 16)]
  }

  function Encode(s: Bytes): Bytes {
    if s == [] then [] else EncodeByte(s[0]) + Encode(s[1..])
  }

  /** A complete escape at the front. */
  predicate StartsWithEscape(s: Bytes) {
    |s| > 2 && s[0] == PERCENT && DigitValue(s[1]).Some? && DigitValue(s[2]).Some?
  }

  function Decode(s: Bytes): Bytes {
    if s == [] then []
    else if s[0] == PLUS then [SPACE] + Decode(s[1..])
    else if StartsWithEscape(s) then
      [(DigitValue(s[1]).value * 16 + DigitValue(s[2]).value) as byte] + Decode(s[3..])
    else [s[0]] + Decode(s[1..])
  }

  /** `urlencode`. */
  method UrlEncode(s: Bytes) returns (out: Bytes)
    ensures out == Encode(s)
  {
    out := [];
    var i := 0;
    while i < |s|
      invariant 0 <= i <= |s| && out + Encode(s[i..]) == Encode(s)
    {
      assert s[i..][0] == s[i] && s[i..][1..] == s[i + 1..];
      Associative(out, EncodeByte(s[i]), Encode(s[i + 1..]));
      if Unreserved(s[i]) {
        out := out + [s[i]];
      } else {
        out := out + [PERCENT, HexDigit(s[i] as nat / 16), HexDigit(s[i] as nat % 16)];
      }
      i := i + 1;
    }
  }

  /** `form_urldecode`, up to the final UTF-8 check. */
  method FormUrlDecode(s: Bytes) returns (out: Bytes)
    ensures out == Decode(s) && |out| <= |s|
  {
    out := [];
    var i := 0;
    while i < |s|
      invariant 0 <= i <= |s| && |out| <= i
      invariant out + Decode(s[i..]) == Decode(s)
    {
      DecodeStep(s, i, out);
      if s[i] == PLUS {
        out := out + [SPACE];
        i := i + 1;
      } else if s[i] == PERCENT && i + 2 < |s| {
        var hi, lo := DigitValue(s[i + 1]), DigitValue(s[i + 2]);
        if hi.Some? && lo.Some? {
          out := out + [(hi.value * 16 + lo.value) as byte];
          i := i + 3;
        } else {
          out := out + [PERCENT];
          i := i + 1;
        }
      } else {
        out := out + [s[i]];
        i := i + 1;
      }
    }
  }

  lemma DecodeStep(s: Bytes, i: nat, out: Bytes)
    requires i < |s|
    ensures s[i] == PLUS ==> out + Decode(s[i..]) == out + [SPACE] + Decode(s[i + 1..])
    ensures StartsWithEscape(s[i..]) <==>
            i + 2 < |s| && s[i] == PERCENT && DigitValue(s[i + 1]).Some? && DigitValue(s[i + 2]).Some?
    ensures StartsWithEscape(s[i..]) ==>
              out + Decode(s[i..]) ==
              out + [(DigitValue(s[i + 1]).value * 16 + DigitValue(s[i + 2]).value) as byte] + Decode(s[i + 3..])
    ensures s[i] != PLUS && !StartsWithEscape(s[i..]) ==> out + Decode(s[i..]) == out + [s[i]] + Decode(s[i + 1..])
  {
    var rest := s[i..];
    assert rest[0] == s[i] && rest[1..] == s[i + 1..];
    if |rest| > 2 {
      assert rest[1] == s[i + 1] && rest[2] == s[i + 2] && rest[3..] == s[i + 3..];
    }
  }

  // ---- the round trip ---------------------------------------------------------------------

  lemma HexRoundTrip(n: nat)
    requires n < 16
    ensures DigitValue(HexDigit(n)) == Some(n) && (0x30 <= HexDigit(n) <= 0x39 || 0x41 <= HexDigit(n) <= 0x46)
  {
  }

  lemma DecodeEncodedByte(b: byte, rest: Bytes)
    ensures Decode(EncodeByte(b) + rest) == [b] + Decode(rest)
  {
    var s := EncodeByte(b) + rest;
    if Unreserved(b) {
      assert s[1..] == rest;
    } else {
      HexRoundTrip(b as nat / 16);
      HexRoundTrip(b as nat % 16);
      assert s[3..] == rest;
    }
  }

  /** Decoding undoes encoding, on every byte string. */
  lemma {:induction false} RoundTrip(s: Bytes)
    ensures Decode(Encode(s)) == s
  {
    if s != [] {
      DecodeEncodedByte(s[0], Encode(s[1..]));
      RoundTrip(s[1..]);
    }
  }

  /** An encoded value is made of unreserved bytes and escapes only: nothing a query or a form gives a meaning to. */
  lemma {:induction false} EncodedIsSafe(s: Bytes)
    ensures forall b :: b in Encode(s) ==> Unreserved(b) || b == PERCENT
    ensures |s| <= |Encode(s)| <= 3 * |s|
  {
    if s != [] {
      EncodedIsSafe(s[1..]);
    }
  }

  /** Encoding leaves a value alone exactly when it is made of unreserved characters, and lengthens every other one. */
  lemma {:induction false} EncodeUnchangedIff(s: Bytes)
    ensures Encode(s) == s <==> forall i :: 0 <= i < |s| ==> IsUnreserved(s[i] as int as char)
    ensures |Encode(s)| == |s| <==> Encode(s) == s
    ensures |Encode(s)| >= |s|
  {
    if s != [] {
      EncodeUnchangedIff(s[1..]);
      KeptIffUnreserved(s[0]);
      assert s == [s[0]] + s[1..];
      assert (forall i :: 0 <= i < |s| ==> IsUnreserved(s[i] as int as char)) <==>
             IsUnreserved(s[0] as int as char) && forall i :: 0 <= i < |s[1..]| ==> IsUnreserved(s[1..][i] as int as char) by {
        assert forall i :: 0 < i < |s| ==> s[i] == s[1..][i - 1];
      }
    }
  }

  predicate HasEscapeAt(s: Bytes, i: nat) {
    i + 2 < |s| && s[i] == PERCENT && DigitValue(s[i + 1]).Some? && DigitValue(s[i + 2]).Some?
  }

  /** Decoding never lengthens, and leaves a value alone exactly when it holds no '+' and no complete escape. */
  lemma {:induction false} DecodeUnchangedIff(s: Bytes)
    ensures |Decode(s)| <= |s|
    ensures Decode(s) == s <==> forall i :: 0 <= i < |s| ==> s[i] != PLUS && !HasEscapeAt(s, i)
  {
    if s == [] {
    } else if s[0] == PLUS {
      DecodeUnchangedIff(s[1..]);
    } else if StartsWithEscape(s) {
      DecodeUnchangedIff(s[3..]);
      assert HasEscapeAt(s, 0);
    } else {
      var rest := s[1..];
      DecodeUnchangedIff(rest);
      assert s == [s[0]] + rest;
      assert !HasEscapeAt(s, 0);
      assert forall i :: 1 <= i < |s| ==> s[i] == rest[i - 1] && (HasEscapeAt(s, i) <==> HasEscapeAt(rest, i - 1));
      assert Decode(s)[1..] == Decode(rest);
      if forall i :: 0 <= i < |s| ==> s[i] != PLUS && !HasEscapeAt(s, i) {
        forall i | 0 <= i < |rest| ensures rest[i] != PLUS && !HasEscapeAt(rest, i) {
          assert rest[i] == s[i + 1];
        }
      }
    }
  }

  // ---- other writers' spellings ---------------------------------------------------------------

  /** The character of a hexadecimal digit, in either case. */
  predicate IsHex(h: byte, n: nat) {
    if n < 10 then h as nat == '0' as nat + n
    else n < 16 && (h as nat == 'A' as nat + (n - 10) || h as nat == 'a' as nat + (n - 10))
  }

  /** A digit has the value of the character that stands for it, and nothing else has one. */
  lemma DigitIff(h: byte, n: nat)
    ensures DigitValue(h) == Some(n) <==> IsHex(h, n)
  {
    assert '0' as nat == 0x30 && 'A' as nat == 0x41 && 'a' as nat == 0x61;
  }

  /** The ways to write one byte in a form: itself, an escape with digits of either case, a plus sign for a space. */
  predicate Spells(part: Bytes, b: byte) {
    || (part == [b] && b != PLUS && b != PERCENT)
    || (|part| == 3 && part[0] == PERCENT && IsHex(part[1], b as nat / 16) && IsHex(part[2], b as nat % 16))
    || (part == [PLUS] && b == SPACE)
  }

  lemma SpelledByte(part: Bytes, b: byte, rest: Bytes)
    requires Spells(part, b)
    ensures Decode(part + rest) == [b] + Decode(rest)
  {
    var s := part + rest;
    if |part| == 3 {
      DigitIff(part[1], b as nat / 16);
      DigitIff(part[2], b as nat % 16);
      assert s[1] == part[1] && s[2] == part[2] && s[3..] == rest;
    } else {
      assert s[1..] == rest;
    }
  }

  /** However each byte is written, the value comes back. */
  lemma {:induction false} AnySpellingDecodes(parts: seq<Bytes>, s: Bytes)
    requires |parts| == |s| && forall i :: 0 <= i < |s| ==> Spells(parts[i], s[i])
    ensures Decode(Flatten(parts)) == s
  {
    if s != [] {
      AnySpellingDecodes(parts[1..], s[1..]);
      SpelledByte(parts[0], s[0], Flatten(parts[1..]));
    }
  }
}
