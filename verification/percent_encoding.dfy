/** Percent-encoding of strings into URL query components, and the decoders
    that invert it.

    Two encoders are used by the application:
    - the `application/x-www-form-urlencoded` serializer of section 5.2 of the
      WHATWG URL Standard, behind `URLSearchParams.prototype.toString`;
    - `encodeURIComponent` of section 19.2.6.5 of ECMA-262.
    Both UTF-8-encode the string and then percent-encode every byte outside a
    fixed safe set, with upper-case hexadecimal digits; the form serializer
    additionally writes a space as `+`. */
module PercentEncoding {
  import opened Wrappers
  import opened Utf8
  import Strings

  /** Which of the two encoders is meant. */
  datatype EncodeSet = FormUrlencoded | UriComponent

  predicate IsAsciiAlphanumeric(b: byte) {
    (0x30 <= b <= 0x39) || (0x41 <= b <= 0x5A) || (0x61 <= b <= 0x7A)
  }

  /** The bytes an encoder writes as themselves. For the form serializer these
      are the bytes outside the application/x-www-form-urlencoded
      percent-encode set (section 1.3 of the WHATWG URL Standard): ASCII
      alphanumerics and `*-._`. For encodeURIComponent they are the URI
      unreserved marks: ASCII alphanumerics and `-_.!~*'()`. */
  predicate Keeps(enc: EncodeSet, b: byte) {
    match enc
    case FormUrlencoded =>
      IsAsciiAlphanumeric(b) || b == 0x2A || b == 0x2D || b == 0x2E || b == 0x5F
    case UriComponent =>
      IsAsciiAlphanumeric(b) || b == 0x2D || b == 0x5F || b == 0x2E || b == 0x21
      || b == 0x7E || b == 0x2A || b == 0x27 || b == 0x28 || b == 0x29
  }

  const UpperHex := "0123456789ABCDEF"

  /** The characters an encoder can emit. */
  predicate Emitted(enc: EncodeSet, c: char) {
    || c == '%'
    || (enc == FormUrlencoded && c == '+')
    || (c as int < 0x80 && Keeps(enc, c as int as byte))
  }

  function EncodeByte(enc: EncodeSet, b: byte): (r: string)
    ensures forall i :: 0 <= i < |r| ==> Emitted(enc, r[i])
  {
    if enc == FormUrlencoded && b == 0x20 then "+"
    else if Keeps(enc, b) then [b as int as char]
    else ['%', UpperHex[b / 16], UpperHex[b % 16]]
  }

  function EncodeBytes(enc: EncodeSet, bs: seq<byte>): (r: string)
    ensures forall i :: 0 <= i < |r| ==> Emitted(enc, r[i])
  {
    if |bs| == 0 then "" else EncodeByte(enc, bs[0]) + EncodeBytes(enc, bs[1..])
  }

  /** Percent-encodes the UTF-8 form of `s`. The output never contains the
      query delimiters `&` and `=`, so a pair of encoded components can be
      split apart again unambiguously. */
  function Encode(enc: EncodeSet, s: string): (r: string)
    ensures forall i :: 0 <= i < |r| ==> Emitted(enc, r[i])
    ensures '&' !in r && '=' !in r && '?' !in r
  {
    EncodeBytes(enc, Utf8.Encode(s))
  }

  /** `encodeURIComponent`. A Dafny string holds only scalar values, so the
      URIError it throws on a lone surrogate cannot arise. */
  function EncodeUriComponent(s: string): string {
    Encode(UriComponent, s)
  }

  predicate IsHexChar(c: char) {
    ('0' <= c <= '9') || ('A' <= c <= 'F') || ('a' <= c <= 'f')
  }

  function HexValue(c: char): (v: int)
    requires IsHexChar(c)
    ensures 0 <= v < 16
  {
    if '0' <= c <= '9' then c as int - '0' as int
    else if 'A' <= c <= 'F' then c as int - 'A' as int + 10
    else c as int - 'a' as int + 10
  }

  /** Percent-decoding (section 1.3 of the WHATWG URL Standard) of the UTF-8
      form of `s`: `%` followed by two hexadecimal digits becomes that byte, a
      `%` not so followed stays as it is, and with `plusAsSpace` a `+`
      becomes a space, as the form parser does. */
  function PercentDecode(s: string, plusAsSpace: bool): seq<byte>
  {
    if |s| == 0 then []
    else if s[0] == '%' && |s| >= 3 && IsHexChar(s[1]) && IsHexChar(s[2]) then
      [(HexValue(s[1]) * 16 + HexValue(s[2])) as byte] + PercentDecode(s[3..], plusAsSpace)
    else if s[0] == '+' && plusAsSpace then
      [0x20] + PercentDecode(s[1..], plusAsSpace)
    else
      Utf8.EncodeChar(s[0]) + PercentDecode(s[1..], plusAsSpace)
  }

  /** Decodes one query component back to a string; None when the bytes are
      not well-formed UTF-8. */
  function DecodeComponent(t: string, plusAsSpace: bool): Option<string> {
    Utf8.Decode(PercentDecode(t, plusAsSpace))
  }

  lemma DecodeEncodeByte(enc: EncodeSet, b: byte, rest: string)
    ensures PercentDecode(EncodeByte(enc, b) + rest, enc == FormUrlencoded)
         == [b] + PercentDecode(rest, enc == FormUrlencoded)
  {
    var e := EncodeByte(enc, b);
    var plus := enc == FormUrlencoded;
    if enc == FormUrlencoded && b == 0x20 {
      assert (e + rest)[1..] == rest;
    } else if Keeps(enc, b) {
      assert (e + rest)[0] == b as int as char;
      assert (e + rest)[1..] == rest;
      assert Utf8.EncodeChar(b as int as char) == [b];
    } else {
      DecodeEscape(b, rest, plus);
    }
  }

  /** An escape `%XY` written with UpperHex decodes back to its byte. */
  lemma DecodeEscape(b: byte, rest: string, plusAsSpace: bool)
    ensures PercentDecode(['%', UpperHex[b / 16], UpperHex[b % 16]] + rest, plusAsSpace)
         == [b] + PercentDecode(rest, plusAsSpace)
  {
    var s := ['%', UpperHex[b / 16], UpperHex[b % 16]] + rest;
    UpperHexDigit(b as int / 16);
    UpperHexDigit(b as int % 16);
    assert s[0] == '%' && s[1] == UpperHex[b / 16] && s[2] == UpperHex[b % 16];
    assert s[3..] == rest;
  }

  lemma UpperHexDigit(k: int)
    requires 0 <= k < 16
    ensures IsHexChar(UpperHex[k]) && HexValue(UpperHex[k]) == k
  {
  }

  lemma {:induction false} DecodeEncodeBytes(enc: EncodeSet, bs: seq<byte>)
    ensures PercentDecode(EncodeBytes(enc, bs), enc == FormUrlencoded) == bs
  {
    if |bs| > 0 {
      DecodeEncodeByte(enc, bs[0], EncodeBytes(enc, bs[1..]));
      DecodeEncodeBytes(enc, bs[1..]);
      assert [bs[0]] + bs[1..] == bs;
    }
  }

  /** Decoding an encoded component gives back the original string. */
  lemma ComponentRoundTrip(enc: EncodeSet, s: string)
    ensures DecodeComponent(Encode(enc, s), enc == FormUrlencoded) == Some(s)
  {
    DecodeEncodeBytes(enc, Utf8.Encode(s));
    Utf8.DecodeEncode(s);
  }

  /** The characters both encoders write as themselves: ASCII letters and
      digits and `-._*`. */
  predicate AlwaysKept(c: char) {
    ('0' <= c <= '9') || ('A' <= c <= 'Z') || ('a' <= c <= 'z') || c == '-' || c == '.' || c == '_' || c == '*'
  }

  /** A string made only of such characters is encoded as itself. */
  lemma {:induction false} EncodeKeepsSafe(enc: EncodeSet, s: string)
    requires forall i :: 0 <= i < |s| ==> AlwaysKept(s[i])
    ensures Encode(enc, s) == s
  {
    if |s| > 0 {
      assert Utf8.Encode(s) == Utf8.EncodeChar(s[0]) + Utf8.Encode(s[1..]);
      assert Utf8.EncodeChar(s[0]) == [s[0] as int as byte];
      EncodeKeepsSafe(enc, s[1..]);
      assert [s[0]] + s[1..] == s;
    }
  }

  lemma EncodeAppend(enc: EncodeSet, s: string, t: string)
    ensures Encode(enc, s + t) == Encode(enc, s) + Encode(enc, t)
  {
    Utf8.EncodeAppend(s, t);
    EncodeBytesAppend(enc, Utf8.Encode(s), Utf8.Encode(t));
  }

  lemma {:induction false} EncodeBytesAppend(enc: EncodeSet, a: seq<byte>, b: seq<byte>)
    ensures EncodeBytes(enc, a + b) == EncodeBytes(enc, a) + EncodeBytes(enc, b)
  {
    if |a| > 0 {
      assert (a + b)[1..] == a[1..] + b;
      EncodeBytesAppend(enc, a[1..], b);
    } else {
      assert a + b == b;
    }
  }

  // ---------------------------------------------------------------------
  // Query strings: name=value pairs joined by `&`.
  // ---------------------------------------------------------------------

  function EncodePair(enc: EncodeSet, p: (string, string)): (r: string)
    ensures '&' !in r
  {
    Encode(enc, p.0) + "=" + Encode(enc, p.1)
  }

  /** The serialization of a list of name-value pairs with the given
      encoder. With FormUrlencoded this is the application/x-www-form-urlencoded
      serializer of section 5.2 of the WHATWG URL Standard: each name and value
      is encoded, joined by `=`, and the pairs are joined by `&` in list order. */
  function SerializeQuery(enc: EncodeSet, pairs: seq<(string, string)>): string {
    Strings.Join(seq(|pairs|, i requires 0 <= i < |pairs| => EncodePair(enc, pairs[i])), '&')
  }

  lemma SerializeTwo(enc: EncodeSet, p: (string, string), q: (string, string))
    ensures SerializeQuery(enc, [p, q]) == EncodePair(enc, p) + "&" + EncodePair(enc, q)
  {
    var pairs := [p, q];
    var pieces := seq(|pairs|, i requires 0 <= i < |pairs| => EncodePair(enc, pairs[i]));
    assert pieces == [EncodePair(enc, p), EncodePair(enc, q)];
    assert pieces[1..] == [EncodePair(enc, q)];
    assert Strings.Join(pieces, '&') == pieces[0] + ['&'] + Strings.Join(pieces[1..], '&');
  }

  /** The parser of section 5.1 of the WHATWG URL Standard, generalised over
      whether `+` means a space: split on `&`, skip empty pieces, split each
      piece at its first `=` (no `=` means an empty value), and decode both
      halves. The standard replaces ill-formed UTF-8 by U+FFFD; this decoder
      returns None instead. */
  function ParseQuery(q: string, plusAsSpace: bool): Option<seq<(string, string)>> {
    ParsePieces(Strings.SplitOn(q, '&'), plusAsSpace)
  }

  function ParsePieces(pieces: seq<string>, plusAsSpace: bool): Option<seq<(string, string)>> {
    if |pieces| == 0 then Some([])
    else if pieces[0] == "" then ParsePieces(pieces[1..], plusAsSpace)
    else
      var (n, v) := Strings.SplitFirst(pieces[0], '=');
      match (DecodeComponent(n, plusAsSpace), DecodeComponent(v, plusAsSpace), ParsePieces(pieces[1..], plusAsSpace))
      case (Some(name), Some(value), Some(rest)) => Some([(name, value)] + rest)
      case _ => None
  }

  lemma {:induction false} ParseEncodedPieces(enc: EncodeSet, pairs: seq<(string, string)>, pieces: seq<string>)
    requires |pieces| == |pairs|
    requires forall i :: 0 <= i < |pairs| ==> pieces[i] == EncodePair(enc, pairs[i])
    ensures ParsePieces(pieces, enc == FormUrlencoded) == Some(pairs)
  {
    if |pairs| > 0 {
      ParseEncodedPair(enc, pairs[0]);
      ParseEncodedPieces(enc, pairs[1..], pieces[1..]);
      assert [pairs[0]] + pairs[1..] == pairs;
    }
  }

  /** One encoded pair is a non-empty piece that splits at its `=` into the
      encoded name and value, which decode back to the pair. */
  lemma ParseEncodedPair(enc: EncodeSet, p: (string, string))
    ensures EncodePair(enc, p) != ""
    ensures Strings.SplitFirst(EncodePair(enc, p), '=') == (Encode(enc, p.0), Encode(enc, p.1))
    ensures DecodeComponent(Encode(enc, p.0), enc == FormUrlencoded) == Some(p.0)
    ensures DecodeComponent(Encode(enc, p.1), enc == FormUrlencoded) == Some(p.1)
  {
    assert EncodePair(enc, p) == Encode(enc, p.0) + ['='] + Encode(enc, p.1);
    Strings.SplitFirstAt(Encode(enc, p.0), '=', Encode(enc, p.1));
    ComponentRoundTrip(enc, p.0);
    ComponentRoundTrip(enc, p.1);
  }

  /** Parsing a serialized query gives back exactly the pairs, in order. */
  lemma QueryRoundTrip(enc: EncodeSet, pairs: seq<(string, string)>)
    ensures ParseQuery(SerializeQuery(enc, pairs), enc == FormUrlencoded) == Some(pairs)
  {
    var pieces := seq(|pairs|, i requires 0 <= i < |pairs| => EncodePair(enc, pairs[i]));
    assert SerializeQuery(enc, pairs) == Strings.Join(pieces, '&');
    if |pairs| == 0 {
      assert Strings.SplitOn("", '&') == [""];
      assert ParsePieces([""], enc == FormUrlencoded) == ParsePieces([], enc == FormUrlencoded);
    } else {
      assert forall i :: 0 <= i < |pieces| ==> '&' !in pieces[i];
      Strings.SplitJoin(pieces, '&');
      ParseEncodedPieces(enc, pairs, pieces);
    }
  }
}
