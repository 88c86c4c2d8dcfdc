/** UTF-8 encoding of Unicode scalar values, as used by every percent-encoder
    the application relies on (`URLSearchParams` and `encodeURIComponent` both
    encode a string as UTF-8 before percent-encoding its bytes). */
module Utf8 {
  import opened Wrappers

  newtype byte = b: int | 0 <= b < 256

  /** The scalar value of a character. */
  function CodePoint(c: char): (cp: int)
    ensures 0 <= cp < 0xD800 || 0xE000 <= cp < 0x11_0000
  {
    c as int
  }

  predicate IsContinuation(b: byte) {
    0x80 <= b < 0xC0
  }

  /** The one- to four-byte UTF-8 form of a character. */
  function EncodeChar(c: char): (r: seq<byte>)
    ensures 1 <= |r| <= 4
    ensures (|r| == 1) <==> CodePoint(c) < 0x80
    ensures |r| == 1 ==> r[0] as int == CodePoint(c)
    ensures !IsContinuation(r[0])
    ensures forall i :: 1 <= i < |r| ==> IsContinuation(r[i])
  {
    var cp := CodePoint(c);
    if cp < 0x80 then
      [cp as byte]
    else if cp < 0x800 then
      [(0xC0 + cp / 64) as byte, (0x80 + cp % 64) as byte]
    else if cp < 0x1_0000 then
      [(0xE0 + cp / 4096) as byte, (0x80 + (cp / 64) % 64) as byte, (0x80 + cp % 64) as byte]
    else
      [(0xF0 + cp / 262144) as byte, (0x80 + (cp / 4096) % 64) as byte,
       (0x80 + (cp / 64) % 64) as byte, (0x80 + cp % 64) as byte]
  }

  function Encode(s: string): seq<byte>
  {
    if |s| == 0 then [] else EncodeChar(s[0]) + Encode(s[1..])
  }

  /** Decodes the first character of `bs`, returning it with the number of
      bytes it occupies. Overlong forms, surrogates, values above U+10FFFF and
      truncated sequences are rejected. */
  function DecodeFirst(bs: seq<byte>): (r: Option<(char, nat)>)
    ensures r.Some? ==> 1 <= r.value.1 <= |bs|
  {
    if |bs| == 0 then None
    else
      var b0 := bs[0] as int;
      if b0 < 0x80 then Some((b0 as char, 1))
      else if 0xC2 <= b0 < 0xE0 then
        if |bs| < 2 || !IsContinuation(bs[1]) then None
        else Some((((b0 - 0xC0) * 64 + (bs[1] as int - 0x80)) as char, 2))
      else if 0xE0 <= b0 < 0xF0 then
        if |bs| < 3 || !IsContinuation(bs[1]) || !IsContinuation(bs[2]) then None
        else
          var cp := (b0 - 0xE0) * 4096 + (bs[1] as int - 0x80) * 64 + (bs[2] as int - 0x80);
          if cp < 0x800 || 0xD800 <= cp < 0xE000 then None else Some((cp as char, 3))
      else if 0xF0 <= b0 < 0xF5 then
        if |bs| < 4 || !IsContinuation(bs[1]) || !IsContinuation(bs[2]) || !IsContinuation(bs[3]) then None
        else
          var cp := (b0 - 0xF0) * 262144 + (bs[1] as int - 0x80) * 4096
                    + (bs[2] as int - 0x80) * 64 + (bs[3] as int - 0x80);
          if cp < 0x1_0000 || 0x11_0000 <= cp then None else Some((cp as char, 4))
      else None
  }

  /** Strict UTF-8 decoding: None for any ill-formed input. */
  function Decode(bs: seq<byte>): Option<string>
    decreases |bs|
  {
    if |bs| == 0 then Some("")
    else
      match DecodeFirst(bs)
      case None => None
      case Some((c, n)) =>
        match Decode(bs[n..])
        case None => None
        case Some(rest) => Some([c] + rest)
  }

  lemma EncodeAppend(s: string, t: string)
    ensures Encode(s + t) == Encode(s) + Encode(t)
  {
    if |s| == 0 {
      assert s + t == t;
    } else {
      assert (s + t)[1..] == s[1..] + t;
      EncodeAppend(s[1..], t);
    }
  }

  /** A single character's encoding decodes back to that character, whatever follows it. */
  lemma DecodeFirstEncodeChar(c: char, rest: seq<byte>)
    ensures DecodeFirst(EncodeChar(c) + rest) == Some((c, |EncodeChar(c)|))
  {
    var cp := CodePoint(c);
    var bs := EncodeChar(c) + rest;
    if cp < 0x80 {
    } else if cp < 0x800 {
      assert bs[0] as int == 0xC0 + cp / 64;
      assert bs[1] as int == 0x80 + cp % 64;
      assert (cp / 64) * 64 + cp % 64 == cp;
    } else if cp < 0x1_0000 {
      var q := cp / 64;
      assert bs[0] as int == 0xE0 + cp / 4096;
      assert bs[1] as int == 0x80 + q % 64;
      assert bs[2] as int == 0x80 + cp % 64;
      assert q * 64 + cp % 64 == cp;
      assert (q / 64) * 64 + q % 64 == q;
      assert q / 64 == cp / 4096;
    } else {
      var q := cp / 64;
      var p := q / 64;
      assert bs[0] as int == 0xF0 + cp / 262144;
      assert bs[1] as int == 0x80 + (cp / 4096) % 64;
      assert bs[2] as int == 0x80 + q % 64;
      assert bs[3] as int == 0x80 + cp % 64;
      assert q * 64 + cp % 64 == cp;
      assert p * 64 + q % 64 == q;
      assert p == cp / 4096;
      assert (p / 64) * 64 + p % 64 == p;
      assert p / 64 == cp / 262144;
    }
  }

  /** Decoding inverts encoding on every string. */
  lemma {:induction false} DecodeEncode(s: string)
    ensures Decode(Encode(s)) == Some(s)
  {
    if |s| == 0 {
    } else {
      var e := EncodeChar(s[0]);
      assert Encode(s) == e + Encode(s[1..]);
      DecodeFirstEncodeChar(s[0], Encode(s[1..]));
      assert (e + Encode(s[1..]))[|e|..] == Encode(s[1..]);
      DecodeEncode(s[1..]);
      assert [s[0]] + s[1..] == s;
    }
  }
}
