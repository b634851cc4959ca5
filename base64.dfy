/**
 * Base64 as RFC 4648 section 4 defines it (the standard alphabet with `=`
 * padding), the encoding Node's `Buffer.toString("base64")` produces.  The
 * decoder is the terminal's side of the exchange: it is what the round-trip
 * lemmas are stated against.
 */
module Base64 {
  import opened Wrappers
  import Printf

  type byte = x: int | 0 <= x < 256
  type sextet = x: int | 0 <= x < 64

  const Pad: char := '='

  /** The inverse of the alphabet: `None` for a character outside it. */
  function DecodeChar(c: char): (r: Option<sextet>)
    ensures r.Some? ==> c != Pad && c != '\\' && c != '%'
  {
    if 'A' <= c <= 'Z' then Some(c as int - 'A' as int)
    else if 'a' <= c <= 'z' then Some(c as int - 'a' as int + 26)
    else if '0' <= c <= '9' then Some(c as int - '0' as int + 52)
    else if c == '+' then Some(62)
    else if c == '/' then Some(63)
    else None
  }

  /** The alphabet: A-Z, a-z, 0-9, `+`, `/`. */
  function EncodeChar(v: sextet): (c: char)
    ensures DecodeChar(c) == Some(v)
    ensures c != Pad && c != '\\' && c != '%'
  {
    if v < 26 then ('A' as int + v) as char
    else if v < 52 then ('a' as int + (v - 26)) as char
    else if v < 62 then ('0' as int + (v - 52)) as char
    else if v == 62 then '+'
    else '/'
  }

  /** Three bytes become four characters, six bits each, most significant first. */
  function EncodeTriple(b0: byte, b1: byte, b2: byte): string {
    [EncodeChar(b0 / 4), EncodeChar((b0 % 4) * 16 + b1 / 16),
     EncodeChar((b1 % 16) * 4 + b2 / 64), EncodeChar(b2 % 64)]
  }

  function Encode(bytes: seq<byte>): (s: string)
    ensures |s| == 4 * ((|bytes| + 2) / 3)
    ensures Printf.Literal(s)
    decreases |bytes|
  {
    if |bytes| == 0 then ""
    else if |bytes| == 1 then
      [EncodeChar(bytes[0] / 4), EncodeChar((bytes[0] % 4) * 16), Pad, Pad]
    else if |bytes| == 2 then
      [EncodeChar(bytes[0] / 4), EncodeChar((bytes[0] % 4) * 16 + bytes[1] / 16),
       EncodeChar((bytes[1] % 16) * 4), Pad]
    else
      EncodeTriple(bytes[0], bytes[1], bytes[2]) + Encode(bytes[3..])
  }

  /**
   * One group of four characters; padding is accepted only in the last group
   * (`last`), as `xx==` (one byte) or `xxx=` (two bytes).
   */
  function DecodeQuad(q: string, last: bool): (r: Option<seq<byte>>)
    requires |q| == 4
    ensures r.Some? ==> 1 <= |r.value| <= 3
  {
    var c0, c1, c2, c3 := DecodeChar(q[0]), DecodeChar(q[1]), DecodeChar(q[2]), DecodeChar(q[3]);
    if c0.None? || c1.None? then None
    else if last && q[2] == Pad && q[3] == Pad then
      Some([c0.value * 4 + c1.value / 16])
    else if c2.None? then None
    else if last && q[3] == Pad then
      Some([c0.value * 4 + c1.value / 16, (c1.value % 16) * 16 + c2.value / 4])
    else if c3.None? then None
    else
      Some([c0.value * 4 + c1.value / 16, (c1.value % 16) * 16 + c2.value / 4,
            (c2.value % 4) * 64 + c3.value])
  }

  /** Strict decoding: the length must be a multiple of four. */
  function Decode(s: string): (r: Option<seq<byte>>)
    decreases |s|
  {
    if |s| == 0 then Some([])
    else if |s| < 4 then None
    else
      match DecodeQuad(s[..4], |s| == 4)
      case None => None
      case Some(head) =>
        match Decode(s[4..])
        case None => None
        case Some(tail) => Some(head + tail)
  }

  lemma TripleRoundTrip(b0: byte, b1: byte, b2: byte, last: bool)
    ensures DecodeQuad(EncodeTriple(b0, b1, b2), last) == Some([b0, b1, b2])
  {
    var c1 := (b0 % 4) * 16 + b1 / 16;
    var c2 := (b1 % 16) * 4 + b2 / 64;
    assert c1 / 16 == b0 % 4 && c1 % 16 == b1 / 16;
    assert c2 / 4 == b1 % 16 && c2 % 4 == b2 / 64;
  }

  /** The final group of a one-byte tail, `xx==`. */
  lemma OneByteRoundTrip(b0: byte)
    ensures Decode(Encode([b0])) == Some([b0])
  {
    var s := Encode([b0]);
    var c1 := (b0 % 4) * 16;
    assert c1 / 16 == b0 % 4;
    assert s[..4] == s && s[4..] == [];
    assert DecodeQuad(s[..4], true) == Some([b0]);
    assert Decode(s[4..]) == Some([]);
    assert [b0] + [] == [b0];
  }

  /** The final group of a two-byte tail, `xxx=`. */
  lemma TwoBytesRoundTrip(b0: byte, b1: byte)
    ensures Decode(Encode([b0, b1])) == Some([b0, b1])
  {
    var s := Encode([b0, b1]);
    var c1 := (b0 % 4) * 16 + b1 / 16;
    var c2 := (b1 % 16) * 4;
    assert c1 / 16 == b0 % 4 && c1 % 16 == b1 / 16;
    assert c2 / 4 == b1 % 16;
    assert s[..4] == s && s[4..] == [];
    assert DecodeQuad(s[..4], true) == Some([b0, b1]);
    assert Decode(s[4..]) == Some([]);
    assert [b0, b1] + [] == [b0, b1];
  }

  /** Decoding a group, then the rest. */
  lemma DecodeGroup(head: string, rest: string, hb: seq<byte>, tb: seq<byte>)
    requires |head| == 4
    requires DecodeQuad(head, |rest| == 0) == Some(hb)
    requires Decode(rest) == Some(tb)
    ensures Decode(head + rest) == Some(hb + tb)
  {
    var s := head + rest;
    assert s[..4] == head && s[4..] == rest;
  }

  lemma ShortParts<T>(xs: seq<T>)
    ensures |xs| == 1 ==> xs == [xs[0]]
    ensures |xs| == 2 ==> xs == [xs[0], xs[1]]
    ensures |xs| >= 3 ==> xs == [xs[0], xs[1], xs[2]] + xs[3..]
  {
  }

  /** A full group in front of a tail that already round-trips. */
  lemma GroupRoundTrip(bytes: seq<byte>)
    requires |bytes| >= 3
    requires Decode(Encode(bytes[3..])) == Some(bytes[3..])
    ensures Decode(Encode(bytes)) == Some(bytes)
  {
    var rest := Encode(bytes[3..]);
    TripleRoundTrip(bytes[0], bytes[1], bytes[2], |rest| == 0);
    DecodeGroup(EncodeTriple(bytes[0], bytes[1], bytes[2]), rest, [bytes[0], bytes[1], bytes[2]], bytes[3..]);
    ShortParts(bytes);
  }

  /** Decoding what was encoded gives the bytes back. */
  lemma {:induction false} RoundTrip(bytes: seq<byte>)
    ensures Decode(Encode(bytes)) == Some(bytes)
    decreases |bytes|
  {
    ShortParts(bytes);
    if |bytes| == 1 {
      OneByteRoundTrip(bytes[0]);
    } else if |bytes| == 2 {
      TwoBytesRoundTrip(bytes[0], bytes[1]);
    } else if |bytes| >= 3 {
      RoundTrip(bytes[3..]);
      GroupRoundTrip(bytes);
    }
  }

  /** The payload of the remote probe: one 24-bit pixel of value zero. */
  lemma ZeroPixel()
    ensures Encode([0, 0, 0]) == "AAAA"
  {
    assert Encode([0, 0, 0][3..]) == "";
  }
}
