/** UTF-8 as defined by RFC 3629, section 3: the `Encoding.UTF8.GetBytes` step
    of the hashing pipeline. A Dafny `char` is a Unicode scalar value, so
    every character has exactly one encoding of one to four octets. */
module Utf8 {

  import opened Wrappers
  import opened Bytes

  /** A continuation octet, `10xxxxxx`. */
  predicate IsContinuation(b: Byte) {
    0x80 <= b < 0xC0
  }

  /** The octet sequence RFC 3629 assigns to one scalar value: the value's
      bits, six at a time from the right, behind a length-announcing lead. */
  function EncodeScalar(c: char): (r: seq<Byte>)
    ensures 1 <= |r| <= 4
    ensures |r| == 1 <==> c as int < 0x80
    ensures |r| == 1 ==> r[0] == c as int
  {
    var n := c as int;
    var q1 := n / 0x40;
    var q2 := q1 / 0x40;
    var q3 := q2 / 0x40;
    if n < 0x80 then [n]
    else if n < 0x800 then [0xC0 + q1, 0x80 + n % 0x40]
    else if n < 0x1_0000 then [0xE0 + q2, 0x80 + q1 % 0x40, 0x80 + n % 0x40]
    else [0xF0 + q3, 0x80 + q2 % 0x40, 0x80 + q1 % 0x40, 0x80 + n % 0x40]
  }

  /** `Encoding.UTF8.GetBytes`: the concatenation of the characters' encodings. */
  function Encode(s: string): (r: seq<Byte>)
    ensures |s| <= |r| <= 4 * |s|
  {
    if |s| == 0 then [] else EncodeScalar(s[0]) + Encode(s[1..])
  }

  /** Reads one scalar value from the front of `b`: the character and the
      number of octets it took. Rejects stray continuation octets, truncated
      sequences, overlong forms, surrogates and values above U+10FFFF. */
  function DecodeScalar(b: seq<Byte>): (r: Option<(char, nat)>)
    ensures r.Some? ==> 1 <= r.value.1 <= |b| && r.value.1 <= 4
  {
    if |b| == 0 then None
    else if b[0] < 0x80 then Some((b[0] as char, 1))
    else if 0xC2 <= b[0] < 0xE0 && |b| >= 2 && IsContinuation(b[1]) then
      var n := (b[0] as int - 0xC0) * 0x40 + (b[1] as int - 0x80);
      Some((n as char, 2))
    else if 0xE0 <= b[0] < 0xF0 && |b| >= 3 && IsContinuation(b[1]) && IsContinuation(b[2]) then
      var n := ((b[0] as int - 0xE0) * 0x40 + (b[1] as int - 0x80)) * 0x40 + (b[2] as int - 0x80);
      if 0x800 <= n < 0xD800 || 0xE000 <= n then Some((n as char, 3)) else None
    else if 0xF0 <= b[0] < 0xF5 && |b| >= 4 && IsContinuation(b[1]) && IsContinuation(b[2])
         && IsContinuation(b[3]) then
      var n := (((b[0] as int - 0xF0) * 0x40 + (b[1] as int - 0x80)) * 0x40 + (b[2] as int - 0x80)) * 0x40
        + (b[3] as int - 0x80);
      if 0x1_0000 <= n <= 0x10_FFFF then Some((n as char, 4)) else None
    else None
  }

  /** The inverse of `Encode`: `None` for octets that are not well-formed UTF-8. */
  function Decode(b: seq<Byte>): Option<string>
    decreases |b|
  {
    if |b| == 0 then Some("")
    else match DecodeScalar(b)
      case None => None
      case Some((c, k)) =>
        match Decode(b[k..])
        case None => None
        case Some(rest) => Some([c] + rest)
  }

  /** Decoding the front of an encoded character gives the character back,
      whatever follows it. */
  lemma DecodeEncodeScalar(c: char, rest: seq<Byte>)
    ensures DecodeScalar(EncodeScalar(c) + rest) == Some((c, |EncodeScalar(c)|))
  {
    var n := c as int;
    var q1 := n / 0x40;
    var q2 := q1 / 0x40;
    var q3 := q2 / 0x40;
    var b := EncodeScalar(c) + rest;
    assert n == q1 * 0x40 + n % 0x40;
    assert q1 == q2 * 0x40 + q1 % 0x40;
    assert q2 == q3 * 0x40 + q2 % 0x40;
    if n < 0x80 {
    } else if n < 0x800 {
      assert b[0] == 0xC0 + q1 && b[1] == 0x80 + n % 0x40;
    } else if n < 0x1_0000 {
      assert b[0] == 0xE0 + q2 && b[1] == 0x80 + q1 % 0x40 && b[2] == 0x80 + n % 0x40;
    } else {
      assert b[0] == 0xF0 + q3 && b[1] == 0x80 + q2 % 0x40;
      assert b[2] == 0x80 + q1 % 0x40 && b[3] == 0x80 + n % 0x40;
    }
  }

  /** Round trip: decoding an encoding gives back the text. */
  lemma {:induction false} DecodeEncode(s: string)
    ensures Decode(Encode(s)) == Some(s)
    decreases |s|
  {
    if |s| > 0 {
      var head := EncodeScalar(s[0]);
      var b := head + Encode(s[1..]);
      DecodeEncodeScalar(s[0], Encode(s[1..]));
      assert b[|head|..] == Encode(s[1..]);
      DecodeEncode(s[1..]);
      assert s == [s[0]] + s[1..];
    }
  }

  /** Different texts never give the same octets, so distinct content is
      distinct digest input. */
  lemma EncodeInjective(s: string, t: string)
    ensures Encode(s) == Encode(t) <==> s == t
  {
    DecodeEncode(s);
    DecodeEncode(t);
  }

  /** Every character is below U+0080. */
  predicate IsAscii(s: string) {
    forall i | 0 <= i < |s| :: s[i] as int < 0x80
  }

  /** ASCII text encodes to one octet per character, each with the
      character's own value. */
  lemma {:induction false} EncodeAscii(s: string)
    requires IsAscii(s)
    ensures |Encode(s)| == |s|
    ensures forall i | 0 <= i < |s| :: Encode(s)[i] == s[i] as int
    decreases |s|
  {
    if |s| > 0 {
      assert s[0] as int < 0x80;
      assert IsAscii(s[1..]) by {
        forall i | 0 <= i < |s| - 1 ensures s[1..][i] as int < 0x80 {
          assert s[1..][i] == s[i + 1];
        }
      }
      EncodeAscii(s[1..]);
    }
  }

  /** Conversely, a text whose encoding is as long as the text itself is ASCII. */
  lemma {:induction false} SameLengthIsAscii(s: string)
    requires |Encode(s)| == |s|
    ensures IsAscii(s)
    decreases |s|
  {
    if |s| > 0 {
      assert |EncodeScalar(s[0])| == 1;
      SameLengthIsAscii(s[1..]);
      forall i | 0 <= i < |s| ensures s[i] as int < 0x80 {
        if i > 0 {
          assert s[i] == s[1..][i - 1];
        }
      }
    }
  }
}
