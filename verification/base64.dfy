/** The base 64 encoding of RFC 4648, section 4, with `=` padding:
    `Convert.ToBase64String`, the last step of the hashing pipeline. */
module Base64 {

  import opened Wrappers
  import opened Bytes

  /** A character of the RFC 4648 alphabet (not the pad character). */
  predicate IsAlphabetChar(c: char) {
    'A' <= c <= 'Z' || 'a' <= c <= 'z' || '0' <= c <= '9' || c == '+' || c == '/'
  }

  /** Text made only of alphabet and pad characters. */
  predicate IsBase64Text(s: string) {
    forall i | 0 <= i < |s| :: IsAlphabetChar(s[i]) || s[i] == '='
  }

  /** Table 1 of RFC 4648: the character for a 6-bit value. */
  function CharOf(i: int): (c: char)
    requires 0 <= i < 64
    ensures IsAlphabetChar(c)
  {
    if i < 26 then ('A' as int + i) as char
    else if i < 52 then ('a' as int + i - 26) as char
    else if i < 62 then ('0' as int + i - 52) as char
    else if i == 62 then '+'
    else '/'
  }

  /** Table 1 read backwards: the 6-bit value of an alphabet character. */
  function ValueOf(c: char): (i: int)
    requires IsAlphabetChar(c)
    ensures 0 <= i < 64 && CharOf(i) == c
  {
    if 'A' <= c <= 'Z' then c as int - 'A' as int
    else if 'a' <= c <= 'z' then c as int - 'a' as int + 26
    else if '0' <= c <= '9' then c as int - '0' as int + 52
    else if c == '+' then 62
    else 63
  }

  /** Distinct 6-bit values have distinct characters. */
  lemma ValueOfCharOf(i: int)
    requires 0 <= i < 64
    ensures ValueOf(CharOf(i)) == i
  {
  }

  /** Four characters for one 24-bit group b0 b1 b2, split into 6-bit values. */
  function EncodeGroup(b0: Byte, b1: Byte, b2: Byte): string {
    [CharOf(b0 / 4), CharOf((b0 % 4) * 16 + b1 / 16), CharOf((b1 % 16) * 4 + b2 / 64), CharOf(b2 % 64)]
  }

  /** `Convert.ToBase64String`: whole groups of three octets, then a final
      group of one or two octets padded with zero bits and `=`. */
  function Encode(b: seq<Byte>): (r: string)
    ensures IsBase64Text(r)
    decreases |b|
  {
    if |b| == 0 then ""
    else if |b| == 1 then EncodeGroup(b[0], 0, 0)[..2] + "=="
    else if |b| == 2 then EncodeGroup(b[0], b[1], 0)[..3] + "="
    else EncodeGroup(b[0], b[1], b[2]) + Encode(b[3..])
  }

  /** Octets of a group of four characters, `=` allowed in the last two
      places. As in section 3.5 of RFC 4648, the bits a padded group leaves
      over must be zero: only the group `Encode` emits is accepted. */
  function DecodeGroup(q: string): (r: Option<seq<Byte>>)
    requires |q| == 4
    ensures r.Some? ==> 1 <= |r.value| <= 3
  {
    if !(IsAlphabetChar(q[0]) && IsAlphabetChar(q[1])) then None
    else
      var v0, v1 := ValueOf(q[0]), ValueOf(q[1]);
      var o0 := v0 * 4 + v1 / 16;
      if q[2] == '=' && q[3] == '=' then (if v1 % 16 == 0 then Some([o0]) else None)
      else if !IsAlphabetChar(q[2]) then None
      else
        var v2 := ValueOf(q[2]);
        var o1 := (v1 % 16) * 16 + v2 / 4;
        if q[3] == '=' then (if v2 % 4 == 0 then Some([o0, o1]) else None)
        else if !IsAlphabetChar(q[3]) then None
        else Some([o0, o1, (v2 % 4) * 64 + ValueOf(q[3])])
  }

  /** The inverse of `Encode`: `None` for text that is not padded base 64,
      that has padding before its last group or non-zero pad bits. */
  function Decode(s: string): Option<seq<Byte>>
    decreases |s|
  {
    if |s| == 0 then Some([])
    else if |s| < 4 then None
    else match DecodeGroup(s[..4])
      case None => None
      case Some(head) =>
        if |s| == 4 then Some(head)
        else if |head| < 3 then None
        else match Decode(s[4..])
          case None => None
          case Some(rest) => Some(head + rest)
  }

  /** The 6-bit values of a group's characters put back together give the
      group's octets. */
  lemma RegroupOctets(b0: Byte, b1: Byte, b2: Byte)
    ensures var i0, i1, i2, i3 := b0 / 4, (b0 % 4) * 16 + b1 / 16, (b1 % 16) * 4 + b2 / 64, b2 % 64;
      && 0 <= i0 < 64 && 0 <= i1 < 64 && 0 <= i2 < 64 && 0 <= i3 < 64
      && i0 * 4 + i1 / 16 == b0
      && (i1 % 16) * 16 + i2 / 4 == b1
      && (i2 % 4) * 64 + i3 == b2
  {
  }

  /** A full group decodes back to its three octets. */
  lemma DecodeEncodeGroup(b0: Byte, b1: Byte, b2: Byte)
    ensures DecodeGroup(EncodeGroup(b0, b1, b2)) == Some([b0, b1, b2])
  {
    RegroupOctets(b0, b1, b2);
    ValueOfCharOf(b0 / 4);
    ValueOfCharOf((b0 % 4) * 16 + b1 / 16);
    ValueOfCharOf((b1 % 16) * 4 + b2 / 64);
    ValueOfCharOf(b2 % 64);
  }

  /** A final group of two octets decodes back to them. */
  lemma DecodeEncodeTwo(b0: Byte, b1: Byte)
    ensures DecodeGroup(EncodeGroup(b0, b1, 0)[..3] + "=") == Some([b0, b1])
  {
    RegroupOctets(b0, b1, 0);
    ValueOfCharOf(b0 / 4);
    ValueOfCharOf((b0 % 4) * 16 + b1 / 16);
    ValueOfCharOf((b1 % 16) * 4);
  }

  /** A final group of one octet decodes back to it. */
  lemma DecodeEncodeOne(b0: Byte)
    ensures DecodeGroup(EncodeGroup(b0, 0, 0)[..2] + "==") == Some([b0])
  {
    RegroupOctets(b0, 0, 0);
    ValueOfCharOf(b0 / 4);
    ValueOfCharOf((b0 % 4) * 16);
  }

  /** Decoding a full group followed by more groups. */
  lemma DecodeCons(head: string, tail: string, octets: seq<Byte>, rest: seq<Byte>)
    requires |head| == 4 && |tail| > 0
    requires DecodeGroup(head) == Some(octets) && |octets| == 3
    requires Decode(tail) == Some(rest)
    ensures Decode(head + tail) == Some(octets + rest)
  {
    var s := head + tail;
    assert s[..4] == head;
    assert s[4..] == tail;
  }

  /** A text of one group decodes as that group. */
  lemma DecodeSingle(q: string)
    requires |q| == 4
    ensures Decode(q) == DecodeGroup(q)
  {
    assert q[..4] == q;
  }

  /** Round trip for a final group of one or two octets. */
  lemma DecodeEncodeFinal(b: seq<Byte>)
    requires 1 <= |b| <= 2
    ensures Decode(Encode(b)) == Some(b)
  {
    if |b| == 1 {
      var s := EncodeGroup(b[0], 0, 0)[..2] + "==";
      assert Encode(b) == s;
      DecodeEncodeOne(b[0]);
      DecodeSingle(s);
      assert b == [b[0]];
    } else {
      var s := EncodeGroup(b[0], b[1], 0)[..3] + "=";
      assert Encode(b) == s;
      DecodeEncodeTwo(b[0], b[1]);
      DecodeSingle(s);
      assert b == [b[0], b[1]];
    }
  }

  /** Encoding a full first group. */
  lemma EncodeCons(b: seq<Byte>)
    requires |b| >= 3
    ensures Encode(b) == EncodeGroup(b[0], b[1], b[2]) + Encode(b[3..])
  {
  }

  /** A sequence is its first group followed by the rest. */
  lemma FirstThree(b: seq<Byte>)
    requires |b| >= 3
    ensures b == [b[0], b[1], b[2]] + b[3..]
  {
  }

  /** Round trip for a full first group, given the round trip for the rest. */
  lemma DecodeEncodeStep(b: seq<Byte>)
    requires |b| >= 3
    requires Decode(Encode(b[3..])) == Some(b[3..])
    ensures Decode(Encode(b)) == Some(b)
  {
    var head, tail := EncodeGroup(b[0], b[1], b[2]), Encode(b[3..]);
    var octets := [b[0], b[1], b[2]];
    EncodeCons(b);
    DecodeEncodeGroup(b[0], b[1], b[2]);
    FirstThree(b);
    DecodeGroupThenRest(head, tail, octets, b[3..]);
  }

  /** Decoding a full group followed by any (possibly empty) rest. */
  lemma DecodeGroupThenRest(head: string, tail: string, octets: seq<Byte>, rest: seq<Byte>)
    requires |head| == 4
    requires DecodeGroup(head) == Some(octets) && |octets| == 3
    requires Decode(tail) == Some(rest)
    ensures Decode(head + tail) == Some(octets + rest)
  {
    if |tail| == 0 {
      assert head + tail == head;
      assert rest == [];
      assert octets + rest == octets;
      DecodeSingle(head);
    } else {
      DecodeCons(head, tail, octets, rest);
    }
  }

  /** Round trip: decoding an encoding gives back the octets. */
  lemma {:induction false} DecodeEncode(b: seq<Byte>)
    ensures Decode(Encode(b)) == Some(b)
    decreases |b|
  {
    if 1 <= |b| <= 2 {
      DecodeEncodeFinal(b);
    } else if |b| >= 3 {
      DecodeEncode(b[3..]);
      DecodeEncodeStep(b);
    }
  }

  /** The 6-bit values of four characters, put together as octets and split
      again, come back unchanged. */
  lemma RegroupSextets(v0: int, v1: int, v2: int, v3: int)
    requires 0 <= v0 < 64 && 0 <= v1 < 64 && 0 <= v2 < 64 && 0 <= v3 < 64
    ensures var o0, o1, o2 := v0 * 4 + v1 / 16, (v1 % 16) * 16 + v2 / 4, (v2 % 4) * 64 + v3;
      && 0 <= o0 < 0x100 && 0 <= o1 < 0x100 && 0 <= o2 < 0x100
      && o0 / 4 == v0
      && (o0 % 4) * 16 + o1 / 16 == v1
      && (o1 % 16) * 4 + o2 / 64 == v2
      && o2 % 64 == v3
  {
  }

  /** A full group of four alphabet characters is the encoding of its octets. */
  lemma FullGroupCanonical(q: string, v0: int, v1: int, v2: int, v3: int, o0: Byte, o1: Byte, o2: Byte)
    requires |q| == 4 && 0 <= v0 < 64 && 0 <= v1 < 64 && 0 <= v2 < 64 && 0 <= v3 < 64
    requires q[0] == CharOf(v0) && q[1] == CharOf(v1) && q[2] == CharOf(v2) && q[3] == CharOf(v3)
    requires o0 == v0 * 4 + v1 / 16 && o1 == (v1 % 16) * 16 + v2 / 4 && o2 == (v2 % 4) * 64 + v3
    ensures EncodeGroup(o0, o1, o2) == q
  {
    RegroupSextets(v0, v1, v2, v3);
    assert o0 / 4 == v0 && (o0 % 4) * 16 + o1 / 16 == v1 && (o1 % 16) * 4 + o2 / 64 == v2 && o2 % 64 == v3;
    assert q == [CharOf(v0), CharOf(v1), CharOf(v2), CharOf(v3)];
  }

  /** A group ending in one `=` with zero pad bits is the encoding of its two
      octets. */
  lemma TwoOctetGroupCanonical(q: string, v0: int, v1: int, v2: int, o0: Byte, o1: Byte)
    requires |q| == 4 && 0 <= v0 < 64 && 0 <= v1 < 64 && 0 <= v2 < 64 && v2 % 4 == 0
    requires q[0] == CharOf(v0) && q[1] == CharOf(v1) && q[2] == CharOf(v2) && q[3] == '='
    requires o0 == v0 * 4 + v1 / 16 && o1 == (v1 % 16) * 16 + v2 / 4
    ensures EncodeGroup(o0, o1, 0)[..3] + "=" == q
  {
    RegroupSextets(v0, v1, v2, 0);
  }

  /** A group ending in `==` with zero pad bits is the encoding of its octet. */
  lemma OneOctetGroupCanonical(q: string, v0: int, v1: int, o0: Byte)
    requires |q| == 4 && 0 <= v0 < 64 && 0 <= v1 < 64 && v1 % 16 == 0
    requires q[0] == CharOf(v0) && q[1] == CharOf(v1) && q[2] == '=' && q[3] == '='
    requires o0 == v0 * 4 + v1 / 16
    ensures EncodeGroup(o0, 0, 0)[..2] + "==" == q
  {
    RegroupSextets(v0, v1, 0, 0);
  }

  /** A group that decodes is exactly the group `Encode` emits for its octets. */
  lemma EncodeDecodeGroup(q: string, o: seq<Byte>)
    requires |q| == 4 && DecodeGroup(q) == Some(o)
    ensures |o| == 3 ==> EncodeGroup(o[0], o[1], o[2]) == q
    ensures |o| == 2 ==> EncodeGroup(o[0], o[1], 0)[..3] + "=" == q
    ensures |o| == 1 ==> EncodeGroup(o[0], 0, 0)[..2] + "==" == q
  {
    var v0, v1 := ValueOf(q[0]), ValueOf(q[1]);
    if q[2] == '=' && q[3] == '=' {
      OneOctetGroupCanonical(q, v0, v1, o[0]);
    } else {
      var v2 := ValueOf(q[2]);
      if q[3] == '=' {
        TwoOctetGroupCanonical(q, v0, v1, v2, o[0], o[1]);
      } else {
        FullGroupCanonical(q, v0, v1, v2, ValueOf(q[3]), o[0], o[1], o[2]);
      }
    }
  }

  /** Encoding the octets of a decodable text gives the text back. */
  lemma {:induction false} EncodeDecode(s: string, b: seq<Byte>)
    requires Decode(s) == Some(b)
    ensures Encode(b) == s
    decreases |s|
  {
    if |s| > 0 {
      var head := DecodeGroup(s[..4]).value;
      EncodeDecodeGroup(s[..4], head);
      if |s| == 4 {
        assert b == head;
        if |b| == 3 {
          EncodeCons(b);
          assert b[3..] == [];
        }
      } else {
        var rest := Decode(s[4..]).value;
        EncodeDecode(s[4..], rest);
        assert b == head + rest;
        EncodeCons(b);
        assert b[3..] == rest;
        assert s == s[..4] + s[4..];
      }
    }
  }

  /** `Decode` and `Encode` are inverse bijections between octet strings and
      padded base 64 text: a text decodes to `b` exactly when it is the
      encoding of `b`, so the encoding of a digest, final group included, is
      the only text that stands for it. */
  lemma DecodeIffEncode(s: string, b: seq<Byte>)
    ensures Decode(s) == Some(b) <==> Encode(b) == s
  {
    if Decode(s) == Some(b) {
      EncodeDecode(s, b);
    }
    if Encode(b) == s {
      DecodeEncode(b);
    }
  }

  /** Different octet strings encode to different text. */
  lemma EncodeInjective(a: seq<Byte>, b: seq<Byte>)
    ensures Encode(a) == Encode(b) <==> a == b
  {
    DecodeEncode(a);
    DecodeEncode(b);
  }

  /** `EncodeShape` for a given length and pad count of the output. */
  lemma EncodeShapeWith(b: seq<Byte>, len: nat, pad: nat)
    requires len == 4 * ((|b| + 2) / 3) && pad == PadCount(|b|)
    ensures var s := Encode(b);
      && |s| == len && pad <= len
      && (forall i | 0 <= i < len - pad :: IsAlphabetChar(s[i]))
      && (forall i | len - pad <= i < len :: s[i] == '=')
  {
    EncodeShape(b);
  }

  /** The number of `=` characters that end the encoding of `n` octets. */
  function PadCount(n: nat): (p: nat)
    ensures p <= 2
  {
    (3 - n % 3) % 3
  }

  /** Four characters for every started group of three octets. */
  lemma {:induction false} EncodeLength(b: seq<Byte>)
    ensures |Encode(b)| == 4 * ((|b| + 2) / 3)
    decreases |b|
  {
    if |b| >= 3 {
      EncodeLength(b[3..]);
    }
  }

  /** The shape of every encoding: its length is 4 * ceil(n / 3), it ends in
      exactly `PadCount(n)` pad characters and everything before them is from
      the alphabet. */
  lemma {:induction false} EncodeShape(b: seq<Byte>)
    ensures var s, p := Encode(b), PadCount(|b|);
      && |s| == 4 * ((|b| + 2) / 3)
      && p <= |s|
      && (forall i | 0 <= i < |s| - p :: IsAlphabetChar(s[i]))
      && (forall i | |s| - p <= i < |s| :: s[i] == '=')
    decreases |b|
  {
    EncodeLength(b);
    if |b| >= 3 {
      var s, head, tail := Encode(b), EncodeGroup(b[0], b[1], b[2]), Encode(b[3..]);
      EncodeShape(b[3..]);
      assert PadCount(|b|) == PadCount(|b| - 3);
      assert s == head + tail;
      forall i | 0 <= i < |s| - PadCount(|b|) ensures IsAlphabetChar(s[i]) {
        if i >= 4 {
          assert s[i] == tail[i - 4];
        }
      }
      forall i | |s| - PadCount(|b|) <= i < |s| ensures s[i] == '=' {
        assert s[i] == tail[i - 4];
      }
    }
  }

}
