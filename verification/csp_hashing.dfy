/** The hashing pipeline of `AttributeHashTagHelper.Process`: normalise line
    endings, encode as UTF-8, digest with the selected SHA-2 function and
    encode the digest in base 64. */
module CspHashing {

  import opened Bytes
  import opened Wrappers
  import LineEndings
  import Utf8
  import Base64

  /** The `CSPHashType` enumeration: the hash algorithms a CSP hash source may name. */
  datatype CspHashType = Sha256 | Sha384 | Sha512

  /** The digest size, in octets, of each algorithm (FIPS 180-4). */
  function DigestLength(t: CspHashType): nat {
    match t
    case Sha256 => 32
    case Sha384 => 48
    case Sha512 => 64
  }

  /** `CryptographyAlgorithms.Create(t).ComputeHash(m)`. The SHA-2 functions
      themselves are not modelled: any function that returns a digest of the
      right size for the algorithm stands for them. */
  type Sha2 = f: (CspHashType, seq<Byte>) -> seq<Byte> | forall t, m :: |f(t, m)| == DigestLength(t)
    witness (t: CspHashType, m: seq<Byte>) => seq(DigestLength(t), _ => 0)

  /** The octets that are digested for an attribute's text: they are the
      UTF-8 form of the text with its CR LF pairs turned into LF. */
  function DigestInput(content: string): (r: seq<Byte>)
    ensures Utf8.Decode(r) == Some(LineEndings.NormalizeLineEndings(content))
  {
    Utf8.DecodeEncode(LineEndings.NormalizeLineEndings(content));
    Utf8.Encode(LineEndings.NormalizeLineEndings(content))
  }

  /** The base 64 digest recorded for an attribute's text: it decodes to the
      digest of the text's digest input and has 4 * ceil(n / 3) characters
      for a digest of n octets. */
  function ContentHash(content: string, t: CspHashType, sha: Sha2): (r: string)
    ensures Base64.Decode(r) == Some(sha(t, DigestInput(content)))
    ensures |r| == 4 * ((DigestLength(t) + 2) / 3)
  {
    Base64.DecodeEncode(sha(t, DigestInput(content)));
    Base64.EncodeLength(sha(t, DigestInput(content)));
    Base64.Encode(sha(t, DigestInput(content)))
  }

  /** The recorded text is the one text that decodes to the digest: a text
      decodes to the digest of the content exactly when it is the recorded
      hash, so no other spelling of the final group stands for it. */
  lemma ContentHashDecodes(content: string, t: CspHashType, sha: Sha2, h: string)
    ensures Base64.Decode(h) == Some(sha(t, DigestInput(content))) <==> h == ContentHash(content, t, sha)
  {
    Base64.DecodeIffEncode(h, sha(t, DigestInput(content)));
  }

  /** Two texts are digested alike exactly when they agree after line-ending
      normalisation. */
  lemma SameDigestInput(a: string, b: string)
    ensures DigestInput(a) == DigestInput(b)
        <==> LineEndings.NormalizeLineEndings(a) == LineEndings.NormalizeLineEndings(b)
  {
    Utf8.EncodeInjective(LineEndings.NormalizeLineEndings(a), LineEndings.NormalizeLineEndings(b));
  }

  /** A multi-line snippet written with CR LF line endings gets the same hash
      as the same snippet written with LF endings. */
  lemma CrLfSpellingSameHash(s: string, t: CspHashType, sha: Sha2)
    requires !LineEndings.HasCrLf(s)
    ensures ContentHash(LineEndings.ToCrLf(s), t, sha) == ContentHash(s, t, sha)
  {
    LineEndings.CrLfAndLfSpellingsAgree(s);
  }

  /** For ASCII text without CR LF pairs the digest input is the text's own
      character codes, one octet each. */
  lemma AsciiDigestInput(s: string)
    requires Utf8.IsAscii(s) && !LineEndings.HasCrLf(s)
    ensures |DigestInput(s)| == |s|
    ensures forall i | 0 <= i < |s| :: DigestInput(s)[i] == s[i] as int
  {
    LineEndings.NoCrLfUnchanged(s);
    Utf8.EncodeAscii(s);
  }

  /** The length of the recorded text and the number of `=` it ends with,
      for each algorithm: 44 characters ending in one `=` for SHA-256, 64
      without padding for SHA-384, 88 ending in two `=` for SHA-512. All other
      characters are from the base 64 alphabet. */
  lemma ContentHashShape(content: string, t: CspHashType, sha: Sha2)
    ensures var h := ContentHash(content, t, sha);
      var pad := match t case Sha256 => 1 case Sha384 => 0 case Sha512 => 2;
      && |h| == (match t case Sha256 => 44 case Sha384 => 64 case Sha512 => 88)
      && (forall i | 0 <= i < |h| - pad :: Base64.IsAlphabetChar(h[i]))
      && (forall i | |h| - pad <= i < |h| :: h[i] == '=')
  {
    var d := sha(t, DigestInput(content));
    match t
    case Sha256 => Base64.EncodeShapeWith(d, 44, 1);
    case Sha384 => Base64.EncodeShapeWith(d, 64, 0);
    case Sha512 => Base64.EncodeShapeWith(d, 88, 2);
  }
}
