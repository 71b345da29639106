# Inline-attribute hashing for Content-Security-Policy (Dafny model)

This project models `AttributeHashTagHelper`, the tag helper of
NetEscapades.AspNetCore.SecurityHeaders that lets a Razor view allow an inline
`style` or event-handler attribute under a Content-Security-Policy. The element
carries `asp-add-attribute-to-csp="<attribute>"` and optionally
`csp-hash-type`. `Process` then does the following:

1. It fails with `InvalidOperationException` when there is no `ViewContext`.
2. It looks up the named attribute and turns its value into text (`GetAttributeValue`).
3. It rewrites every CR LF pair as LF.
4. It encodes the text as UTF-8 (RFC 3629, section 3).
5. It digests the bytes with SHA-256, SHA-384 or SHA-512 (SHA-256 by default).
6. It encodes the digest in base 64 (RFC 4648, section 4).
7. It records exactly one (algorithm, digest) pair for the request. The pair
   goes to the style hashes when the target is `style` and to the script
   hashes otherwise.
8. It removes `asp-add-attribute-to-csp` and `csp-hash-type` from the
   rendered element.

Layout, one module per file:

- `common.dfy`: `Option` and the `Byte` type.
- `line_endings.dfy`: the `Replace("\r\n", "\n")` step. Its partners are an
  independent position-wise description and the CR LF spelling `ToCrLf`, which
  the step inverts.
- `utf8.dfy`: the UTF-8 encoder and a decoder. The decoder is a reference
  inverse; the source never decodes.
- `base64.dfy`: the base 64 encoder and a decoder. Again, the decoder is a
  reference inverse only.
- `csp_hashing.dfy`: the hash algorithms, their digest sizes and the whole
  pipeline from text to recorded base 64 string.
- `tag_helpers.dfy`: attribute values, the attribute lookup, `RemoveAll`, the
  mutable objects (`TagHelperAttributeList`, `TagHelperOutput`, the request's
  hash store) and `AttributeHashTagHelper.Process` itself.
- `scenarios.dfy`: the situations of the unit tests, run through `Process`.

Two points of behaviour follow the code:

- Attribute lookup and removal use the attribute list's name comparer. In the
  framework this comparer ignores case, and the model takes it as a parameter.
  The style/script dispatch, however, is the ordinal, case-sensitive C#
  comparison `TargetAttributeName == "style"`. So a target spelled `Style`
  finds the style attribute, but its hash goes to the script hashes.
- Normalisation is a single left-to-right pass. A lone CR or LF is kept, and
  `"\r\r\n"` becomes `"\r\n"`. Normalisation is therefore not idempotent.

## Model

| member | source | states |
|---|---|---|
| LineEndings.NormalizeLineEndings | src/NetEscapades.AspNetCore.SecurityHeaders.TagHelpers/AttributeHashTagHelper.cs:71 | replacing CR LF by LF never lengthens the text |
| LineEndings.NormalizeIsDropCrBeforeLf | src/NetEscapades.AspNetCore.SecurityHeaders.TagHelpers/AttributeHashTagHelper.cs:70-71 | the left-to-right replacement equals deleting exactly the CRs that stand before an LF; every other character, lone CR and LF included, is kept in order |
| LineEndings.NormalizeLength | src/NetEscapades.AspNetCore.SecurityHeaders.TagHelpers/AttributeHashTagHelper.cs:71 | the normalised text is one character shorter per CR LF pair of the input |
| LineEndings.NormalizeFixesExactlyCrLfFree | src/NetEscapades.AspNetCore.SecurityHeaders.TagHelpers/AttributeHashTagHelper.cs:71 | normalisation leaves a text unchanged if and only if it has no CR LF pair |
| LineEndings.NormalizeUndoesToCrLf | src/NetEscapades.AspNetCore.SecurityHeaders.TagHelpers/AttributeHashTagHelper.cs:70-71 | for every text, normalising its CR LF spelling gives the text back |
| LineEndings.CrLfAndLfSpellingsAgree | src/NetEscapades.AspNetCore.SecurityHeaders.TagHelpers/AttributeHashTagHelper.cs:70-71 | the CR LF and LF spellings of a CR-LF-free text normalise to the same string |
| LineEndings.SinglePass | src/NetEscapades.AspNetCore.SecurityHeaders.TagHelpers/AttributeHashTagHelper.cs:71 | `"\r\r\n"` becomes `"\r\n"`, and a second pass would change it again |
| LineEndings.NoCarriageReturnNoCrLf | src/NetEscapades.AspNetCore.SecurityHeaders.TagHelpers/AttributeHashTagHelper.cs:71 | a text without CR contains no pair to replace |
| Utf8.EncodeScalar | src/NetEscapades.AspNetCore.SecurityHeaders.TagHelpers/AttributeHashTagHelper.cs:73 | each scalar value takes 1 to 4 octets, and takes exactly one, equal to its code, iff it is ASCII |
| Utf8.Encode | src/NetEscapades.AspNetCore.SecurityHeaders.TagHelpers/AttributeHashTagHelper.cs:73 | the encoding has between one and four octets per character |
| Utf8.DecodeScalar | src/NetEscapades.AspNetCore.SecurityHeaders.TagHelpers/AttributeHashTagHelper.cs:73 | decoding one scalar consumes between 1 and 4 octets of the input |
| Utf8.DecodeEncodeScalar | src/NetEscapades.AspNetCore.SecurityHeaders.TagHelpers/AttributeHashTagHelper.cs:73 | the encoding of a character decodes to that character, whatever follows |
| Utf8.DecodeEncode | src/NetEscapades.AspNetCore.SecurityHeaders.TagHelpers/AttributeHashTagHelper.cs:73 | round trip: decoding the UTF-8 encoding of a text gives the text |
| Utf8.EncodeInjective | src/NetEscapades.AspNetCore.SecurityHeaders.TagHelpers/AttributeHashTagHelper.cs:73 | two texts have the same encoding iff they are equal |
| Utf8.EncodeAscii | src/NetEscapades.AspNetCore.SecurityHeaders.TagHelpers/AttributeHashTagHelper.cs:73 | ASCII text encodes to as many octets as characters, each equal to its character's code |
| Utf8.SameLengthIsAscii | src/NetEscapades.AspNetCore.SecurityHeaders.TagHelpers/AttributeHashTagHelper.cs:73 | conversely, a text whose encoding is as long as the text is ASCII |
| Base64.CharOf | src/NetEscapades.AspNetCore.SecurityHeaders.TagHelpers/AttributeHashTagHelper.cs:75 | every 6-bit value maps to a character of the RFC 4648 alphabet |
| Base64.ValueOf | src/NetEscapades.AspNetCore.SecurityHeaders.TagHelpers/AttributeHashTagHelper.cs:75 | every alphabet character has a 6-bit value that maps back to it |
| Base64.Encode | src/NetEscapades.AspNetCore.SecurityHeaders.TagHelpers/AttributeHashTagHelper.cs:75 | `Convert.ToBase64String` produces only alphabet and `=` characters; its exact length, padding and inverse are stated by `EncodeLength`, `EncodeShape` and `DecodeIffEncode` |
| Base64.DecodeGroup | src/NetEscapades.AspNetCore.SecurityHeaders.TagHelpers/AttributeHashTagHelper.cs:75 | a group of four characters decodes to one to three octets; a padded group whose left-over bits are not zero is rejected, as section 3.5 of RFC 4648 allows |
| Base64.DecodeEncodeGroup | src/NetEscapades.AspNetCore.SecurityHeaders.TagHelpers/AttributeHashTagHelper.cs:75 | a full 24-bit group decodes back to its three octets |
| Base64.DecodeEncode | src/NetEscapades.AspNetCore.SecurityHeaders.TagHelpers/AttributeHashTagHelper.cs:75 | round trip: decoding the base 64 text of any octets gives the octets |
| Base64.EncodeDecodeGroup | src/NetEscapades.AspNetCore.SecurityHeaders.TagHelpers/AttributeHashTagHelper.cs:75 | a group that decodes is the very group the encoder emits for its octets, final padded groups included |
| Base64.EncodeDecode | src/NetEscapades.AspNetCore.SecurityHeaders.TagHelpers/AttributeHashTagHelper.cs:75 | encoding the octets of any decodable text gives that text back |
| Base64.DecodeIffEncode | src/NetEscapades.AspNetCore.SecurityHeaders.TagHelpers/AttributeHashTagHelper.cs:75 | a text decodes to `b` iff it is the encoding of `b`: the encoder's output, last character included, is the only text that stands for the octets |
| Base64.EncodeInjective | src/NetEscapades.AspNetCore.SecurityHeaders.TagHelpers/AttributeHashTagHelper.cs:75 | two octet strings have the same base 64 text iff they are equal |
| Base64.EncodeLength | src/NetEscapades.AspNetCore.SecurityHeaders.TagHelpers/AttributeHashTagHelper.cs:75 | n octets give 4 * ceil(n / 3) characters |
| Base64.EncodeShape | src/NetEscapades.AspNetCore.SecurityHeaders.TagHelpers/AttributeHashTagHelper.cs:75 | the text ends in (3 - n mod 3) mod 3 `=` characters, and every character before them is from the alphabet |
| CspHashing.DigestInput | src/NetEscapades.AspNetCore.SecurityHeaders.TagHelpers/AttributeHashTagHelper.cs:71-73 | the digested octets are the UTF-8 form of the text with its CR LF pairs turned into LF: they decode to exactly that text |
| CspHashing.ContentHash | src/NetEscapades.AspNetCore.SecurityHeaders.TagHelpers/AttributeHashTagHelper.cs:71-75 | the recorded text decodes to the digest of the digest input, and has 4 * ceil(digest size / 3) characters |
| CspHashing.ContentHashDecodes | src/NetEscapades.AspNetCore.SecurityHeaders.TagHelpers/AttributeHashTagHelper.cs:71-75 | a text decodes to the digest of the content iff it is the recorded hash, so no other spelling of the final group stands for the digest |
| CspHashing.SameDigestInput | src/NetEscapades.AspNetCore.SecurityHeaders.TagHelpers/AttributeHashTagHelper.cs:71-74 | two texts give the same digest input iff they agree after line-ending normalisation |
| CspHashing.CrLfSpellingSameHash | src/NetEscapades.AspNetCore.SecurityHeaders.TagHelpers/AttributeHashTagHelper.cs:70-75 | a snippet written with CR LF line endings gets the same recorded hash as the same snippet written with LF |
| CspHashing.AsciiDigestInput | src/NetEscapades.AspNetCore.SecurityHeaders.TagHelpers/AttributeHashTagHelper.cs:71-73 | for ASCII text without CR LF, the digest input is the characters' codes, one octet each |
| CspHashing.ContentHashShape | src/NetEscapades.AspNetCore.SecurityHeaders.TagHelpers/AttributeHashTagHelper.cs:74-75 | the recorded text has 44 characters ending in one `=` for SHA-256, 64 with no `=` for SHA-384, and 88 ending in two `=` for SHA-512; all other characters are from the alphabet |
| TagHelpers.GetAttributeValue | src/NetEscapades.AspNetCore.SecurityHeaders.TagHelpers/AttributeHashTagHelper.cs:99-105 | a value has text iff it is not null; null matches no arm of the switch |
| TagHelpers.RawTextHashed | src/NetEscapades.AspNetCore.SecurityHeaders.TagHelpers/AttributeHashTagHelper.cs:99-105 | HTML content, an `HtmlString` and any other object are hashed exactly like a string holding the text they write or return, and that string is hashed verbatim |
| TagHelpers.FindAttribute | src/NetEscapades.AspNetCore.SecurityHeaders.TagHelpers/AttributeHashTagHelper.cs:64 | the lookup finds nothing iff no name matches; otherwise it finds the first attribute whose name matches |
| TagHelpers.RemoveNamed | src/NetEscapades.AspNetCore.SecurityHeaders.TagHelpers/AttributeHashTagHelper.cs:86-87 | what remains is drawn from the list, and no remaining name matches |
| TagHelpers.RemoveNamedKeepsOrder | src/NetEscapades.AspNetCore.SecurityHeaders.TagHelpers/AttributeHashTagHelper.cs:86-87 | the surviving attributes keep their relative order |
| TagHelpers.RemoveNamedCounts | src/NetEscapades.AspNetCore.SecurityHeaders.TagHelpers/AttributeHashTagHelper.cs:86-87 | every attribute whose name does not match survives as often as it occurred, and no matching one survives |
| TagHelpers.RemoveNamedUnchanged | src/NetEscapades.AspNetCore.SecurityHeaders.TagHelpers/AttributeHashTagHelper.cs:86 | removal changes the list iff some name matches |
| TagHelpers.RemoveNamedIdempotent | src/NetEscapades.AspNetCore.SecurityHeaders.TagHelpers/AttributeHashTagHelper.cs:86 | removing a name a second time changes nothing |
| TagHelpers.StripMarkers | src/NetEscapades.AspNetCore.SecurityHeaders.TagHelpers/AttributeHashTagHelper.cs:86-87 | the two removals never lengthen the list, and what remains is drawn from it and named like neither marker; `StripMarkersSpec` adds counts and order |
| TagHelpers.StripMarkersSpec | src/NetEscapades.AspNetCore.SecurityHeaders.TagHelpers/AttributeHashTagHelper.cs:86-87 | after both removals no attribute is named like a marker; all others remain, as often as before and in their relative order |
| TagHelpers.StyleDispatchIsOrdinal | src/NetEscapades.AspNetCore.SecurityHeaders.TagHelpers/AttributeHashTagHelper.cs:77 | the dispatch is an ordinal comparison: `style` selects the style store, while `Style`, `STYLE`, `onclick` and the empty name do not |
| TagHelpers.HashFor | src/NetEscapades.AspNetCore.SecurityHeaders.TagHelpers/AttributeHashTagHelper.cs:68-75 | a hash is produced iff the value is not null; it carries the selected algorithm, and its text has 4 * ceil(digest size / 3) characters |
| TagHelpers.RequestHashes.SetStylesCspHash | src/NetEscapades.AspNetCore.SecurityHeaders.TagHelpers/AttributeHashTagHelper.cs:79 | appends one (algorithm, hash) entry to the style hashes; the script hashes are unchanged |
| TagHelpers.RequestHashes.SetScriptCspHash | src/NetEscapades.AspNetCore.SecurityHeaders.TagHelpers/AttributeHashTagHelper.cs:83 | appends one (algorithm, hash) entry to the script hashes; the style hashes are unchanged |
| TagHelpers.TagHelperAttributeList.RemoveAll | src/NetEscapades.AspNetCore.SecurityHeaders.TagHelpers/AttributeHashTagHelper.cs:86-87 | in place, the list becomes itself without the attributes whose name matches |
| TagHelpers.AttributeHashTagHelper.constructor | src/NetEscapades.AspNetCore.SecurityHeaders.TagHelpers/AttributeHashTagHelper.cs:35-47 | a new helper uses SHA-256 and has no view context |
| TagHelpers.AttributeHashTagHelper.Process | src/NetEscapades.AspNetCore.SecurityHeaders.TagHelpers/AttributeHashTagHelper.cs:55-88 | see the bullets after this table |
| TagHelperScenarios.RunOnDiv | test/NetEscapades.AspNetCore.SecurityHeaders.TagHelpers.Test/AttributeHashTagHelperTests.cs:156-195 | on a `div` holding the target attribute and its marker, the outcome, the rendered attributes and both hash stores are determined by the view context, the value and the target name |
| TagHelperScenarios.StripMarkersOfPair | test/NetEscapades.AspNetCore.SecurityHeaders.TagHelpers.Test/AttributeHashTagHelperTests.cs:52 | a target attribute followed by its marker renders as the target attribute alone |
| TagHelperScenarios.StyleAttribute | test/NetEscapades.AspNetCore.SecurityHeaders.TagHelpers.Test/AttributeHashTagHelperTests.cs:31-79 | HTML content around `background: red` records exactly one style hash, the SHA-256 hash of that raw text, and no script hash; the `div` keeps only its style attribute |
| TagHelperScenarios.EitherSpellingHashed | test/NetEscapades.AspNetCore.SecurityHeaders.TagHelpers.Test/AttributeHashTagHelperTests.cs:81-104 | a text without CR gets the hash of its LF text, whether the attribute holds it with LF or with CR LF line endings |
| TagHelperScenarios.MultiLineStyleAttribute | test/NetEscapades.AspNetCore.SecurityHeaders.TagHelpers.Test/AttributeHashTagHelperTests.cs:81-104 | whether the multi-line snippet is saved with CR LF or LF endings, the single style hash recorded is that of the LF text |
| TagHelperScenarios.InlineScriptAttribute | test/NetEscapades.AspNetCore.SecurityHeaders.TagHelpers.Test/AttributeHashTagHelperTests.cs:106-154 | an `onclick` target records exactly one script hash and no style hash; the `div` keeps only its `onclick` attribute |
| TagHelperScenarios.MissingViewContext | src/NetEscapades.AspNetCore.SecurityHeaders.TagHelpers/AttributeHashTagHelper.cs:57-60 | without a view context `Process` throws, records nothing and leaves both attributes in place |
| TagHelperScenarios.MinimisedTargetAttribute | src/NetEscapades.AspNetCore.SecurityHeaders.TagHelpers/AttributeHashTagHelper.cs:99-105 | a null target value makes `Process` throw, with nothing recorded and nothing removed |

The contract of `TagHelpers.AttributeHashTagHelper.Process` states:

- Without a view context it throws `InvalidOperationException` and changes nothing.
- When the target value is null it throws and changes nothing.
- Otherwise it completes and appends exactly one entry, the selected algorithm
  with the hash of the value's text. The entry goes to the style hashes iff
  the target name is `style`, and to the script hashes otherwise; the other
  collection is unchanged.
- On completion the attribute list becomes itself without both markers.
- The tag name is unchanged in every case.

## Left out

- SHA-256, SHA-384 and SHA-512 (FIPS 180-4) are not computed.
  `CryptographyAlgorithms.Create(...).ComputeHash` is a parameter of type
  `Sha2`: any function whose digest has the algorithm's size (32, 48 or 64
  octets).
- The literal tokens of the tests (`'sha256-MCP66z4x…'` and others) depend on
  SHA-256. The scenarios therefore state the recorded hash as
  `ContentHash(text, Sha256, sha)` rather than as the literal text.
- The storage behind `SetStylesCSPHash` and `SetScriptCSPHash`, and the quoted
  `'<algorithm>-<digest>'` rendering, are not modelled. The Infrastructure
  namespace is not part of this model, so the store is two sequences of
  (algorithm, base 64) pairs that the two methods append to.
- `ViewContext` is modelled only as the request hash store reached through
  `ViewContext.HttpContext`. The rest of the view context is not modelled.
- `HtmlEncoder` is not modelled, and neither is the `StringWriter` of
  `ReadHtmlContent`. An `IHtmlContent` value is represented by the text its
  `WriteTo` writes. An object of any other type is represented by what its
  `ToString()` returns.
- A null result from an object's `ToString()` would make `content!.Replace`
  throw `NullReferenceException`. This is not modelled.
- A missing target attribute is excluded by a precondition of `Process`. In
  the source, the indexer would return null and `targetAttributeValue.Value`
  would throw `NullReferenceException`.
- C# strings are UTF-16. `Encoding.UTF8.GetBytes` replaces a lone surrogate
  with U+FFFD, which this model cannot express, because a Dafny `char` is
  always a Unicode scalar value.
- How the attribute lists compare names is a parameter (`NameComparer`). The
  framework's case-insensitive comparer is not part of this model.
- `TargetAttributeName` is `default!` (null) until the framework binds it from
  `asp-add-attribute-to-csp`. The constructor uses the empty string instead.
- The test fixture passes one list object as both `context.AllAttributes`
  and `output.Attributes`. `RunOnDiv` gives the context and the output
  separate copies of the same attributes. This does not change the outcome,
  because `Process` looks the target up before it removes anything. The
  aliasing itself is not modelled.
- The output's content is not modelled. The tests' assertion that it stays
  empty has no counterpart in the model.
- Framework plumbing is not modelled: attribute binding, the element
  selection of `[HtmlTargetElement]`, `ProcessAsync` and the disposal of the
  hash algorithm.
- `CrossOriginEmbedderPolicyBuilder.cs` holds three one-line forwards to
  `AddDirective`. That method lives in a base class that is not part of this
  model.
