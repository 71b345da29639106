/** The situations exercised by AttributeHashTagHelperTests, run through
    `Process`: a `div` whose attributes are the hashed attribute and the
    marker attribute, in a request whose hash store starts empty. */
module TagHelperScenarios {

  import opened CspHashing
  import opened TagHelpers
  import LineEndings
  import opened Wrappers

  /** Attribute names compared as the test's lower-case names are by any
      comparer: character by character. */
  const Ordinal: NameComparer := (a: string, b: string) => a == b

  const InlineStyleSnippet: string := "background: red"
  /** The multi-line snippet with LF line endings. */
  const MultiLineStyleSnippet: string := "background: red;\ncolor: blue;"
  const InlineScriptSnippet: string := "myScript()"

  /** One `Process` call on `<div target=value asp-add-attribute-to-csp=targetName>`;
      returns the outcome, the rendered tag name and attributes, and the
      request's style and script hashes afterwards. */
  method RunOnDiv(targetName: string, value: AttributeValue, withViewContext: bool, sha: Sha2)
    returns (outcome: ProcessOutcome, tagName: string, attributes: seq<TagHelperAttribute>,
             styleHashes: seq<CspHash>, scriptHashes: seq<CspHash>)
    ensures outcome == (if !withViewContext then Threw(ViewContextNull)
                        else if value.Null? then Threw(NoMatchingValueType)
                        else Completed)
    ensures tagName == "div"
    ensures var target := TagHelperAttribute(targetName, value);
      if outcome.Threw? then attributes == [target, TagHelperAttribute(AttributeName, Text(targetName))]
                            && styleHashes == [] && scriptHashes == []
      else && attributes == StripMarkers([target, TagHelperAttribute(AttributeName, Text(targetName))], Ordinal)
           && (IsStyleTarget(targetName) ==> styleHashes == [HashFor(value, Sha256, sha).value] && scriptHashes == [])
           && (!IsStyleTarget(targetName) ==> scriptHashes == [HashFor(value, Sha256, sha).value] && styleHashes == [])
  {
    var target := TagHelperAttribute(targetName, value);
    var marker := TagHelperAttribute(AttributeName, Text(targetName));
    var list := new TagHelperAttributeList(Ordinal, [target, marker]);
    var output := new TagHelperOutput("div", list);
    var context := TagHelperContext("div", [target, marker], Ordinal);
    var helper := new AttributeHashTagHelper();
    helper.targetAttributeName := targetName;
    helper.cspHashType := Sha256;
    var store := new RequestHashes();
    if withViewContext {
      helper.viewContext := store;
    }
    outcome := helper.Process(context, output, sha);
    tagName, attributes := output.tagName, list.items;
    styleHashes, scriptHashes := store.styleHashes, store.scriptHashes;
  }

  /** Stripping the markers from a target attribute followed by its marker
      leaves the target attribute alone, when the target is not itself named
      like a marker. */
  lemma StripMarkersOfPair(target: TagHelperAttribute)
    requires target.name != AttributeName && target.name != CspHashTypeAttributeName
    ensures StripMarkers([target, TagHelperAttribute(AttributeName, Text(target.name))], Ordinal) == [target]
  {
    var marker := TagHelperAttribute(AttributeName, Text(target.name));
    assert RemoveNamed([marker], AttributeName, Ordinal) == [];
    assert [target, marker][1..] == [marker];
    assert RemoveNamed([target, marker], AttributeName, Ordinal) == [target];
    assert RemoveNamed([target], CspHashTypeAttributeName, Ordinal) == [target];
  }

  /** ProcessAsync_StyleAttribute_GeneratesExpectedOutput and
      ProcessAsync_StyleAttribute_AddsHashToHttpContext: HTML content around
      `background: red` is hashed over its raw text, exactly one style hash
      is recorded, and only the style attribute is rendered. */
  method StyleAttribute(sha: Sha2)
    returns (outcome: ProcessOutcome, tagName: string, attributes: seq<TagHelperAttribute>,
             styleHashes: seq<CspHash>, scriptHashes: seq<CspHash>)
    ensures outcome == Completed && tagName == "div"
    ensures attributes == [TagHelperAttribute("style", HtmlContent(InlineStyleSnippet))]
    ensures styleHashes == [CspHash(Sha256, ContentHash(InlineStyleSnippet, Sha256, sha))]
    ensures scriptHashes == []
  {
    StripMarkersOfPair(TagHelperAttribute("style", HtmlContent(InlineStyleSnippet)));
    RawTextHashed(InlineStyleSnippet, Sha256, sha);
    outcome, tagName, attributes, styleHashes, scriptHashes :=
      RunOnDiv("style", HtmlContent(InlineStyleSnippet), true, sha);
  }

  /** A text without CR, whether written with LF or with CR LF line endings,
      is hashed as the LF text. */
  lemma EitherSpellingHashed(s: string, t: CspHashType, sha: Sha2)
    requires '\r' !in s
    ensures HashFor(Text(s), t, sha) == Some(CspHash(t, ContentHash(s, t, sha)))
    ensures HashFor(Text(LineEndings.ToCrLf(s)), t, sha) == Some(CspHash(t, ContentHash(s, t, sha)))
  {
    LineEndings.NoCarriageReturnNoCrLf(s);
    CrLfSpellingSameHash(s, t, sha);
    RawTextHashed(s, t, sha);
    RawTextHashed(LineEndings.ToCrLf(s), t, sha);
  }

  /** ProcessAsync_StyleAttributeWithMultiLine_AddsHashToHttpContext: the
      snippet's verbatim literal has the line endings of the file it is saved
      in; with CR LF endings or LF endings the one recorded style hash is
      that of the LF text. */
  method MultiLineStyleAttribute(sha: Sha2, savedWithCrLf: bool)
    returns (outcome: ProcessOutcome, styleHashes: seq<CspHash>, scriptHashes: seq<CspHash>)
    ensures outcome == Completed
    ensures styleHashes == [CspHash(Sha256, ContentHash(MultiLineStyleSnippet, Sha256, sha))]
    ensures scriptHashes == []
  {
    assert '\r' !in MultiLineStyleSnippet;
    EitherSpellingHashed(MultiLineStyleSnippet, Sha256, sha);
    var text := if savedWithCrLf then LineEndings.ToCrLf(MultiLineStyleSnippet) else MultiLineStyleSnippet;
    var tagName, attributes;
    outcome, tagName, attributes, styleHashes, scriptHashes := RunOnDiv("style", Text(text), true, sha);
  }

  /** ProcessAsync_InlineScriptAttribute_GeneratesExpectedOutput and
      ProcessAsync_InlineScriptAttribute_AddsHashToHttpContext: a target other
      than `style` records exactly one script hash and no style hash. */
  method InlineScriptAttribute(sha: Sha2)
    returns (outcome: ProcessOutcome, tagName: string, attributes: seq<TagHelperAttribute>,
             styleHashes: seq<CspHash>, scriptHashes: seq<CspHash>)
    ensures outcome == Completed && tagName == "div"
    ensures attributes == [TagHelperAttribute("onclick", Text(InlineScriptSnippet))]
    ensures scriptHashes == [CspHash(Sha256, ContentHash(InlineScriptSnippet, Sha256, sha))]
    ensures styleHashes == []
  {
    StripMarkersOfPair(TagHelperAttribute("onclick", Text(InlineScriptSnippet)));
    RawTextHashed(InlineScriptSnippet, Sha256, sha);
    outcome, tagName, attributes, styleHashes, scriptHashes :=
      RunOnDiv("onclick", Text(InlineScriptSnippet), true, sha);
  }

  /** Without a view context `Process` throws before recording a hash or
      removing an attribute. */
  method MissingViewContext(sha: Sha2)
    returns (outcome: ProcessOutcome, attributes: seq<TagHelperAttribute>,
             styleHashes: seq<CspHash>, scriptHashes: seq<CspHash>)
    ensures outcome == Threw(ViewContextNull)
    ensures attributes == [TagHelperAttribute("style", Text(InlineStyleSnippet)),
                           TagHelperAttribute(AttributeName, Text("style"))]
    ensures styleHashes == [] && scriptHashes == []
  {
    var tagName;
    outcome, tagName, attributes, styleHashes, scriptHashes :=
      RunOnDiv("style", Text(InlineStyleSnippet), false, sha);
  }

  /** A minimised target attribute has a null value, which no arm of the
      switch accepts: `Process` throws and changes nothing. */
  method MinimisedTargetAttribute(sha: Sha2)
    returns (outcome: ProcessOutcome, attributes: seq<TagHelperAttribute>,
             styleHashes: seq<CspHash>, scriptHashes: seq<CspHash>)
    ensures outcome == Threw(NoMatchingValueType)
    ensures attributes == [TagHelperAttribute("style", Null), TagHelperAttribute(AttributeName, Text("style"))]
    ensures styleHashes == [] && scriptHashes == []
  {
    var tagName;
    outcome, tagName, attributes, styleHashes, scriptHashes := RunOnDiv("style", Null, true, sha);
  }
}
