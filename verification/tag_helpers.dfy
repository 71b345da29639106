/** `AttributeHashTagHelper`: the tag helper that, on an element carrying
    `asp-add-attribute-to-csp`, hashes the value of the attribute that
    `asp-add-attribute-to-csp` names, records the hash for the request's
    Content-Security-Policy, and strips its own marker attributes from the
    rendered element. */
module TagHelpers {

  import opened Wrappers
  import opened CspHashing
  import LineEndings
  import Utf8
  import Base64

  /** The attribute that activates the tag helper; its value names the attribute to hash. */
  const AttributeName: string := "asp-add-attribute-to-csp"

  /** The attribute that selects the hash algorithm. */
  const CspHashTypeAttributeName: string := "csp-hash-type"

  /** The value of a tag helper attribute, by its run-time type. Values other
      than strings are represented by the text they render: what `WriteTo`
      writes for HTML content, what `ToString()` returns for any other object. */
  datatype AttributeValue =
    | Text(text: string)                // System.String
    | HtmlString(value: string)         // Microsoft.AspNetCore.Html.HtmlString
    | HtmlContent(written: string)      // any other IHtmlContent
    | Object(toStringResult: string)    // any other object
    | Null                              // a minimised attribute carries no value

  datatype TagHelperAttribute = TagHelperAttribute(name: string, value: AttributeValue)

  /** How an attribute list compares attribute names. */
  type NameComparer = (string, string) -> bool

  /** An entry of the request's hash store: the algorithm and the base 64 digest. */
  datatype CspHash = CspHash(hashType: CspHashType, hash: string)

  /** Why `Process` throws. */
  datatype ProcessError =
    | ViewContextNull         // InvalidOperationException("ViewContext was null")
    | NoMatchingValueType     // no arm of the switch in GetAttributeValue accepts null

  datatype ProcessOutcome = Completed | Threw(error: ProcessError)

  /** `GetAttributeValue`: the text to hash. Strings and `HtmlString` give their
      own characters, other HTML content the raw text it writes (not an
      escaped form), other objects their `ToString()`; null matches no arm. */
  function GetAttributeValue(value: AttributeValue): (r: Option<string>)
    ensures r.None? <==> value.Null?
  {
    match value
    case Text(s) => Some(s)
    case HtmlString(s) => Some(s)
    case HtmlContent(s) => Some(s)
    case Object(s) => Some(s)
    case Null => None
  }

  /** The indexer `context.AllAttributes[name]`: the first attribute whose name
      matches, if there is one. */
  function FindAttribute(attributes: seq<TagHelperAttribute>, name: string, sameName: NameComparer)
    : (r: Option<TagHelperAttribute>)
    ensures r.None? <==> forall i | 0 <= i < |attributes| :: !sameName(attributes[i].name, name)
    ensures r.Some? ==> exists i | 0 <= i < |attributes| ::
      && attributes[i] == r.value
      && sameName(attributes[i].name, name)
      && forall j | 0 <= j < i :: !sameName(attributes[j].name, name)
    decreases |attributes|
  {
    if |attributes| == 0 then None
    else if sameName(attributes[0].name, name) then Some(attributes[0])
    else
      var r := FindAttribute(attributes[1..], name, sameName);
      assert forall j | 1 <= j < |attributes| :: attributes[1..][j - 1] == attributes[j];
      r
  }

  /** The list `RemoveAll(name)` leaves: every attribute whose name matches is
      dropped, every other one kept. */
  function RemoveNamed(attributes: seq<TagHelperAttribute>, name: string, sameName: NameComparer)
    : (r: seq<TagHelperAttribute>)
    ensures |r| <= |attributes|
    ensures forall a | a in r :: a in attributes && !sameName(a.name, name)
    decreases |attributes|
  {
    if |attributes| == 0 then []
    else
      (if sameName(attributes[0].name, name) then [] else [attributes[0]])
      + RemoveNamed(attributes[1..], name, sameName)
  }

  /** `xs` is `ys` with some elements left out, the rest in their order. */
  ghost predicate IsSubsequence<T>(xs: seq<T>, ys: seq<T>)
    decreases |ys|
  {
    || |xs| == 0
    || (&& |ys| > 0
        && ((xs[0] == ys[0] && IsSubsequence(xs[1..], ys[1..])) || IsSubsequence(xs, ys[1..])))
  }

  /** The attributes that survive keep their relative order. */
  lemma {:induction false} RemoveNamedKeepsOrder(attributes: seq<TagHelperAttribute>, name: string, sameName: NameComparer)
    ensures IsSubsequence(RemoveNamed(attributes, name, sameName), attributes)
    decreases |attributes|
  {
    if |attributes| > 0 {
      var rest := RemoveNamed(attributes[1..], name, sameName);
      RemoveNamedKeepsOrder(attributes[1..], name, sameName);
      if sameName(attributes[0].name, name) {
        assert RemoveNamed(attributes, name, sameName) == rest;
      } else {
        assert ([attributes[0]] + rest)[1..] == rest;
      }
    }
  }

  /** Every attribute whose name does not match survives as often as it
      occurred; no attribute whose name matches survives. */
  lemma {:induction false} RemoveNamedCounts(attributes: seq<TagHelperAttribute>, name: string, sameName: NameComparer,
                                             a: TagHelperAttribute)
    ensures multiset(RemoveNamed(attributes, name, sameName))[a]
         == if sameName(a.name, name) then 0 else multiset(attributes)[a]
    decreases |attributes|
  {
    if |attributes| > 0 {
      RemoveNamedCounts(attributes[1..], name, sameName, a);
      assert attributes == [attributes[0]] + attributes[1..];
    }
  }

  /** `RemoveAll` changes nothing exactly when no attribute's name matches. */
  lemma {:induction false} RemoveNamedUnchanged(attributes: seq<TagHelperAttribute>, name: string, sameName: NameComparer)
    ensures RemoveNamed(attributes, name, sameName) == attributes
        <==> forall i | 0 <= i < |attributes| :: !sameName(attributes[i].name, name)
    decreases |attributes|
  {
    if |attributes| > 0 {
      var tail := attributes[1..];
      var rest := RemoveNamed(tail, name, sameName);
      RemoveNamedUnchanged(tail, name, sameName);
      assert forall j | 1 <= j < |attributes| :: tail[j - 1] == attributes[j];
      if sameName(attributes[0].name, name) {
        assert |RemoveNamed(attributes, name, sameName)| < |attributes| by {
          assert |rest| <= |attributes| - 1;
        }
      } else {
        assert RemoveNamed(attributes, name, sameName) == [attributes[0]] + rest;
        assert attributes == [attributes[0]] + tail;
        if rest != tail {
          assert ([attributes[0]] + rest)[1..] == rest;
        }
      }
    }
  }

  /** Removing the same name twice removes nothing more. */
  lemma RemoveNamedIdempotent(attributes: seq<TagHelperAttribute>, name: string, sameName: NameComparer)
    ensures RemoveNamed(RemoveNamed(attributes, name, sameName), name, sameName)
         == RemoveNamed(attributes, name, sameName)
  {
    var r := RemoveNamed(attributes, name, sameName);
    RemoveNamedUnchanged(r, name, sameName);
    assert forall i | 0 <= i < |r| :: r[i] in r;
  }

  /** `Process`'s two `RemoveAll` calls: drop both marker attributes. */
  function StripMarkers(attributes: seq<TagHelperAttribute>, sameName: NameComparer): (r: seq<TagHelperAttribute>)
    ensures |r| <= |attributes|
    ensures forall a | a in r :: a in attributes && !sameName(a.name, AttributeName)
                                && !sameName(a.name, CspHashTypeAttributeName)
  {
    RemoveNamed(RemoveNamed(attributes, AttributeName, sameName), CspHashTypeAttributeName, sameName)
  }

  /** After the markers are stripped no attribute is named like a marker, and
      every other attribute remains, as often as before and in its original
      relative order. */
  lemma StripMarkersSpec(attributes: seq<TagHelperAttribute>, sameName: NameComparer)
    ensures var r := StripMarkers(attributes, sameName);
      && (forall a | a in r :: !sameName(a.name, AttributeName) && !sameName(a.name, CspHashTypeAttributeName))
      && IsSubsequence(r, attributes)
      && forall a: TagHelperAttribute | !sameName(a.name, AttributeName) && !sameName(a.name, CspHashTypeAttributeName) ::
           multiset(r)[a] == multiset(attributes)[a]
  {
    var once := RemoveNamed(attributes, AttributeName, sameName);
    var r := RemoveNamed(once, CspHashTypeAttributeName, sameName);
    RemoveNamedKeepsOrder(attributes, AttributeName, sameName);
    RemoveNamedKeepsOrder(once, CspHashTypeAttributeName, sameName);
    SubsequenceTransitive(r, once, attributes);
    forall a: TagHelperAttribute | !sameName(a.name, AttributeName) && !sameName(a.name, CspHashTypeAttributeName)
      ensures multiset(r)[a] == multiset(attributes)[a]
    {
      RemoveNamedCounts(attributes, AttributeName, sameName, a);
      RemoveNamedCounts(once, CspHashTypeAttributeName, sameName, a);
    }
  }

  /** A subsequence of a subsequence is a subsequence. */
  lemma {:induction false} SubsequenceTransitive<T>(xs: seq<T>, ys: seq<T>, zs: seq<T>)
    requires IsSubsequence(xs, ys) && IsSubsequence(ys, zs)
    ensures IsSubsequence(xs, zs)
    decreases |zs|
  {
    if |xs| > 0 {
      if IsSubsequence(ys, zs[1..]) {
        SubsequenceTransitive(xs, ys, zs[1..]);
      } else if xs[0] == ys[0] && IsSubsequence(xs[1..], ys[1..]) {
        SubsequenceTransitive(xs[1..], ys[1..], zs[1..]);
      } else {
        SubsequenceTransitive(xs, ys[1..], zs[1..]);
      }
    }
  }

  /** The request's store of hashes for inline styles and inline scripts,
      reached through `ViewContext.HttpContext`. */
  class RequestHashes {
    var styleHashes: seq<CspHash>
    var scriptHashes: seq<CspHash>

    constructor ()
      ensures styleHashes == [] && scriptHashes == []
    {
      styleHashes, scriptHashes := [], [];
    }

    /** `HttpContext.SetStylesCSPHash`: records one more style hash. */
    method SetStylesCspHash(hashType: CspHashType, hash: string)
      modifies this
      ensures styleHashes == old(styleHashes) + [CspHash(hashType, hash)]
      ensures scriptHashes == old(scriptHashes)
    {
      styleHashes := styleHashes + [CspHash(hashType, hash)];
    }

    /** `HttpContext.SetScriptCSPHash`: records one more script hash. */
    method SetScriptCspHash(hashType: CspHashType, hash: string)
      modifies this
      ensures scriptHashes == old(scriptHashes) + [CspHash(hashType, hash)]
      ensures styleHashes == old(styleHashes)
    {
      scriptHashes := scriptHashes + [CspHash(hashType, hash)];
    }
  }

  /** `TagHelperAttributeList`: the attributes an element is rendered with. */
  class TagHelperAttributeList {
    const sameName: NameComparer
    var items: seq<TagHelperAttribute>

    constructor (sameName: NameComparer, items: seq<TagHelperAttribute>)
      ensures this.sameName == sameName && this.items == items
    {
      this.sameName := sameName;
      this.items := items;
    }

    /** `RemoveAll(name)`: removes, in place, every attribute whose name matches. */
    method RemoveAll(name: string)
      modifies this
      ensures items == RemoveNamed(old(items), name, sameName)
    {
      items := RemoveNamed(items, name, sameName);
    }
  }

  /** `TagHelperOutput`: the element being rendered. */
  class TagHelperOutput {
    var tagName: string
    const attributes: TagHelperAttributeList

    constructor (tagName: string, attributes: TagHelperAttributeList)
      ensures this.tagName == tagName && this.attributes == attributes
    {
      this.tagName := tagName;
      this.attributes := attributes;
    }
  }

  /** `TagHelperContext`: the element's attributes as written in the view. */
  datatype TagHelperContext = TagHelperContext(tagName: string, allAttributes: seq<TagHelperAttribute>,
                                               sameName: NameComparer)

  /** The hash `Process` records for an attribute value, `None` when the value
      has no text. */
  function HashFor(value: AttributeValue, t: CspHashType, sha: Sha2): (r: Option<CspHash>)
    ensures r.None? <==> value.Null?
    ensures r.Some? ==> r.value.hashType == t && |r.value.hash| == 4 * ((DigestLength(t) + 2) / 3)
  {
    match GetAttributeValue(value)
    case None => None
    case Some(content) =>
      Some(CspHash(t, ContentHash(content, t, sha)))
  }

  /** HTML content is hashed over the raw text it writes: it gets the same
      hash as a plain string with that text, as does an `HtmlString` and any
      object whose `ToString()` gives that text. */
  lemma RawTextHashed(s: string, t: CspHashType, sha: Sha2)
    ensures HashFor(HtmlContent(s), t, sha) == HashFor(Text(s), t, sha)
    ensures HashFor(HtmlString(s), t, sha) == HashFor(Text(s), t, sha)
    ensures HashFor(Object(s), t, sha) == HashFor(Text(s), t, sha)
    ensures HashFor(Text(s), t, sha) == Some(CspHash(t, ContentHash(s, t, sha)))
  {
    assert GetAttributeValue(Text(s)) == Some(s);
    assert GetAttributeValue(HtmlString(s)) == Some(s);
    assert GetAttributeValue(HtmlContent(s)) == Some(s);
    assert GetAttributeValue(Object(s)) == Some(s);
  }

  /** Whether the hash goes to the style store: an ordinal, case-sensitive
      comparison with "style". */
  predicate IsStyleTarget(targetAttributeName: string) {
    targetAttributeName == "style"
  }

  /** The dispatch is ordinal: only the exact spelling "style" selects the
      style store, so a target written in another case, which the attribute
      lookup may still find, has its hash recorded as a script hash. */
  lemma StyleDispatchIsOrdinal()
    ensures IsStyleTarget("style")
    ensures !IsStyleTarget("Style") && !IsStyleTarget("STYLE")
    ensures !IsStyleTarget("onclick") && !IsStyleTarget("")
  {
  }

  class AttributeHashTagHelper {
    /** Bound from `asp-add-attribute-to-csp`. */
    var targetAttributeName: string
    /** Bound from `csp-hash-type`. */
    var cspHashType: CspHashType
    /** Set by the framework; `null` outside a view. */
    var viewContext: RequestHashes?

    constructor ()
      ensures targetAttributeName == "" && cspHashType == Sha256 && viewContext == null
    {
      targetAttributeName := "";
      cspHashType := Sha256;
      viewContext := null;
    }

    /** `Process`: throws if there is no view context or the target value has
        no text, changing nothing; otherwise records exactly one hash, in the
        style store when the target is `style` and in the script store
        otherwise, and removes the marker attributes from the output. */
    method Process(context: TagHelperContext, output: TagHelperOutput, sha: Sha2) returns (outcome: ProcessOutcome)
      requires FindAttribute(context.allAttributes, targetAttributeName, context.sameName).Some?
      modifies viewContext, output.attributes
      ensures output.tagName == old(output.tagName)
      ensures viewContext == null ==> outcome == Threw(ViewContextNull)
      ensures outcome.Threw? ==> unchanged(output.attributes) && (viewContext != null ==> unchanged(viewContext))
      ensures var target := FindAttribute(context.allAttributes, targetAttributeName, context.sameName).value;
        && (outcome == Completed <==> viewContext != null && !target.value.Null?)
        && (viewContext != null && target.value.Null? ==> outcome == Threw(NoMatchingValueType))
        && (outcome == Completed ==>
             var entry := HashFor(target.value, cspHashType, sha).value;
             && (IsStyleTarget(targetAttributeName) ==>
                   viewContext.styleHashes == old(viewContext.styleHashes) + [entry]
                   && viewContext.scriptHashes == old(viewContext.scriptHashes))
             && (!IsStyleTarget(targetAttributeName) ==>
                   viewContext.scriptHashes == old(viewContext.scriptHashes) + [entry]
                   && viewContext.styleHashes == old(viewContext.styleHashes))
             && output.attributes.items == StripMarkers(old(output.attributes.items), output.attributes.sameName))
    {
      if viewContext == null {
        return Threw(ViewContextNull);
      }
      var target := FindAttribute(context.allAttributes, targetAttributeName, context.sameName).value;
      var content := GetAttributeValue(target.value);
      if content.None? {
        return Threw(NoMatchingValueType);
      }
      var unixContent := LineEndings.NormalizeLineEndings(content.value);
      var contentBytes := Utf8.Encode(unixContent);
      var hashedBytes := sha(cspHashType, contentBytes);
      var hash := Base64.Encode(hashedBytes);
      if IsStyleTarget(targetAttributeName) {
        viewContext.SetStylesCspHash(cspHashType, hash);
      } else {
        viewContext.SetScriptCspHash(cspHashType, hash);
      }
      output.attributes.RemoveAll(AttributeName);
      output.attributes.RemoveAll(CspHashTypeAttributeName);
      outcome := Completed;
    }
  }
}
