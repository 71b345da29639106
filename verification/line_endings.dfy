/** Line-ending normalisation applied to attribute content before hashing:
    `content.Replace("\r\n", "\n")`, an ordinal, left-to-right replacement of
    non-overlapping CR LF pairs by a single LF. */
module LineEndings {

  /** A carriage return immediately followed by a line feed starts at index `i`. */
  predicate CrLfAt(s: string, i: int) {
    0 <= i && i + 1 < |s| && s[i] == '\r' && s[i + 1] == '\n'
  }

  /** `s` contains at least one CR LF pair. */
  predicate HasCrLf(s: string) {
    exists i | 0 <= i < |s| :: CrLfAt(s, i)
  }

  /** The number of positions at which a CR LF pair starts. Two pairs can never
      overlap (the second character of a pair is LF, the first of a pair is CR),
      so this counts the pairs a left-to-right scan replaces. */
  function CrLfCount(s: string): nat {
    if |s| < 2 then 0
    else (if CrLfAt(s, 0) then 1 else 0) + CrLfCount(s[1..])
  }

  /** `string.Replace("\r\n", "\n")`: scans left to right; each CR LF pair
      becomes one LF, every other character (a lone CR, a lone LF included)
      is copied. */
  function NormalizeLineEndings(s: string): (r: string)
    ensures |r| <= |s|
    decreases |s|
  {
    if |s| == 0 then ""
    else if CrLfAt(s, 0) then "\n" + NormalizeLineEndings(s[2..])
    else [s[0]] + NormalizeLineEndings(s[1..])
  }

  /** An independent description of the same result: `s` with every carriage
      return that stands directly before a line feed deleted, position by
      position, and nothing else touched. */
  function DropCrBeforeLf(s: string): string {
    if |s| == 0 then ""
    else (if CrLfAt(s, 0) then "" else [s[0]]) + DropCrBeforeLf(s[1..])
  }

  /** The Windows spelling of a text: every LF written as CR LF. */
  function ToCrLf(s: string): string {
    if |s| == 0 then ""
    else (if s[0] == '\n' then "\r\n" else [s[0]]) + ToCrLf(s[1..])
  }

  /** The scanning replacement deletes exactly the carriage returns that
      precede a line feed: the remaining characters keep their order. */
  lemma {:induction false} NormalizeIsDropCrBeforeLf(s: string)
    ensures NormalizeLineEndings(s) == DropCrBeforeLf(s)
    decreases |s|
  {
    if |s| == 0 {
    } else if CrLfAt(s, 0) {
      // The LF of the pair is not itself the start of a pair, so the
      // position-wise deletion keeps it and continues after it.
      assert !CrLfAt(s[1..], 0);
      assert s[1..][1..] == s[2..];
      NormalizeIsDropCrBeforeLf(s[2..]);
    } else {
      NormalizeIsDropCrBeforeLf(s[1..]);
    }
  }

  /** Each replaced pair shortens the text by exactly one character. */
  lemma {:induction false} NormalizeLength(s: string)
    ensures |NormalizeLineEndings(s)| == |s| - CrLfCount(s)
    decreases |s|
  {
    if |s| == 0 {
    } else if CrLfAt(s, 0) {
      assert !CrLfAt(s[1..], 0);
      assert s[1..][1..] == s[2..];
      NormalizeLength(s[2..]);
    } else {
      NormalizeLength(s[1..]);
    }
  }

  /** The pair count is zero exactly when the text contains no CR LF pair. */
  lemma {:induction false} CrLfCountZero(s: string)
    ensures CrLfCount(s) == 0 <==> !HasCrLf(s)
    decreases |s|
  {
    if |s| >= 2 {
      CrLfCountZero(s[1..]);
      CrLfShift(s);
    }
  }

  /** A pair starts at index `i + 1` of `s` exactly when one starts at index
      `i` of its tail. */
  lemma CrLfShift(s: string)
    requires |s| > 0
    ensures HasCrLf(s) <==> CrLfAt(s, 0) || HasCrLf(s[1..])
  {
    if HasCrLf(s) && !CrLfAt(s, 0) {
      var i :| 0 <= i < |s| && CrLfAt(s, i);
      assert s[1..][i - 1] == s[i] && s[1..][i] == s[i + 1];
      assert CrLfAt(s[1..], i - 1);
    }
    if HasCrLf(s[1..]) {
      var i :| 0 <= i < |s| - 1 && CrLfAt(s[1..], i);
      assert s[1..][i] == s[i + 1] && s[1..][i + 1] == s[i + 2];
      assert CrLfAt(s, i + 1);
    }
  }

  /** Normalisation leaves a text unchanged exactly when it has no CR LF pair. */
  lemma NormalizeFixesExactlyCrLfFree(s: string)
    ensures NormalizeLineEndings(s) == s <==> !HasCrLf(s)
  {
    NormalizeLength(s);
    CrLfCountZero(s);
    if !HasCrLf(s) {
      NoCrLfUnchanged(s);
    }
  }

  lemma {:induction false} NoCrLfUnchanged(s: string)
    requires !HasCrLf(s)
    ensures NormalizeLineEndings(s) == s
    decreases |s|
  {
    if |s| > 0 {
      CrLfShift(s);
      NoCrLfUnchanged(s[1..]);
    }
  }

  /** A text without carriage returns has no CR LF pair. */
  lemma NoCarriageReturnNoCrLf(s: string)
    requires '\r' !in s
    ensures !HasCrLf(s)
  {
    forall i | 0 <= i < |s| ensures !CrLfAt(s, i) {
      assert s[i] in s;
    }
  }

  /** The Windows spelling never starts with a line feed. */
  lemma ToCrLfHead(s: string)
    ensures |ToCrLf(s)| > 0 ==> ToCrLf(s)[0] != '\n'
  {
  }

  /** Normalisation undoes the Windows spelling of ANY text, so a snippet
      saved with CR LF line endings normalises to the same text as the
      snippet saved with LF endings. */
  lemma {:induction false} NormalizeUndoesToCrLf(s: string)
    ensures NormalizeLineEndings(ToCrLf(s)) == s
    decreases |s|
  {
    if |s| > 0 {
      var rest := ToCrLf(s[1..]);
      NormalizeUndoesToCrLf(s[1..]);
      if s[0] == '\n' {
        var w := "\r\n" + rest;
        assert ToCrLf(s) == w;
        assert CrLfAt(w, 0);
        assert w[2..] == rest;
      } else {
        var w := [s[0]] + rest;
        assert ToCrLf(s) == w;
        ToCrLfHead(s[1..]);
        assert !CrLfAt(w, 0);
        assert w[1..] == rest;
      }
      assert s == [s[0]] + s[1..];
    }
  }

  /** CR LF and LF spellings of a text without CR LF pairs normalise to the
      same string. */
  lemma CrLfAndLfSpellingsAgree(s: string)
    requires !HasCrLf(s)
    ensures NormalizeLineEndings(ToCrLf(s)) == NormalizeLineEndings(s)
  {
    NormalizeUndoesToCrLf(s);
    NoCrLfUnchanged(s);
  }

  /** Replacement is a single pass, so it is not idempotent: CR CR LF becomes
      CR LF, which a second pass would turn into LF. */
  lemma SinglePass()
    ensures NormalizeLineEndings("\r\r\n") == "\r\n"
    ensures NormalizeLineEndings(NormalizeLineEndings("\r\r\n")) == "\n"
  {
    assert !CrLfAt("\r\r\n", 0);
    assert "\r\r\n"[1..] == "\r\n";
    assert CrLfAt("\r\n", 0);
  }
}
