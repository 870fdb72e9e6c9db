/**
  The subject search of the agent: Python's `re.search` of `subject:([^,]+)`
  with `re.IGNORECASE`, then `group(1).strip()`, or the literal "No Subject"
  when nothing matches.

  `SubjectSearchFrom` follows the regex engine (each start in turn, a greedy
  `[^,]+` after the keyword); `IsSubjectSpan` says declaratively which
  substrings the pattern matches, and the lemmas prove that the engine takes
  the leftmost and longest of them.
 */
module SubjectPattern {
  import opened Wrappers
  import opened Text

  /** The literal part of the pattern. */
  const Keyword: string := "subject:"

  /** The subject used when the prompt has no match. */
  const DefaultSubject: string := "No Subject"

  /**
    `c` matches the pattern character `k` under `re.IGNORECASE`: `k` itself,
    its ASCII upper case, and, for `s`, the long s U+017F that Python's
    engine folds onto it.
   */
  predicate KeywordCharMatches(c: char, k: char) {
    c == k || ('a' <= k <= 'z' && c as int == k as int - 32) || (k == 's' && c == '\U{17F}')
  }

  /** The keyword matches, ignoring case, at position `i`. */
  predicate KeywordAt(s: string, i: int) {
    && 0 <= i && i + |Keyword| <= |s|
    && forall k :: 0 <= k < |Keyword| ==> KeywordCharMatches(s[i + k], Keyword[k])
  }

  /** The pattern matches `s[i..c]` as a whole: the keyword, then one or more characters other than a comma. */
  predicate IsSubjectSpan(s: string, i: int, c: int) {
    && KeywordAt(s, i)
    && i + |Keyword| < c <= |s|
    && forall k :: i + |Keyword| <= k < c ==> s[k] != ','
  }

  /** A match: the keyword starts at `start`, the capture is `s[start + |Keyword|..end]`. */
  datatype Span = Span(start: nat, end: nat)

  /** Where a greedy `[^,]+` that starts at `k` stops: the next comma, or the end. */
  function CommaOrEnd(s: string, k: nat): (c: nat)
    requires k <= |s|
    ensures k <= c <= |s| && (c == |s| || s[c] == ',')
    ensures forall j :: k <= j < c ==> s[j] != ','
    decreases |s| - k
  {
    if k < |s| && s[k] != ',' then CommaOrEnd(s, k + 1) else k
  }

  /**
    `re.search` from position `i` on: the first start where the keyword
    matches and is followed by a character other than a comma; the capture
    then runs to the next comma or the end.
   */
  function SubjectSearchFrom(s: string, i: nat): (r: Option<Span>)
    requires i <= |s|
    ensures r.Some? ==> i <= r.value.start && IsSubjectSpan(s, r.value.start, r.value.end)
    ensures r.Some? ==> r.value.end == |s| || s[r.value.end] == ','
    decreases |s| - i
  {
    if |s| <= i + |Keyword| then None
    else if KeywordAt(s, i) && s[i + |Keyword|] != ',' then Some(Span(i, CommaOrEnd(s, i + |Keyword|)))
    else SubjectSearchFrom(s, i + 1)
  }

  /** `subject_match.group(1)`, or `None` when nothing matches. */
  function CapturedSubject(s: string): Option<string> {
    match SubjectSearchFrom(s, 0)
    case None => None
    case Some(sp) => Some(s[sp.start + |Keyword|..sp.end])
  }

  /** `subject_match.group(1).strip() if subject_match else "No Subject"`. */
  function ExtractSubject(s: string): string {
    match CapturedSubject(s)
    case None => DefaultSubject
    case Some(capture) => Strip(capture)
  }

  /** The search from `i` returns the leftmost match at or after `i`, and the longest one from its start. */
  lemma {:induction false} SubjectSearchCorrect(s: string, i: nat)
    requires i <= |s|
    ensures SubjectSearchFrom(s, i).None? ==> forall i', c :: i <= i' ==> !IsSubjectSpan(s, i', c)
    ensures SubjectSearchFrom(s, i).Some? ==>
      var sp := SubjectSearchFrom(s, i).value;
      && (forall i', c :: i <= i' < sp.start ==> !IsSubjectSpan(s, i', c))
      && (forall c :: IsSubjectSpan(s, sp.start, c) ==> c <= sp.end)
    decreases |s| - i
  {
    if i + |Keyword| < |s| {
      if !(KeywordAt(s, i) && s[i + |Keyword|] != ',') {
        SubjectSearchCorrect(s, i + 1);
      }
    }
  }

  /**
    The capture comes from the leftmost case-insensitive `subject:` that is
    followed by a character other than a comma, and runs up to the next comma
    or the end of the prompt; with no such occurrence nothing is captured.
   */
  lemma CaptureIsLeftmostLongest(s: string)
    ensures CapturedSubject(s).None? <==> forall i, c :: !IsSubjectSpan(s, i, c)
    ensures SubjectSearchFrom(s, 0).Some? ==>
      var sp := SubjectSearchFrom(s, 0).value;
      && IsSubjectSpan(s, sp.start, sp.end)
      && CapturedSubject(s) == Some(s[sp.start + |Keyword|..sp.end])
      && (sp.end == |s| || s[sp.end] == ',')
      && (forall i, c :: 0 <= i < sp.start ==> !IsSubjectSpan(s, i, c))
      && (forall c :: IsSubjectSpan(s, sp.start, c) ==> c <= sp.end)
  {
    SubjectSearchCorrect(s, 0);
  }

  /** A captured subject is non-empty and holds no comma. */
  lemma CaptureHasNoComma(s: string)
    requires CapturedSubject(s).Some?
    ensures var capture := CapturedSubject(s).value;
      capture != [] && forall k :: 0 <= k < |capture| ==> capture[k] != ','
  {
    var sp := SubjectSearchFrom(s, 0).value;
    var capture := CapturedSubject(s).value;
    forall k | 0 <= k < |capture| ensures capture[k] != ',' {
      assert capture[k] == s[sp.start + |Keyword| + k];
    }
  }

  /** Without a match the subject is exactly "No Subject"; with one it is the stripped capture. */
  lemma SubjectDefaultsOnlyWithoutMatch(s: string)
    ensures (forall i, c :: !IsSubjectSpan(s, i, c)) ==> ExtractSubject(s) == "No Subject"
    ensures (exists i, c :: IsSubjectSpan(s, i, c)) ==>
      CapturedSubject(s).Some? && ExtractSubject(s) == Strip(CapturedSubject(s).value)
  {
    CaptureIsLeftmostLongest(s);
  }

  /** A whitespace-only capture yields the empty subject, not the default, and only such a capture does. */
  lemma BlankCaptureGivesEmptySubject(s: string)
    requires CapturedSubject(s).Some?
    ensures ExtractSubject(s) == "" <==> AllSpace(CapturedSubject(s).value)
  {
    StripEmptyIffAllSpace(CapturedSubject(s).value);
  }

  /** The subject has no surrounding whitespace. */
  lemma SubjectIsStripped(s: string)
    ensures var subject := ExtractSubject(s);
      subject == [] || (!IsSpace(subject[0]) && !IsSpace(subject[|subject| - 1]))
  {
    if CapturedSubject(s).Some? {
      StripHasNoOuterSpace(CapturedSubject(s).value);
    }
  }

  /** A keyword match ends with the colon. */
  lemma KeywordEndsWithColon(s: string, i: int)
    requires KeywordAt(s, i)
    ensures s[i + |Keyword| - 1] == ':'
  {
    assert KeywordCharMatches(s[i + |Keyword| - 1], Keyword[|Keyword| - 1]);
  }

  /** The greedy `[^,]+` stops at the first comma at or after `k`, or at the end. */
  lemma CommaOrEndAt(s: string, k: nat, x: int)
    requires k <= x <= |s| && (x == |s| || s[x] == ',') && forall j :: k <= j < x ==> s[j] != ','
    ensures CommaOrEnd(s, k) == x
  {
  }

  /**
    After text without a colon, a lower-case `subject:` followed by text
    without a comma, ended by a comma or the end of the prompt, captures
    exactly that text.
   */
  lemma SubjectAfterPlainMarker(p: string, c: string, q: string)
    requires forall k :: 0 <= k < |p| ==> p[k] != ':'
    requires c != [] && forall k :: 0 <= k < |c| ==> c[k] != ','
    requires q == [] || q[0] == ','
    ensures CapturedSubject(p + Keyword + c + q) == Some(c)
  {
    var s := p + Keyword + c + q;
    var n := |p|;
    var e := n + |Keyword| + |c|;
    assert KeywordAt(s, n) by {
      assert forall k :: 0 <= k < |Keyword| ==> s[n + k] == Keyword[k];
    }
    assert forall k :: n + |Keyword| <= k < e ==> s[k] != ',' by {
      forall k | n + |Keyword| <= k < e ensures s[k] != ',' {
        assert s[k] == c[k - n - |Keyword|];
      }
    }
    assert forall k :: 0 <= k < n + |Keyword| - 1 ==> s[k] != ':' by {
      forall k | 0 <= k < n + |Keyword| - 1 ensures s[k] != ':' {
        if k < n {
          assert s[k] == p[k];
        } else {
          assert s[k] == Keyword[k - n];
        }
      }
    }
    assert e == |s| || s[e] == ',' by {
      if e < |s| {
        assert s[e] == q[0];
      }
    }
    CaptureIsDelimitedSpan(s, n, e);
    assert s[n + |Keyword|..e] == c;
  }

  /**
    A match `s[n..e]` with no colon before the keyword's own and a comma or
    the end right after it gives the capture `s[n + |Keyword|..e]`.
   */
  lemma CaptureIsDelimitedSpan(s: string, n: nat, e: nat)
    requires IsSubjectSpan(s, n, e)
    requires forall k :: 0 <= k < n + |Keyword| - 1 ==> s[k] != ':'
    requires e == |s| || s[e] == ','
    ensures CapturedSubject(s) == Some(s[n + |Keyword|..e])
  {
    forall i, c | 0 <= i < n ensures !IsSubjectSpan(s, i, c) {
      if KeywordAt(s, i) {
        KeywordEndsWithColon(s, i);
      }
    }
    CaptureIsLeftmostLongest(s);
  }

  /** A `subject:` directly followed by a comma is passed over for a later occurrence, in any case. */
  lemma ExampleCommaAfterKeywordSkipped(s: string)
    requires s == "subject:, SUBJECT: Hi "
    ensures ExtractSubject(s) == "Hi"
  {
    CommaAfterKeywordSearch(s);
    StripOneSpaceEachSide(s[18..22]);
  }

  /** `" Hi ".strip()` is `"Hi"`. */
  lemma StripOneSpaceEachSide(t: string)
    requires t == " Hi "
    ensures Strip(t) == "Hi"
  {
    assert IsTrimmedInfix(t, "Hi") by {
      assert t[1..3] == "Hi" && AllSpace(t[..1]) && AllSpace(t[3..]);
    }
    TrimmedInfixIsStrip(t, "Hi");
  }

  /** In `subject:, SUBJECT: Hi ` the search passes over position 0 and matches at 10. */
  lemma CommaAfterKeywordSearch(s: string)
    requires s == "subject:, SUBJECT: Hi "
    ensures SubjectSearchFrom(s, 0) == Some(Span(10, 22))
  {
    CommaExampleKeywords(s);
    CommaOrEndAt(s, 18, 22);
    assert SubjectSearchFrom(s, 10) == Some(Span(10, 22));
    assert s[8] == ',';
    SearchSkipsNonMatches(s, 0, 10);
  }

  /** The search passes over starts where the keyword does not match or a comma follows it. */
  lemma {:induction false} SearchSkipsNonMatches(s: string, i: nat, n: nat)
    requires i <= n && n + |Keyword| < |s|
    requires forall j :: i <= j < n ==> !(KeywordAt(s, j) && s[j + |Keyword|] != ',')
    ensures SubjectSearchFrom(s, i) == SubjectSearchFrom(s, n)
    decreases n - i
  {
    if i < n {
      SearchSkipsNonMatches(s, i + 1, n);
    }
  }

  /** In `subject:, SUBJECT: Hi ` the keyword matches at 0 and 10 and nowhere in between. */
  lemma CommaExampleKeywords(s: string)
    requires s == "subject:, SUBJECT: Hi "
    ensures KeywordAt(s, 0) && KeywordAt(s, 10)
    ensures forall i | 1 <= i < 10 :: !KeywordAt(s, i)
  {
    forall i | 1 <= i < 10 ensures !KeywordAt(s, i) {
      if KeywordAt(s, i) {
        KeywordEndsWithColon(s, i);
      }
    }
  }
}
