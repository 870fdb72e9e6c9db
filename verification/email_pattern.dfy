/**
  The recipient search of the agent: Python's `re.search` of the pattern
  `[\w\.-]+@[\w\.-]+\.\w+`, case-sensitive, leftmost match first.

  `SearchFrom` follows the regex engine: it tries each start position in
  turn, and at a start it runs the greedy `+` loops with backtracking. The
  `Is*Span` predicates say declaratively which substrings the pattern
  matches, and the lemmas prove that the engine returns the match that starts
  leftmost and, among those, is longest.
 */
module EmailPattern {
  import opened Wrappers
  import opened Text

  /** A match of the pattern: `s[start..end]`. */
  datatype Span = Span(start: nat, end: nat)

  /** `s[lo..hi]` is made of `[\w\.-]` characters. */
  predicate AddrRun(s: string, lo: int, hi: int) {
    0 <= lo <= hi <= |s| && forall k :: lo <= k < hi ==> IsAddrChar(s[k])
  }

  /** `s[lo..hi]` is made of `\w` characters. */
  predicate WordRun(s: string, lo: int, hi: int) {
    0 <= lo <= hi <= |s| && forall k :: lo <= k < hi ==> IsWordChar(s[k])
  }

  /**
    `s[i..m]` reads local part, `@` at `at`, domain, `.` at `dot`, top-level
    part: each part non-empty, the first two of `[\w\.-]`, the last of `\w`.
   */
  predicate EmailShape(s: string, i: int, at: int, dot: int, m: int) {
    && 0 <= i < at && at + 1 < dot && dot + 1 < m <= |s|
    && s[at] == '@' && s[dot] == '.'
    && AddrRun(s, i, at) && AddrRun(s, at + 1, dot) && WordRun(s, dot + 1, m)
  }

  /** The pattern matches the substring `s[i..m]` as a whole. */
  ghost predicate IsEmailSpan(s: string, i: int, m: int) {
    exists at, dot :: EmailShape(s, i, at, dot, m)
  }

  /** The pattern matches all of `t`. */
  ghost predicate IsEmailAddress(t: string) {
    IsEmailSpan(t, 0, |t|)
  }

  /** No match of the pattern starts in `lo .. hi - 1`. */
  ghost predicate NoSpanIn(s: string, lo: int, hi: int) {
    forall i, m :: lo <= i < hi ==> !IsEmailSpan(s, i, m)
  }

  /** No match of the pattern from `i` ends after `e`. */
  ghost predicate LongestFrom(s: string, i: int, e: int) {
    forall m :: IsEmailSpan(s, i, m) ==> m <= e
  }

  /** End of the longest run of `[\w\.-]` starting at `i`: where a greedy `[\w\.-]+` stops. */
  function AddrRunEnd(s: string, i: nat): (j: nat)
    requires i <= |s|
    ensures AddrRun(s, i, j) && (j == |s| || !IsAddrChar(s[j]))
    decreases |s| - i
  {
    if i < |s| && IsAddrChar(s[i]) then AddrRunEnd(s, i + 1) else i
  }

  /** End of the longest run of `\w` starting at `i`: where a greedy `\w+` stops. */
  function WordRunEnd(s: string, i: nat): (j: nat)
    requires i <= |s|
    ensures WordRun(s, i, j) && (j == |s| || !IsWordChar(s[j]))
    decreases |s| - i
  {
    if i < |s| && IsWordChar(s[i]) then WordRunEnd(s, i + 1) else i
  }

  /** `\.\w+` can start at `k`: a dot followed by a word character. */
  predicate DotAt(s: string, k: int) {
    0 <= k && k + 1 < |s| && s[k] == '.' && IsWordChar(s[k + 1])
  }

  /**
    `dot` is the last position of the `[\w\.-]` run after the `@` at `at` where
    `\.\w+` can start, with at least one character of the run before it.
   */
  predicate IsDomainLastDot(s: string, at: int, dot: int) {
    0 <= at < |s| &&
    var e := AddrRunEnd(s, at + 1);
    at + 1 < dot < e && DotAt(s, dot) && forall d :: dot < d <= e ==> !DotAt(s, d)
  }

  /**
    Backtracking of the domain's greedy `[\w\.-]+` (which began at `lo`): the
    positions `k`, `k - 1`, ..., `lo + 1` are tried in turn for `\.\w+`; the
    first that succeeds is the last dot after `lo` and up to `k` that is
    followed by a word character.
   */
  function LastDot(s: string, lo: nat, k: nat): (r: Option<nat>)
    ensures r.Some? ==> lo < r.value <= k && DotAt(s, r.value)
    ensures forall d :: lo < d <= k && DotAt(s, d) ==> r.Some? && d <= r.value
    decreases k
  {
    if k <= lo then None
    else if DotAt(s, k) then Some(k)
    else LastDot(s, lo, k - 1)
  }

  /**
    The regex engine's attempt at start `i`: the end of the match found there,
    if any. The local part's `[\w\.-]+` takes the whole run, since `@` is not
    in the class; the domain's backtracks to the last suitable dot; `\w+`
    takes the whole word run after it.
   */
  function MatchEnd(s: string, i: nat): (r: Option<nat>)
    requires i <= |s|
    ensures r.Some? ==> i < r.value <= |s|
  {
    var at := AddrRunEnd(s, i);
    if at == i || at == |s| || s[at] != '@' then None
    else
      match LastDot(s, at + 1, AddrRunEnd(s, at + 1))
      case None => None
      case Some(dot) => Some(WordRunEnd(s, dot + 1))
  }

  /** `re.search` from position `i` on: the first start whose attempt succeeds. */
  function SearchFrom(s: string, i: nat): (r: Option<Span>)
    requires i <= |s|
    ensures r.Some? ==> i <= r.value.start < r.value.end <= |s|
    ensures r.Some? ==> MatchEnd(s, r.value.start) == Some(r.value.end)
    decreases |s| - i
  {
    if i == |s| then None
    else
      match MatchEnd(s, i)
      case Some(m) => Some(Span(i, m))
      case None => SearchFrom(s, i + 1)
  }

  /** `email_match.group(0)`, or `None` when `re.search` finds nothing. */
  function FindRecipient(s: string): Option<string> {
    match SearchFrom(s, 0)
    case None => None
    case Some(sp) => Some(s[sp.start..sp.end])
  }

  /** A run of `[\w\.-]` ends where the greedy loop stops it and nowhere else. */
  lemma AddrRunEndAt(s: string, i: nat, x: int)
    requires i <= |s| && AddrRun(s, i, x) && (x == |s| || !IsAddrChar(s[x]))
    ensures AddrRunEnd(s, i) == x
  {
  }

  /** The engine's attempt at `i` succeeds exactly when the pattern matches from `i`, and then with the longest match. */
  lemma MatchEndCorrect(s: string, i: nat)
    requires i <= |s|
    ensures MatchEnd(s, i).Some? ==> IsEmailSpan(s, i, MatchEnd(s, i).value)
    ensures forall m :: IsEmailSpan(s, i, m) ==> MatchEnd(s, i).Some? && m <= MatchEnd(s, i).value
  {
    var at := AddrRunEnd(s, i);
    forall m | IsEmailSpan(s, i, m)
      ensures MatchEnd(s, i).Some? && m <= MatchEnd(s, i).value
    {
      var at', dot' :| EmailShape(s, i, at', dot', m);
      AddrRunEndAt(s, i, at');
      var e := AddrRunEnd(s, at + 1);
      assert AddrRun(s, at + 1, dot' + 1);
      var r := LastDot(s, at + 1, e);
      assert DotAt(s, dot');
    }
    match MatchEnd(s, i)
    case None =>
    case Some(m) =>
      var dot := LastDot(s, at + 1, AddrRunEnd(s, at + 1)).value;
      assert EmailShape(s, i, at, dot, m);
  }

  /** What `SearchFrom` returns is the leftmost match at or after `i`, and the longest from its start. */
  lemma {:induction false} SearchFromCorrect(s: string, i: nat)
    requires i <= |s|
    ensures SearchFrom(s, i).None? ==> forall i', m :: i <= i' ==> !IsEmailSpan(s, i', m)
    ensures SearchFrom(s, i).Some? ==>
      var sp := SearchFrom(s, i).value;
      IsEmailSpan(s, sp.start, sp.end) && NoSpanIn(s, i, sp.start) && LongestFrom(s, sp.start, sp.end)
    decreases |s| - i
  {
    if i == |s| {
      forall i', m | i <= i' ensures !IsEmailSpan(s, i', m) {
        NoSpanAtEnd(s, i', m);
      }
    } else {
      MatchEndCorrect(s, i);
      SearchStep(s, i);
      if MatchEnd(s, i).None? {
        SearchFromCorrect(s, i + 1);
        if SearchFrom(s, i).Some? {
          var sp := SearchFrom(s, i).value;
          assert NoSpanIn(s, i + 1, sp.start);
        }
      }
    }
  }

  /** No match starts at or beyond the end of the string. */
  lemma NoSpanAtEnd(s: string, i: int, m: int)
    requires |s| <= i
    ensures !IsEmailSpan(s, i, m)
  {
  }

  /**
    The recipient is the leftmost match of the pattern in the prompt, and the
    longest one from that start; with no match anywhere there is no recipient.
   */
  lemma RecipientIsLeftmostLongest(s: string)
    ensures FindRecipient(s).None? <==> forall i, m :: !IsEmailSpan(s, i, m)
    ensures SearchFrom(s, 0).Some? ==>
      var sp := SearchFrom(s, 0).value;
      && FindRecipient(s) == Some(s[sp.start..sp.end])
      && IsEmailSpan(s, sp.start, sp.end)
      && NoSpanIn(s, 0, sp.start)
      && LongestFrom(s, sp.start, sp.end)
  {
    SearchFromCorrect(s, 0);
    forall i, m | IsEmailSpan(s, i, m) ensures 0 <= i {
      var at, dot :| EmailShape(s, i, at, dot, m);
    }
  }

  /** A match of the pattern inside `s` is a whole-string match of the extracted substring. */
  lemma SpanIsAddress(s: string, i: nat, m: nat)
    requires i <= m <= |s| && IsEmailSpan(s, i, m)
    ensures IsEmailAddress(s[i..m])
  {
    var at, dot :| EmailShape(s, i, at, dot, m);
    var t := s[i..m];
    assert EmailShape(t, 0, at - i, dot - i, m - i);
  }

  /**
    The recipient matches the whole pattern, holds exactly one `@` with a dot
    somewhere after it, consists otherwise of `[\w\.-]` characters, and ends
    with a word character.
   */
  lemma RecipientShape(s: string)
    requires FindRecipient(s).Some?
    ensures var r := FindRecipient(s).value;
      && IsEmailAddress(r)
      && IsWordChar(r[|r| - 1])
      && (forall k :: 0 <= k < |r| && r[k] != '@' ==> IsAddrChar(r[k]))
      && (exists at, dot :: 0 < at < dot < |r| - 1 && r[at] == '@' && r[dot] == '.'
            && forall k :: 0 <= k < |r| && k != at ==> r[k] != '@')
  {
    RecipientIsLeftmostLongest(s);
    var sp := SearchFrom(s, 0).value;
    var r := FindRecipient(s).value;
    SpanIsAddress(s, sp.start, sp.end);
    var at, dot :| EmailShape(r, 0, at, dot, |r|);
    assert IsWordChar(r[|r| - 1]);
    assert forall k :: 0 <= k < |r| && k != at ==> IsAddrChar(r[k]);
  }

  /** A match that a `[\w\.-]` character precedes extends to the left. */
  lemma ExtendLeft(s: string, i: int, at: int, dot: int, m: int)
    requires EmailShape(s, i, at, dot, m) && i > 0 && IsAddrChar(s[i - 1])
    ensures IsEmailSpan(s, i - 1, m)
  {
    assert EmailShape(s, i - 1, at, dot, m);
  }

  /**
    The local part is the whole run of `[\w\.-]` characters that ends just
    before the `@`: the character before the recipient, if any, is not in
    the class.
   */
  lemma LocalPartIsWholeRun(s: string)
    requires FindRecipient(s).Some?
    ensures var sp := SearchFrom(s, 0).value;
      var at := AddrRunEnd(s, sp.start);
      && (sp.start == 0 || !IsAddrChar(s[sp.start - 1]))
      && at < |s| && s[at] == '@'
  {
    RecipientIsLeftmostLongest(s);
    var sp := SearchFrom(s, 0).value;
    var at, dot :| EmailShape(s, sp.start, at, dot, sp.end);
    AddrRunEndAt(s, sp.start, at);
    if sp.start > 0 && IsAddrChar(s[sp.start - 1]) {
      ExtendLeft(s, sp.start, at, dot, sp.end);
      assert false;
    }
  }

  /**
    The domain ends at the end of the word run that follows the last dot of
    the domain's `[\w\.-]` run that has a character before it in the domain
    and a word character after it.
   */
  lemma DomainEndsAfterLastDot(s: string)
    requires FindRecipient(s).Some?
    ensures var sp := SearchFrom(s, 0).value;
      var at := AddrRunEnd(s, sp.start);
      at < |s| && s[at] == '@'
    ensures exists dot :: IsDomainLastDot(s, AddrRunEnd(s, SearchFrom(s, 0).value.start), dot)
                          && SearchFrom(s, 0).value.end == WordRunEnd(s, dot + 1)
  {
    var sp := SearchFrom(s, 0).value;
    assert MatchEnd(s, sp.start) == Some(sp.end);
    AttemptDomain(s, sp.start);
  }

  /**
    A successful attempt at `i` has its `@` where the local part's run ends,
    and ends after the word run that follows the domain's last suitable dot.
   */
  lemma AttemptDomain(s: string, i: nat)
    requires i <= |s| && MatchEnd(s, i).Some?
    ensures AddrRunEnd(s, i) < |s| && s[AddrRunEnd(s, i)] == '@'
    ensures exists dot :: IsDomainLastDot(s, AddrRunEnd(s, i), dot) && MatchEnd(s, i).value == WordRunEnd(s, dot + 1)
  {
    var at := AddrRunEnd(s, i);
    var e := AddrRunEnd(s, at + 1);
    var dot := LastDot(s, at + 1, e).value;
    assert dot < e by {
      assert IsAddrChar(s[dot]);
    }
    assert MatchEnd(s, i).value == WordRunEnd(s, dot + 1);
    assert IsDomainLastDot(s, at, dot);
  }

  /** A recipient contains an `@` of the prompt: a prompt without one yields no recipient. */
  lemma RecipientNeedsAtSign(s: string)
    ensures FindRecipient(s).Some? ==> exists k :: 0 <= k < |s| && s[k] == '@'
  {
    RecipientIsLeftmostLongest(s);
    if FindRecipient(s).Some? {
      var sp := SearchFrom(s, 0).value;
      var at, dot :| EmailShape(s, sp.start, at, dot, sp.end);
      assert s[at] == '@';
    }
  }

  /**
    An address the pattern matches as a whole is exactly the recipient when
    the text before it has no `@` and does not end in a `[\w\.-]` character,
    and the text after it does not start with one.
   */
  lemma RecipientOfDelimitedAddress(p: string, a: string, q: string)
    requires IsEmailAddress(a)
    requires forall k :: 0 <= k < |p| ==> p[k] != '@'
    requires p == [] || !IsAddrChar(p[|p| - 1])
    requires q == [] || !IsAddrChar(q[0])
    ensures FindRecipient(p + a + q) == Some(a)
  {
    var s := p + a + q;
    EmbeddedAddress(p, a, q);
    ContextOfEmbedded(p, a, q);
    RecipientIsDelimitedSpan(s, |p|, |p| + |a|);
    assert s[|p|..|p| + |a|] == a;
  }

  /** In `p + a + q` the characters before `a` are those of `p`, and the one after it is the first of `q`. */
  lemma ContextOfEmbedded(p: string, a: string, q: string)
    ensures forall k :: 0 <= k < |p| ==> (p + a + q)[k] == p[k]
    ensures q != [] ==> (p + a + q)[|p| + |a|] == q[0]
  {
  }

  /**
    A match `s[n..e]` with no `@` before it, and no `[\w\.-]` character just
    before or just after it, is the recipient.
   */
  lemma RecipientIsDelimitedSpan(s: string, n: nat, e: nat)
    requires n <= e <= |s| && IsEmailSpan(s, n, e)
    requires forall k :: 0 <= k < n ==> s[k] != '@'
    requires n == 0 || !IsAddrChar(s[n - 1])
    requires e == |s| || !IsAddrChar(s[e])
    ensures FindRecipient(s) == Some(s[n..e])
  {
    NoSpanBefore(s, n);
    SpanEndsAtDelimiter(s, n, e);
    SearchFromCorrect(s, 0);
    assert SearchFrom(s, 0).Some?;
    var sp := SearchFrom(s, 0).value;
    assert sp.start == n;
    assert sp.end == e;
  }

  /** The address `a` stays a match of the pattern inside `p + a + q`. */
  lemma EmbeddedAddress(p: string, a: string, q: string)
    requires IsEmailAddress(a)
    ensures IsEmailSpan(p + a + q, |p|, |p| + |a|)
  {
    var s := p + a + q;
    var n := |p|;
    var at, dot :| EmailShape(a, 0, at, dot, |a|);
    forall j | n <= j < n + |a| ensures s[j] == a[j - n] {
    }
    assert AddrRun(s, n, n + at) by {
      forall j | n <= j < n + at ensures IsAddrChar(s[j]) {
        assert s[j] == a[j - n];
      }
    }
    assert AddrRun(s, n + at + 1, n + dot) by {
      forall j | n + at + 1 <= j < n + dot ensures IsAddrChar(s[j]) {
        assert s[j] == a[j - n];
      }
    }
    assert WordRun(s, n + dot + 1, n + |a|) by {
      forall j | n + dot + 1 <= j < n + |a| ensures IsWordChar(s[j]) {
        assert s[j] == a[j - n];
      }
    }
    assert s[n + at] == '@' && s[n + dot] == '.';
    assert EmailShape(s, n, n + at, n + dot, n + |a|);
  }

  /** No match starts before `n` when no `@` comes before `n` and the character before `n` is not in `[\w\.-]`. */
  lemma NoSpanBefore(s: string, n: nat)
    requires n <= |s| && forall k :: 0 <= k < n ==> s[k] != '@'
    requires n == 0 || !IsAddrChar(s[n - 1])
    ensures NoSpanIn(s, 0, n)
  {
    forall i, m | 0 <= i < n ensures !IsEmailSpan(s, i, m) {
    }
  }

  /** A match from `n` that a character outside `[\w\.-]` follows cannot be extended. */
  lemma SpanEndsAtDelimiter(s: string, n: nat, e: nat)
    requires IsEmailSpan(s, n, e) && (e == |s| || !IsAddrChar(s[e]))
    ensures LongestFrom(s, n, e)
  {
    var at, dot :| EmailShape(s, n, at, dot, e);
    forall m | IsEmailSpan(s, n, m) ensures m <= e {
      var at', dot' :| EmailShape(s, n, at', dot', m);
      if at' < at {
        assert IsAddrChar(s[at']);
      } else if at < at' {
        assert IsAddrChar(s[at]);
      }
    }
  }

  /** A run of `\w` ends where the greedy loop stops it and nowhere else. */
  lemma WordRunEndAt(s: string, i: nat, x: int)
    requires i <= |s| && WordRun(s, i, x) && (x == |s| || !IsWordChar(s[x]))
    ensures WordRunEnd(s, i) == x
  {
  }

  // The examples take the prompt as a parameter fixed by a `requires`, so that the
  // verifier follows the lemmas below instead of evaluating the search on the literal.

  /** A character after the last dot that is not a word character ends the domain: `a@b.c-d` yields `a@b.c`. */
  lemma ExampleHyphenAfterTopLevel(s: string)
    requires s == "a@b.c-d"
    ensures FindRecipient(s) == Some("a@b.c")
  {
    AddrRunEndAt(s, 0, 1);
    AddrRunEndAt(s, 2, 7);
    assert LastDot(s, 2, 7) == Some(3) by {
      assert !DotAt(s, 7) && !DotAt(s, 6) && !DotAt(s, 5) && !DotAt(s, 4) && DotAt(s, 3);
    }
    WordRunEndAt(s, 4, 5);
    assert SearchFrom(s, 0) == Some(Span(0, 5));
    assert s[0..5] == "a@b.c";
  }

  /** A trailing dot is not part of the address: `alice@example.com.` yields `alice@example.com`. */
  lemma ExampleTrailingDot(s: string)
    requires s == "alice@example.com."
    ensures FindRecipient(s) == Some("alice@example.com")
  {
    TrailingDotAttempt(s);
    assert SearchFrom(s, 0) == Some(Span(0, 17));
    assert s[0..17] == "alice@example.com";
  }

  /** The attempt at position 0 of `alice@example.com.` backtracks to the dot at 13 and ends before the trailing dot. */
  lemma TrailingDotAttempt(s: string)
    requires s == "alice@example.com."
    ensures MatchEnd(s, 0) == Some(17)
  {
    AddrRunEndAt(s, 0, 5);
    AddrRunEndAt(s, 6, 18);
    TrailingDotBacktrack(s);
    WordRunEndAt(s, 14, 17);
  }

  /** In `alice@example.com.` the domain's run reaches the end; backtracking passes the trailing dot and stops at 13. */
  lemma TrailingDotBacktrack(s: string)
    requires s == "alice@example.com."
    ensures LastDot(s, 6, 18) == Some(13)
  {
    assert !DotAt(s, 18) && !DotAt(s, 17) && !DotAt(s, 16) && !DotAt(s, 15) && !DotAt(s, 14) && DotAt(s, 13);
  }

  /** An earlier candidate whose domain has no dot is skipped: `foo@bar x@y.z` yields `x@y.z`. */
  lemma ExampleDotlessCandidateSkipped(s: string)
    requires s == "foo@bar x@y.z"
    ensures FindRecipient(s) == Some("x@y.z")
  {
    DotlessCandidateSearch(s);
    assert s[8..13] == "x@y.z";
  }

  /** The search over `foo@bar x@y.z` passes the first eight starts and matches at the ninth. */
  lemma DotlessCandidateSearch(s: string)
    requires s == "foo@bar x@y.z"
    ensures SearchFrom(s, 0) == Some(Span(8, 13))
  {
    DotlessCandidateFails(s);
    SearchSkipsFailedAttempts(s, 0, 8);
    SecondCandidateMatches(s);
  }

  /** Starts whose attempt fails are passed over: the search from `i` is the search from `n`. */
  lemma {:induction false} SearchSkipsFailedAttempts(s: string, i: nat, n: nat)
    requires i <= n <= |s|
    requires forall k :: i <= k < n ==> MatchEnd(s, k) == None
    ensures SearchFrom(s, i) == SearchFrom(s, n)
    decreases n - i
  {
    if i < n {
      SearchStep(s, i);
      SearchSkipsFailedAttempts(s, i + 1, n);
    }
  }

  /** One start of the search: a failed attempt moves on to the next start, a successful one is the result. */
  lemma SearchStep(s: string, i: nat)
    requires i < |s|
    ensures MatchEnd(s, i).None? ==> SearchFrom(s, i) == SearchFrom(s, i + 1)
    ensures MatchEnd(s, i).Some? ==> SearchFrom(s, i) == Some(Span(i, MatchEnd(s, i).value))
  {
  }

  /** No attempt before position 8 of `foo@bar x@y.z` succeeds. */
  lemma DotlessCandidateFails(s: string)
    requires s == "foo@bar x@y.z"
    ensures forall k :: 0 <= k < 8 ==> MatchEnd(s, k) == None
  {
    AddrRunEndAt(s, 0, 3);
    AddrRunEndAt(s, 1, 3);
    AddrRunEndAt(s, 2, 3);
    AddrRunEndAt(s, 3, 3);
    AddrRunEndAt(s, 4, 7);
    AddrRunEndAt(s, 5, 7);
    AddrRunEndAt(s, 6, 7);
    AddrRunEndAt(s, 7, 7);
    assert LastDot(s, 4, 7) == None by {
      assert !DotAt(s, 7) && !DotAt(s, 6) && !DotAt(s, 5);
    }
  }

  /** The attempt at position 8 of `foo@bar x@y.z` matches `x@y.z`. */
  lemma SecondCandidateMatches(s: string)
    requires s == "foo@bar x@y.z"
    ensures MatchEnd(s, 8) == Some(13)
    ensures SearchFrom(s, 8) == Some(Span(8, 13))
  {
    AddrRunEndAt(s, 8, 9);
    AddrRunEndAt(s, 10, 13);
    assert LastDot(s, 10, 13) == Some(11) by {
      assert !DotAt(s, 13) && !DotAt(s, 12) && DotAt(s, 11);
    }
    WordRunEndAt(s, 12, 13);
    SearchStep(s, 8);
  }
}
