/**
  Character classes used by the agent's two regular expressions, and Python's
  `str.strip()` with no argument.
 */
module Text {

  /** `\w` of Python's `re`, restricted to ASCII: letters, digits and the underscore. */
  predicate IsWordChar(c: char) {
    ('a' <= c <= 'z') || ('A' <= c <= 'Z') || ('0' <= c <= '9') || c == '_'
  }

  /** The class `[\w\.-]` of the address pattern. */
  predicate IsAddrChar(c: char) {
    IsWordChar(c) || c == '.' || c == '-'
  }

  /** The characters `str.strip()` removes: the code points for which CPython's `str.isspace` holds. */
  predicate IsSpace(c: char) {
    var n := c as int;
    (0x09 <= n <= 0x0D) || (0x1C <= n <= 0x20) || n == 0x85 || n == 0xA0 || n == 0x1680
    || (0x2000 <= n <= 0x200A) || n == 0x2028 || n == 0x2029 || n == 0x202F || n == 0x205F
    || n == 0x3000
  }

  predicate AllSpace(t: string) {
    forall k :: 0 <= k < |t| ==> IsSpace(t[k])
  }

  /** The position of the first character at or after `i` that is not whitespace, or `|t|`. */
  function SkipSpace(t: string, i: nat): (a: nat)
    requires i <= |t|
    ensures i <= a <= |t|
    ensures a == |t| || !IsSpace(t[a])
    decreases |t| - i
  {
    if i < |t| && IsSpace(t[i]) then SkipSpace(t, i + 1) else i
  }

  /** The position after the last character before `j`, and at or after `a`, that is not whitespace, or `a`. */
  function SkipSpaceBack(t: string, a: nat, j: nat): (b: nat)
    requires a <= j <= |t|
    ensures a <= b <= j
    ensures b == a || !IsSpace(t[b - 1])
    decreases j
  {
    if a < j && IsSpace(t[j - 1]) then SkipSpaceBack(t, a, j - 1) else j
  }

  /** Everything `SkipSpace` passes over is whitespace. */
  lemma {:induction false} SkippedAreSpace(t: string, i: nat)
    requires i <= |t|
    ensures forall k :: i <= k < SkipSpace(t, i) ==> IsSpace(t[k])
    decreases |t| - i
  {
    if i < |t| && IsSpace(t[i]) {
      SkippedAreSpace(t, i + 1);
    }
  }

  /** Everything `SkipSpaceBack` passes over is whitespace. */
  lemma {:induction false} SkippedBackAreSpace(t: string, a: nat, j: nat)
    requires a <= j <= |t|
    ensures forall k :: SkipSpaceBack(t, a, j) <= k < j ==> IsSpace(t[k])
    decreases j
  {
    if a < j && IsSpace(t[j - 1]) {
      SkippedBackAreSpace(t, a, j - 1);
    }
  }

  /** Python's `t.strip()`: leading whitespace removed, then trailing whitespace. */
  function Strip(t: string): string {
    var a := SkipSpace(t, 0);
    t[a..SkipSpaceBack(t, a, |t|)]
  }

  /** `r` is `t` less a whitespace prefix and a whitespace suffix, and neither starts nor ends with whitespace. */
  ghost predicate IsTrimmedInfix(t: string, r: string) {
    exists a, b :: 0 <= a <= b <= |t| && r == t[a..b]
      && AllSpace(t[..a]) && AllSpace(t[b..])
      && (r == [] || (!IsSpace(r[0]) && !IsSpace(r[|r| - 1])))
  }

  /** `Strip(t)` is a trimmed infix of `t`. */
  lemma StripIsTrimmedInfix(t: string)
    ensures IsTrimmedInfix(t, Strip(t))
  {
    var a := SkipSpace(t, 0);
    var b := SkipSpaceBack(t, a, |t|);
    SkippedAreSpace(t, 0);
    SkippedBackAreSpace(t, a, |t|);
    assert AllSpace(t[..a]) by {
      forall k | 0 <= k < a ensures IsSpace(t[..a][k]) {
        assert t[..a][k] == t[k];
      }
    }
    assert AllSpace(t[b..]) by {
      forall k | 0 <= k < |t| - b ensures IsSpace(t[b..][k]) {
        assert t[b..][k] == t[b + k];
      }
    }
  }

  /** `SkipSpace` stops at the first character from `i` on that is not whitespace, and nowhere else. */
  lemma {:induction false} SkipSpaceStopsAt(t: string, i: nat, a: nat)
    requires i <= a <= |t|
    requires forall k :: i <= k < a ==> IsSpace(t[k])
    requires a == |t| || !IsSpace(t[a])
    ensures SkipSpace(t, i) == a
    decreases a - i
  {
    if i < a {
      SkipSpaceStopsAt(t, i + 1, a);
    }
  }

  /** `SkipSpaceBack` stops after the last character before `j` that is not whitespace, and nowhere else. */
  lemma {:induction false} SkipSpaceBackStopsAt(t: string, a: nat, j: nat, b: nat)
    requires a <= b <= j <= |t|
    requires forall k :: b <= k < j ==> IsSpace(t[k])
    requires b == a || !IsSpace(t[b - 1])
    ensures SkipSpaceBack(t, a, j) == b
    decreases j
  {
    if b < j {
      SkipSpaceBackStopsAt(t, a, j - 1, b);
    }
  }

  /** There is only one trimmed infix of `t`, so it is `Strip(t)`. */
  lemma TrimmedInfixIsStrip(t: string, r: string)
    requires IsTrimmedInfix(t, r)
    ensures r == Strip(t)
  {
    var a, b :| 0 <= a <= b <= |t| && r == t[a..b]
      && AllSpace(t[..a]) && AllSpace(t[b..])
      && (r == [] || (!IsSpace(r[0]) && !IsSpace(r[|r| - 1])));
    forall k | 0 <= k < a ensures IsSpace(t[k]) {
      assert t[..a][k] == t[k];
    }
    forall k | b <= k < |t| ensures IsSpace(t[k]) {
      assert t[b..][k - b] == t[k];
    }
    if r == [] {
      // every character of `t` is whitespace, so both skips meet at the end
      SkipSpaceStopsAt(t, 0, |t|);
    } else {
      assert r[0] == t[a] && r[|r| - 1] == t[b - 1];
      SkipSpaceStopsAt(t, 0, a);
      SkipSpaceBackStopsAt(t, a, |t|, b);
    }
  }

  /** The result of `strip()` neither starts nor ends with whitespace. */
  lemma StripHasNoOuterSpace(t: string)
    ensures var r := Strip(t); r == [] || (!IsSpace(r[0]) && !IsSpace(r[|r| - 1]))
  {
    var a := SkipSpace(t, 0);
    var b := SkipSpaceBack(t, a, |t|);
    var r := t[a..b];
    if r != [] {
      assert r[0] == t[a] && r[|r| - 1] == t[b - 1];
    }
  }

  /** The whitespace-only strings are exactly those that strip to the empty string. */
  lemma StripEmptyIffAllSpace(t: string)
    ensures Strip(t) == [] <==> AllSpace(t)
  {
    if Strip(t) == [] {
      var a := SkipSpace(t, 0);
      SkippedAreSpace(t, 0);
      SkippedBackAreSpace(t, a, |t|);
    }
    if AllSpace(t) {
      assert IsTrimmedInfix(t, []) by {
        assert t[..0] == [] && t[0..] == t && t[0..0] == [];
      }
      TrimmedInfixIsStrip(t, []);
    }
  }

  /** Stripping twice is stripping once. */
  lemma StripIdempotent(t: string)
    ensures Strip(Strip(t)) == Strip(t)
  {
    var r := Strip(t);
    StripIsTrimmedInfix(t);
    assert IsTrimmedInfix(r, r) by {
      assert r[..0] == [] && r[|r|..] == [] && r[0..|r|] == r;
    }
    TrimmedInfixIsStrip(r, r);
  }
}
