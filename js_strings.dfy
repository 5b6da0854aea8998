/** The string built-ins both components rely on: `String.prototype.trim`,
    `replace` with a global literal pattern, and `includes`. One `char` of a
    string is one Unicode scalar value, so `|s|` is JavaScript's `s.length`
    only inside the Basic Multilingual Plane: a character above U+FFFF counts
    once here and twice in JavaScript. */
module JsStrings {

  /** The characters `trim` removes: ECMAScript's WhiteSpace (tab, vertical
      tab, form feed, space, no-break space, the byte order mark and the
      Unicode space separators) and its LineTerminator set. */
  predicate IsJsWhitespace(c: char)
  {
    c == '\t' || c == '\U{B}' || c == '\U{C}' || c == ' ' || c == '\U{A0}' || c == '\U{FEFF}'
    || c == '\U{1680}' || ('\U{2000}' <= c <= '\U{200A}') || c == '\U{202F}' || c == '\U{205F}'
    || c == '\U{3000}' || IsLineTerminator(c)
  }

  /** ECMAScript's LineTerminator code points (also what `^` matches after in a
      multiline regular expression). */
  predicate IsLineTerminator(c: char)
  {
    c == '\n' || c == '\r' || c == '\U{2028}' || c == '\U{2029}'
  }

  predicate AllWhitespace(s: string)
  {
    forall i :: 0 <= i < |s| ==> IsJsWhitespace(s[i])
  }

  /** `s.trim()`: `s` without its leading and trailing whitespace, taken off
      one character at a time. */
  function Trim(s: string): (r: string)
    ensures |r| <= |s|
    ensures r == [] || (!IsJsWhitespace(r[0]) && !IsJsWhitespace(r[|r| - 1]))
    decreases |s|
  {
    if |s| > 0 && IsJsWhitespace(s[0]) then Trim(s[1..])
    else if |s| > 0 && IsJsWhitespace(s[|s| - 1]) then Trim(s[..|s| - 1])
    else s
  }

  /** Whitespace before and after `r` inside `s`. */
  predicate InfixBetweenWhitespace(s: string, r: string, i: int, j: int)
  {
    0 <= i <= j <= |s| && r == s[i..j] && AllWhitespace(s[..i]) && AllWhitespace(s[j..])
  }

  /** `trim` keeps exactly the part of `s` between a whitespace prefix and a
      whitespace suffix. */
  lemma {:induction false} TrimIsInfix(s: string)
    ensures exists i, j :: InfixBetweenWhitespace(s, Trim(s), i, j)
    decreases |s|, 1
  {
    if |s| > 0 && IsJsWhitespace(s[0]) {
      TrimIsInfixFront(s);
    } else if |s| > 0 && IsJsWhitespace(s[|s| - 1]) {
      TrimIsInfixBack(s);
    } else {
      assert s[..0] == [] && s[|s|..] == [] && s[0..|s|] == s;
      assert InfixBetweenWhitespace(s, Trim(s), 0, |s|);
    }
  }

  lemma {:induction false} TrimIsInfixFront(s: string)
    requires |s| > 0 && IsJsWhitespace(s[0])
    ensures exists i, j :: InfixBetweenWhitespace(s, Trim(s), i, j)
    decreases |s|, 0
  {
    var t := s[1..];
    TrimIsInfix(t);
    var i, j :| InfixBetweenWhitespace(t, Trim(t), i, j);
    InfixAfterWhitespace(s, Trim(t), i, j);
    assert Trim(s) == Trim(t);
    assert InfixBetweenWhitespace(s, Trim(s), i + 1, j + 1);
  }

  lemma {:induction false} TrimIsInfixBack(s: string)
    requires |s| > 0 && !IsJsWhitespace(s[0]) && IsJsWhitespace(s[|s| - 1])
    ensures exists i, j :: InfixBetweenWhitespace(s, Trim(s), i, j)
    decreases |s|, 0
  {
    var t := s[..|s| - 1];
    TrimIsInfix(t);
    var i, j :| InfixBetweenWhitespace(t, Trim(t), i, j);
    InfixBeforeWhitespace(s, Trim(t), i, j);
    assert Trim(s) == Trim(t);
    assert InfixBetweenWhitespace(s, Trim(s), i, j);
  }

  /** A whitespace character in front widens the whitespace prefix. */
  lemma InfixAfterWhitespace(s: string, r: string, i: int, j: int)
    requires |s| > 0 && IsJsWhitespace(s[0]) && InfixBetweenWhitespace(s[1..], r, i, j)
    ensures InfixBetweenWhitespace(s, r, i + 1, j + 1)
  {
    var t := s[1..];
    assert t[i..j] == s[i + 1..j + 1];
    assert s[..i + 1] == [s[0]] + t[..i];
    assert s[j + 1..] == t[j..];
  }

  /** A whitespace character at the end widens the whitespace suffix. */
  lemma InfixBeforeWhitespace(s: string, r: string, i: int, j: int)
    requires |s| > 0 && IsJsWhitespace(s[|s| - 1]) && InfixBetweenWhitespace(s[..|s| - 1], r, i, j)
    ensures InfixBetweenWhitespace(s, r, i, j)
  {
    var t := s[..|s| - 1];
    assert t[i..j] == s[i..j];
    assert t[..i] == s[..i];
    assert s[j..] == t[j..] + [s[|s| - 1]];
  }

  /** A string trims to nothing exactly when every character is whitespace. */
  lemma {:induction false} TrimEmptyIffBlank(s: string)
    ensures Trim(s) == [] <==> AllWhitespace(s)
    decreases |s|
  {
    if |s| > 0 && IsJsWhitespace(s[0]) {
      var t := s[1..];
      TrimEmptyIffBlank(t);
      if AllWhitespace(t) {
        forall k | 0 < k < |s|
          ensures IsJsWhitespace(s[k])
        {
          assert s[k] == t[k - 1];
        }
      }
    } else if |s| > 0 && IsJsWhitespace(s[|s| - 1]) {
      var t := s[..|s| - 1];
      TrimEmptyIffBlank(t);
      assert t[0] == s[0];
    }
  }

  /** A string that neither starts nor ends with whitespace is its own trim. */
  lemma TrimKeepsTrimmed(s: string)
    requires s == [] || (!IsJsWhitespace(s[0]) && !IsJsWhitespace(s[|s| - 1]))
    ensures Trim(s) == s
  {
  }

  /** Trimming twice is trimming once. */
  lemma TrimIdempotent(s: string)
    ensures Trim(Trim(s)) == Trim(s)
  {
    TrimKeepsTrimmed(Trim(s));
  }

  /** `p` occurs in `s` at offset `i`. */
  predicate OccursAt(s: string, p: string, i: int)
  {
    0 <= i && i + |p| <= |s| && s[i..i + |p|] == p
  }

  /** `s.includes(p)`. */
  predicate Contains(s: string, p: string)
  {
    exists i | 0 <= i <= |s| - |p| :: OccursAt(s, p, i)
  }

  /** `s.replace(/pat/g, rep)` for a pattern without special characters: the
      occurrences of `pat` are found from left to right, each search starting
      after the previous match, and each is replaced by `rep`. */
  function ReplaceAll(s: string, pat: string, rep: string): string
    requires |pat| > 0
    decreases |s|
  {
    if |s| == 0 then []
    else if |pat| <= |s| && s[..|pat|] == pat then rep + ReplaceAll(s[|pat|..], pat, rep)
    else [s[0]] + ReplaceAll(s[1..], pat, rep)
  }

  /** With a one-character pattern that is not part of the replacement, no
      occurrence of that character is left. */
  lemma {:induction false} ReplaceAllRemovesChar(s: string, c: char, rep: string)
    requires c !in rep
    ensures c !in ReplaceAll(s, [c], rep)
  {
    if |s| > 0 {
      ReplaceAllRemovesChar(s[1..], c, rep);
      if s[..1] != [c] {
        assert s[0] != c;
      }
    }
  }

  /** A character found neither in `s` nor in the replacement is not in the
      result. */
  lemma {:induction false} ReplaceAllKeepsAbsent(s: string, pat: string, rep: string, c: char)
    requires |pat| > 0 && c !in s && c !in rep
    ensures c !in ReplaceAll(s, pat, rep)
    decreases |s|
  {
    if |s| > 0 {
      if |pat| <= |s| && s[..|pat|] == pat {
        assert forall k :: 0 <= k < |s| - |pat| ==> s[|pat|..][k] == s[|pat| + k];
        ReplaceAllKeepsAbsent(s[|pat|..], pat, rep, c);
      } else {
        assert forall k :: 0 <= k < |s| - 1 ==> s[1..][k] == s[1 + k];
        ReplaceAllKeepsAbsent(s[1..], pat, rep, c);
      }
    }
  }

  /** When `pat` does not occur in `s`, replacing it changes nothing. */
  lemma {:induction false} ReplaceAllWithoutOccurrence(s: string, pat: string, rep: string)
    requires |pat| > 0 && !Contains(s, pat)
    ensures ReplaceAll(s, pat, rep) == s
    decreases |s|
  {
    if |s| > 0 {
      assert !OccursAt(s, pat, 0);
      if Contains(s[1..], pat) {
        var i :| 0 <= i <= |s[1..]| - |pat| && OccursAt(s[1..], pat, i);
        assert s[i + 1..i + 1 + |pat|] == s[1..][i..i + |pat|];
        assert OccursAt(s, pat, i + 1);
        assert false;
      }
      ReplaceAllWithoutOccurrence(s[1..], pat, rep);
    }
  }

  /** A one-character replacement acts on each character separately, so it
      distributes over concatenation. */
  lemma {:induction false} ReplaceCharAppend(a: string, b: string, c: char, rep: string)
    ensures ReplaceAll(a + b, [c], rep) == ReplaceAll(a, [c], rep) + ReplaceAll(b, [c], rep)
    decreases |a|
  {
    if |a| > 0 {
      assert (a + b)[1..] == a[1..] + b;
      assert (a + b)[..1] == a[..1];
      ReplaceCharAppend(a[1..], b, c, rep);
    } else {
      assert a + b == b;
    }
  }
}
