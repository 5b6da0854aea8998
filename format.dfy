/** `formatBotResponse` (script.js): the pure rewrite of a bot reply into the
    markup the widget shows. A chain of literal replace-all steps, a bullet
    rule for dashes at the start of a line, a conditional paragraph wrap,
    and two highlight passes that wrap whole words from a fixed list,
    matched without regard to ASCII case, in a coloured `<strong>` tag. */
module Format {
  import opened JsValues
  import opened JsStrings

  // ---------------------------------------------------------------------
  // The line-break and bullet steps
  // ---------------------------------------------------------------------

  /** `replace(/\\"/g, '"')`: an escaped quote becomes a plain quote. */
  function Unescaped(s: string): string
  {
    ReplaceAll(s, "\\\"", "\"")
  }

  /** `replace(/\n\n/g, "</p><p>")`. */
  function ParagraphBreaks(s: string): string
  {
    ReplaceAll(s, "\n\n", "</p><p>")
  }

  /** `replace(/\n/g, "<br>")`. */
  function LineBreaks(s: string): string
  {
    ReplaceAll(s, "\n", "<br>")
  }

  /** `replace(/^- /gm, "• ")`: in multiline mode `^` matches at the start of
      the text and right after a line terminator; `atLineStart` says whether
      the text before `s` ended at such a place. */
  function BulletLines(s: string, atLineStart: bool): string
    decreases |s|
  {
    if |s| == 0 then []
    else if atLineStart && |s| >= 2 && s[..2] == "- " then "\U{2022} " + BulletLines(s[2..], false)
    else [s[0]] + BulletLines(s[1..], IsLineTerminator(s[0]))
  }

  /** `replace(/<br>- /g, "<br>• ")`. */
  function BulletBreaks(s: string): string
  {
    ReplaceAll(s, "<br>- ", "<br>\U{2022} ")
  }

  /** The text after the five replace steps of lines 183 to 193. */
  function Rewritten(s: string): string
  {
    BulletBreaks(BulletLines(LineBreaks(ParagraphBreaks(Unescaped(s))), true))
  }

  /** Lines 196 to 198: wrap in a paragraph when there is a paragraph break. */
  function WrapParagraphs(s: string): string
  {
    if Contains(s, "</p><p>") then "<p>" + s + "</p>" else s
  }

  /** After the two line-break steps no line feed is left. */
  lemma LineBreaksLeaveNoNewline(s: string)
    ensures '\n' !in LineBreaks(ParagraphBreaks(s))
  {
    ReplaceAllRemovesChar(ParagraphBreaks(s), '\n', "<br>");
  }

  /** The bullet rule brings in only a bullet and a space. */
  lemma {:induction false} BulletLinesKeepsAbsent(s: string, atLineStart: bool, c: char)
    requires c !in s && c != '\U{2022}' && c != ' '
    ensures c !in BulletLines(s, atLineStart)
    decreases |s|
  {
    if |s| > 0 {
      if atLineStart && |s| >= 2 && s[..2] == "- " {
        assert forall k :: 0 <= k < |s| - 2 ==> s[2..][k] == s[2 + k];
        BulletLinesKeepsAbsent(s[2..], false, c);
      } else {
        assert forall k :: 0 <= k < |s| - 1 ==> s[1..][k] == s[1 + k];
        BulletLinesKeepsAbsent(s[1..], IsLineTerminator(s[0]), c);
      }
    }
  }

  /** Away from a line start, and with no line terminator to start a new
      line, the bullet rule changes nothing. */
  lemma {:induction false} BulletLinesInsideLine(s: string)
    requires forall k :: 0 <= k < |s| ==> !IsLineTerminator(s[k])
    ensures BulletLines(s, false) == s
    decreases |s|
  {
    if |s| > 0 {
      assert forall k :: 0 <= k < |s| - 1 ==> s[1..][k] == s[1 + k];
      BulletLinesInsideLine(s[1..]);
    }
  }

  /** Once line feeds have become `<br>`, the bullet rule fires at most once:
      on a `- ` that opens text without line terminators. */
  lemma BulletLinesOnOneLine(s: string)
    requires forall k :: 0 <= k < |s| ==> !IsLineTerminator(s[k])
    ensures |s| >= 2 && s[..2] == "- " ==> BulletLines(s, true) == "\U{2022} " + s[2..]
    ensures !(|s| >= 2 && s[..2] == "- ") ==> BulletLines(s, true) == s
  {
    if |s| >= 2 && s[..2] == "- " {
      var rest := s[2..];
      assert forall k :: 0 <= k < |rest| ==> rest[k] == s[2 + k];
      BulletLinesInsideLine(rest);
      assert BulletLines(s, true) == "\U{2022} " + BulletLines(rest, false);
    } else if |s| > 0 {
      var rest := s[1..];
      assert forall k :: 0 <= k < |rest| ==> rest[k] == s[1 + k];
      BulletLinesInsideLine(rest);
      assert !IsLineTerminator(s[0]);
      assert BulletLines(s, true) == [s[0]] + BulletLines(rest, false);
      assert s == [s[0]] + rest;
    }
  }

  /** The whole rewrite leaves no line feed either. */
  lemma RewrittenLeavesNoNewline(s: string)
    ensures '\n' !in Rewritten(s)
  {
    var t := LineBreaks(ParagraphBreaks(Unescaped(s)));
    LineBreaksLeaveNoNewline(Unescaped(s));
    BulletLinesKeepsAbsent(t, true, '\n');
    ReplaceAllKeepsAbsent(BulletLines(t, true), "<br>- ", "<br>\U{2022} ", '\n');
  }

  // ---------------------------------------------------------------------
  // Whole-word highlighting
  // ---------------------------------------------------------------------

  /** `\w` of a regular expression without the `u` flag. */
  predicate IsWordChar(c: char)
  {
    'a' <= c <= 'z' || 'A' <= c <= 'Z' || '0' <= c <= '9' || c == '_'
  }

  /** The case folding of the `i` flag without the `u` flag, as it bears on
      ASCII-letter patterns: only `A`-`Z` fold onto `a`-`z` (a non-ASCII
      character never canonicalises to an ASCII one). */
  function Lower(c: char): char
  {
    if 'A' <= c <= 'Z' then (c as int + 32) as char else c
  }

  predicate IsLowerLetter(c: char)
  {
    'a' <= c <= 'z'
  }

  /** A highlight term: two or more lower-case ASCII letters. */
  predicate IsTerm(w: string)
  {
    |w| >= 2 && forall k :: 0 <= k < |w| ==> IsLowerLetter(w[k])
  }

  predicate IsTermList(terms: seq<string>)
  {
    forall i :: 0 <= i < |terms| ==> IsTerm(terms[i])
  }

  const DangerTerms: seq<string> := ["cancer", "toxic", "harmful", "dangerous", "avoid", "banned"]
  const SafeTerms: seq<string> := ["safe", "safer", "recommended", "choose", "certified"]
  const DangerOpen := "<strong style=\"color: #e91e63;\">"
  const SafeOpen := "<strong style=\"color: #6ab04c;\">"
  const Close := "</strong>"

  /** `s` starts with `w` up to ASCII case. */
  predicate CiPrefix(w: string, s: string)
  {
    |w| <= |s| && forall k :: 0 <= k < |w| ==> Lower(s[k]) == Lower(w[k])
  }

  /** `w` matches at the front of `s` and is followed by a word boundary. */
  predicate MatchesWord(s: string, w: string)
  {
    CiPrefix(w, s) && (|s| == |w| || !IsWordChar(s[|w|]))
  }

  lemma LowerLetter(c: char)
    ensures IsLowerLetter(Lower(c)) ==> 'a' <= c <= 'z' || 'A' <= c <= 'Z'
    ensures IsWordChar(c) <==> IsWordChar(Lower(c))
  {
  }

  /** The alternation `(t1|t2|...)\b` tried at the front of `s`: the length of
      the first alternative, in list order, that matches with a boundary
      after it. A match is made of word characters only. */
  function TermAt(s: string, terms: seq<string>): (r: Option<nat>)
    requires IsTermList(terms)
    ensures r.Some? ==> 2 <= r.value <= |s| && forall k :: 0 <= k < r.value ==> IsWordChar(s[k])
    decreases |terms|
  {
    if |terms| == 0 then None
    else if MatchesWord(s, terms[0]) then
      assert IsTerm(terms[0]);
      forall k | 0 <= k < |terms[0]| ensures IsWordChar(s[k]) {
        LowerLetter(s[k]);
      }
      Some(|terms[0]|)
    else
      TailIsTermList(terms);
      TermAt(s, terms[1..])
  }

  lemma TailIsTermList(terms: seq<string>)
    requires IsTermList(terms) && |terms| > 0
    ensures IsTermList(terms[1..])
  {
    forall i | 0 <= i < |terms[1..]| ensures IsTerm(terms[1..][i]) {
      assert terms[1..][i] == terms[i + 1];
    }
  }

  /** `TermAt` finds a match exactly when some term of the list matches, and
      the length it gives is that of a matching term. */
  lemma {:induction false} TermAtMeaning(s: string, terms: seq<string>)
    requires IsTermList(terms)
    ensures TermAt(s, terms).Some? <==> exists w :: w in terms && MatchesWord(s, w)
    ensures TermAt(s, terms).Some? ==>
              exists w :: w in terms && |w| == TermAt(s, terms).value && MatchesWord(s, w)
    decreases |terms|
  {
    if |terms| > 0 && !MatchesWord(s, terms[0]) {
      TailIsTermList(terms);
      TermAtMeaning(s, terms[1..]);
      assert forall w :: w in terms <==> w == terms[0] || w in terms[1..];
    }
  }

  /** A match needs a non-word character right after it, so it cannot be
      a proper prefix of another matching term. */
  lemma ShorterMatchExcludesLonger(s: string, w1: string, w2: string)
    requires IsTerm(w2) && CiPrefix(w2, s) && |w1| < |w2|
    ensures !MatchesWord(s, w1)
  {
    LowerLetter(s[|w1|]);
    assert IsLowerLetter(w2[|w1|]);
  }

  /** At one place at most one length of term can match. */
  lemma MatchLengthUnique(s: string, w1: string, w2: string)
    requires IsTerm(w1) && IsTerm(w2) && MatchesWord(s, w1) && MatchesWord(s, w2)
    ensures |w1| == |w2|
  {
    if |w1| < |w2| {
      ShorterMatchExcludesLonger(s, w1, w2);
    } else if |w2| < |w1| {
      ShorterMatchExcludesLonger(s, w2, w1);
    }
  }

  /** A piece of the scanned text: a character left as it is, or a matched
      term kept in its original casing. */
  datatype Piece = Plain(c: char) | Term(text: string)

  function Width(p: Piece): nat
  {
    match p
    case Plain(_) => 1
    case Term(t) => |t|
  }

  /** The text of a sequence of pieces, markup left out. */
  function Unwrap(ps: seq<Piece>): string
  {
    if ps == [] then [] else
      (match ps[0] case Plain(c) => [c] case Term(t) => t) + Unwrap(ps[1..])
  }

  /** The markup of a sequence of pieces: each term inside `open` and `</strong>`
      (the `$1` of the replacement is the matched text itself). */
  function Render(ps: seq<Piece>, open: string): string
  {
    if ps == [] then [] else
      (match ps[0] case Plain(c) => [c] case Term(t) => open + t + Close) + Render(ps[1..], open)
  }

  /** The global regular-expression search `/\b(...)\b/gi` over `s`, split into
      the pieces it matches and the characters between them. `afterWord`
      says whether the character before `s` is a word character; a match can
      only start at a word boundary, and the search resumes after it. */
  function Scan(s: string, afterWord: bool, terms: seq<string>): seq<Piece>
    requires IsTermList(terms)
    decreases |s|
  {
    if |s| == 0 then []
    else
      var m := TermAt(s, terms);
      if !afterWord && m.Some? then [Term(s[..m.value])] + Scan(s[m.value..], true, terms)
      else [Plain(s[0])] + Scan(s[1..], IsWordChar(s[0]), terms)
  }

  /** `s.replace(/\b(terms)\b/gi, open + "$1" + "</strong>")`. */
  function Highlight(s: string, terms: seq<string>, open: string): string
    requires IsTermList(terms)
  {
    Render(Scan(s, false, terms), open)
  }

  /** The piece that starts `i` characters into the text of `ps`, if
      one does. */
  function PieceAt(ps: seq<Piece>, i: nat): Option<Piece>
  {
    if ps == [] then None
    else if i == 0 then Some(ps[0])
    else if i < Width(ps[0]) then None
    else PieceAt(ps[1..], i - Width(ps[0]))
  }

  /** A whole-word, case-insensitive occurrence of a term starts at offset
      `i` of `s` (with `afterWord` describing the character before `s`). */
  predicate WholeWordAt(s: string, i: int, afterWord: bool, terms: seq<string>)
    requires IsTermList(terms)
  {
    0 <= i < |s| && (if i == 0 then !afterWord else !IsWordChar(s[i - 1]))
    && TermAt(s[i..], terms).Some?
  }

  /** The text of the term occurrence at offset `i` of `s`, as written. */
  function MatchedText(s: string, i: nat, terms: seq<string>): string
    requires IsTermList(terms)
  {
    if i < |s| && TermAt(s[i..], terms).Some? then s[i..i + TermAt(s[i..], terms).value] else []
  }

  /** Highlighting never loses or reorders text: the pieces spell `s`. */
  lemma {:induction false} ScanKeepsText(s: string, afterWord: bool, terms: seq<string>)
    requires IsTermList(terms)
    ensures Unwrap(Scan(s, afterWord, terms)) == s
    decreases |s|
  {
    if |s| > 0 {
      var m := TermAt(s, terms);
      if !afterWord && m.Some? {
        ScanKeepsText(s[m.value..], true, terms);
        assert s == s[..m.value] + s[m.value..];
      } else {
        ScanKeepsText(s[1..], IsWordChar(s[0]), terms);
        assert s == [s[0]] + s[1..];
      }
    }
  }

  /** A term piece starts exactly where a whole-word occurrence of a term
      starts, and it holds that occurrence as written in `s`; every other
      offset is plain text or lies inside a term. */
  lemma {:induction false} ScanFindsWholeWords(s: string, afterWord: bool, terms: seq<string>, i: nat)
    requires IsTermList(terms)
    ensures (PieceAt(Scan(s, afterWord, terms), i).Some? && PieceAt(Scan(s, afterWord, terms), i).value.Term?)
            <==> WholeWordAt(s, i, afterWord, terms)
    ensures WholeWordAt(s, i, afterWord, terms) ==>
              PieceAt(Scan(s, afterWord, terms), i) == Some(Term(MatchedText(s, i, terms)))
    decreases |s|, 1
  {
    if |s| > 0 {
      var m := TermAt(s, terms);
      if !afterWord && m.Some? {
        ScanFindsWholeWordsAfterTerm(s, terms, i);
      } else {
        ScanFindsWholeWordsAfterPlain(s, afterWord, terms, i);
      }
    }
  }

  /** The case of `ScanFindsWholeWords` where the scan starts with a term. */
  lemma {:induction false} ScanFindsWholeWordsAfterTerm(s: string, terms: seq<string>, i: nat)
    requires IsTermList(terms) && TermAt(s, terms).Some?
    ensures (PieceAt(Scan(s, false, terms), i).Some? && PieceAt(Scan(s, false, terms), i).value.Term?)
            <==> WholeWordAt(s, i, false, terms)
    ensures WholeWordAt(s, i, false, terms) ==>
              PieceAt(Scan(s, false, terms), i) == Some(Term(MatchedText(s, i, terms)))
    decreases |s|, 0
  {
    var n := TermAt(s, terms).value;
    var rest := Scan(s[n..], true, terms);
    var ps := Scan(s, false, terms);
    assert ps == [Term(s[..n])] + rest;
    assert ps[0] == Term(s[..n]) && ps[1..] == rest && Width(ps[0]) == n;
    if i == 0 {
      assert s[0..] == s;
    } else if i < n {
      assert IsWordChar(s[i - 1]);
    } else {
      assert PieceAt(ps, i) == PieceAt(rest, i - n);
      ScanFindsWholeWords(s[n..], true, terms, i - n);
      assert IsWordChar(s[n - 1]);
      WholeWordAtDrop(s, n, false, terms, i);
    }
  }

  /** The case of `ScanFindsWholeWords` where the scan starts with a plain
      character. */
  lemma {:induction false} ScanFindsWholeWordsAfterPlain(s: string, afterWord: bool, terms: seq<string>, i: nat)
    requires IsTermList(terms) && |s| > 0 && (afterWord || TermAt(s, terms).None?)
    ensures (PieceAt(Scan(s, afterWord, terms), i).Some? && PieceAt(Scan(s, afterWord, terms), i).value.Term?)
            <==> WholeWordAt(s, i, afterWord, terms)
    ensures WholeWordAt(s, i, afterWord, terms) ==>
              PieceAt(Scan(s, afterWord, terms), i) == Some(Term(MatchedText(s, i, terms)))
    decreases |s|, 0
  {
    var rest := Scan(s[1..], IsWordChar(s[0]), terms);
    var ps := Scan(s, afterWord, terms);
    assert ps == [Plain(s[0])] + rest;
    assert ps[0] == Plain(s[0]) && ps[1..] == rest;
    if i == 0 {
      assert s[0..] == s;
    } else {
      assert PieceAt(ps, i) == PieceAt(rest, i - 1);
      ScanFindsWholeWords(s[1..], IsWordChar(s[0]), terms, i - 1);
      WholeWordAtDrop(s, 1, afterWord, terms, i);
    }
  }

  /** Seen from `s[n..]`, with the character before it as context, a
      whole-word occurrence is the same occurrence. */
  lemma WholeWordAtDrop(s: string, n: nat, afterWord: bool, terms: seq<string>, i: nat)
    requires IsTermList(terms) && 0 < n <= |s| && n <= i
    ensures WholeWordAt(s, i, afterWord, terms) == WholeWordAt(s[n..], i - n, IsWordChar(s[n - 1]), terms)
    ensures MatchedText(s[n..], i - n, terms) == MatchedText(s, i, terms)
  {
    if i < |s| {
      assert s[n..][i - n..] == s[i..];
      if i > n { assert s[n..][i - n - 1] == s[i - 1]; }
      if TermAt(s[i..], terms).Some? {
        var k := TermAt(s[i..], terms).value;
        assert s[n..][i - n..i - n + k] == s[i..i + k];
      }
    }
  }

  // ---------------------------------------------------------------------
  // Highlighting around a word boundary, and the whole transform
  // ---------------------------------------------------------------------

  /** Whether the character before the text that follows `x` is a word
      character, given `afterWord` for the character before `x`. */
  function AfterWord(x: string, afterWord: bool): bool
  {
    if |x| == 0 then afterWord else IsWordChar(x[|x| - 1])
  }

  /** A boundary that has a non-word character on one side. */
  predicate NonWordJoint(x: string, y: string)
  {
    |x| == 0 || |y| == 0 || !IsWordChar(x[|x| - 1]) || !IsWordChar(y[0])
  }

  /** No term can reach across a non-word joint. */
  lemma MatchesWordAppend(x: string, y: string, w: string)
    requires IsTerm(w) && |x| > 0 && NonWordJoint(x, y)
    ensures MatchesWord(x + y, w) <==> MatchesWord(x, w)
  {
    var xy := x + y;
    assert forall k :: 0 <= k < |x| ==> xy[k] == x[k];
    if |w| == |x| && |y| > 0 && IsWordChar(y[0]) {
      LowerLetter(x[|x| - 1]);
      assert IsLowerLetter(w[|x| - 1]);
    } else if |w| > |x| && |xy| >= |w| {
      if !IsWordChar(x[|x| - 1]) {
        LowerLetter(x[|x| - 1]);
        assert IsLowerLetter(w[|x| - 1]);
      } else {
        assert xy[|x|] == y[0];
        LowerLetter(y[0]);
        assert IsLowerLetter(w[|x|]);
      }
    }
  }

  lemma {:induction false} TermAtAppend(x: string, y: string, terms: seq<string>)
    requires IsTermList(terms) && |x| > 0 && NonWordJoint(x, y)
    ensures TermAt(x + y, terms) == TermAt(x, terms)
    decreases |terms|
  {
    if |terms| > 0 {
      assert IsTerm(terms[0]);
      MatchesWordAppend(x, y, terms[0]);
      if !MatchesWord(x, terms[0]) {
        TailIsTermList(terms);
        TermAtAppend(x, y, terms[1..]);
      }
    }
  }

  /** Across a non-word joint the scan of a concatenation is the scan of the
      two parts. */
  lemma {:induction false} ScanAppend(x: string, y: string, afterWord: bool, terms: seq<string>)
    requires IsTermList(terms) && NonWordJoint(x, y)
    ensures Scan(x + y, afterWord, terms) == Scan(x, afterWord, terms) + Scan(y, AfterWord(x, afterWord), terms)
    decreases |x|, 1
  {
    if |x| == 0 {
      assert x + y == y;
    } else {
      TermAtAppend(x, y, terms);
      var m := TermAt(x, terms);
      if !afterWord && m.Some? {
        ScanAppendAfterTerm(x, y, terms);
      } else {
        ScanAppendAfterPlain(x, y, afterWord, terms);
      }
    }
  }

  lemma {:induction false} ScanAppendAfterTerm(x: string, y: string, terms: seq<string>)
    requires IsTermList(terms) && NonWordJoint(x, y) && |x| > 0 && TermAt(x, terms).Some?
    ensures Scan(x + y, false, terms) == Scan(x, false, terms) + Scan(y, AfterWord(x, false), terms)
    decreases |x|, 0
  {
    TermAtAppend(x, y, terms);
    var n := TermAt(x, terms).value;
    assert Scan(x, false, terms) == [Term(x[..n])] + Scan(x[n..], true, terms);
    assert (x + y)[..n] == x[..n];
    assert (x + y)[n..] == x[n..] + y;
    assert Scan(x + y, false, terms) == [Term(x[..n])] + Scan(x[n..] + y, true, terms);
    if n < |x| { assert x[n..][|x[n..]| - 1] == x[|x| - 1]; }
    ScanAppend(x[n..], y, true, terms);
    assert AfterWord(x[n..], true) == AfterWord(x, false);
    var head, left, right := [Term(x[..n])], Scan(x[n..], true, terms), Scan(y, AfterWord(x, false), terms);
    assert Scan(x + y, false, terms) == head + (left + right);
    ConcatAssociates(head, left, right);
  }

  lemma {:induction false} ScanAppendAfterPlain(x: string, y: string, afterWord: bool, terms: seq<string>)
    requires IsTermList(terms) && NonWordJoint(x, y) && |x| > 0 && (afterWord || TermAt(x, terms).None?)
    ensures Scan(x + y, afterWord, terms) == Scan(x, afterWord, terms) + Scan(y, AfterWord(x, afterWord), terms)
    decreases |x|, 0
  {
    TermAtAppend(x, y, terms);
    var xy := x + y;
    assert afterWord || TermAt(xy, terms).None?;
    assert Scan(x, afterWord, terms) == [Plain(x[0])] + Scan(x[1..], IsWordChar(x[0]), terms);
    assert xy[0] == x[0];
    assert xy[1..] == x[1..] + y;
    assert Scan(xy, afterWord, terms) == [Plain(xy[0])] + Scan(xy[1..], IsWordChar(xy[0]), terms);
    if 1 < |x| { assert x[1..][|x[1..]| - 1] == x[|x| - 1]; }
    ScanAppend(x[1..], y, IsWordChar(x[0]), terms);
    assert AfterWord(x[1..], IsWordChar(x[0])) == AfterWord(x, afterWord);
    var head, left, right := [Plain(x[0])], Scan(x[1..], IsWordChar(x[0]), terms), Scan(y, AfterWord(x, afterWord), terms);
    assert Scan(xy, afterWord, terms) == head + (left + right);
    ConcatAssociates(head, left, right);
  }

  lemma ConcatAssociates(a: seq<Piece>, b: seq<Piece>, c: seq<Piece>)
    ensures a + (b + c) == (a + b) + c
  {
  }

  lemma {:induction false} RenderAppend(p: seq<Piece>, q: seq<Piece>, open: string)
    ensures Render(p + q, open) == Render(p, open) + Render(q, open)
    decreases |p|
  {
    if p == [] {
      assert p + q == q;
    } else {
      assert (p + q)[0] == p[0];
      assert (p + q)[1..] == p[1..] + q;
      RenderAppend(p[1..], q, open);
    }
  }

  /** A text whose first character is not a word character, or whose
      second is not, starts with a plain piece. */
  lemma ScanStartsPlain(x: string, afterWord: bool, terms: seq<string>)
    requires IsTermList(terms) && |x| > 0 && (!IsWordChar(x[0]) || |x| < 2 || !IsWordChar(x[1]))
    ensures Scan(x, afterWord, terms) == [Plain(x[0])] + Scan(x[1..], IsWordChar(x[0]), terms)
  {
    assert TermAt(x, terms).None?;
  }

  /** The two paragraph tags hold no term, so their characters stay plain. */
  lemma TagsScanPlain(terms: seq<string>, afterWord: bool)
    requires IsTermList(terms)
    ensures Scan("<p>", afterWord, terms) == [Plain('<'), Plain('p'), Plain('>')]
    ensures Scan("</p>", afterWord, terms) == [Plain('<'), Plain('/'), Plain('p'), Plain('>')]
  {
    var gt: string := ">";
    var p: string := "p>";
    ScanStartsPlain(gt, true, terms);
    assert gt[1..] == [];
    ScanStartsPlain(p, false, terms);
    assert p[1..] == gt;
    var open: string := "<p>";
    ScanStartsPlain(open, afterWord, terms);
    assert open[1..] == p;
    var slash: string := "/p>";
    ScanStartsPlain(slash, false, terms);
    assert slash[1..] == p;
    var close: string := "</p>";
    ScanStartsPlain(close, afterWord, terms);
    assert close[1..] == slash;
  }

  /** Highlighting leaves a paragraph wrapper in place around the
      highlighted text. */
  lemma HighlightKeepsWrapper(t: string, terms: seq<string>, open: string)
    requires IsTermList(terms)
    ensures Highlight("<p>" + t + "</p>", terms, open) == "<p>" + Highlight(t, terms, open) + "</p>"
  {
    assert "<p>" + t + "</p>" == "<p>" + (t + "</p>");
    ScanAppend("<p>", t + "</p>", false, terms);
    ScanAppend(t, "</p>", false, terms);
    TagsScanPlain(terms, false);
    TagsScanPlain(terms, AfterWord(t, false));
    var a, b, c := Scan("<p>", false, terms), Scan(t, false, terms), Scan("</p>", AfterWord(t, false), terms);
    RenderAppend(a, b + c, open);
    RenderAppend(b, c, open);
    RenderTags(open);
  }

  lemma RenderTags(open: string)
    ensures Render([Plain('<'), Plain('p'), Plain('>')], open) == "<p>"
    ensures Render([Plain('<'), Plain('/'), Plain('p'), Plain('>')], open) == "</p>"
  {
    var gt := [Plain('>')];
    assert gt[1..] == [];
    assert Render(gt, open) == ">";
    var p := [Plain('p')] + gt;
    assert p[1..] == gt;
    assert Render(p, open) == "p>";
    var slash := [Plain('/')] + p;
    assert slash[1..] == p;
    assert Render(slash, open) == "/p>";
    var openTag, closeTag := [Plain('<')] + p, [Plain('<')] + slash;
    assert openTag[1..] == p && closeTag[1..] == slash;
    assert Render(openTag, open) == "<p>";
    assert Render(closeTag, open) == "</p>";
    assert openTag == [Plain('<'), Plain('p'), Plain('>')];
    assert closeTag == [Plain('<'), Plain('/'), Plain('p'), Plain('>')];
  }

  /** Markup brings in only the characters of the opening and closing tags. */
  lemma {:induction false} RenderKeepsAbsent(ps: seq<Piece>, open: string, c: char)
    requires c !in Unwrap(ps) && c !in open && c !in Close
    ensures c !in Render(ps, open)
    decreases |ps|
  {
    if ps != [] {
      var head := match ps[0] case Plain(x) => [x] case Term(t) => t;
      assert Unwrap(ps) == head + Unwrap(ps[1..]);
      assert c !in head && c !in Unwrap(ps[1..]);
      RenderKeepsAbsent(ps[1..], open, c);
    }
  }

  lemma HighlightKeepsAbsent(t: string, terms: seq<string>, open: string, c: char)
    requires IsTermList(terms) && c !in t && c !in open && c !in Close
    ensures c !in Highlight(t, terms, open)
  {
    ScanKeepsText(t, false, terms);
    RenderKeepsAbsent(Scan(t, false, terms), open, c);
  }

  lemma TermListsAreWellFormed()
    ensures IsTermList(DangerTerms) && IsTermList(SafeTerms)
  {
  }

  /** The two highlight passes of lines 201 to 209, danger terms first. */
  function Highlights(t: string): string
  {
    TermListsAreWellFormed();
    Highlight(Highlight(t, DangerTerms, DangerOpen), SafeTerms, SafeOpen)
  }

  /** `formatBotResponse` on a non-empty string. */
  function FormatText(s: string): string
  {
    Highlights(WrapParagraphs(Rewritten(s)))
  }

  /** The paragraph wrap is decided on the rewritten text, before any
      highlighting, and the highlight passes leave it intact. */
  lemma FormatWrapsParagraphs(s: string)
    ensures Contains(Rewritten(s), "</p><p>") ==> FormatText(s) == "<p>" + Highlights(Rewritten(s)) + "</p>"
    ensures !Contains(Rewritten(s), "</p><p>") ==> FormatText(s) == Highlights(Rewritten(s))
  {
    var t := Rewritten(s);
    if Contains(t, "</p><p>") {
      TermListsAreWellFormed();
      HighlightKeepsWrapper(t, DangerTerms, DangerOpen);
      HighlightKeepsWrapper(Highlight(t, DangerTerms, DangerOpen), SafeTerms, SafeOpen);
    }
  }

  /** No line feed survives the transform. */
  lemma FormatTextHasNoNewline(s: string)
    ensures '\n' !in FormatText(s)
  {
    var t := Rewritten(s);
    RewrittenLeavesNoNewline(s);
    var w := WrapParagraphs(t);
    assert '\n' !in w;
    TermListsAreWellFormed();
    HighlightKeepsAbsent(w, DangerTerms, DangerOpen, '\n');
    HighlightKeepsAbsent(Highlight(w, DangerTerms, DangerOpen), SafeTerms, SafeOpen, '\n');
  }

  // ---------------------------------------------------------------------
  // The two highlight passes together
  // ---------------------------------------------------------------------

  /** The length of the run of word characters at the front of `s`. */
  function WordRun(s: string): (n: nat)
    ensures n <= |s|
    ensures forall k :: 0 <= k < n ==> IsWordChar(s[k])
    ensures n == |s| || !IsWordChar(s[n])
    ensures |s| > 0 && IsWordChar(s[0]) ==> n > 0
    decreases |s|
  {
    if |s| == 0 || !IsWordChar(s[0]) then 0
    else
      var m := WordRun(s[1..]);
      assert forall k :: 1 <= k < 1 + m ==> s[k] == s[1..][k - 1];
      1 + m
  }

  /** `w` is one of `terms` up to ASCII case. */
  predicate Listed(w: string, terms: seq<string>)
  {
    exists t :: t in terms && |t| == |w| && CiPrefix(t, w)
  }

  /** A part of a text as the two passes leave it: characters left alone, or
      a whole word in one of the two colours, kept as written. */
  datatype Mark = Text(chars: string) | Danger(word: string) | Safe(word: string)

  function Paint(ms: seq<Mark>): string
  {
    if ms == [] then [] else
      (match ms[0]
       case Text(s) => s
       case Danger(w) => DangerOpen + w + Close
       case Safe(w) => SafeOpen + w + Close) + Paint(ms[1..])
  }

  /** The two passes read word by word: each maximal run of word characters
      that is a danger term up to ASCII case is marked pink, else one that is
      a safe term is marked green; every other character is left alone. */
  function Marked(s: string): seq<Mark>
    decreases |s|
  {
    if |s| == 0 then []
    else if !IsWordChar(s[0]) then [Text([s[0]])] + Marked(s[1..])
    else
      var n := WordRun(s);
      MarkOf(s[..n]) + Marked(s[n..])
  }

  /** The mark of one whole word. */
  function MarkOf(w: string): seq<Mark>
  {
    [if Listed(w, DangerTerms) then Danger(w) else if Listed(w, SafeTerms) then Safe(w) else Text(w)]
  }

  /** The letters of the marks, colours left out. */
  function Spelled(ms: seq<Mark>): string
  {
    if ms == [] then [] else
      (match ms[0] case Text(s) => s case Danger(w) => w case Safe(w) => w) + Spelled(ms[1..])
  }

  lemma {:induction false} SpelledAppend(a: seq<Mark>, b: seq<Mark>)
    ensures Spelled(a + b) == Spelled(a) + Spelled(b)
    decreases |a|
  {
    if a == [] {
      assert a + b == b;
    } else {
      assert (a + b)[0] == a[0];
      assert (a + b)[1..] == a[1..] + b;
      SpelledAppend(a[1..], b);
    }
  }

  /** The marks spell the text back: marking loses, adds and reorders nothing. */
  lemma {:induction false} MarkedKeepsText(s: string)
    ensures Spelled(Marked(s)) == s
    decreases |s|
  {
    if |s| > 0 {
      var n := if !IsWordChar(s[0]) then 1 else WordRun(s);
      var head := if !IsWordChar(s[0]) then [Text([s[0]])] else MarkOf(s[..n]);
      assert Marked(s) == head + Marked(s[n..]);
      SpelledAppend(head, Marked(s[n..]));
      MarkedKeepsText(s[n..]);
      assert Spelled(head) == s[..n];
      assert s == s[..n] + s[n..];
    }
  }

  /** Before a non-word character, whether the character before was a word
      character makes no difference to the search. */
  lemma ScanIgnoresAfterWord(s: string, terms: seq<string>)
    requires IsTermList(terms) && (|s| == 0 || !IsWordChar(s[0]))
    ensures Scan(s, true, terms) == Scan(s, false, terms)
  {
    if |s| > 0 {
      assert TermAt(s, terms).None?;
    }
  }

  /** Across a non-word joint a highlight pass acts on each side alone. */
  lemma HighlightAppend(x: string, y: string, terms: seq<string>, open: string)
    requires IsTermList(terms) && NonWordJoint(x, y)
    ensures Highlight(x + y, terms, open) == Highlight(x, terms, open) + Highlight(y, terms, open)
  {
    ScanAppend(x, y, false, terms);
    if |y| == 0 || !IsWordChar(y[0]) {
      ScanIgnoresAfterWord(y, terms);
    }
    assert Scan(y, AfterWord(x, false), terms) == Scan(y, false, terms);
    RenderAppend(Scan(x, false, terms), Scan(y, false, terms), open);
  }

  /** A non-word character is left alone. */
  lemma HighlightNonWordChar(c: char, terms: seq<string>, open: string)
    requires IsTermList(terms) && !IsWordChar(c)
    ensures Highlight([c], terms, open) == [c]
  {
    ScanStartsPlain([c], false, terms);
    assert [c][1..] == [];
    var ps := [Plain(c)];
    assert Scan([c], false, terms) == ps;
    assert ps[1..] == [];
    assert Render(ps, open) == [c] + Render([], open);
  }

  /** A pass keeps a non-word character at either end of the text. */
  lemma HighlightEdges(s: string, terms: seq<string>, open: string)
    requires IsTermList(terms)
    ensures |s| == 0 ==> Highlight(s, terms, open) == []
    ensures |s| > 0 && !IsWordChar(s[0]) ==>
              |Highlight(s, terms, open)| > 0 && Highlight(s, terms, open)[0] == s[0]
    ensures |s| > 0 && !IsWordChar(s[|s| - 1]) ==>
              |Highlight(s, terms, open)| > 0 && Highlight(s, terms, open)[|Highlight(s, terms, open)| - 1] == s[|s| - 1]
  {
    if |s| > 0 && !IsWordChar(s[0]) {
      assert s == [s[0]] + s[1..];
      HighlightAppend([s[0]], s[1..], terms, open);
      HighlightNonWordChar(s[0], terms, open);
    }
    if |s| > 0 && !IsWordChar(s[|s| - 1]) {
      var c := s[|s| - 1];
      assert s == s[..|s| - 1] + [c];
      HighlightAppend(s[..|s| - 1], [c], terms, open);
      HighlightNonWordChar(c, terms, open);
    }
  }

  /** ... so a non-word joint is still one after the pass. */
  lemma HighlightKeepsJoint(x: string, y: string, terms: seq<string>, open: string)
    requires IsTermList(terms) && NonWordJoint(x, y)
    ensures NonWordJoint(Highlight(x, terms, open), Highlight(y, terms, open))
  {
    HighlightEdges(x, terms, open);
    HighlightEdges(y, terms, open);
  }

  /** Inside a word no match can start, so the rest of the word is left alone. */
  lemma {:induction false} RenderInsideWord(x: string, terms: seq<string>, open: string)
    requires IsTermList(terms) && forall k :: 0 <= k < |x| ==> IsWordChar(x[k])
    ensures Render(Scan(x, true, terms), open) == x
    decreases |x|
  {
    if |x| > 0 {
      var r := x[1..];
      assert forall k :: 0 <= k < |r| ==> r[k] == x[k + 1];
      RenderInsideWord(r, terms, open);
      assert Scan(x, true, terms) == [Plain(x[0])] + Scan(r, true, terms);
      assert x == [x[0]] + r;
    }
  }

  /** On a whole word the alternation matches exactly when the word is a
      listed term, and then it matches all of it. */
  lemma WordTermAt(w: string, terms: seq<string>)
    requires IsTermList(terms) && |w| > 0 && forall k :: 0 <= k < |w| ==> IsWordChar(w[k])
    ensures TermAt(w, terms).Some? <==> Listed(w, terms)
    ensures TermAt(w, terms).Some? ==> TermAt(w, terms).value == |w|
  {
    TermAtMeaning(w, terms);
    forall t ensures MatchesWord(w, t) <==> |t| == |w| && CiPrefix(t, w) {
      if CiPrefix(t, w) && |t| < |w| {
        assert IsWordChar(w[|t|]);
      }
    }
  }

  /** A pass marks a whole word exactly when it is listed. */
  lemma WordHighlight(w: string, terms: seq<string>, open: string)
    requires IsTermList(terms) && |w| > 0 && forall k :: 0 <= k < |w| ==> IsWordChar(w[k])
    ensures Listed(w, terms) ==> Highlight(w, terms, open) == open + w + Close
    ensures !Listed(w, terms) ==> Highlight(w, terms, open) == w
  {
    WordTermAt(w, terms);
    if Listed(w, terms) {
      assert w[..|w|] == w && w[|w|..] == [];
      var ps := [Term(w)];
      assert Scan(w, false, terms) == ps;
      assert ps[1..] == [];
      assert Render(ps, open) == open + w + Close + Render([], open);
    } else {
      var r := w[1..];
      assert forall k :: 0 <= k < |r| ==> r[k] == w[k + 1];
      RenderInsideWord(r, terms, open);
      assert Scan(w, false, terms) == [Plain(w[0])] + Scan(r, true, terms);
      assert w == [w[0]] + r;
    }
  }

  /** A text without word characters is left alone. */
  lemma {:induction false} NonWordHighlight(s: string, terms: seq<string>, open: string)
    requires IsTermList(terms) && forall k :: 0 <= k < |s| ==> !IsWordChar(s[k])
    ensures Highlight(s, terms, open) == s
    decreases |s|
  {
    if |s| > 0 {
      var r := s[1..];
      assert s == [s[0]] + r;
      assert forall k :: 0 <= k < |r| ==> r[k] == s[k + 1];
      HighlightAppend([s[0]], r, terms, open);
      HighlightNonWordChar(s[0], terms, open);
      NonWordHighlight(r, terms, open);
    }
  }

  /** An unlisted word followed by a non-word character, then a text the pass
      leaves alone, is left alone. */
  lemma UnlistedWordThen(w: string, rest: string, terms: seq<string>, open: string)
    requires IsTermList(terms) && |w| > 0 && forall k :: 0 <= k < |w| ==> IsWordChar(w[k])
    requires !Listed(w, terms) && |rest| > 0 && !IsWordChar(rest[0])
    requires Highlight(rest, terms, open) == rest
    ensures Highlight(w + rest, terms, open) == w + rest
  {
    HighlightAppend(w, rest, terms, open);
    WordHighlight(w, terms, open);
  }

  /** Non-word characters, then a text the pass leaves alone, are left alone. */
  lemma NonWordThen(p: string, rest: string, terms: seq<string>, open: string)
    requires IsTermList(terms) && |p| > 0 && forall k :: 0 <= k < |p| ==> !IsWordChar(p[k])
    requires Highlight(rest, terms, open) == rest
    ensures Highlight(p + rest, terms, open) == p + rest
  {
    HighlightAppend(p, rest, terms, open);
    NonWordHighlight(p, terms, open);
  }

  /** `w` differs from `t` at `k` up to case, so it does not start with `t`. */
  lemma NotCiPrefix(t: string, w: string, k: nat)
    requires k < |t| && k < |w| && Lower(w[k]) != Lower(t[k])
    ensures !CiPrefix(t, w)
  {
  }

  /** The words of the pink tag are no safe terms. */
  lemma TagWordsUnlisted()
    ensures !Listed("strong", SafeTerms) && !Listed("style", SafeTerms)
    ensures !Listed("color", SafeTerms) && !Listed("e91e63", SafeTerms)
  {
    Unlisted("strong", "choose", 0);
    Unlisted("style", "safer", 1);
    Unlisted("color", "safer", 0);
    Unlisted("e91e63", "choose", 0);
  }

  /** A word whose length only `t` among the safe terms has, and which
      differs from `t` at `k`, is not a safe term. */
  lemma Unlisted(w: string, t: string, k: nat)
    requires t in SafeTerms && k < |t| == |w| && Lower(w[k]) != Lower(t[k])
    requires forall u :: u in SafeTerms && u != t ==> |u| != |w|
    ensures !Listed(w, SafeTerms)
  {
    NotCiPrefix(t, w, k);
  }

  /** A non-empty run of word characters, and one free of them. */
  predicate AllWord(w: string)
  {
    |w| > 0 && forall k :: 0 <= k < |w| ==> IsWordChar(w[k])
  }

  predicate NoWord(p: string)
  {
    |p| > 0 && forall k :: 0 <= k < |p| ==> !IsWordChar(p[k])
  }

  /** The tags as they are built: runs of non-word characters around words. */
  lemma DangerOpenShape()
    ensures DangerOpen == "<" + ("strong" + (" " + ("style" + ("=\"" + ("color" + (": #" + ("e91e63" + ";\">")))))))
  {
  }

  lemma CloseShape()
    ensures Close == "</" + ("strong" + ">")
  {
  }

  lemma TagPiecesClassified()
    ensures NoWord("<") && NoWord(" ") && NoWord("=\"") && NoWord(": #") && NoWord(";\">")
    ensures NoWord("</") && NoWord(">")
    ensures AllWord("strong") && AllWord("style") && AllWord("color") && AllWord("e91e63")
  {
  }

  /** A non-word run and an unlisted word in front of a text the pass leaves
      alone and that starts with a non-word character: the pass leaves the
      whole alone. */
  lemma PiecesKept(p: string, w: string, rest: string, terms: seq<string>, open: string)
    requires IsTermList(terms) && NoWord(p) && AllWord(w) && !Listed(w, terms)
    requires |rest| > 0 && !IsWordChar(rest[0]) && Highlight(rest, terms, open) == rest
    ensures Highlight(p + (w + rest), terms, open) == p + (w + rest)
  {
    UnlistedWordThen(w, rest, terms, open);
    NonWordThen(p, w + rest, terms, open);
  }

  lemma KeptPink(p0: string, w0: string, p1: string, w1: string, p2: string, w2: string, p3: string, w3: string, p4: string,
                 terms: seq<string>, open: string)
    requires IsTermList(terms) && NoWord(p0) && NoWord(p1) && NoWord(p2) && NoWord(p3) && NoWord(p4)
    requires AllWord(w0) && AllWord(w1) && AllWord(w2) && AllWord(w3)
    requires !Listed(w0, terms) && !Listed(w1, terms) && !Listed(w2, terms) && !Listed(w3, terms)
    ensures var t := p0 + (w0 + (p1 + (w1 + (p2 + (w2 + (p3 + (w3 + p4))))))); Highlight(t, terms, open) == t
  {
    NonWordHighlight(p4, terms, open);
    PiecesKept(p3, w3, p4, terms, open);
    PiecesKept(p2, w2, p3 + (w3 + p4), terms, open);
    PiecesKept(p1, w1, p2 + (w2 + (p3 + (w3 + p4))), terms, open);
    PiecesKept(p0, w0, p1 + (w1 + (p2 + (w2 + (p3 + (w3 + p4))))), terms, open);
  }

  lemma KeptClose(p: string, w: string, q: string, terms: seq<string>, open: string)
    requires IsTermList(terms) && NoWord(p) && NoWord(q) && AllWord(w) && !Listed(w, terms)
    ensures Highlight(p + (w + q), terms, open) == p + (w + q)
  {
    NonWordHighlight(q, terms, open);
    PiecesKept(p, w, q, terms, open);
  }

  /** The safe pass leaves the pink opening tag alone. */
  lemma SafePassKeepsDangerOpen()
    ensures Highlight(DangerOpen, SafeTerms, SafeOpen) == DangerOpen
  {
    TermListsAreWellFormed();
    TagWordsUnlisted();
    TagPiecesClassified();
    DangerOpenShape();
    KeptPink("<", "strong", " ", "style", "=\"", "color", ": #", "e91e63", ";\">", SafeTerms, SafeOpen);
  }

  /** The safe pass leaves the closing tag alone. */
  lemma SafePassKeepsClose()
    ensures Highlight(Close, SafeTerms, SafeOpen) == Close
  {
    TermListsAreWellFormed();
    TagWordsUnlisted();
    TagPiecesClassified();
    CloseShape();
    KeptClose("</", "strong", ">", SafeTerms, SafeOpen);
  }

  /** The pink tag ends, and the closing tag starts, with a non-word character. */
  lemma DangerTagEdges()
    ensures |DangerOpen| > 0 && !IsWordChar(DangerOpen[|DangerOpen| - 1])
    ensures |Close| > 0 && !IsWordChar(Close[0])
  {
  }

  /** A text the pass leaves alone between two tags it leaves alone, with
      non-word characters at both joints, is left alone. */
  lemma KeptAround(a: string, w: string, b: string, terms: seq<string>, open: string)
    requires IsTermList(terms) && |a| > 0 && !IsWordChar(a[|a| - 1]) && |b| > 0 && !IsWordChar(b[0])
    requires Highlight(a, terms, open) == a && Highlight(w, terms, open) == w && Highlight(b, terms, open) == b
    ensures Highlight(a + w + b, terms, open) == a + w + b
  {
    HighlightAppend(w, b, terms, open);
    HighlightAppend(a, w + b, terms, open);
    assert a + w + b == a + (w + b);
  }

  /** No word is both a danger term and a safe term. */
  lemma ListsDisjoint(w: string)
    requires Listed(w, DangerTerms)
    ensures !Listed(w, SafeTerms)
  {
    TermListsAreWellFormed();
    var d :| d in DangerTerms && |d| == |w| && CiPrefix(d, w);
    forall t | t in SafeTerms && |t| == |w|
      ensures !CiPrefix(t, w)
    {
      assert d != t;
      var k :| 0 <= k < |w| && d[k] != t[k];
      assert IsTerm(d) && IsTerm(t);
      assert IsLowerLetter(d[k]) && IsLowerLetter(t[k]);
      assert Lower(d[k]) != Lower(t[k]);
      if CiPrefix(d, w) {
        NotCiPrefix(t, w, k);
      }
    }
  }

  /** Across a non-word joint both passes act on each side alone. */
  lemma HighlightsAppend(x: string, y: string)
    requires NonWordJoint(x, y)
    ensures Highlights(x + y) == Highlights(x) + Highlights(y)
  {
    TermListsAreWellFormed();
    HighlightAppend(x, y, DangerTerms, DangerOpen);
    HighlightKeepsJoint(x, y, DangerTerms, DangerOpen);
    HighlightAppend(Highlight(x, DangerTerms, DangerOpen), Highlight(y, DangerTerms, DangerOpen), SafeTerms, SafeOpen);
  }

  /** Both passes over one whole word give that word's mark. */
  lemma WordHighlights(w: string)
    requires |w| > 0 && forall k :: 0 <= k < |w| ==> IsWordChar(w[k])
    ensures Highlights(w) == Paint(MarkOf(w))
  {
    TermListsAreWellFormed();
    WordHighlight(w, DangerTerms, DangerOpen);
    WordHighlight(w, SafeTerms, SafeOpen);
    if Listed(w, DangerTerms) {
      ListsDisjoint(w);
      DangerTagEdges();
      SafePassKeepsDangerOpen();
      SafePassKeepsClose();
      KeptAround(DangerOpen, w, Close, SafeTerms, SafeOpen);
    }
  }

  /** The two highlight passes of lines 201 to 209 together: every whole word
      that is a danger term up to case is pink, every other one that is a
      safe term green, each kept as written, and nothing else changes. The
      safe pass finds no safe term inside the pink markup and none spanning
      it. */
  lemma {:induction false} HighlightsPaintsWholeWords(t: string)
    ensures Highlights(t) == Paint(Marked(t))
    decreases |t|
  {
    TermListsAreWellFormed();
    if |t| == 0 {
      HighlightEdges(t, DangerTerms, DangerOpen);
      HighlightEdges([], SafeTerms, SafeOpen);
    } else {
      var n := if !IsWordChar(t[0]) then 1 else WordRun(t);
      var head := if !IsWordChar(t[0]) then [Text([t[0]])] else MarkOf(t[..n]);
      assert Marked(t) == head + Marked(t[n..]);
      assert t == t[..n] + t[n..];
      HighlightsAppend(t[..n], t[n..]);
      if !IsWordChar(t[0]) {
        HighlightNonWordChar(t[0], DangerTerms, DangerOpen);
        HighlightNonWordChar(t[0], SafeTerms, SafeOpen);
        assert t[..n] == [t[0]];
      } else {
        WordHighlights(t[..n]);
      }
      HighlightsPaintsWholeWords(t[n..]);
      PaintAppend(head, Marked(t[n..]));
    }
  }

  lemma {:induction false} PaintAppend(a: seq<Mark>, b: seq<Mark>)
    ensures Paint(a + b) == Paint(a) + Paint(b)
    decreases |a|
  {
    if a == [] {
      assert a + b == b;
    } else {
      assert (a + b)[0] == a[0];
      assert (a + b)[1..] == a[1..] + b;
      PaintAppend(a[1..], b);
    }
  }

  /** `formatBotResponse(text)`: a value that is not a string, or the empty
      string, is handed back as it is; a non-empty string is rewritten, and
      in the rewritten, wrapped text every whole word that is a danger term is
      painted pink, every other whole word that is a safe term green. */
  function FormatBotResponse(v: Json): (r: Json)
    ensures !(v.JString? && |v.s| > 0) ==> r == v
    ensures v.JString? && |v.s| > 0 ==> r.JString? && '\n' !in r.s
    ensures v.JString? && |v.s| > 0 ==> r == JString(Paint(Marked(WrapParagraphs(Rewritten(v.s)))))
  {
    if !v.JString? || |v.s| == 0 then v
    else
      FormatTextHasNoNewline(v.s);
      HighlightsPaintsWholeWords(WrapParagraphs(Rewritten(v.s)));
      JString(FormatText(v.s))
  }
}
