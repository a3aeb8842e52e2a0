/**
 * Rendering of a text node of a view: every `{{ $this->… }}` placeholder is
 * replaced by what the view evaluates the expression to. The regular
 * expression `{{\s*(?<eval>\$this->.*?)\s*}}` is modelled by a hand-written
 * scanner, and a declarative description of what that pattern matches is
 * proved to agree with it.
 */
module TextInterpolation {
  import opened Wrappers

  /** PCRE's `\s` without Unicode mode: space, tab, line feed, vertical tab, form feed, carriage return. */
  predicate IsSpace(c: char) {
    c == ' ' || c == '\t' || c == '\n' || c == '\U{0B}' || c == '\U{0C}' || c == '\r'
  }

  const Open := "{{"
  const Close := "}}"
  const ThisPrefix := "$this->"

  /** `lit` occurs in `text` starting at `i`. */
  predicate HasAt(text: string, i: nat, lit: string) {
    i + |lit| <= |text| && text[i..i + |lit|] == lit
  }

  predicate AllSpace(text: string, from: nat, to: nat)
    requires from <= to <= |text|
  {
    forall k :: from <= k < to ==> IsSpace(text[k])
  }

  /** PCRE's `.`: anything but a line feed (no `s` flag). */
  predicate NoNewline(text: string, from: nat, to: nat)
    requires from <= to <= |text|
  {
    forall k :: from <= k < to ==> text[k] != '\n'
  }

  /** Greedy `\s*` from `i`: the first position that is not white space. */
  function SkipSpace(text: string, i: nat): (j: nat)
    requires i <= |text|
    ensures i <= j <= |text|
    ensures AllSpace(text, i, j)
    ensures j == |text| || !IsSpace(text[j])
    decreases |text| - i
  {
    if i < |text| && IsSpace(text[i]) then SkipSpace(text, i + 1) else i
  }

  /** `\s*}}` matches at `q`. */
  predicate ClosesAt(text: string, q: nat)
    requires q <= |text|
  {
    HasAt(text, SkipSpace(text, q), Close)
  }

  /**
   * The lazy `.*?` starting at `q`: the first position from which `\s*}}`
   * matches, provided no line feed lies before it.
   */
  function LazyEnd(text: string, q: nat): (r: Option<nat>)
    requires q <= |text|
    ensures r.Some? ==> q <= r.value <= |text| && ClosesAt(text, r.value) && NoNewline(text, q, r.value)
    ensures r.Some? ==> forall e :: q <= e < r.value ==> !ClosesAt(text, e)
    ensures r.None? ==> forall e :: q <= e <= |text| && ClosesAt(text, e) ==> !NoNewline(text, q, e)
    decreases |text| - q
  {
    if ClosesAt(text, q) then Some(q)
    else if q < |text| && text[q] != '\n' then LazyEnd(text, q + 1)
    else None
  }

  /**
   * One occurrence of the pattern: it spans `[start, end)`, the named group
   * `eval` spans `[exprStart, exprEnd)`, and the closing braces sit at `closeStart`.
   */
  datatype Match = Match(start: nat, exprStart: nat, exprEnd: nat, closeStart: nat, end: nat)

  /**
   * The pattern's shape, without its preferences: `{{`, white space, then
   * `$this->` and any line-feed-free characters up to `b`, white space, `}}`
   * at `c`.
   */
  predicate Fits(text: string, i: nat, a: nat, b: nat, c: nat) {
    && i + 2 <= a && a + 7 <= b <= c && c + 2 <= |text|
    && HasAt(text, i, Open)
    && AllSpace(text, i + 2, a)
    && HasAt(text, a, ThisPrefix)
    && NoNewline(text, a + 7, b)
    && AllSpace(text, b, c)
    && HasAt(text, c, Close)
  }

  /** The match PCRE reports at `i`: the pattern's shape with the group ending as early as possible. */
  ghost predicate IsPatternMatch(text: string, i: nat, m: Match) {
    && m.start == i
    && Fits(text, i, m.exprStart, m.exprEnd, m.closeStart)
    && m.end == m.closeStart + 2
    && (forall a, b, c :: Fits(text, i, a, b, c) ==> m.exprEnd <= b)
  }

  /** The scanner's attempt to match at position `i`. */
  function MatchAt(text: string, i: nat): (r: Option<Match>)
    requires i <= |text|
    ensures r.Some? ==> r.value.start == i && i + 11 <= r.value.end <= |text|
    ensures r.Some? ==> Fits(text, i, r.value.exprStart, r.value.exprEnd, r.value.closeStart)
  {
    if !HasAt(text, i, Open) then None
    else
      var a := SkipSpace(text, i + 2);
      if !HasAt(text, a, ThisPrefix) then None
      else
        match LazyEnd(text, a + 7)
        case None => None
        case Some(b) =>
          var c := SkipSpace(text, b);
          Some(Match(i, a, b, c, c + 2))
  }

  /** The expression handed to the view: the text of the `eval` group. */
  function Expression(text: string, m: Match): string
    requires m.exprStart <= m.exprEnd <= |text|
  {
    text[m.exprStart..m.exprEnd]
  }

  /** In a fitting occurrence the white space after `{{` is exactly the greedy run. */
  lemma FitsStartsAfterSpace(text: string, i: nat, a: nat, b: nat, c: nat)
    requires Fits(text, i, a, b, c)
    ensures SkipSpace(text, i + 2) == a
  {
    SkipIsFirstNonSpace(text, i + 2, a);
  }

  /** `\s*` stops exactly at the first non-space character after a run of spaces. */
  lemma {:induction false} SkipIsFirstNonSpace(text: string, i: nat, j: nat)
    requires i <= j < |text| && AllSpace(text, i, j) && !IsSpace(text[j])
    ensures SkipSpace(text, i) == j
    decreases j - i
  {
    if i < j {
      SkipIsFirstNonSpace(text, i + 1, j);
    }
  }

  /** A fitting closing position is one from which `\s*}}` matches. */
  lemma FitsCloses(text: string, i: nat, a: nat, b: nat, c: nat)
    requires Fits(text, i, a, b, c)
    ensures ClosesAt(text, b) && SkipSpace(text, b) == c
  {
    assert text[c] == '}';
    SkipIsFirstNonSpace(text, b, c);
  }

  /** Soundness: what the scanner reports is the match the pattern defines. */
  lemma MatchAtSound(text: string, i: nat)
    requires i <= |text| && MatchAt(text, i).Some?
    ensures IsPatternMatch(text, i, MatchAt(text, i).value)
  {
    var m := MatchAt(text, i).value;
    forall a, b, c | Fits(text, i, a, b, c)
      ensures m.exprEnd <= b
    {
      FitsStartsAfterSpace(text, i, a, b, c);
      FitsCloses(text, i, a, b, c);
    }
  }

  /** Completeness: wherever the pattern fits, the scanner finds a match. */
  lemma MatchAtComplete(text: string, i: nat, a: nat, b: nat, c: nat)
    requires Fits(text, i, a, b, c)
    ensures MatchAt(text, i).Some?
  {
    FitsStartsAfterSpace(text, i, a, b, c);
    FitsCloses(text, i, a, b, c);
  }

  /** The scanner's match at `i` is the pattern's match at `i`, both ways. */
  lemma MatchAtIff(text: string, i: nat, m: Match)
    requires i <= |text|
    ensures MatchAt(text, i) == Some(m) <==> IsPatternMatch(text, i, m)
  {
    if MatchAt(text, i) == Some(m) {
      MatchAtSound(text, i);
    }
    if IsPatternMatch(text, i, m) {
      MatchAtComplete(text, i, m.exprStart, m.exprEnd, m.closeStart);
      var n := MatchAt(text, i).value;
      MatchAtSound(text, i);
      FitsStartsAfterSpace(text, i, m.exprStart, m.exprEnd, m.closeStart);
      FitsStartsAfterSpace(text, i, n.exprStart, n.exprEnd, n.closeStart);
      FitsCloses(text, i, m.exprStart, m.exprEnd, m.closeStart);
      FitsCloses(text, i, n.exprStart, n.exprEnd, n.closeStart);
    }
  }

  /**
   * The expression always begins with `$this->`, holds no line feed, and
   * does not end in white space: white space before `}}` is not part of it.
   */
  lemma ExpressionShape(text: string, i: nat)
    requires i <= |text| && MatchAt(text, i).Some?
    ensures var e := Expression(text, MatchAt(text, i).value);
            && |e| >= 7 && e[..7] == ThisPrefix
            && (forall k :: 0 <= k < |e| ==> e[k] != '\n')
            && !IsSpace(e[|e| - 1])
  {
    var m := MatchAt(text, i).value;
    var e := Expression(text, m);
    assert e[..7] == text[m.exprStart..m.exprStart + 7];
    forall k | 0 <= k < |e|
      ensures e[k] != '\n'
    {
      assert e[k] == text[m.exprStart + k];
      if k < 7 {
        assert text[m.exprStart + k] == ThisPrefix[k];
      }
    }
    if m.exprEnd > m.exprStart + 7 {
      var last := m.exprEnd - 1;
      SpaceBeforeClose(text, last);
      assert !ClosesAt(text, last);
      assert e[|e| - 1] == text[last];
    } else {
      assert e[|e| - 1] == '>';
    }
  }

  /** White space followed by `\s*}}` is itself followed by `\s*}}`. */
  lemma SpaceBeforeClose(text: string, e: nat)
    requires e < |text|
    ensures IsSpace(text[e]) && ClosesAt(text, e + 1) ==> ClosesAt(text, e)
  {
  }

  /** Renders from position `i`: each match is replaced by its evaluation, or by nothing when that is null. */
  function RenderFrom(text: string, i: nat, eval: string -> Option<string>): string
    requires i <= |text|
    decreases |text| - i
  {
    if i == |text| then ""
    else
      match MatchAt(text, i)
      case Some(m) => eval(Expression(text, m)).GetOr("") + RenderFrom(text, m.end, eval)
      case None => [text[i]] + RenderFrom(text, i + 1, eval)
  }

  /** The text node rendered: matches found left to right, never overlapping; text without `{{` is returned as is. */
  function Render(text: string, eval: string -> Option<string>): (r: string)
    ensures (forall k :: 0 <= k < |text| ==> !HasAt(text, k, Open)) ==> r == text
  {
    if forall k :: 0 <= k < |text| ==> !HasAt(text, k, Open) then
      NoMatchUnchanged(text, 0, eval);
      RenderFrom(text, 0, eval)
    else
      RenderFrom(text, 0, eval)
  }

  /** A stretch of text with no match anywhere in it is copied verbatim. */
  lemma {:induction false} NoMatchUnchanged(text: string, i: nat, eval: string -> Option<string>)
    requires i <= |text|
    requires forall k :: i <= k < |text| ==> MatchAt(text, k).None?
    ensures RenderFrom(text, i, eval) == text[i..]
    decreases |text| - i
  {
    if i < |text| {
      NoMatchUnchanged(text, i + 1, eval);
      assert text[i..] == [text[i]] + text[i + 1..];
    }
  }

  /** Text without `{{` is returned unchanged. */
  lemma NoBracesUnchanged(text: string, eval: string -> Option<string>)
    requires forall k :: 0 <= k < |text| ==> !HasAt(text, k, Open)
    ensures Render(text, eval) == text
  {
    NoMatchUnchanged(text, 0, eval);
  }

  /**
   * Leftmost first: the text before the first match is kept, the match is
   * replaced, and scanning resumes right after the match.
   */
  lemma {:induction false} FirstMatchReplaced(text: string, i: nat, p: nat, eval: string -> Option<string>)
    requires i <= p <= |text|
    requires forall k :: i <= k < p ==> MatchAt(text, k).None?
    requires MatchAt(text, p).Some?
    ensures var m := MatchAt(text, p).value;
            RenderFrom(text, i, eval) == text[i..p] + (eval(Expression(text, m)).GetOr("") + RenderFrom(text, m.end, eval))
    decreases p - i
  {
    var m := MatchAt(text, p).value;
    var tail := eval(Expression(text, m)).GetOr("") + RenderFrom(text, m.end, eval);
    if i < p {
      FirstMatchReplaced(text, i + 1, p, eval);
      UnmatchedStep(text, i, p, tail, eval);
    } else {
      RenderAtMatch(text, p, eval);
      assert text[i..p] == [];
    }
  }

  /** One unmatched character in front of a rendered stretch is kept in front of it. */
  lemma UnmatchedStep(text: string, i: nat, p: nat, tail: string, eval: string -> Option<string>)
    requires i < p <= |text| && MatchAt(text, i).None?
    requires RenderFrom(text, i + 1, eval) == text[i + 1..p] + tail
    ensures RenderFrom(text, i, eval) == text[i..p] + tail
  {
    RenderCopiesUnmatched(text, i, eval);
    ConsAssoc(text[i], text[i + 1..p], tail);
    assert text[i..p] == [text[i]] + text[i + 1..p];
  }

  /** At a match, rendering emits the match's replacement and resumes after it. */
  lemma RenderAtMatch(text: string, p: nat, eval: string -> Option<string>)
    requires p <= |text| && MatchAt(text, p).Some?
    ensures var m := MatchAt(text, p).value;
            RenderFrom(text, p, eval) == eval(Expression(text, m)).GetOr("") + RenderFrom(text, m.end, eval)
  {
  }

  /** A position where nothing matches contributes its own character. */
  lemma RenderCopiesUnmatched(text: string, i: nat, eval: string -> Option<string>)
    requires i < |text| && MatchAt(text, i).None?
    ensures RenderFrom(text, i, eval) == [text[i]] + RenderFrom(text, i + 1, eval)
  {
  }

  lemma ConsAssoc(c: char, s: string, t: string)
    ensures [c] + (s + t) == ([c] + s) + t
  {
  }

  /** `{{ $foo }}` is not a placeholder: only `$this->` expressions are evaluated. */
  lemma NonThisExpressionIsLiteral(eval: string -> Option<string>)
    ensures Render("{{ $foo }}", eval) == "{{ $foo }}"
  {
    var t := "{{ $foo }}";
    forall k | 0 <= k < |t|
      ensures MatchAt(t, k).None?
    {
      if k == 0 {
        assert SkipSpace(t, 2) == 3 by { SkipIsFirstNonSpace(t, 2, 3); }
        assert t[3..10] != ThisPrefix by { assert t[4] != ThisPrefix[1]; }
      } else if k < |t| - 1 {
        assert t[k..k + 2] != Open by {
          assert t[k..k + 2][0] == t[k] && t[k..k + 2][1] == t[k + 1];
          assert t[k] != '{' || t[k + 1] != '{';
        }
      }
    }
    NoMatchUnchanged(t, 0, eval);
  }

  /** A placeholder with spaces inside the braces is replaced by the evaluation of the trimmed expression. */
  lemma PlaceholderReplaced(t: string, eval: string -> Option<string>)
    requires t == "a{{ $this->x }}b"
    ensures Render(t, eval) == "a" + eval("$this->x").GetOr("") + "b"
  {
    var m := Match(1, 4, 12, 13, 15);
    PlaceholderScan(t, eval);
    OneMatchRender(t, 1, m, "b", eval);
    PlaceholderSlices(t);
  }

  /** Scanning `a{{ $this->x }}b`: nothing at 0, the placeholder at 1, and `b` rendered after it. */
  lemma PlaceholderScan(t: string, eval: string -> Option<string>)
    requires t == "a{{ $this->x }}b"
    ensures MatchAt(t, 0).None? && MatchAt(t, 1) == Some(Match(1, 4, 12, 13, 15))
    ensures RenderFrom(t, 15, eval) == "b"
  {
    assert MatchAt(t, 0).None? by { assert t[0] != '{'; }
    PlaceholderMatch(t);
    assert MatchAt(t, 15).None?;
  }

  /** The pieces of `a{{ $this->x }}b` the rendering keeps. */
  lemma PlaceholderSlices(t: string)
    requires t == "a{{ $this->x }}b"
    ensures Expression(t, Match(1, 4, 12, 13, 15)) == "$this->x"
    ensures t[..1] == "a"
  {
    var e := Expression(t, Match(1, 4, 12, 13, 15));
    forall k | 0 <= k < 8
      ensures e[k] == "$this->x"[k]
    {
      assert e[k] == t[4 + k];
    }
    assert t[..1][0] == 'a';
  }

  /** Text whose first match is `m`, at `p`, and which renders to `rest` after it. */
  lemma OneMatchRender(text: string, p: nat, m: Match, rest: string, eval: string -> Option<string>)
    requires p <= |text| && MatchAt(text, p) == Some(m)
    requires forall k :: 0 <= k < p ==> MatchAt(text, k).None?
    requires RenderFrom(text, m.end, eval) == rest
    ensures Render(text, eval) == text[..p] + eval(Expression(text, m)).GetOr("") + rest
  {
    var x := eval(Expression(text, m)).GetOr("");
    assert RenderFrom(text, 0, eval) == text[0..p] + (x + rest) by {
      FirstMatchReplaced(text, 0, p, eval);
    }
    assert text[0..p] == text[..p];
    Assoc(text[..p], x, rest);
  }

  lemma Assoc(a: string, b: string, c: string)
    ensures a + (b + c) == (a + b) + c
  {
  }

  /** The one match in `a{{ $this->x }}b`: the group is `$this->x`, without the spaces around it. */
  lemma PlaceholderMatch(t: string)
    requires t == "a{{ $this->x }}b"
    ensures MatchAt(t, 1) == Some(Match(1, 4, 12, 13, 15))
  {
    assert HasAt(t, 1, Open);
    assert SkipSpace(t, 3) == 4 by { SkipIsFirstNonSpace(t, 3, 4); }
    assert HasAt(t, 4, ThisPrefix);
    assert !ClosesAt(t, 11) by { assert SkipSpace(t, 11) == 11; }
    assert SkipSpace(t, 12) == 13 by { SkipIsFirstNonSpace(t, 12, 13); }
    assert ClosesAt(t, 12);
    assert LazyEnd(t, 11) == Some(12);
  }
}
