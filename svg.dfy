/**
 * The deterministic parts of the icon pipeline: `modify_svg_colors`, which
 * rewrites colour values in SVG text with a fixed set of case-insensitive
 * regular-expression substitutions, and the centring offsets used when an
 * icon is pasted onto a padded canvas.
 */
module UiUtils {
  import opened Wrappers
  import opened PyText
  import UiColors

  /** The colour the icon files are drawn in. */
  const SvgColor := "#d9d9d9"
  const CurrentColorName := "dark-gray"

  /** `CURRENT_COLOR = COLORS[CURRENT_COLOR_NAME]`: the key is present, so the lookup succeeds. */
  function CurrentColor(): (c: string)
    ensures UiColors.IsLowerHexColor(c)
    ensures c == UiColors.DarkGray
  {
    UiColors.Colors()[CurrentColorName]
  }

  /**
   * One of the patterns `modify_svg_colors` substitutes, matched with
   * `re.IGNORECASE`:
   *   quoted:   keyword \s* sep \s* ["'] lit ["']
   *   unquoted: keyword \s* sep \s* lit
   * `lit` is inserted into the pattern as it is, so it is read literally.
   */
  datatype Rule = Rule(keyword: string, sep: char, quoted: bool, lit: string)

  function AttrRule(keyword: string, lit: string): Rule {
    Rule(keyword, '=', true, lit)
  }

  function StyleRule(keyword: string, lit: string): Rule {
    Rule(keyword, ':', false, lit)
  }

  predicate IsQuote(c: char) {
    c == '"' || c == '\''
  }

  /** `s` starts with `t`, letters compared without regard to case. */
  predicate CiPrefix(s: string, t: string) {
    |t| <= |s| && forall i :: 0 <= i < |t| ==> CiEq(s[i], t[i])
  }

  /**
   * The end of the run of whitespace starting at `i`. Each `\s*` in the
   * patterns is followed by a character that is not whitespace (`=`, `:`, a
   * quote or `#`), so the greedy `\s*` can only succeed by taking the whole run.
   */
  function SkipSpace(s: string, i: nat): (j: nat)
    requires i <= |s|
    ensures i <= j <= |s|
    ensures forall k :: i <= k < j ==> IsPySpace(s[k])
    ensures j == |s| || !IsPySpace(s[j])
    decreases |s| - i
  {
    if i < |s| && IsPySpace(s[i]) then SkipSpace(s, i + 1) else i
  }

  /** Length of the match of `rule` at the start of `s`, if there is one. */
  function MatchLen(s: string, rule: Rule): (r: Option<nat>)
    ensures r.Some? ==> |rule.keyword| < r.value <= |s|
  {
    if !CiPrefix(s, rule.keyword) then None
    else
      var j := SkipSpace(s, |rule.keyword|);
      if j == |s| || s[j] != rule.sep then None
      else
        var k := SkipSpace(s, j + 1);
        if rule.quoted then
          if k == |s| || !IsQuote(s[k]) || !CiPrefix(s[k + 1..], rule.lit) then None
          else
            var e := k + 1 + |rule.lit|;
            if e == |s| || !IsQuote(s[e]) then None else Some(e + 1)
        else if !CiPrefix(s[k..], rule.lit) then None
        else Some(k + |rule.lit|)
  }

  /**
   * `re.sub(rule, repl, s, flags=re.IGNORECASE)`: every leftmost,
   * non-overlapping match is replaced by `repl`, the rest is copied.
   */
  function Sub(s: string, rule: Rule, repl: string): string
    decreases |s|
  {
    if s == [] then []
    else match MatchLen(s, rule)
      case Some(n) => repl + Sub(s[n..], rule, repl)
      case None => [s[0]] + Sub(s[1..], rule, repl)
  }

  /** The four spellings of `old_color` the source substitutes for. */
  function Patterns(oldColor: string): seq<string> {
    [Lower(oldColor), Upper(oldColor), Lower(LStrip(oldColor, '#')), Upper(LStrip(oldColor, '#'))]
  }

  /**
   * The six substitutions made for one pattern, in the order the source
   * makes them: quoted `fill=` with and without `#`, quoted `stroke=` with
   * and without `#`, then the style declarations `fill:` and `stroke:`.
   */
  function Rewrites(pattern: string, newColor: string): (r: seq<(Rule, string)>)
    ensures |r| == 6
    ensures forall i :: 0 <= i < 6 ==> r[i].0.keyword in {"fill", "stroke"}
  {
    [(AttrRule("fill", "#" + pattern), "fill=\"" + newColor + "\""),
     (AttrRule("fill", pattern), "fill=\"" + newColor + "\""),
     (AttrRule("stroke", "#" + pattern), "stroke=\"" + newColor + "\""),
     (AttrRule("stroke", pattern), "stroke=\"" + newColor + "\""),
     (StyleRule("fill", "#" + pattern), "fill:" + newColor),
     (StyleRule("stroke", "#" + pattern), "stroke:" + newColor)]
  }

  /** The substitutions applied one after another, each to the previous result. */
  function SubAll(s: string, rewrites: seq<(Rule, string)>): string
    decreases |rewrites|
  {
    if rewrites == [] then s else SubAll(Sub(s, rewrites[0].0, rewrites[0].1), rewrites[1..])
  }

  function ApplyPatterns(s: string, patterns: seq<string>, newColor: string): string
    decreases |patterns|
  {
    if patterns == [] then s
    else SubAll(ApplyPatterns(s, patterns[..|patterns| - 1], newColor), Rewrites(patterns[|patterns| - 1], newColor))
  }

  /** What one mapping entry `old_color: new_color` does to the text. */
  function ApplyEntry(s: string, entry: (string, string)): string {
    ApplyPatterns(s, Patterns(entry.0), entry.1)
  }

  /** The entries applied one after another, in iteration order, each to the previous result. */
  function ApplyMapping(s: string, mapping: seq<(string, string)>): string
    decreases |mapping|
  {
    if mapping == [] then s
    else ApplyEntry(ApplyMapping(s, mapping[..|mapping| - 1]), mapping[|mapping| - 1])
  }

  /** Six rewrites, applied in turn. */
  lemma {:induction false} SubAllSix(s: string, rw: seq<(Rule, string)>)
    requires |rw| == 6
    ensures SubAll(s, rw) == Sub(Sub(Sub(Sub(Sub(Sub(s, rw[0].0, rw[0].1), rw[1].0, rw[1].1),
                                             rw[2].0, rw[2].1), rw[3].0, rw[3].1), rw[4].0, rw[4].1), rw[5].0, rw[5].1)
  {
    var s1 := Sub(s, rw[0].0, rw[0].1);
    var s2 := Sub(s1, rw[1].0, rw[1].1);
    var s3 := Sub(s2, rw[2].0, rw[2].1);
    var s4 := Sub(s3, rw[3].0, rw[3].1);
    var s5 := Sub(s4, rw[4].0, rw[4].1);
    var s6 := Sub(s5, rw[5].0, rw[5].1);
    assert SubAll(s5, rw[5..]) == SubAll(s6, rw[6..]) == s6;
    assert SubAll(s4, rw[4..]) == SubAll(s5, rw[4..][1..]);
    assert rw[4..][1..] == rw[5..];
    assert SubAll(s3, rw[3..]) == SubAll(s4, rw[3..][1..]);
    assert rw[3..][1..] == rw[4..];
    assert SubAll(s2, rw[2..]) == SubAll(s3, rw[2..][1..]);
    assert rw[2..][1..] == rw[3..];
    assert SubAll(s1, rw[1..]) == SubAll(s2, rw[1..][1..]);
    assert rw[1..][1..] == rw[2..];
  }

  /** A character `re` gives no special meaning outside a character class. */
  predicate IsRegexLiteralChar(c: char) {
    c !in ".^$*+?{}[]\\|()"
  }

  /**
   * The colours this model covers: old colours that read literally inside a
   * pattern, new colours free of the backslash escapes a replacement template honours.
   */
  predicate LiteralMapping(mapping: seq<(string, string)>) {
    forall i :: 0 <= i < |mapping| ==>
      (forall k :: 0 <= k < |mapping[i].0| ==> IsRegexLiteralChar(mapping[i].0[k]))
      && '\\' !in mapping[i].1
  }

  /** `modify_svg_colors(svg_content, color_mapping)`; the mapping is a dictionary's items in iteration order. */
  method ModifySvgColors(svgContent: string, colorMapping: seq<(string, string)>) returns (modifiedContent: string)
    requires LiteralMapping(colorMapping)
    ensures modifiedContent == ApplyMapping(svgContent, colorMapping)
    ensures colorMapping == [] ==> modifiedContent == svgContent
  {
    modifiedContent := svgContent;
    for i := 0 to |colorMapping|
      invariant modifiedContent == ApplyMapping(svgContent, colorMapping[..i])
    {
      var (oldColor, newColor) := colorMapping[i];
      var patterns := Patterns(oldColor);
      ghost var before := modifiedContent;
      for j := 0 to |patterns|
        invariant modifiedContent == ApplyPatterns(before, patterns[..j], newColor)
      {
        var pattern := patterns[j];
        ghost var current := modifiedContent;
        modifiedContent := Sub(modifiedContent, AttrRule("fill", "#" + pattern), "fill=\"" + newColor + "\"");
        modifiedContent := Sub(modifiedContent, AttrRule("fill", pattern), "fill=\"" + newColor + "\"");
        modifiedContent := Sub(modifiedContent, AttrRule("stroke", "#" + pattern), "stroke=\"" + newColor + "\"");
        modifiedContent := Sub(modifiedContent, AttrRule("stroke", pattern), "stroke=\"" + newColor + "\"");
        modifiedContent := Sub(modifiedContent, StyleRule("fill", "#" + pattern), "fill:" + newColor);
        modifiedContent := Sub(modifiedContent, StyleRule("stroke", "#" + pattern), "stroke:" + newColor);
        SubAllSix(current, Rewrites(pattern, newColor));
        assert patterns[..j + 1][..j] == patterns[..j];
      }
      assert patterns[..|patterns|] == patterns;
      assert colorMapping[..i + 1][..i] == colorMapping[..i];
    }
    assert colorMapping[..|colorMapping|] == colorMapping;
  }

  /**
   * The one call, `modify_svg_colors(svg_content, {"#d9d9d9": target_color})`
   * with `target_color` taken from `COLORS`, meets the method's precondition.
   */
  lemma TargetMappingLiteral(targetColor: string)
    requires targetColor in UiColors.Colors().Values
    ensures LiteralMapping([(SvgColor, targetColor)])
  {
    SvgColorLiteral();
    HexColorLiteral(targetColor);
  }

  /** `#d9d9d9` holds no regular-expression operator. */
  lemma SvgColorLiteral()
    ensures forall k :: 0 <= k < |SvgColor| ==> IsRegexLiteralChar(SvgColor[k])
  {
    assert SvgColor == ['#', 'd', '9', 'd', '9', 'd', '9'];
  }

  /** A palette colour holds no backslash. */
  lemma HexColorLiteral(c: string)
    requires c in UiColors.Colors().Values
    ensures '\\' !in c
  {
    var name :| name in UiColors.Colors() && UiColors.Colors()[name] == c;
    assert UiColors.IsLowerHexColor(c);
    forall k | 0 <= k < |c|
      ensures c[k] != '\\'
    {
      if k > 0 {
        assert IsLowerHexDigit(c[k]);
      }
    }
  }

  // ---------------------------------------------------------------------
  // Properties of one substitution pass

  /** A run of whitespace from `i` up to a character that is not whitespace is skipped exactly. */
  lemma {:induction false} SkipTo(s: string, i: nat, j: nat)
    requires i <= j <= |s|
    requires forall k :: i <= k < j ==> IsPySpace(s[k])
    requires j == |s| || !IsPySpace(s[j])
    ensures SkipSpace(s, i) == j
    decreases j - i
  {
    if i < j {
      SkipTo(s, i + 1, j);
    }
  }

  /**
   * `s` starts with a quoted match of `rule`: the keyword, whitespace, the
   * separator at `b`, whitespace, a quote at `c`, the literal, a quote.
   */
  predicate QuotedShape(s: string, rule: Rule, b: nat, c: nat) {
    && rule.quoted && CiPrefix(s, rule.keyword)
    && |rule.keyword| <= b < c < |s| - |rule.lit| - 1
    && (forall k :: |rule.keyword| <= k < b ==> IsPySpace(s[k]))
    && s[b] == rule.sep && !IsPySpace(rule.sep)
    && (forall k :: b + 1 <= k < c ==> IsPySpace(s[k]))
    && IsQuote(s[c]) && CiPrefix(s[c + 1..], rule.lit) && IsQuote(s[c + 1 + |rule.lit|])
  }

  /**
   * `s` starts with an unquoted match of `rule`: the keyword, whitespace,
   * the separator at `b`, the whitespace after it up to `c`, the literal.
   */
  predicate UnquotedShape(s: string, rule: Rule, b: nat, c: nat) {
    && !rule.quoted && CiPrefix(s, rule.keyword)
    && |rule.keyword| <= b < c <= |s|
    && (forall k :: |rule.keyword| <= k < b ==> IsPySpace(s[k]))
    && s[b] == rule.sep && !IsPySpace(rule.sep)
    && (forall k :: b + 1 <= k < c ==> IsPySpace(s[k]))
    && (c == |s| || !IsPySpace(s[c])) && CiPrefix(s[c..], rule.lit)
  }

  /** A quoted match, stated on the positions of its parts. */
  lemma QuotedMatch(s: string, rule: Rule, b: nat, c: nat)
    requires QuotedShape(s, rule, b, c)
    ensures MatchLen(s, rule) == Some(c + 2 + |rule.lit|)
  {
    SkipTo(s, |rule.keyword|, b);
    SkipTo(s, b + 1, c);
  }

  /** An unquoted match, stated on the positions of its parts. */
  lemma UnquotedMatch(s: string, rule: Rule, b: nat, c: nat)
    requires UnquotedShape(s, rule, b, c)
    ensures MatchLen(s, rule) == Some(c + |rule.lit|)
  {
    SkipTo(s, |rule.keyword|, b);
    SkipTo(s, b + 1, c);
  }

  /**
   * Conversely, every match has that shape: nothing but keyword, whitespace,
   * separator, whitespace and the literal (between quotes for an attribute
   * rule) is ever matched.
   */
  lemma MatchShape(s: string, rule: Rule)
    requires MatchLen(s, rule).Some?
    ensures rule.quoted ==>
              exists b: nat, c: nat :: QuotedShape(s, rule, b, c) && MatchLen(s, rule) == Some(c + 2 + |rule.lit|)
    ensures !rule.quoted ==>
              exists b: nat, c: nat :: UnquotedShape(s, rule, b, c) && MatchLen(s, rule) == Some(c + |rule.lit|)
  {
    var b := SkipSpace(s, |rule.keyword|);
    var c := SkipSpace(s, b + 1);
    if rule.quoted {
      assert QuotedShape(s, rule, b, c);
    } else {
      assert UnquotedShape(s, rule, b, c);
    }
  }

  /**
   * An attribute rule needs quotes: text without a quote character, such as
   * the unquoted `fill=#d9d9d9`, passes through it unchanged.
   */
  lemma {:induction false} UnquotedAttributeKept(s: string, rule: Rule, repl: string)
    requires rule.quoted && forall k :: 0 <= k < |s| ==> !IsQuote(s[k])
    ensures Sub(s, rule, repl) == s
    decreases |s|
  {
    if s != [] {
      if MatchLen(s, rule).Some? {
        MatchShape(s, rule);
        assert false;
      }
      assert forall k :: 0 <= k < |s| - 1 ==> s[1..][k] == s[k + 1];
      UnquotedAttributeKept(s[1..], rule, repl);
      assert s == [s[0]] + s[1..];
    }
  }

  /** A pass that matches at the start of the text replaces the match and goes on after it. */
  lemma SubAfterMatch(s: string, n: nat, rule: Rule, repl: string)
    requires s != [] && MatchLen(s, rule) == Some(n)
    ensures Sub(s, rule, repl) == repl + Sub(s[n..], rule, repl)
  {
  }

  /**
   * A quoted attribute is one match, whatever the spacing around `=`, the
   * quote at either end and the letter case of keyword and value: the text
   * from the keyword to the closing quote becomes the replacement and the
   * pass carries on after the closing quote. `b` is the position of `=` and
   * `c` that of the opening quote.
   */
  lemma AttributeRewritten(s: string, rule: Rule, repl: string, b: nat, c: nat)
    requires QuotedShape(s, rule, b, c)
    ensures Sub(s, rule, repl) == repl + Sub(s[c + 2 + |rule.lit|..], rule, repl)
  {
    QuotedMatch(s, rule, b, c);
    SubAfterMatch(s, c + 2 + |rule.lit|, rule, repl);
  }

  /**
   * A style declaration `keyword : value` is one match however the text
   * goes on: the pattern has no trailing boundary, so what follows the value
   * (`ff` in `fill:#d9d9d9ff`) is left in place after the replacement. `b` is
   * the position of `:` and `c` that of the value.
   */
  lemma StyleRewritten(s: string, rule: Rule, repl: string, b: nat, c: nat)
    requires UnquotedShape(s, rule, b, c)
    ensures Sub(s, rule, repl) == repl + Sub(s[c + |rule.lit|..], rule, repl)
  {
    UnquotedMatch(s, rule, b, c);
    SubAfterMatch(s, c + |rule.lit|, rule, repl);
  }

  /**
   * The keyword is not anchored: a character that cannot start the keyword
   * is copied and the scan resumes right after it, so `xfill="#d9d9d9"` is
   * rewritten like `fill="#d9d9d9"`.
   */
  lemma UnanchoredKeyword(c: char, s: string, rule: Rule, repl: string)
    requires |rule.keyword| > 0 && !CiEq(c, rule.keyword[0])
    ensures Sub([c] + s, rule, repl) == [c] + Sub(s, rule, repl)
  {
    assert ([c] + s)[1..] == s;
  }

  /** `s` contains `kw` somewhere, letters compared without regard to case. */
  predicate CiContains(s: string, kw: string)
    decreases |s|
  {
    CiPrefix(s, kw) || (|s| > 0 && CiContains(s[1..], kw))
  }

  /** A pass whose keyword does not occur in the text leaves it unchanged. */
  lemma {:induction false} SubWithoutKeyword(s: string, rule: Rule, repl: string)
    requires !CiContains(s, rule.keyword)
    ensures Sub(s, rule, repl) == s
    decreases |s|
  {
    if s != [] {
      SubWithoutKeyword(s[1..], rule, repl);
      assert s == [s[0]] + s[1..];
    }
  }

  /** Text that mentions neither `fill` nor `stroke`, in any case, comes back unchanged. */
  lemma {:induction false} UnchangedWithoutKeywords(s: string, mapping: seq<(string, string)>)
    requires !CiContains(s, "fill") && !CiContains(s, "stroke")
    ensures ApplyMapping(s, mapping) == s
    decreases |mapping|
  {
    if mapping != [] {
      UnchangedWithoutKeywords(s, mapping[..|mapping| - 1]);
      PatternsKeepText(s, Patterns(mapping[|mapping| - 1].0), mapping[|mapping| - 1].1);
    }
  }

  lemma {:induction false} SubAllKeepsText(s: string, rewrites: seq<(Rule, string)>)
    requires !CiContains(s, "fill") && !CiContains(s, "stroke")
    requires forall i :: 0 <= i < |rewrites| ==> rewrites[i].0.keyword in {"fill", "stroke"}
    ensures SubAll(s, rewrites) == s
    decreases |rewrites|
  {
    if rewrites != [] {
      SubWithoutKeyword(s, rewrites[0].0, rewrites[0].1);
      SubAllKeepsText(s, rewrites[1..]);
    }
  }

  lemma {:induction false} PatternsKeepText(s: string, patterns: seq<string>, newColor: string)
    requires !CiContains(s, "fill") && !CiContains(s, "stroke")
    ensures ApplyPatterns(s, patterns, newColor) == s
    decreases |patterns|
  {
    if patterns != [] {
      PatternsKeepText(s, patterns[..|patterns| - 1], newColor);
      SubAllKeepsText(s, Rewrites(patterns[|patterns| - 1], newColor));
    }
  }

  // ---------------------------------------------------------------------
  // Properties of the whole rewrite

  lemma UpperOfLower(c: char)
    ensures UpperChar(LowerChar(c)) == UpperChar(c)
  {
  }

  lemma UpperViaLower(a: string, b: string)
    requires Lower(a) == Lower(b)
    ensures Upper(a) == Upper(b)
  {
    assert |a| == |Lower(a)| == |b|;
    forall i | 0 <= i < |a|
      ensures Upper(a)[i] == Upper(b)[i]
    {
      assert Lower(a)[i] == Lower(b)[i];
      UpperOfLower(a[i]);
      UpperOfLower(b[i]);
    }
  }

  lemma {:induction false} LStripLower(a: string, b: string)
    requires Lower(a) == Lower(b)
    ensures Lower(LStrip(a, '#')) == Lower(LStrip(b, '#'))
    decreases |a|
  {
    assert |a| == |Lower(a)| == |b|;
    if |a| > 0 {
      assert Lower(a)[0] == LowerChar(a[0]) && Lower(b)[0] == LowerChar(b[0]);
      if a[0] == '#' && b[0] == '#' {
        assert Lower(a[1..]) == Lower(a)[1..] && Lower(b[1..]) == Lower(b)[1..];
        LStripLower(a[1..], b[1..]);
      }
    }
  }

  lemma LowerUpperAgree(a: string, b: string)
    requires Lower(a) == Lower(b)
    ensures Upper(a) == Upper(b)
    ensures Lower(LStrip(a, '#')) == Lower(LStrip(b, '#'))
    ensures Upper(LStrip(a, '#')) == Upper(LStrip(b, '#'))
  {
    UpperViaLower(a, b);
    LStripLower(a, b);
    UpperViaLower(LStrip(a, '#'), LStrip(b, '#'));
  }

  /**
   * The letter case of an old colour does not matter: spellings that agree
   * up to case produce the same four patterns and so the same rewrite.
   */
  lemma OldColorCaseIrrelevant(s: string, old1: string, old2: string, newColor: string)
    requires Lower(old1) == Lower(old2)
    ensures ApplyEntry(s, (old1, newColor)) == ApplyEntry(s, (old2, newColor))
  {
    LowerUpperAgree(old1, old2);
    assert Patterns(old1) == Patterns(old2);
  }

  /** Applying a mapping is applying its first part, then the rest to that result. */
  lemma {:induction false} MappingSequential(s: string, m1: seq<(string, string)>, m2: seq<(string, string)>)
    ensures ApplyMapping(s, m1 + m2) == ApplyMapping(ApplyMapping(s, m1), m2)
    decreases |m2|
  {
    if m2 == [] {
      assert m1 + m2 == m1;
    } else {
      var m := m1 + m2;
      assert m[..|m| - 1] == m1 + m2[..|m2| - 1];
      assert m[|m| - 1] == m2[|m2| - 1];
      MappingSequential(s, m1, m2[..|m2| - 1]);
    }
  }

  // ---------------------------------------------------------------------
  // Centring in svg_to_padded_png_data

  /**
   * `(canvas - image) // 2`. Python's `//` floors; for the divisor 2 Dafny's
   * Euclidean `/` gives the same quotient, negative numerators included.
   */
  function CenterOffset(canvas: int, image: int): (x: int)
    ensures canvas - image - 1 <= 2 * x <= canvas - image
    ensures image <= canvas ==> x >= 0 && (2 * x + image == canvas || 2 * x + image == canvas - 1)
  {
    (canvas - image) / 2
  }

  /** Position of an icon on the padded canvas, returned as the `(x, y)` passed to `paste`. */
  function PastePosition(canvasWidth: int, canvasHeight: int, imageWidth: int, imageHeight: int): (p: (int, int))
    ensures imageWidth <= canvasWidth ==> 0 <= p.0 && p.0 + imageWidth <= canvasWidth
    ensures imageHeight <= canvasHeight ==> 0 <= p.1 && p.1 + imageHeight <= canvasHeight
    ensures imageWidth <= canvasWidth ==> canvasWidth - (p.0 + imageWidth) - p.0 in {0, 1}
    ensures imageHeight <= canvasHeight ==> canvasHeight - (p.1 + imageHeight) - p.1 in {0, 1}
  {
    (CenterOffset(canvasWidth, imageWidth), CenterOffset(canvasHeight, imageHeight))
  }
}
