/** `getToken` (src/lexer.js:79-115): an ordered cascade of nine line
    predicates, the first match choosing a token builder. Each predicate is
    the source's regular expression read on a logical line, that is on a line
    with no line terminator, which is all the segmenter produces. */
module Classifier {
  import opened Text
  import opened Tokens

  // Line predicates (src/lexer.js:119-162)

  /** `/}$/`: any line that ends in `}`. */
  predicate IsClosingBrace(line: string)
  {
    EndsWith(line, '}')
  }

  /** `/^<name>.+{$/`: starts with `name`, ends in `{`, at least one
      character between them. */
  predicate IsBlockAtRule(line: string, name: string)
  {
    StartsWith(line, name) && |line| >= |name| + 2 && line[|line| - 1] == '{'
  }

  predicate IsMediaQuery(line: string) { IsBlockAtRule(line, "@media") }

  predicate IsKeyFrame(line: string) { IsBlockAtRule(line, "@keyframes") }

  predicate IsFontFace(line: string) { IsBlockAtRule(line, "@font-face") }

  /** `/^@charset.*;$/` */
  predicate IsCharSet(line: string)
  {
    StartsWith(line, "@charset") && |line| >= 9 && line[|line| - 1] == ';'
  }

  predicate IsSupports(line: string) { IsBlockAtRule(line, "@supports") }

  /** `/.\S*[^\n]+\s*;/`: on a logical line, a `;` with at least two
      characters before it. */
  predicate IsDeclaration(line: string)
  {
    exists j | 2 <= j < |line| :: line[j] == ';'
  }

  /** `\s+{` at the start of `t`. */
  predicate SpacesThenBrace(t: string)
  {
    var n := SpaceRun(t);
    1 <= n < |t| && t[n] == '{'
  }

  /** `/^from\s+{|^to\s+{|^\d{1,3}%\s+{/`. Every alternative is anchored
      at the start of the line. */
  predicate IsKeyFrameSelector(line: string)
    ensures IsKeyFrameSelector(line) ==>
      |line| > 0 && (line[0] == 'f' || line[0] == 't' || IsDigit(line[0]))
  {
    (StartsWith(line, "from") && SpacesThenBrace(line[4..]))
    || (StartsWith(line, "to") && SpacesThenBrace(line[2..]))
    || (var d := DigitRun(line);
        1 <= d <= 3 && d < |line| && line[d] == '%' && SpacesThenBrace(line[d + 1..]))
  }

  /** `/.+{|.+,/`: a `{` or a `,` after the first character. */
  predicate IsSelector(line: string)
  {
    exists i | 1 <= i < |line| :: line[i] == '{' || line[i] == ','
  }

  // Token builders (src/lexer.js:167-266)

  /** `value.indexOf('{') + 1`: the 1-based column of the first `{`, or 0
      when the line has none. */
  function Column(line: string): (c: nat)
    ensures c == 0 <==> '{' !in line
    ensures c > 0 ==> c <= |line| && line[c - 1] == '{' && '{' !in line[..c - 1]
  {
    (IndexOf(line, '{') + 1) as nat
  }

  function OpeningBrace(pos: nat, line: string): Token
  {
    Token(BraceOpen, "{", LineCol(pos + 1, Column(line)))
  }

  function ClosingBrace(pos: nat): Token
  {
    Token(BraceClose, "}", Line(pos + 1))
  }

  function DeclarationToken(pos: nat, line: string): Token
  {
    Token(Declaration, line, Line(pos + 1))
  }

  /** `value.replace(/\s+{/, '')`: the first whitespace run that is followed
      by `{` is removed together with that `{`; a line without one is kept. */
  function DropSpacedBrace(s: string): (r: string)
    decreases |s|
    ensures |r| <= |s|
  {
    if s == [] then []
    else if IsSpace(s[0]) then
      var n := SpaceRun(s);
      if n < |s| && s[n] == '{' then s[n + 1..]
      else s[..n] + DropSpacedBrace(s[n..])
    else [s[0]] + DropSpacedBrace(s[1..])
  }

  /** The pair built by `selector` and by the default branch of `atRule`:
      the construct, then the opening brace of its line. */
  function BlockTokens(pos: nat, kind: Kind, line: string): seq<Token>
  {
    [Token(kind, DropSpacedBrace(line), Line(pos + 1)), OpeningBrace(pos, line)]
  }

  /** `atRule`: `@charset` is a single statement token holding the whole
      line; every other at-rule opens a block. */
  function AtRule(pos: nat, kind: Kind, line: string): seq<Token>
  {
    if kind == Charset then [Token(Charset, line, Line(pos + 1))]
    else BlockTokens(pos, kind, line)
  }

  function Matches(line: string): bool
  {
    IsClosingBrace(line) || IsMediaQuery(line) || IsKeyFrame(line) || IsFontFace(line)
    || IsCharSet(line) || IsSupports(line) || IsDeclaration(line)
    || IsKeyFrameSelector(line) || IsSelector(line)
  }

  /** `getToken(value, pos)`: zero, one or two tokens for the logical line
      at 0-based position `pos`, all numbered `pos + 1`. A closing-brace line
      wins over every other rule; a block-opening construct is followed by
      the `{` of its line; a single token other than `}` carries the whole
      line; a line matching no rule yields nothing. */
  function GetToken(line: string, pos: nat): (r: seq<Token>)
    ensures |r| <= 2
    ensures forall t | t in r :: t.pos.line == pos + 1
    ensures IsClosingBrace(line) ==> r == [Token(BraceClose, "}", Line(pos + 1))]
    ensures |r| == 2 <==> r != [] && OpensBlock(r[0].kind)
    ensures |r| == 2 ==>
      r[0].text == DropSpacedBrace(line)
      && r[1] == Token(BraceOpen, "{", LineCol(pos + 1, Column(line)))
    ensures |r| == 1 ==>
      (r[0].kind == BraceClose && r[0].text == "}")
      || ((r[0].kind == Charset || r[0].kind == Declaration) && r[0].text == line)
  {
    if IsClosingBrace(line) then [ClosingBrace(pos)]
    else if IsMediaQuery(line) then AtRule(pos, MediaQuery, line)
    else if IsKeyFrame(line) then AtRule(pos, Keyframe, line)
    else if IsFontFace(line) then AtRule(pos, FontFace, line)
    else if IsCharSet(line) then AtRule(pos, Charset, line)
    else if IsSupports(line) then AtRule(pos, Supports, line)
    else if IsDeclaration(line) then [DeclarationToken(pos, line)]
    else if IsKeyFrameSelector(line) then BlockTokens(pos, KeyframeSelector, line)
    else if IsSelector(line) then BlockTokens(pos, Selector, line)
    else []
  }

  // Properties of the builders and of the cascade

  /** A line yields no token exactly when no rule matches it. */
  lemma SilentIffNoMatch(line: string, pos: nat)
    ensures GetToken(line, pos) == [] <==> !Matches(line)
  {
  }

  /** No `{` of `s` directly follows whitespace inside `s`. */
  predicate NoSpacedBrace(s: string)
  {
    forall i | 1 <= i < |s| :: s[i] == '{' ==> !IsSpace(s[i - 1])
  }

  /** `replace(/\s+{/, '')` finds no match, and so keeps the text, when no
      `{` of it follows whitespace. */
  lemma {:induction false} DropSpacedBraceNoMatch(s: string)
    requires NoSpacedBrace(s)
    ensures DropSpacedBrace(s) == s
    decreases |s|
  {
    if s != [] {
      if IsSpace(s[0]) {
        var n := SpaceRun(s);
        assert n < |s| ==> s[n] != '{' by {
          if n < |s| { assert IsSpace(s[n - 1]) by { assert s[..n][n - 1] == s[n - 1]; } }
        }
        assert NoSpacedBrace(s[n..]) by {
          forall i | 1 <= i < |s[n..]| ensures s[n..][i] == '{' ==> !IsSpace(s[n..][i - 1]) {
            assert s[n..][i] == s[n + i] && s[n..][i - 1] == s[n + i - 1];
          }
        }
        DropSpacedBraceNoMatch(s[n..]);
        assert s == s[..n] + s[n..];
      } else {
        assert NoSpacedBrace(s[1..]) by {
          forall i | 1 <= i < |s[1..]| ensures s[1..][i] == '{' ==> !IsSpace(s[1..][i - 1]) {
            assert s[1..][i] == s[i + 1] && s[1..][i - 1] == s[i];
          }
        }
        DropSpacedBraceNoMatch(s[1..]);
      }
    }
  }

  /** A line without `{` keeps its text. */
  lemma {:induction false} DropSpacedBraceNoBrace(s: string)
    requires '{' !in s
    ensures DropSpacedBrace(s) == s
    decreases |s|
  {
    if s != [] {
      if IsSpace(s[0]) {
        var n := SpaceRun(s);
        assert '{' !in s[n..];
        DropSpacedBraceNoBrace(s[n..]);
        assert s == s[..n] + s[n..];
      } else {
        assert '{' !in s[1..];
        DropSpacedBraceNoBrace(s[1..]);
      }
    }
  }

  /** Only the leftmost whitespace-then-`{` goes: when no `{` of `a` follows
      whitespace, the text is what precedes the whitespace, followed by what
      comes after the brace, whatever `b` holds. */
  lemma {:induction false} DropsFirstSpacedBrace(a: string, w: string, b: string)
    requires NoSpacedBrace(a) && (a == [] || !IsSpace(a[|a| - 1]))
    requires |w| >= 1 && AllSpace(w)
    ensures DropSpacedBrace(a + w + "{" + b) == a + b
    decreases |a|
  {
    if a == [] {
      DropsLeadingSpacedBrace(w, b);
      assert a + w + "{" + b == w + "{" + b;
    } else if IsSpace(a[0]) {
      var n := SpaceRun(a);
      SpaceRunInside(a, n);
      DropsFirstSpacedBrace(a[n..], w, b);
      SkipsSpaceRun(a, n, w, b);
    } else {
      assert NoSpacedBrace(a[1..]) by {
        forall i | 1 <= i < |a[1..]| ensures a[1..][i] == '{' ==> !IsSpace(a[1..][i - 1]) {
          assert a[1..][i] == a[i + 1] && a[1..][i - 1] == a[i];
        }
      }
      assert a[1..] == [] || a[1..][|a[1..]| - 1] == a[|a| - 1];
      DropsFirstSpacedBrace(a[1..], w, b);
      KeepsNonSpace(a, w, b);
    }
  }

  /** A leading character that is not whitespace is kept. */
  lemma KeepsNonSpace(a: string, w: string, b: string)
    requires |a| >= 1 && !IsSpace(a[0])
    requires DropSpacedBrace(a[1..] + w + "{" + b) == a[1..] + b
    ensures DropSpacedBrace(a + w + "{" + b) == a + b
  {
    var s := a + w + "{" + b;
    assert s[1..] == a[1..] + w + "{" + b;
    assert [a[0]] + (a[1..] + b) == a + b;
  }

  /** The whitespace run at the start of such an `a` ends inside it. */
  lemma SpaceRunInside(a: string, n: nat)
    requires NoSpacedBrace(a) && |a| >= 1 && IsSpace(a[0]) && !IsSpace(a[|a| - 1])
    requires n == SpaceRun(a)
    ensures 1 <= n < |a| && a[n] != '{' && NoSpacedBrace(a[n..])
    ensures !IsSpace(a[n..][|a[n..]| - 1])
  {
    assert a[..n][n - 1] == a[n - 1];
    forall i | 1 <= i < |a[n..]| ensures a[n..][i] == '{' ==> !IsSpace(a[n..][i - 1]) {
      assert a[n..][i] == a[n + i] && a[n..][i - 1] == a[n + i - 1];
    }
  }

  /** A line that opens with whitespace and `{` loses both. */
  lemma DropsLeadingSpacedBrace(w: string, b: string)
    requires |w| >= 1 && AllSpace(w)
    ensures DropSpacedBrace(w + "{" + b) == b
  {
    var s := w + "{" + b;
    assert s == w + ("{" + b);
    SpaceRunStops(w, "{" + b);
    assert s[|w|] == '{';
    assert s[|w| + 1..] == b;
  }

  /** A leading whitespace run of `a` that is not followed by `{` is kept. */
  lemma SkipsSpaceRun(a: string, n: nat, w: string, b: string)
    requires 1 <= n < |a| && n == SpaceRun(a) && a[n] != '{'
    requires DropSpacedBrace(a[n..] + w + "{" + b) == a[n..] + b
    ensures DropSpacedBrace(a + w + "{" + b) == a + b
  {
    var u, v := a[..n], a[n..];
    var s := a + w + "{" + b;
    assert a == u + v;
    assert s == u + (v + w + "{" + b);
    SpaceRunStops(u, v + w + "{" + b);
    DropsFirstSpacedBraceStep(s, n, v + w + "{" + b);
    assert u + (v + b) == a + b;
  }

  /** A whitespace run not followed by `{` is kept, and the search goes on
      after it. */
  lemma DropsFirstSpacedBraceStep(s: string, n: nat, rest: string)
    requires 1 <= n < |s| && SpaceRun(s) == n && s[n] != '{' && rest == s[n..]
    ensures DropSpacedBrace(s) == s[..n] + DropSpacedBrace(rest)
  {
    assert IsSpace(s[0]);
  }

  /** The column of a `{` with no `{` before it. */
  lemma ColumnAt(s: string, k: nat)
    requires k < |s| && s[k] == '{' && '{' !in s[..k]
    ensures Column(s) == k + 1
  {
  }

  /** `@charset` statements (src/lexer.js:96-98, 141, 209-215): one
      `Charset` token holding the whole line, `;` included, and no brace. */
  lemma CharsetLine(line: string, pos: nat)
    requires StartsWith(line, "@charset") && EndsWith(line, ';')
    ensures GetToken(line, pos) == [Token(Charset, line, Line(pos + 1))]
  {
    assert line[..8] == "@charset";
    assert line[1] == 'c';
  }

  /** Declarations (src/lexer.js:104-106, 149-152, 233-239): a line with a
      `;` somewhere after its first two characters, that neither ends in `}`
      nor matches an at-rule, is one `Declaration` whose text is the whole
      line, whatever follows the `;`. */
  lemma DeclarationRule(line: string, pos: nat)
    requires IsDeclaration(line) && !IsClosingBrace(line)
    requires !IsMediaQuery(line) && !IsKeyFrame(line) && !IsFontFace(line)
    requires !IsCharSet(line) && !IsSupports(line)
    ensures GetToken(line, pos) == [Token(Declaration, line, Line(pos + 1))]
  {
  }

  /** The formatted shape of a declaration: a line ending in `;` with at
      least two characters before it, and not a `@charset` statement. */
  lemma DeclarationLine(line: string, pos: nat)
    requires EndsWith(line, ';') && |line| >= 3 && !StartsWith(line, "@charset")
    ensures GetToken(line, pos) == [Token(Declaration, line, Line(pos + 1))]
  {
    assert line[|line| - 1] == ';';
    DeclarationRule(line, pos);
  }

  /** The declaration rule runs before the selector rule and its `;` may sit
      anywhere: a selector with a `;` in an attribute value is taken whole
      as a declaration, and no brace follows. */
  lemma SemicolonInSelector(line: string)
    requires line == "a[href$=\";\"] {"
    ensures GetToken(line, 0) == [Token(Declaration, line, Line(1))]
  {
    assert line[9] == ';' && line[|line| - 1] == '{';
    NotAtRule(line);
    DeclarationRule(line, 0);
  }

  /** The text of a bare percentage keyframe selector: one to three digits
      and `%`. */
  predicate IsPercentage(k: string)
  {
    2 <= |k| <= 4 && k[|k| - 1] == '%' && forall i | 0 <= i < |k| - 1 :: IsDigit(k[i])
  }

  lemma PrefixChar(s: string, p: string, i: nat)
    requires StartsWith(s, p) && i < |p|
    ensures s[i] == p[i]
  {
    assert s[..|p|][i] == s[i];
  }

  /** A line that does not start with `@` is no at-rule. */
  lemma NotAtRule(line: string)
    requires line != [] && line[0] != '@'
    ensures !IsMediaQuery(line) && !IsKeyFrame(line) && !IsFontFace(line)
    ensures !IsCharSet(line) && !IsSupports(line)
  {
    if StartsWith(line, "@media") { PrefixChar(line, "@media", 0); }
    if StartsWith(line, "@keyframes") { PrefixChar(line, "@keyframes", 0); }
    if StartsWith(line, "@font-face") { PrefixChar(line, "@font-face", 0); }
    if StartsWith(line, "@charset") { PrefixChar(line, "@charset", 0); }
    if StartsWith(line, "@supports") { PrefixChar(line, "@supports", 0); }
  }

  /** The end of the cascade, for a line that no earlier rule takes. */
  lemma CascadeTail(line: string, pos: nat)
    requires !IsClosingBrace(line) && !IsDeclaration(line)
    requires !IsMediaQuery(line) && !IsKeyFrame(line) && !IsFontFace(line)
    requires !IsCharSet(line) && !IsSupports(line)
    ensures GetToken(line, pos) ==
      if IsKeyFrameSelector(line) then BlockTokens(pos, KeyframeSelector, line)
      else if IsSelector(line) then BlockTokens(pos, Selector, line)
      else []
  {
  }

  /** An at-rule whose name starts with none of `m`, `k`, `f`, `c` and `s`
      (`@page`, `@layer`, `@import` …) matches none of the five at-rule
      predicates. */
  lemma OtherAtRule(line: string)
    requires |line| >= 2 && line[1] != 'm' && line[1] != 'k' && line[1] != 'f'
    requires line[1] != 'c' && line[1] != 's'
    ensures !IsMediaQuery(line) && !IsKeyFrame(line) && !IsFontFace(line)
    ensures !IsCharSet(line) && !IsSupports(line)
  {
    if StartsWith(line, "@media") { PrefixChar(line, "@media", 1); }
    if StartsWith(line, "@keyframes") { PrefixChar(line, "@keyframes", 1); }
    if StartsWith(line, "@font-face") { PrefixChar(line, "@font-face", 1); }
    if StartsWith(line, "@charset") { PrefixChar(line, "@charset", 1); }
    if StartsWith(line, "@supports") { PrefixChar(line, "@supports", 1); }
  }

  /** An at-rule none of the five rules knows goes down the same tail as a
      selector: `sel` + whitespace + `{` gives a `Selector` holding `sel`,
      then the brace at its column. */
  lemma OtherAtRuleLine(sel: string, w: string, pos: nat)
    requires |sel| >= 2 && sel[0] == '@' && !IsSpace(sel[|sel| - 1])
    requires sel[1] != 'm' && sel[1] != 'k' && sel[1] != 'f' && sel[1] != 'c' && sel[1] != 's'
    requires '{' !in sel && ';' !in sel
    requires |w| >= 1 && AllSpace(w)
    ensures GetToken(sel + w + "{", pos) == [
      Token(Selector, sel, Line(pos + 1)),
      Token(BraceOpen, "{", LineCol(pos + 1, |sel| + |w| + 1))]
  {
    var line := sel + w + "{";
    assert line[0] == '@' && line[1] == sel[1] && line[|line| - 1] == '{';
    assert ';' !in w;
    assert ';' !in line;
    OtherAtRule(line);
    CascadeTail(line, pos);
    BlockTokensOf(pos, Selector, sel, w);
  }

  /** `@page :first {` becomes a selector and its brace. */
  lemma UnknownAtRuleIsSelector(sel: string, w: string)
    requires sel == "@page :first" && w == " "
    ensures GetToken(sel + w + "{", 0) == [
      Token(Selector, "@page :first", Line(1)),
      Token(BraceOpen, "{", LineCol(1, 14))]
  {
    assert sel[1] == 'p' && ';' !in sel && '{' !in sel;
    OtherAtRuleLine(sel, w, 0);
  }

  /** The pair of tokens for `head` + whitespace + `{`. */
  lemma BlockTokensOf(pos: nat, kind: Kind, head: string, w: string)
    requires '{' !in head && (head == [] || !IsSpace(head[|head| - 1]))
    requires |w| >= 1 && AllSpace(w)
    ensures BlockTokens(pos, kind, head + w + "{") ==
      [Token(kind, head, Line(pos + 1)), Token(BraceOpen, "{", LineCol(pos + 1, |head| + |w| + 1))]
  {
    DropsTrailingSpacedBrace(head, w);
    TrailingBraceColumn(head, w);
  }

  lemma DropsTrailingSpacedBrace(head: string, w: string)
    requires '{' !in head && (head == [] || !IsSpace(head[|head| - 1]))
    requires |w| >= 1 && AllSpace(w)
    ensures DropSpacedBrace(head + w + "{") == head
  {
    DropsFirstSpacedBrace(head, w, "");
    assert head + w + "{" + "" == head + w + "{";
    assert head + "" == head;
  }

  lemma TrailingBraceColumn(head: string, w: string)
    requires '{' !in head && AllSpace(w)
    ensures Column(head + w + "{") == |head| + |w| + 1
  {
    var line := head + w + "{";
    var k := |head| + |w|;
    assert line[..k] == head + w;
    assert '{' !in w;
    ColumnAt(line, k);
  }

  /** `key` + whitespace + `{` matches the keyframe-selector rule. */
  lemma KeyframeSelectorMatches(key: string, w: string)
    requires key == "from" || key == "to" || IsPercentage(key)
    requires |w| >= 1 && AllSpace(w)
    ensures IsKeyFrameSelector(key + w + "{")
  {
    SpaceRunStops(w, "{");
    assert SpacesThenBrace(w + "{");
    assert key + w + "{" == key + (w + "{");
    if IsPercentage(key) {
      PercentageMatches(key, w + "{");
    } else {
      WordMatches(key, w + "{");
    }
  }

  lemma WordMatches(key: string, t: string)
    requires (key == "from" || key == "to") && SpacesThenBrace(t)
    ensures IsKeyFrameSelector(key + t)
  {
    var line := key + t;
    assert line[..|key|] == key;
    assert line[|key|..] == t;
  }

  lemma PercentageMatches(key: string, t: string)
    requires IsPercentage(key) && SpacesThenBrace(t)
    ensures IsKeyFrameSelector(key + t)
  {
    var line := key + t;
    var d := |key| - 1;
    forall i | 0 <= i < d ensures IsDigit(line[i]) {
      assert line[i] == key[i];
    }
    assert line[d] == '%';
    DigitRunCounts(line, d);
    assert line[d + 1..] == t;
  }

  lemma {:induction false} DigitRunCounts(s: string, d: nat)
    requires d < |s| && !IsDigit(s[d])
    requires forall i | 0 <= i < d :: IsDigit(s[i])
    ensures DigitRun(s) == d
    decreases d
  {
    if d > 0 {
      DigitRunCounts(s[1..], d - 1);
    }
  }

  /** `from {`, `to {` and `40% {` (src/lexer.js:108-110, 154-157): a
      `KeyframeSelector` holding the bare keyword or percentage, then the
      brace at its column. */
  lemma KeyframeSelectorLine(key: string, w: string, pos: nat)
    requires key == "from" || key == "to" || IsPercentage(key)
    requires |w| >= 1 && AllSpace(w)
    ensures GetToken(key + w + "{", pos) == [
      Token(KeyframeSelector, key, Line(pos + 1)),
      Token(BraceOpen, "{", LineCol(pos + 1, |key| + |w| + 1))]
  {
    var line := key + w + "{";
    assert line[0] == key[0];
    assert ';' !in key && '{' !in key && !IsSpace(key[|key| - 1]);
    assert ';' !in w;
    assert ';' !in line;
    NotAtRule(line);
    CascadeTail(line, pos);
    KeyframeSelectorMatches(key, w);
    BlockTokensOf(pos, KeyframeSelector, key, w);
  }

  /** Selector lines (src/lexer.js:112-114, 159-162, 252-266): a line
      `sel` + whitespace + `{` that no earlier rule takes becomes a
      `Selector` holding `sel`, then the brace at its column. */
  lemma SelectorLine(sel: string, w: string, pos: nat)
    requires |sel| >= 1 && sel[0] != '@' && !IsSpace(sel[|sel| - 1])
    requires '{' !in sel && ';' !in sel
    requires |w| >= 1 && AllSpace(w)
    requires !IsKeyFrameSelector(sel + w + "{")
    ensures GetToken(sel + w + "{", pos) == [
      Token(Selector, sel, Line(pos + 1)),
      Token(BraceOpen, "{", LineCol(pos + 1, |sel| + |w| + 1))]
  {
    var line := sel + w + "{";
    assert line[0] == sel[0];
    assert ';' !in w;
    assert ';' !in line;
    assert line[|line| - 1] == '{';
    NotAtRule(line);
    CascadeTail(line, pos);
    BlockTokensOf(pos, Selector, sel, w);
  }

  /** Block at-rules (src/lexer.js:84-102, 124-147, 205-231): `@media`,
      `@keyframes`, `@font-face` and `@supports` followed by a brace-free
      prelude, whitespace and `{` yield the rule without its brace, then the
      brace at its column. */
  lemma BlockAtRuleLine(name: string, kind: Kind, head: string, w: string, pos: nat)
    requires (name, kind) == ("@media", MediaQuery) || (name, kind) == ("@keyframes", Keyframe)
          || (name, kind) == ("@font-face", FontFace) || (name, kind) == ("@supports", Supports)
    requires StartsWith(head, name) && '{' !in head && !IsSpace(head[|head| - 1])
    requires |w| >= 1 && AllSpace(w)
    ensures GetToken(head + w + "{", pos) ==
      [Token(kind, head, Line(pos + 1)), Token(BraceOpen, "{", LineCol(pos + 1, |head| + |w| + 1))]
  {
    var line := head + w + "{";
    assert StartsWith(line, name) by {
      assert line[..|name|] == head[..|name|];
    }
    AtRuleCascade(name, kind, line, pos);
    BlockLine(pos, kind, head, w);
  }

  /** `head` + whitespace + `{`, once the cascade has chosen a block rule. */
  lemma BlockLine(pos: nat, kind: Kind, head: string, w: string)
    requires '{' !in head && (head == [] || !IsSpace(head[|head| - 1]))
    requires |w| >= 1 && AllSpace(w)
    requires GetToken(head + w + "{", pos) == BlockTokens(pos, kind, head + w + "{")
    ensures GetToken(head + w + "{", pos) ==
      [Token(kind, head, Line(pos + 1)), Token(BraceOpen, "{", LineCol(pos + 1, |head| + |w| + 1))]
  {
    BlockTokensOf(pos, kind, head, w);
  }

  /** The at-rule names differ in their second character, so a line opening
      with one of them is taken by that rule. */
  lemma AtRuleCascade(name: string, kind: Kind, line: string, pos: nat)
    requires (name, kind) == ("@media", MediaQuery) || (name, kind) == ("@keyframes", Keyframe)
          || (name, kind) == ("@font-face", FontFace) || (name, kind) == ("@supports", Supports)
    requires StartsWith(line, name) && EndsWith(line, '{')
    requires |line| >= |name| + 2
    ensures GetToken(line, pos) == BlockTokens(pos, kind, line)
  {
    PrefixChar(line, name, 1);
    assert !IsClosingBrace(line) && !IsCharSet(line);
    if StartsWith(line, "@media") { PrefixChar(line, "@media", 1); }
    if StartsWith(line, "@keyframes") { PrefixChar(line, "@keyframes", 1); }
    if StartsWith(line, "@font-face") { PrefixChar(line, "@font-face", 1); }
  }

  // The test expectations the cascade reproduces on already-formatted lines

  /** tests/tokens.test.js:285-306: a class selector named `.from` is a
      selector, not a keyframe selector. */
  lemma DotFromIsSelector(line: string)
    requires line == ".from {"
    ensures GetToken(line, 0) ==
      [Token(Selector, ".from", Line(1)), Token(BraceOpen, "{", LineCol(1, 7))]
  {
    assert line == ".from" + " " + "{";
    SelectorLine(".from", " ", 0);
  }

  /** A comma list that starts with a percentage (tests/tokens.test.js:91-98)
      is a generic selector: the keyframe-selector rule takes a single
      percentage only. */
  lemma PercentageListIsSelector(sel: string, key: string, w: string, pos: nat)
    requires IsPercentage(key) && |sel| > |key| + 1 && sel[..|key| + 1] == key + ","
    requires '{' !in sel && ';' !in sel && !IsSpace(sel[|sel| - 1])
    requires |w| >= 1 && AllSpace(w)
    ensures GetToken(sel + w + "{", pos) == [
      Token(Selector, sel, Line(pos + 1)),
      Token(BraceOpen, "{", LineCol(pos + 1, |sel| + |w| + 1))]
  {
    PercentageListShape(sel, key, w);
    SelectorLine(sel, w, pos);
  }

  lemma PercentageListShape(sel: string, key: string, w: string)
    requires IsPercentage(key) && |sel| > |key| + 1 && sel[..|key| + 1] == key + ","
    ensures sel[0] != '@' && !IsKeyFrameSelector(sel + w + "{")
  {
    var line := sel + w + "{";
    assert line == key + "," + line[|key| + 1..] by {
      assert line[..|key| + 1] == sel[..|key| + 1];
    }
    assert sel[0] == key[0];
    NotKeyframeSelectorAfterPercent(key, line[|key| + 1..]);
  }

  /** tests/tokens.test.js:141-150: an at-rule with no prelude. */
  lemma FontFaceHeader(line: string)
    requires line == "@font-face {"
    ensures GetToken(line, 0) ==
      [Token(FontFace, "@font-face", Line(1)), Token(BraceOpen, "{", LineCol(1, 12))]
  {
    assert line == "@font-face" + " " + "{";
    BlockAtRuleLine("@font-face", FontFace, "@font-face", " ", 0);
  }

  /** tests/tokens.test.js:171-180: the prelude stays in the token's text. */
  lemma SupportsHeader(line: string)
    requires line == "@supports (display: flex) {"
    ensures GetToken(line, 0) ==
      [Token(Supports, "@supports (display: flex)", Line(1)), Token(BraceOpen, "{", LineCol(1, 27))]
  {
    var head := "@supports (display: flex)";
    SupportsPrelude(head);
    assert line == head + " " + "{";
    BlockAtRuleLine("@supports", Supports, head, " ", 0);
  }

  lemma SupportsPrelude(head: string)
    requires head == "@supports (display: flex)"
    ensures StartsWith(head, "@supports") && '{' !in head && !IsSpace(head[|head| - 1])
  {
    assert head[..9] == "@supports";
  }

  /** A percentage followed by a comma is no keyframe selector. */
  lemma NotKeyframeSelectorAfterPercent(key: string, rest: string)
    requires IsPercentage(key)
    ensures !IsKeyFrameSelector(key + "," + rest)
  {
    var line := key + "," + rest;
    var d := |key| - 1;
    forall i | 0 <= i < d ensures IsDigit(line[i]) {
      assert line[i] == key[i];
    }
    assert line[d] == key[d];
    DigitRunCounts(line, d);
    if StartsWith(line, "from") { PrefixChar(line, "from", 0); }
    if StartsWith(line, "to") { PrefixChar(line, "to", 0); }
    assert line[d + 1..][0] == ',';
  }
}
