/** Whole streams for formatted stylesheets, from logical lines to tokens
    to rulesets. */
module Scenarios {
  import opened Text
  import opened Tokens
  import opened Segmenter
  import opened Classifier
  import opened Lexer
  import opened Views

  /** A formatted ruleset with one declaration: the selector and its brace
      on line 1, the declaration on line 2, the closing brace on line 3. */
  lemma RulesetLines(sel: string, w: string, decl: string)
    requires |sel| >= 1 && sel[0] != '@' && !IsSpace(sel[|sel| - 1])
    requires '{' !in sel && ';' !in sel
    requires |w| >= 1 && AllSpace(w)
    requires !IsKeyFrameSelector(sel + w + "{")
    requires EndsWith(decl, ';') && |decl| >= 3 && !StartsWith(decl, "@charset")
    ensures TokensOfLines([sel + w + "{", decl, "}"]) == [
      Token(Selector, sel, Line(1)),
      Token(BraceOpen, "{", LineCol(1, |sel| + |w| + 1)),
      Token(Declaration, decl, Line(2)),
      Token(BraceClose, "}", Line(3))]
  {
    var a := [Token(Selector, sel, Line(1)), Token(BraceOpen, "{", LineCol(1, |sel| + |w| + 1))];
    var b := [Token(Declaration, decl, Line(2))];
    var c := [Token(BraceClose, "}", Line(3))];
    SelectorLine(sel, w, 0);
    DeclarationLine(decl, 1);
    ClosingLine("}", 2);
    ThreeLines(sel + w + "{", decl, "}");
    ThreeGroups(a, b, c);
  }

  /** A chunk that holds one terminal, at its end. */
  predicate OneTerminal(s: string)
  {
    s != [] && IsTerminal(s[|s| - 1]) && forall i | 0 <= i < |s| - 1 :: !IsTerminal(s[i])
  }

  /** A closing chunk and the trailing newline. */
  lemma TwoChunks(c: string, d: string)
    requires OneTerminal(c) && d == "\n"
    ensures Chunks(c + d) == [c, d]
  {
    ChunksAfter(c, d);
    ChunksNoTerminal(d);
  }

  lemma ThreeChunks(b: string, c: string, d: string)
    requires OneTerminal(b) && OneTerminal(c) && c[0] == '\n' && d == "\n"
    ensures Chunks(b + (c + d)) == [b, c, d]
  {
    ChunksAfter(b, c + d);
    TwoChunks(c, d);
  }

  /** Three chunks that each hold one terminal, at their end, and the
      trailing newline. */
  lemma FourChunks(a: string, b: string, c: string, d: string)
    requires OneTerminal(a) && OneTerminal(b) && OneTerminal(c) && b[0] == '\n' && c[0] == '\n' && d == "\n"
    ensures Chunks(a + b + c + d) == [a, b, c, d]
  {
    assert a + b + c + d == a + (b + (c + d));
    ChunksAfter(a, b + (c + d));
    ThreeChunks(b, c, d);
  }

  /** The filter drops a trailing blank chunk and keeps the others. */
  lemma KeptOfFour(a: string, b: string, c: string, d: string)
    requires !AllSpace(a) && !AllSpace(b) && !AllSpace(c) && AllSpace(d)
    ensures Kept([a, b, c, d]) == [a, b, c]
  {
    KeptSingle(a);
    KeptSingle(b);
    KeptSingle(c);
    KeptSingle(d);
    assert [a, b, c, d] == [a, b, c] + [d] && [a, b, c] == [a, b] + [c] && [a, b] == [a] + [b];
    KeptAppend([a, b, c], [d]);
    KeptAppend([a, b], [c]);
    KeptAppend([a], [b]);
  }

  /** Three kept chunks make three logical lines. */
  lemma LinesOfThree(f: string, x: string, y: string, z: string)
    requires Kept(Chunks(f)) == [x, y, z]
    ensures Lines(f) == [Collapse(x), Collapse(y), Collapse(z)]
  {
  }

  /** The formatted text of tests/tokens.test.js:4-17 is cut after `{`,
      after `;` and after `}`, and the filter drops the trailing newline. */
  lemma GroupedRulesetKept(a: string, b: string, c: string, d: string)
    requires a == "h1,\nh2,\nh3 {" && b == "\n  color: aliceblue;" && c == "\n}" && d == "\n"
    ensures Kept(Chunks(a + b + c + d)) == [a, b, c]
  {
    assert OneTerminal(a) && OneTerminal(b) && OneTerminal(c);
    FourChunks(a, b, c, d);
    assert a[0] == 'h' && b[3] == 'c' && c[1] == '}';
    KeptOfFour(a, b, c, d);
  }

  /** A `;` inside a physical line is no split point: `a;b {` followed by
      a new line is cut after the `{` only. */
  lemma MidLineTerminalChunks(s: string)
    requires s == "a;b {\nc"
    ensures Chunks(s) == ["a;b {", "\nc"]
  {
    assert s[1] == ';' && s[2] == 'b' && s[..5] == "a;b {";
    ChunksCut(s, 5);
    assert s[5..] == "\nc";
    ChunksNoTerminal(s[5..]);
  }

  /** A newline goes with the indentation after it. */
  lemma IndentedLineCollapses(c: string, line: string)
    requires |c| >= 3 && c[0] == '\n' && c[1] == ' ' && c[2] == ' ' && line == c[3..]
    requires line != [] && !IsSpace(line[0]) && '\n' !in line
    ensures Collapse(c) == line
  {
    assert c == [] + "\n" + c[1..3] + line;
    CollapseNewline([], c[1..3], line);
    CollapseKeepsSingleLine(line);
  }

  /** The grouped selector, one selector per physical line, becomes
      `h1,h2,h3 {`. */
  lemma GroupedSelectorCollapses(x: string, y: string, z: string)
    requires x == "h1," && y == "h2," && z == "h3 {"
    ensures Collapse(x + "\n" + y + "\n" + z) == "h1,h2,h3 {"
  {
    assert x + "\n" + y + "\n" + z == x + "\n" + [] + (y + "\n" + z);
    CollapseNewline(x, [], y + "\n" + z);
    assert y + "\n" + z == y + "\n" + [] + z;
    CollapseNewline(y, [], z);
    CollapseKeepsSingleLine(z);
  }

  /** The grouped selector chunk. */
  lemma SelectorChunkCollapses(a: string)
    requires a == "h1,\nh2,\nh3 {"
    ensures Collapse(a) == "h1,h2,h3 {"
  {
    assert a == "h1," + "\n" + "h2," + "\n" + "h3 {";
    GroupedSelectorCollapses("h1,", "h2,", "h3 {");
  }

  /** The indented declaration chunk. */
  lemma DeclarationChunkCollapses(b: string)
    requires b == "\n  color: aliceblue;"
    ensures Collapse(b) == "color: aliceblue;"
  {
    IndentedLineCollapses(b, b[3..]);
  }

  /** The closing brace on a line of its own loses its newline. */
  lemma ClosingChunkCollapses(c: string)
    requires c == "\n}"
    ensures Collapse(c) == "}"
  {
    assert c == [] + "\n" + [] + "}";
    CollapseNewline([], [], "}");
    CollapseKeepsSingleLine("}");
  }

  /** The formatted text of tests/tokens.test.js:4-17 has three logical
      lines. */
  lemma GroupedRulesetLines(a: string, b: string, c: string, d: string)
    requires a == "h1,\nh2,\nh3 {" && b == "\n  color: aliceblue;" && c == "\n}" && d == "\n"
    ensures Lines(a + b + c + d) == ["h1,h2,h3 {", "color: aliceblue;", "}"]
  {
    GroupedRulesetKept(a, b, c, d);
    LinesOfThree(a + b + c + d, a, b, c);
    SelectorChunkCollapses(a);
    DeclarationChunkCollapses(b);
    ClosingChunkCollapses(c);
  }

  /** tests/tokens.test.js:4-17 from the formatted text to the expected
      tokens. */
  lemma GroupedRulesetLex(a: string, b: string, c: string, d: string)
    requires a == "h1,\nh2,\nh3 {" && b == "\n  color: aliceblue;" && c == "\n}" && d == "\n"
    ensures Lex(a + b + c + d) == [
      Token(Selector, "h1,h2,h3", Line(1)),
      Token(BraceOpen, "{", LineCol(1, 10)),
      Token(Declaration, "color: aliceblue;", Line(2)),
      Token(BraceClose, "}", Line(3))]
  {
    GroupedRulesetLines(a, b, c, d);
    GroupedRulesetTokens(Lines(a + b + c + d));
  }

  /** tests/tokens.test.js:4-17, after formatting. */
  lemma GroupedRulesetTokens(ls: seq<string>)
    requires ls == ["h1,h2,h3 {", "color: aliceblue;", "}"]
    ensures TokensOfLines(ls) == [
      Token(Selector, "h1,h2,h3", Line(1)),
      Token(BraceOpen, "{", LineCol(1, 10)),
      Token(Declaration, "color: aliceblue;", Line(2)),
      Token(BraceClose, "}", Line(3))]
  {
    var sel, w, decl := "h1,h2,h3", " ", "color: aliceblue;";
    assert sel + w + "{" == ls[0];
    assert ls == [sel + w + "{", decl, "}"];
    assert (sel + w + "{")[0] == 'h';
    assert !IsKeyFrameSelector(sel + w + "{");
    if StartsWith(decl, "@charset") {
      PrefixChar(decl, "@charset", 0);
    }
    RulesetLines(sel, w, decl);
  }

  lemma ClosingLine(line: string, pos: nat)
    requires line == "}"
    ensures GetToken(line, pos) == [Token(BraceClose, "}", Line(pos + 1))]
  {
    assert EndsWith(line, '}');
  }

  /** The stream of three logical lines is their groups in order. */
  lemma ThreeLines(x: string, y: string, z: string)
    ensures TokensOfLines([x, y, z]) == GetToken(x, 0) + GetToken(y, 1) + GetToken(z, 2)
  {
    FlattenThree(Groups([x, y, z]));
  }

  lemma ThreeGroups(a: seq<Token>, b: seq<Token>, c: seq<Token>)
    requires |a| == 2 && |b| == 1 && |c| == 1
    ensures a + b + c == [a[0], a[1], b[0], c[0]]
  {
  }

  lemma FlattenThree(gs: seq<seq<Token>>)
    requires |gs| == 3
    ensures Flatten(gs) == gs[0] + gs[1] + gs[2]
  {
    var one, two := gs[..1], gs[..2];
    assert one[..0] == [] && one[0] == gs[0];
    assert Flatten(one) == gs[0];
    assert two[..1] == one && two[1] == gs[1];
    assert Flatten(two) == gs[0] + gs[1];
    assert gs[..2] == two;
  }

  /** The same stream makes one ruleset: the selector and its declaration. */
  lemma GroupedRulesetRecords(ts: seq<Token>)
    requires ts == [
      Token(Selector, "h1,h2,h3", Line(1)),
      Token(BraceOpen, "{", LineCol(1, 10)),
      Token(Declaration, "color: aliceblue;", Line(2)),
      Token(BraceClose, "}", Line(3))]
    ensures Records(ts) == [Ruleset(Some("h1,h2,h3"), Some(["color: aliceblue;"]))]
  {
    var open := ts[0];
    var body := ts[1..3];
    var close := ts[3];
    assert ts == [open] + body + [close];
    var first := body[..1];
    assert first[..0] == [] && first[0] == body[0];
    assert Texts(first, Declaration) == [];
    assert LastSelector(open.text, first) == open.text;
    assert Texts(body, Declaration) == ["color: aliceblue;"];
    assert LastSelector(open.text, body) == open.text;
    BlockGroups([], open, body, close);
  }
}
