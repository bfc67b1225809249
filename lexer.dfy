/** `process` (src/lexer.js:39-58): strip comments, format, cut the result
    into logical lines and classify each line, appending its tokens to one
    stream in line order. */
module Lexer {
  import opened Text
  import opened Tokens
  import opened Comments
  import opened Segmenter
  import opened Classifier

  /** The tokens of each logical line, the line at index `n` numbered
      `n + 1`. */
  function Groups(ls: seq<string>): (gs: seq<seq<Token>>)
    ensures |gs| == |ls|
    ensures forall n | 0 <= n < |ls| :: gs[n] == GetToken(ls[n], n)
  {
    seq(|ls|, n requires 0 <= n < |ls| => GetToken(ls[n], n))
  }

  /** Each group has at most two tokens, all numbered after its line. */
  predicate Numbered(gs: seq<seq<Token>>)
  {
    forall n | 0 <= n < |gs| :: |gs[n]| <= 2 && forall t | t in gs[n] :: t.pos.line == n + 1
  }

  /** What the classifier guarantees about the group of `line` beyond its
      numbering: a pair is a block opener and the `{` of `line`; a single
      token is neither. */
  predicate GroupShape(g: seq<Token>, line: string, n: nat)
  {
    (|g| == 2 ==>
      OpensBlock(g[0].kind) && g[1] == Token(BraceOpen, "{", LineCol(n + 1, Column(line))))
    && (|g| == 1 ==> g[0].kind != BraceOpen && !OpensBlock(g[0].kind))
  }

  predicate Shaped(gs: seq<seq<Token>>, ls: seq<string>)
  {
    |gs| == |ls| && forall n | 0 <= n < |gs| :: GroupShape(gs[n], ls[n], n)
  }

  lemma GroupsShaped(ls: seq<string>)
    ensures Numbered(Groups(ls)) && Shaped(Groups(ls), ls)
  {
  }

  lemma NumberedPrefix(gs: seq<seq<Token>>, m: nat)
    requires Numbered(gs) && m <= |gs|
    ensures Numbered(gs[..m])
  {
    assert forall n | 0 <= n < m :: gs[..m][n] == gs[n];
  }

  /** The groups one after the other. */
  function Flatten(gs: seq<seq<Token>>): seq<Token>
  {
    if gs == [] then [] else Flatten(gs[..|gs| - 1]) + gs[|gs| - 1]
  }

  /** The stream `process` builds from the logical lines `ls`: the tokens of
      each line, line after line, at most two per line, each numbered with
      one of the lines. */
  function TokensOfLines(ls: seq<string>): (r: seq<Token>)
    ensures |r| <= 2 * |ls|
    ensures forall i | 0 <= i < |r| :: 1 <= r[i].pos.line <= |ls|
  {
    GroupsShaped(ls);
    FlattenBounds(Groups(ls));
    Flatten(Groups(ls))
  }

  /** Tokens appear in line order: numbers never decrease along the stream. */
  lemma LineOrder(ls: seq<string>)
    ensures var r := TokensOfLines(ls);
      forall i, j | 0 <= i < j < |r| :: r[i].pos.line <= r[j].pos.line
  {
    GroupsShaped(ls);
    FlattenOrdered(Groups(ls));
    assert TokensOfLines(ls) == Flatten(Groups(ls));
  }

  lemma {:induction false} FlattenBounds(gs: seq<seq<Token>>)
    requires Numbered(gs)
    ensures var r := Flatten(gs);
      |r| <= 2 * |gs| && forall i | 0 <= i < |r| :: 1 <= r[i].pos.line <= |gs|
  {
    if gs != [] {
      var m := |gs| - 1;
      NumberedPrefix(gs, m);
      FlattenBounds(gs[..m]);
      var prefix: seq<Token>, last: seq<Token> := Flatten(gs[..m]), gs[m];
      forall i | 0 <= i < |prefix + last|
        ensures 1 <= (prefix + last)[i].pos.line <= m + 1
      {
        if i < |prefix| {
          assert (prefix + last)[i] == prefix[i];
        } else {
          assert (prefix + last)[i] == last[i - |prefix|];
          assert last[i - |prefix|] in last;
        }
      }
    }
  }

  lemma {:induction false} FlattenOrdered(gs: seq<seq<Token>>)
    requires Numbered(gs)
    ensures var r := Flatten(gs);
      forall i, j | 0 <= i < j < |r| :: r[i].pos.line <= r[j].pos.line
  {
    if gs != [] {
      var m := |gs| - 1;
      NumberedPrefix(gs, m);
      FlattenOrdered(gs[..m]);
      FlattenBounds(gs[..m]);
      FlattenBounds(gs);
      var prefix: seq<Token>, last: seq<Token> := Flatten(gs[..m]), gs[m];
      var r := prefix + last;
      forall i, j | 0 <= i < j < |r| ensures r[i].pos.line <= r[j].pos.line {
        if j >= |prefix| {
          assert r[j] == last[j - |prefix|];
          assert last[j - |prefix|] in last;
          if i < |prefix| {
            assert r[i] == prefix[i];
          }
        } else {
          assert r[i] == prefix[i] && r[j] == prefix[j];
        }
      }
    }
  }

  /** The tokens of formatted text. */
  function Lex(formatted: string): seq<Token>
  {
    TokensOfLines(Lines(formatted))
  }

  /** `process(CSS)` with the formatter passed in as `format`: `None` stands
      for the formatter's rejection, which `process` reports as "Invalid CSS
      found". The formatted text is cut and classified line by line, each
      line's tokens appended to the stream. */
  method Process(css: string, format: string -> Option<string>) returns (r: Result<seq<Token>>)
    requires format(StripComments(css)).Some? ==> Clean(format(StripComments(css)).value)
    ensures format(StripComments(css)).None? ==> r == Failure(InvalidCss)
    ensures format(StripComments(css)).Some? ==> r == Success(Lex(format(StripComments(css)).value))
  {
    var formatted := format(StripComments(css));
    if formatted.None? {
      return Failure(InvalidCss);
    }
    var text := formatted.value;
    var chunks := Kept(Chunks(text));
    ghost var groups := Groups(Lines(text));
    var arr: seq<Token> := [];
    for pos := 0 to |chunks|
      invariant arr == Flatten(groups[..pos])
    {
      var token := GetToken(Collapse(chunks[pos]), pos);
      GroupOfChunk(text, pos);
      arr := arr + token;
    }
    LexFlattens(text, |chunks|);
    return Success(arr);
  }

  /** The group of logical line `pos` is the tokens of its collapsed chunk,
      appended after those of the lines before it. */
  lemma GroupOfChunk(text: string, pos: nat)
    requires pos < |Kept(Chunks(text))|
    ensures var gs := Groups(Lines(text));
      pos < |gs| && gs[pos] == GetToken(Collapse(Kept(Chunks(text))[pos]), pos)
      && Flatten(gs[..pos + 1]) == Flatten(gs[..pos]) + gs[pos]
  {
    var gs := Groups(Lines(text));
    assert gs[..pos + 1][..pos] == gs[..pos];
  }

  lemma LexFlattens(text: string, n: nat)
    requires n == |Kept(Chunks(text))|
    ensures Flatten(Groups(Lines(text))[..n]) == Lex(text)
  {
    var gs := Groups(Lines(text));
    assert gs[..n] == gs;
  }

  /** The tokens of `ts` numbered `k`, in order. */
  function OnLine(ts: seq<Token>, k: nat): seq<Token>
  {
    if ts == [] then []
    else (if ts[0].pos.line == k then [ts[0]] else []) + OnLine(ts[1..], k)
  }

  lemma {:induction false} OnLineAppend(a: seq<Token>, b: seq<Token>, k: nat)
    ensures OnLine(a + b, k) == OnLine(a, k) + OnLine(b, k)
  {
    if a == [] {
      assert a + b == b;
    } else {
      var h := if a[0].pos.line == k then [a[0]] else [];
      assert (a + b)[0] == a[0] && (a + b)[1..] == a[1..] + b;
      OnLineAppend(a[1..], b, k);
      assert OnLine(a + b, k) == h + OnLine(a[1..] + b, k);
    }
  }

  lemma {:induction false} OnLineAll(ts: seq<Token>, k: nat)
    requires forall t | t in ts :: t.pos.line == k
    ensures OnLine(ts, k) == ts
  {
    if ts != [] {
      OnLineAll(ts[1..], k);
    }
  }

  lemma {:induction false} OnLineNone(ts: seq<Token>, k: nat)
    requires forall t | t in ts :: t.pos.line != k
    ensures OnLine(ts, k) == []
  {
    if ts != [] {
      assert ts[0] in ts;
      assert forall t | t in ts[1..] :: t in ts;
      OnLineNone(ts[1..], k);
    }
  }

  /** `OnLine` keeps exactly the tokens with that number. */
  lemma {:induction false} OnLineMembers(ts: seq<Token>, k: nat)
    ensures forall t :: t in OnLine(ts, k) <==> t in ts && t.pos.line == k
  {
    if ts != [] {
      OnLineMembers(ts[1..], k);
      assert ts == [ts[0]] + ts[1..];
    }
  }

  lemma BeforeLastLine(prefix: seq<Token>, m: nat)
    requires forall i | 0 <= i < |prefix| :: prefix[i].pos.line <= m
    ensures OnLine(prefix, m + 1) == []
  {
    forall t | t in prefix ensures t.pos.line <= m {
      var i :| 0 <= i < |prefix| && prefix[i] == t;
    }
    OnLineNone(prefix, m + 1);
  }

  /** The tokens numbered `n + 1` are exactly the group of line `n`. */
  lemma {:induction false} FlattenOnLine(gs: seq<seq<Token>>, n: nat)
    requires Numbered(gs) && n < |gs|
    ensures OnLine(Flatten(gs), n + 1) == gs[n]
  {
    var m := |gs| - 1;
    if n == m {
      OnLineOfLast(gs);
    } else {
      OnLineBeforeLast(gs, n);
      NumberedPrefix(gs, m);
      FlattenOnLine(gs[..m], n);
      assert gs[..m][n] == gs[n];
    }
  }

  lemma OnLineOfLast(gs: seq<seq<Token>>)
    requires Numbered(gs) && gs != []
    ensures OnLine(Flatten(gs), |gs|) == gs[|gs| - 1]
  {
    var m := |gs| - 1;
    NumberedPrefix(gs, m);
    FlattenBounds(gs[..m]);
    var prefix: seq<Token>, last: seq<Token> := Flatten(gs[..m]), gs[m];
    OnLineAppend(prefix, last, m + 1);
    BeforeLastLine(prefix, m);
    OnLineAll(last, m + 1);
  }

  lemma OnLineBeforeLast(gs: seq<seq<Token>>, n: nat)
    requires Numbered(gs) && n + 1 < |gs|
    ensures OnLine(Flatten(gs), n + 1) == OnLine(Flatten(gs[..|gs| - 1]), n + 1)
  {
    var m := |gs| - 1;
    var prefix: seq<Token>, last: seq<Token> := Flatten(gs[..m]), gs[m];
    OnLineAppend(prefix, last, n + 1);
    OnLineNone(last, n + 1);
  }

  /** The tokens numbered `n + 1` are exactly what the line at index `n`
      classifies to: every token comes from the line its number names, and a
      line that matches no rule still uses up its number. */
  lemma LineTokens(ls: seq<string>, n: nat)
    requires n < |ls|
    ensures OnLine(TokensOfLines(ls), n + 1) == GetToken(ls[n], n)
  {
    GroupsShaped(ls);
    FlattenOnLine(Groups(ls), n);
  }

  /** A logical line that matches no rule emits nothing, and the lines after
      it keep their numbers. */
  lemma SilentLine(ls: seq<string>, n: nat)
    requires n < |ls| && !Matches(ls[n])
    ensures forall t | t in TokensOfLines(ls) :: t.pos.line != n + 1
  {
    SilentIffNoMatch(ls[n], n);
    LineTokens(ls, n);
    OnLineMembers(TokensOfLines(ls), n + 1);
  }

  /** A line ending in `}` contributes exactly one `}` token, whatever else
      it holds. */
  lemma ClosingLineIsOneBrace(ls: seq<string>, n: nat)
    requires n < |ls| && EndsWith(ls[n], '}')
    ensures OnLine(TokensOfLines(ls), n + 1) == [Token(BraceClose, "}", Line(n + 1))]
  {
    LineTokens(ls, n);
  }

  /** Every construct that opens a block is followed at once by the `{` of
      its own line, at that line's brace column; and every `{` token follows
      such a construct on the same line. */
  lemma BlockOpenersPaired(ls: seq<string>)
    ensures var r := TokensOfLines(ls);
      forall i | 0 <= i < |r| && OpensBlock(r[i].kind) ::
        i + 1 < |r| && r[i + 1] == Token(BraceOpen, "{",
          LineCol(r[i].pos.line, Column(ls[r[i].pos.line - 1])))
    ensures var r := TokensOfLines(ls);
      forall i | 0 <= i < |r| && r[i].kind == BraceOpen ::
        0 < i && OpensBlock(r[i - 1].kind) && r[i - 1].pos.line == r[i].pos.line
  {
    GroupsShaped(ls);
    FlattenPaired(Groups(ls), ls);
  }

  predicate Paired(r: seq<Token>, ls: seq<string>)
  {
    (forall i | 0 <= i < |r| && OpensBlock(r[i].kind) ::
      1 <= r[i].pos.line <= |ls| && i + 1 < |r|
      && r[i + 1] == Token(BraceOpen, "{", LineCol(r[i].pos.line, Column(ls[r[i].pos.line - 1]))))
    && (forall i | 0 <= i < |r| && r[i].kind == BraceOpen ::
      0 < i && OpensBlock(r[i - 1].kind) && r[i - 1].pos.line == r[i].pos.line)
  }

  lemma {:induction false} FlattenPaired(gs: seq<seq<Token>>, ls: seq<string>)
    requires Numbered(gs) && Shaped(gs, ls)
    ensures Paired(Flatten(gs), ls)
  {
    if gs != [] {
      var m := |gs| - 1;
      NumberedPrefix(gs, m);
      assert Shaped(gs[..m], ls[..m]) by {
        assert forall n | 0 <= n < m :: gs[..m][n] == gs[n] && ls[..m][n] == ls[n];
      }
      FlattenPaired(gs[..m], ls[..m]);
      FlattenBounds(gs[..m]);
      var prefix: seq<Token>, last: seq<Token> := Flatten(gs[..m]), gs[m];
      PairedAppend(prefix, last, ls, m);
    }
  }

  lemma PairedAppend(prefix: seq<Token>, last: seq<Token>, ls: seq<string>, m: nat)
    requires m < |ls| && Paired(prefix, ls[..m]) && GroupShape(last, ls[m], m)
    requires |last| <= 2 && forall t | t in last :: t.pos.line == m + 1
    ensures Paired(prefix + last, ls)
  {
    var r := prefix + last;
    forall i | 0 <= i < |r| && OpensBlock(r[i].kind)
      ensures 1 <= r[i].pos.line <= |ls| && i + 1 < |r|
        && r[i + 1] == Token(BraceOpen, "{", LineCol(r[i].pos.line, Column(ls[r[i].pos.line - 1])))
    {
      if i < |prefix| {
        assert r[i] == prefix[i];
        assert ls[..m][prefix[i].pos.line - 1] == ls[prefix[i].pos.line - 1];
      } else {
        assert r[i] == last[i - |prefix|];
        assert last[0] in last;
      }
    }
    forall i | 0 <= i < |r| && r[i].kind == BraceOpen
      ensures 0 < i && OpensBlock(r[i - 1].kind) && r[i - 1].pos.line == r[i].pos.line
    {
      if i < |prefix| {
        assert r[i] == prefix[i];
      } else {
        assert r[i] == last[i - |prefix|];
        assert last[0] in last;
      }
    }
  }

  /** Formatted text that is all whitespace has no tokens. */
  lemma BlankTextHasNoTokens(formatted: string)
    requires AllSpace(formatted)
    ensures Lex(formatted) == []
  {
    BlankTextHasNoLines(formatted);
  }
}
