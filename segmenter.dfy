/** The segmentation chain of `process` (src/lexer.js:41-45): split the
    formatted text after every `{`, `;` or `}` that ends a physical line,
    drop the blank chunks, and fold each chunk's physical lines into one
    logical line. */
module Segmenter {
  import opened Text
  import opened Tokens

  /** The split marker the source appends after each line-final terminator. */
  const Marker: char := '\U{1F439}'

  /** What the split relies on: the marker never occurs in the text, and
      `'\n'` is its only line terminator (so `$` under the `m` flag means
      "before a `'\n'` or at the end"). Every character is also in the
      Basic Multilingual Plane, so that each one is a single UTF-16 code
      unit and a column counted here is the column JavaScript reports. */
  predicate Clean(f: string)
  {
    && Marker !in f && '\r' !in f && '\U{2028}' !in f && '\U{2029}' !in f
    && forall c | c in f :: c <= '\U{FFFF}'
  }

  predicate IsTerminal(c: char)
  {
    c == '{' || c == ';' || c == '}'
  }

  /** Position `k` is a split point: the character before it is a terminal
      that ends a physical line. */
  predicate CutAt(s: string, k: int)
  {
    1 <= k <= |s| && IsTerminal(s[k - 1]) && (k == |s| || s[k] == '\n')
  }

  function NextCut(s: string, from: nat): (r: Option<nat>)
    requires 1 <= from
    decreases |s| + 1 - from
    ensures r.Some? ==> from <= r.value <= |s| && CutAt(s, r.value)
    ensures r.Some? ==> forall k | from <= k < r.value :: !CutAt(s, k)
    ensures r.None? ==> forall k | from <= k :: !CutAt(s, k)
  {
    if from > |s| then None
    else if CutAt(s, from) then Some(from)
    else NextCut(s, from + 1)
  }

  /** `replace(/{$|;$|}$/gm, '$&🐹').split('🐹')` without the marker: cut
      after every split point. */
  function Chunks(s: string): (r: seq<string>)
    decreases |s|
    ensures |r| >= 1
  {
    match NextCut(s, 1)
    case None => [s]
    case Some(k) => [s[..k]] + Chunks(s[k..])
  }

  /** The chunks join back to the text. */
  lemma {:induction false} ChunksJoin(s: string)
    decreases |s|
    ensures Concat(Chunks(s)) == s
  {
    match NextCut(s, 1)
    case None =>
    case Some(k) =>
      ChunksJoin(s[k..]);
      assert ([s[..k]] + Chunks(s[k..]))[1..] == Chunks(s[k..]);
      assert s == s[..k] + s[k..];
  }

  /** Every chunk but the last ends in a terminal, every chunk after the
      first starts with a newline or is empty, and the first chunk is a
      prefix of the text. */
  lemma {:induction false} ChunksEnds(s: string)
    decreases |s|
    ensures var r := Chunks(s);
      r[0] == s[..|r[0]|]
      && (forall i | 0 <= i < |r| - 1 :: r[i] != [] && IsTerminal(r[i][|r[i]| - 1]))
      && (forall i | 1 <= i < |r| :: r[i] == [] || r[i][0] == '\n')
  {
    match NextCut(s, 1)
    case None =>
    case Some(k) =>
      var rest := Chunks(s[k..]);
      ChunksEnds(s[k..]);
      assert rest[0] == [] || rest[0][0] == s[k] == '\n';
      assert ([s[..k]] + rest)[1..] == rest;
  }

  /** No chunk holds a split point, except at its own end when a chunk
      follows it. */
  lemma {:induction false} ChunksUncut(s: string)
    decreases |s|
    ensures forall i, k | 0 <= i < |Chunks(s)| && 1 <= k <= |Chunks(s)[i]| ::
      !CutAt(Chunks(s)[i], k) || (k == |Chunks(s)[i]| && i < |Chunks(s)| - 1)
  {
    match NextCut(s, 1)
    case None =>
    case Some(k) =>
      var head, rest := s[..k], Chunks(s[k..]);
      ChunksUncut(s[k..]);
      assert s == head + s[k..];
      forall k' | 1 <= k' < k ensures !CutAt(head, k') {
        if CutAt(head, k') { assert CutAt(s, k'); }
      }
      var r := [head] + rest;
      forall i, k' | 0 <= i < |r| && 1 <= k' <= |r[i]|
        ensures !CutAt(r[i], k') || (k' == |r[i]| && i < |r| - 1)
      {
        if i > 0 {
          assert r[i] == rest[i - 1];
          assert !CutAt(rest[i - 1], k') || (k' == |rest[i - 1]| && i - 1 < |rest| - 1);
        } else if k' < k {
          assert !CutAt(head, k');
        }
      }
  }

  /** The first split point at or after `from` is found. */
  lemma {:induction false} FirstCut(s: string, from: nat, k: nat)
    requires 1 <= from <= k && CutAt(s, k)
    requires forall j | from <= j < k :: !CutAt(s, j)
    ensures NextCut(s, from) == Some(k)
    decreases k - from
  {
    if from < k {
      FirstCut(s, from + 1, k);
    }
  }

  /** Text is cut right after its first split point, whatever terminals
      sit inside lines before it, and the rest is cut the same way. */
  lemma ChunksCut(s: string, k: nat)
    requires CutAt(s, k)
    requires forall j | 1 <= j < k :: !CutAt(s, j)
    ensures Chunks(s) == [s[..k]] + Chunks(s[k..])
  {
    FirstCut(s, 1, k);
  }

  /** A first chunk `h`, ending in its only terminal, followed by text that
      starts a new physical line, is split off whole. */
  lemma ChunksAfter(h: string, t: string)
    requires h != [] && IsTerminal(h[|h| - 1]) && (t == [] || t[0] == '\n')
    requires forall i | 0 <= i < |h| - 1 :: !IsTerminal(h[i])
    ensures Chunks(h + t) == [h] + Chunks(t)
  {
    assert (h + t)[..|h|] == h && (h + t)[|h|..] == t;
    ChunksCut(h + t, |h|);
  }

  /** Text with no terminal is one chunk. */
  lemma ChunksNoTerminal(s: string)
    requires forall i | 0 <= i < |s| :: !IsTerminal(s[i])
    ensures Chunks(s) == [s]
  {
  }

  /** `chunk.replace(/\n\s+|\n/gm, '')`: each newline goes, together with
      the whitespace run that follows it. */
  function Collapse(c: string): (r: string)
    decreases |c|
    ensures |r| <= |c|
  {
    if c == [] then []
    else if c[0] == '\n' then Collapse(c[SpaceRun(c[1..]) + 1..])
    else [c[0]] + Collapse(c[1..])
  }

  /** The folded chunk has no newline, loses only whitespace, and holds no
      character the chunk did not. */
  lemma {:induction false} CollapseFolds(c: string)
    ensures '\n' !in Collapse(c)
    ensures NonSpace(Collapse(c)) == NonSpace(c)
    ensures forall ch | ch in Collapse(c) :: ch in c
    decreases |c|
  {
    if c == [] {
    } else if c[0] == '\n' {
      var n := SpaceRun(c[1..]);
      assert c[..n + 1] == [c[0]] + c[1..][..n];
      NonSpaceSkip(c, n + 1);
      CollapseFolds(c[n + 1..]);
    } else {
      assert c == [c[0]] + c[1..];
      CollapseFolds(c[1..]);
      NonSpaceAppend([c[0]], c[1..]);
      NonSpaceAppend([c[0]], Collapse(c[1..]));
    }
  }

  /** Only a newline and the whitespace run right after it go: the text
      before the newline is kept as it is. */
  lemma {:induction false} CollapseNewline(a: string, w: string, b: string)
    requires '\n' !in a && AllSpace(w) && (b == [] || !IsSpace(b[0]))
    ensures Collapse(a + "\n" + w + b) == a + Collapse(b)
    decreases |a|
  {
    if a == [] {
      assert a + "\n" + w + b == "\n" + w + b;
      CollapseAtNewline(w, b);
    } else {
      var c := a + "\n" + w + b;
      assert c[1..] == a[1..] + "\n" + w + b;
      CollapseNewline(a[1..], w, b);
      CollapseKeepsFirst(c);
      assert [a[0]] + (a[1..] + Collapse(b)) == a + Collapse(b);
    }
  }

  lemma CollapseAtNewline(w: string, b: string)
    requires AllSpace(w) && (b == [] || !IsSpace(b[0]))
    ensures Collapse("\n" + w + b) == Collapse(b)
  {
    var c := "\n" + w + b;
    assert c[1..] == w + b;
    SpaceRunStops(w, b);
    assert c[|w| + 1..] == b;
  }

  lemma CollapseKeepsFirst(c: string)
    requires c != [] && c[0] != '\n'
    ensures Collapse(c) == [c[0]] + Collapse(c[1..])
  {
  }

  /** `filter(chunk => chunk.trim() !== '')`. */
  function Kept(cs: seq<string>): (r: seq<string>)
    ensures |r| <= |cs|
  {
    if cs == [] then []
    else if AllSpace(cs[0]) then Kept(cs[1..])
    else [cs[0]] + Kept(cs[1..])
  }

  /** The filter keeps exactly the chunks that are not whitespace only, and
      loses no non-whitespace text. */
  lemma {:induction false} KeptFilters(cs: seq<string>)
    ensures forall i | 0 <= i < |Kept(cs)| :: !AllSpace(Kept(cs)[i])
    ensures forall c :: c in Kept(cs) <==> c in cs && !AllSpace(c)
    ensures NonSpace(Concat(Kept(cs))) == NonSpace(Concat(cs))
  {
    if cs != [] {
      KeptFilters(cs[1..]);
      assert cs == [cs[0]] + cs[1..];
      NonSpaceAppend(cs[0], Concat(cs[1..]));
      if AllSpace(cs[0]) {
        NonSpaceEmpty(cs[0]);
      } else {
        var rest := Kept(cs[1..]);
        assert ([cs[0]] + rest)[1..] == rest;
        NonSpaceAppend(cs[0], Concat(rest));
      }
    }
  }

  /** A single chunk is kept exactly when it is not whitespace only. */
  lemma KeptSingle(c: string)
    ensures Kept([c]) == if AllSpace(c) then [] else [c]
  {
    assert [c][1..] == [];
  }

  /** The filter keeps order and multiplicity: it distributes over
      concatenation. */
  lemma {:induction false} KeptAppend(a: seq<string>, b: seq<string>)
    ensures Kept(a + b) == Kept(a) + Kept(b)
  {
    if a == [] {
      assert a + b == b;
    } else {
      assert (a + b)[0] == a[0] && (a + b)[1..] == a[1..] + b;
      KeptAppend(a[1..], b);
      if !AllSpace(a[0]) {
        assert [a[0]] + (Kept(a[1..]) + Kept(b)) == ([a[0]] + Kept(a[1..])) + Kept(b);
      }
    }
  }

  /** The logical lines of formatted text, numbered by their index. */
  function Lines(f: string): (r: seq<string>)
  {
    var kept := Kept(Chunks(f));
    seq(|kept|, i requires 0 <= i < |kept| => Collapse(kept[i]))
  }

  /** Every logical line is non-blank and free of newlines, and of every
      other line terminator when the text is clean (src/lexer.js:41-45). */
  lemma LinesAreLogical(f: string)
    ensures forall i | 0 <= i < |Lines(f)| :: '\n' !in Lines(f)[i] && !AllSpace(Lines(f)[i])
    ensures Clean(f) ==> forall i | 0 <= i < |Lines(f)| :: IsLogicalLine(Lines(f)[i])
  {
    var chunks := Chunks(f);
    var kept := Kept(chunks);
    var ls := Lines(f);
    ChunksJoin(f);
    KeptFilters(chunks);
    forall i | 0 <= i < |ls|
      ensures '\n' !in ls[i] && !AllSpace(ls[i])
      ensures forall ch | ch in ls[i] :: ch in f
    {
      CollapseFolds(kept[i]);
      NonSpaceEmpty(kept[i]);
      NonSpaceEmpty(ls[i]);
      forall ch | ch in ls[i] ensures ch in f {
        var j :| 0 <= j < |chunks| && chunks[j] == kept[i];
        ConcatContains(chunks, j, ch);
      }
    }
  }

  lemma {:induction false} NonSpaceOfCollapsed(cs: seq<string>)
    ensures NonSpace(Concat(seq(|cs|, i requires 0 <= i < |cs| => Collapse(cs[i]))))
         == NonSpace(Concat(cs))
  {
    var ls := seq(|cs|, i requires 0 <= i < |cs| => Collapse(cs[i]));
    if cs != [] {
      NonSpaceOfCollapsed(cs[1..]);
      CollapseFolds(cs[0]);
      assert ls[1..] == seq(|cs[1..]|, i requires 0 <= i < |cs[1..]| => Collapse(cs[1..][i]));
      NonSpaceAppend(ls[0], Concat(ls[1..]));
      NonSpaceAppend(cs[0], Concat(cs[1..]));
    }
  }

  /** Segmentation loses only whitespace: the non-whitespace characters of
      the logical lines, read in order, are those of the formatted text. */
  lemma SegmentationKeepsText(f: string)
    ensures NonSpace(Concat(Lines(f))) == NonSpace(f)
  {
    ChunksJoin(f);
    KeptFilters(Chunks(f));
    NonSpaceOfCollapsed(Kept(Chunks(f)));
  }

  /** Blank formatted text has no logical lines. */
  lemma BlankTextHasNoLines(f: string)
    requires AllSpace(f)
    ensures Lines(f) == []
  {
    var kept := Kept(Chunks(f));
    ChunksJoin(f);
    KeptFilters(Chunks(f));
    NonSpaceEmpty(f);
    if kept != [] {
      NonSpaceAppend(kept[0], Concat(kept[1..]));
      NonSpaceEmpty(kept[0]);
    }
  }

  /** A chunk with no newline is its own logical line. */
  lemma {:induction false} CollapseKeepsSingleLine(c: string)
    requires '\n' !in c
    ensures Collapse(c) == c
  {
    if c != [] {
      assert '\n' !in c[1..];
      CollapseKeepsSingleLine(c[1..]);
    }
  }
}
