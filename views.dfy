/** The views `tokenize` offers over a token stream (src/index.js:13-56):
    filters by kind, and the grouping of selectors and their declarations
    into rulesets. */
module Views {
  import opened Tokens

  /** `tokens.filter(([type]) => type === k)`: the tokens of kind `k`, in
      stream order. */
  function OfKind(ts: seq<Token>, k: Kind): (r: seq<Token>)
    ensures |r| <= |ts|
  {
    if ts == [] then []
    else (if ts[0].kind == k then [ts[0]] else []) + OfKind(ts[1..], k)
  }

  /** The view holds exactly the tokens of its kind. */
  lemma {:induction false} OfKindMembers(ts: seq<Token>, k: Kind)
    ensures forall t :: t in OfKind(ts, k) <==> t in ts && t.kind == k
  {
    if ts != [] {
      OfKindMembers(ts[1..], k);
      assert ts == [ts[0]] + ts[1..];
    }
  }

  /** `selectors()` (src/index.js:17-19). */
  function Selectors(ts: seq<Token>): (r: seq<Token>)
    ensures forall t :: t in r <==> t in ts && t.kind == Selector
  {
    OfKindMembers(ts, Selector);
    OfKind(ts, Selector)
  }

  /** `declarations()` (src/index.js:20-22). */
  function Declarations(ts: seq<Token>): (r: seq<Token>)
    ensures forall t :: t in r <==> t in ts && t.kind == Declaration
  {
    OfKindMembers(ts, Declaration);
    OfKind(ts, Declaration)
  }

  /** `mediaQueries()` (src/index.js:23-25). */
  function MediaQueries(ts: seq<Token>): (r: seq<Token>)
    ensures forall t :: t in r <==> t in ts && t.kind == MediaQuery
  {
    OfKindMembers(ts, MediaQuery);
    OfKind(ts, MediaQuery)
  }

  /** Filtering keeps stream order: the view of a concatenation is the
      concatenation of the views. */
  lemma {:induction false} OfKindAppend(a: seq<Token>, b: seq<Token>, k: Kind)
    ensures OfKind(a + b, k) == OfKind(a, k) + OfKind(b, k)
  {
    if a == [] {
      assert a + b == b;
    } else {
      var x, rest := a[0], a[1..];
      assert a == [x] + rest;
      assert a + b == [x] + (rest + b);
      OfKindAppend(rest, b, k);
      OfKindCons(x, rest, k);
      OfKindCons(x, rest + b, k);
    }
  }

  lemma OfKindCons(x: Token, ts: seq<Token>, k: Kind)
    ensures OfKind([x] + ts, k) == (if x.kind == k then [x] else []) + OfKind(ts, k)
  {
    assert ([x] + ts)[1..] == ts;
  }

  /** A view holds only its own kind, so filtering it again changes nothing. */
  lemma {:induction false} OfKindIdempotent(ts: seq<Token>, k: Kind)
    ensures OfKind(OfKind(ts, k), k) == OfKind(ts, k)
  {
    if ts != [] {
      var head := if ts[0].kind == k then [ts[0]] else [];
      OfKindIdempotent(ts[1..], k);
      OfKindAppend(head, OfKind(ts[1..], k), k);
    }
  }

  // Ruleset grouping (src/index.js:27-56)

  /** The `ruleset` Map: a `selector` key and a `declarations` key, each
      possibly absent. */
  datatype Ruleset = Ruleset(selector: Option<string>, declarations: Option<seq<string>>)

  const NoRuleset := Ruleset(None, None)

  /** `ruleset.size !== 0`. */
  predicate NonEmpty(r: Ruleset)
  {
    r.selector.Some? || r.declarations.Some?
  }

  /** What every emitted record looks like: a selector, and a declarations
      list only when it has at least one entry. */
  predicate WellFormed(r: Ruleset)
  {
    r.selector.Some? && (r.declarations.Some? ==> |r.declarations.value| >= 1)
  }

  /** The state of the fold: the Map being filled and the records pushed. */
  datatype Grouping = Grouping(current: Ruleset, emitted: seq<Ruleset>)

  const Start := Grouping(NoRuleset, [])

  /** One step of the `reduce`. Tokens other than selectors, declarations
      and closing braces are the ones the `filter` drops. */
  function Step(g: Grouping, t: Token): (r: Grouping)
    ensures |r.emitted| > |g.emitted| ==> t.kind == BraceClose && NonEmpty(g.current)
    ensures t.kind == BraceClose ==> r.current == NoRuleset
    ensures t.kind != BraceClose ==> r.emitted == g.emitted
  {
    match t.kind
    case Selector =>
      g.(current := g.current.(selector := Some(t.text)))
    case Declaration =>
      if g.current.selector.None? then g
      else if g.current.declarations.Some? then
        g.(current := g.current.(declarations := Some(g.current.declarations.value + [t.text])))
      else
        g.(current := g.current.(declarations := Some([t.text])))
    case BraceClose =>
      if NonEmpty(g.current) then Grouping(NoRuleset, g.emitted + [g.current])
      else Grouping(NoRuleset, g.emitted)
    case _ => g
  }

  /** The fold of `Step` over `ts`, from `g`. */
  function RunFrom(g: Grouping, ts: seq<Token>): Grouping
  {
    if ts == [] then g else Step(RunFrom(g, ts[..|ts| - 1]), ts[|ts| - 1])
  }

  lemma {:induction false} RunFromAppend(g: Grouping, a: seq<Token>, b: seq<Token>)
    ensures RunFrom(g, a + b) == RunFrom(RunFrom(g, a), b)
    decreases |b|
  {
    if b == [] {
      assert a + b == a;
    } else {
      var n := |b| - 1;
      assert (a + b)[..|a| + n] == a + b[..n];
      RunFromAppend(g, a, b[..n]);
    }
  }

  /** The Map's invariant: declarations are recorded only under a selector,
      and their list is never empty. */
  predicate Consistent(r: Ruleset)
  {
    r.declarations.Some? ==> r.selector.Some? && |r.declarations.value| >= 1
  }

  /** The fold keeps the Map consistent, only appends records, emits only
      well-formed ones, and emits at most one per closing brace. */
  lemma {:induction false} RunKeepsConsistent(g: Grouping, ts: seq<Token>)
    requires Consistent(g.current) && forall r | r in g.emitted :: WellFormed(r)
    ensures var h := RunFrom(g, ts);
      Consistent(h.current) && (forall r | r in h.emitted :: WellFormed(r))
      && |g.emitted| <= |h.emitted| <= |g.emitted| + |OfKind(ts, BraceClose)|
      && h.emitted[..|g.emitted|] == g.emitted
  {
    if ts != [] {
      var n := |ts| - 1;
      RunKeepsConsistent(g, ts[..n]);
      var h := RunFrom(g, ts[..n]);
      StepKeepsConsistent(h, ts[n]);
      assert ts == ts[..n] + [ts[n]];
      OfKindAppend(ts[..n], [ts[n]], BraceClose);
      var h' := Step(h, ts[n]);
      assert h'.emitted[..|g.emitted|] == h'.emitted[..|h.emitted|][..|g.emitted|];
    }
  }

  lemma StepKeepsConsistent(h: Grouping, t: Token)
    requires Consistent(h.current) && forall r | r in h.emitted :: WellFormed(r)
    ensures var h' := Step(h, t);
      Consistent(h'.current) && (forall r | r in h'.emitted :: WellFormed(r))
      && |h.emitted| <= |h'.emitted| <= |h.emitted| + |OfKind([t], BraceClose)|
      && h'.emitted[..|h.emitted|] == h.emitted
  {
    assert [t][1..] == [];
  }

  /** The records of a token stream. */
  function Records(ts: seq<Token>): seq<Ruleset>
  {
    RunFrom(Start, ts).emitted
  }

  /** `rulesets()`: the fold written as a loop over explicit state, the
      selector and the declarations list standing for the Map's two keys. */
  method Rulesets(ts: seq<Token>) returns (records: seq<Ruleset>)
    ensures records == Records(ts)
    ensures forall r | r in records :: WellFormed(r)
    ensures |records| <= |OfKind(ts, BraceClose)|
  {
    var selector: Option<string> := None;
    var declarations: Option<seq<string>> := None;
    records := [];
    for i := 0 to |ts|
      invariant Grouping(Ruleset(selector, declarations), records) == RunFrom(Start, ts[..i])
    {
      var t := ts[i];
      assert ts[..i + 1][..i] == ts[..i];
      if t.kind == Selector {
        selector := Some(t.text);
      } else if t.kind == Declaration {
        if selector.Some? {
          if declarations.Some? {
            declarations := Some(declarations.value + [t.text]);
          } else {
            declarations := Some([t.text]);
          }
        }
      } else if t.kind == BraceClose {
        if selector.Some? || declarations.Some? {
          records := records + [Ruleset(selector, declarations)];
          selector, declarations := None, None;
        } else {
          selector, declarations := None, None;
        }
      }
    }
    assert ts[..|ts|] == ts;
    RunKeepsConsistent(Start, ts);
  }

  /** The texts of the tokens of kind `k`, in stream order. */
  function Texts(ts: seq<Token>, k: Kind): seq<string>
  {
    if ts == [] then []
    else Texts(ts[..|ts| - 1], k) + (if ts[|ts| - 1].kind == k then [ts[|ts| - 1].text] else [])
  }

  /** The text of the last selector token of `ts`, or `s` if it has none. */
  function LastSelector(s: string, ts: seq<Token>): string
  {
    if ts == [] then s
    else if ts[|ts| - 1].kind == Selector then ts[|ts| - 1].text
    else LastSelector(s, ts[..|ts| - 1])
  }

  function Listed(ds: seq<string>): Option<seq<string>>
  {
    if ds == [] then None else Some(ds)
  }

  /** Inside a selector's block, a later selector replaces the earlier one,
      the declarations accumulate in stream order, and the other tokens the
      filter drops change nothing. */
  lemma {:induction false} InsideBlock(e: seq<Ruleset>, s: Token, body: seq<Token>)
    requires s.kind == Selector
    requires forall t | t in body :: t.kind != BraceClose
    ensures RunFrom(Grouping(NoRuleset, e), [s] + body) ==
      Grouping(Ruleset(Some(LastSelector(s.text, body)), Listed(Texts(body, Declaration))), e)
    decreases |body|
  {
    if body == [] {
      assert [s] + body == [s];
      assert [s][..0] == [];
    } else {
      var n := |body| - 1;
      var sb := [s] + body;
      assert sb[..|sb| - 1] == [s] + body[..n] && sb[|sb| - 1] == body[n];
      assert body[n] in body;
      assert forall t | t in body[..n] :: t in body;
      InsideBlock(e, s, body[..n]);
      var t := body[n];
      var ds := Texts(body[..n], Declaration);
      assert RunFrom(Grouping(NoRuleset, e), sb)
        == Step(Grouping(Ruleset(Some(LastSelector(s.text, body[..n])), Listed(ds)), e), t);
      if t.kind == Selector {
        assert LastSelector(s.text, body) == t.text;
        assert ds + [] == ds;
        assert Texts(body, Declaration) == ds;
      } else if t.kind == Declaration {
        assert LastSelector(s.text, body) == LastSelector(s.text, body[..n]);
        assert Texts(body, Declaration) == ds + [t.text];
        assert ds == [] ==> ds + [t.text] == [t.text];
      } else {
        assert LastSelector(s.text, body) == LastSelector(s.text, body[..n]);
        assert ds + [] == ds;
        assert Texts(body, Declaration) == ds;
      }
    }
  }

  /** A selector, then tokens other than `}`, then `}`: one record, with the
      last selector and every declaration in order, the `declarations` key
      absent when there are none; the Map starts over. */
  lemma BlockGroups(e: seq<Ruleset>, s: Token, body: seq<Token>, close: Token)
    requires s.kind == Selector && close.kind == BraceClose
    requires forall t | t in body :: t.kind != BraceClose
    ensures RunFrom(Grouping(NoRuleset, e), [s] + body + [close]) ==
      Grouping(NoRuleset,
        e + [Ruleset(Some(LastSelector(s.text, body)), Listed(Texts(body, Declaration)))])
  {
    InsideBlock(e, s, body);
    RunFromAppend(Grouping(NoRuleset, e), [s] + body, [close]);
    assert RunFrom(RunFrom(Grouping(NoRuleset, e), [s] + body), [close])
      == Step(RunFrom(Grouping(NoRuleset, e), [s] + body), close) by {
      assert [close][..0] == [];
    }
  }

  /** Tokens without a selector, from an empty Map, change nothing:
      declarations with no selector are dropped, and a `}` closing an
      at-rule or a keyframe block emits no record. */
  lemma {:induction false} NoSelectorNoRecord(e: seq<Ruleset>, ts: seq<Token>)
    requires forall t | t in ts :: t.kind != Selector
    ensures RunFrom(Grouping(NoRuleset, e), ts) == Grouping(NoRuleset, e)
  {
    if ts != [] {
      var n := |ts| - 1;
      assert ts[n] in ts;
      assert forall t | t in ts[..n] :: t in ts;
      NoSelectorNoRecord(e, ts[..n]);
    }
  }
}
