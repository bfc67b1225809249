/** Comment removal, the first step of `process` (src/lexer.js:40): the
    global replacement of `/\/\*([\s\S]*?)\*\//` by nothing. */
module Comments {
  import opened Tokens

  predicate OpenerAt(s: string, k: int)
  {
    0 <= k && k + 1 < |s| && s[k] == '/' && s[k + 1] == '*'
  }

  predicate CloserAt(s: string, k: int)
  {
    0 <= k && k + 1 < |s| && s[k] == '*' && s[k + 1] == '/'
  }

  /** The start of the first `*` `/` pair at or after `from`: the lazy
      `[\s\S]*?` stops at the earliest closer. */
  function FindCloser(s: string, from: nat): (r: Option<nat>)
    decreases |s| - from
    ensures r.Some? ==> from <= r.value && CloserAt(s, r.value)
    ensures r.Some? ==> forall k | from <= k < r.value :: !CloserAt(s, k)
    ensures r.None? ==> forall k | from <= k :: !CloserAt(s, k)
  {
    if from + 1 >= |s| then None
    else if CloserAt(s, from) then Some(from)
    else FindCloser(s, from + 1)
  }

  /** One left-to-right pass of the global regex: an opener starts a match
      only if a closer follows it (not overlapping it); the match ends at the
      first such closer and scanning resumes after it. An opener with no
      closer is kept as text. */
  function StripComments(s: string): (r: string)
    decreases |s|
    ensures |r| <= |s|
  {
    if OpenerAt(s, 0) then
      match FindCloser(s, 2)
      case Some(j) => StripComments(s[j + 2..])
      case None => [s[0]] + StripComments(s[1..])
    else if s == [] then []
    else [s[0]] + StripComments(s[1..])
  }

  lemma {:induction false} FindCloserFirst(s: string, from: nat, j: nat)
    requires from <= j && CloserAt(s, j)
    requires forall k | from <= k < j :: !CloserAt(s, k)
    ensures FindCloser(s, from) == Some(j)
    decreases j - from
  {
    if from < j {
      FindCloserFirst(s, from + 1, j);
    }
  }

  /** Text without any comment opener comes back unchanged. */
  lemma {:induction false} NoCommentUnchanged(s: string)
    requires forall k :: !OpenerAt(s, k)
    ensures StripComments(s) == s
    decreases |s|
  {
    if s != [] {
      assert !OpenerAt(s, 0);
      forall k ensures !OpenerAt(s[1..], k) {
        if OpenerAt(s[1..], k) {
          assert OpenerAt(s, k + 1);
        }
      }
      NoCommentUnchanged(s[1..]);
    }
  }

  /** The leftmost comment is removed, ending at its first closer, and the
      text before it is kept. */
  lemma {:induction false} StripsFirstComment(a: string, b: string, c: string)
    requires forall k :: !OpenerAt(a, k)
    requires forall k :: !CloserAt(b, k)
    ensures StripComments(a + "/*" + b + "*/" + c) == a + StripComments(c)
    decreases |a|
  {
    var s := a + "/*" + b + "*/" + c;
    if a == [] {
      assert s == "/*" + b + "*/" + c;
      assert OpenerAt(s, 0);
      var j := 2 + |b|;
      assert CloserAt(s, j);
      forall k | 2 <= k < j ensures !CloserAt(s, k) {
        if k + 1 < j {
          assert s[k] == b[k - 2] && s[k + 1] == b[k - 1];
          assert !CloserAt(b, k - 2);
        } else {
          assert s[k + 1] == '*';
        }
      }
      FindCloserFirst(s, 2, j);
      assert s[j + 2..] == c;
    } else {
      assert !OpenerAt(a, 0);
      assert !OpenerAt(s, 0) by {
        if |a| == 1 { assert s[1] == '/'; } else { assert s[..2] == a[..2]; }
      }
      forall k ensures !OpenerAt(a[1..], k) {
        if OpenerAt(a[1..], k) {
          assert OpenerAt(a, k + 1);
        }
      }
      assert s[1..] == a[1..] + "/*" + b + "*/" + c;
      StripsFirstComment(a[1..], b, c);
    }
  }

  /** A stylesheet that is one comment becomes empty (src/lexer.js:40;
      tests/tokens.test.js:250-261). */
  lemma CommentedOutTextVanishes(b: string)
    requires forall k :: !CloserAt(b, k)
    ensures StripComments("/*" + b + "*/") == ""
  {
    StripsFirstComment("", b, "");
    assert "" + "/*" + b + "*/" + "" == "/*" + b + "*/";
  }
}
