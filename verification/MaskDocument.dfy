/** A text seen as literal segments separated by placeholders, and why there is only one such view. */
module MaskDocument {
  import opened Placeholder
  import opened Restore

  datatype Doc = End(lit: string) | Node(lit: string, tok: string, rest: Doc)

  function Render(d: Doc): string {
    match d
    case End(l) => l
    case Node(l, t, r) => l + t + Render(r)
  }

  function Prepend(c: char, d: Doc): Doc {
    match d
    case End(l) => End([c] + l)
    case Node(l, t, r) => Node([c] + l, t, r)
  }

  /** The view the placeholder pattern gives: cut at its leftmost non-overlapping matches. */
  function Parse(s: string): Doc {
    var n := TokenLen(s);
    if s == "" then End("")
    else if n > 0 then Node("", s[..n], Parse(s[n..]))
    else Prepend(s[0], Parse(s[1..]))
  }

  /** Literals hold no placeholder and placeholders are exactly that. */
  predicate Canonical(d: Doc) {
    TokenFree(d.lit) && (d.Node? ==> IsToken(d.tok) && Canonical(d.rest))
  }

  lemma RenderPrepend(c: char, d: Doc)
    ensures Render(Prepend(c, d)) == [c] + Render(d)
  {
    if d.Node? {
      assert [c] + d.lit + d.tok + Render(d.rest) == [c] + (d.lit + d.tok + Render(d.rest));
    }
  }

  lemma {:induction false} RenderParse(s: string)
    ensures Render(Parse(s)) == s
    decreases |s|
  {
    hide TokenLen;
    if s != "" {
      var n := TokenLen(s);
      var k := if n > 0 then n else 1;
      RenderParse(s[k..]);
      RenderPrepend(s[0], Parse(s[1..]));
      assert s == s[..k] + s[k..];
    }
  }

  lemma {:induction false} ParseCanonical(s: string)
    ensures Canonical(Parse(s))
    decreases |s|
  {
    hide TokenLen, IsToken;
    if s != "" {
      var n := TokenLen(s);
      if n > 0 {
        TokenLenExact(s);
        ParseCanonical(s[n..]);
      } else {
        ParseCanonical(s[1..]);
        RenderParse(s[1..]);
        TokenFreeCons(s[0], Parse(s[1..]).lit, s[|Parse(s[1..]).lit| + 1..], s);
      }
    }
  }

  lemma TokenFreeCons(c: char, l: string, after: string, s: string)
    requires TokenFree(l) && TokenLen(s) == 0 && |s| == 1 + |l| + |after|
    requires s[0] == c && s[1..1 + |l|] == l && s[1 + |l|..] == after
    ensures TokenFree([c] + l)
  {
    hide TokenLen;
    var m := [c] + l;
    assert s == m + after;
    TokenLenPrefix(m, after);
    forall i: nat | i < |m| ensures TokenLen(m[i..]) == 0 {
      if i == 0 {
        assert m[0..] == m;
      } else {
        assert m[i..] == l[i - 1..];
      }
    }
  }

  /** A literal in front of a placeholder or the end starts no placeholder of its own. */
  lemma LiteralStays(l: string, after: string)
    requires l != "" && TokenFree(l) && (after == "" || OpensAt(after, 0))
    ensures TokenLen(l + after) == 0
  {
    hide TokenLen;
    var s := l + after;
    assert s[0..] == s && l[0..] == l;
    if after == "" {
      assert s == l;
    } else {
      assert OpensAt(s, |l|);
      NoStraddleIntoOpen(s, |l|, 0);
      TokenLenPrefix(l, after);
    }
  }

  lemma TokenStarts(t: string, after: string)
    requires IsToken(t)
    ensures TokenLen(t + after) == |t| > 0 && OpensAt(t + after, 0)
  {
    assert (t + after)[..|t|] == t;
    TokenLenExact(t + after);
  }

  lemma {:induction false} ParseLiteral(l: string, d: Doc)
    requires TokenFree(l) && d.lit == "" && Parse(Render(d)) == d
    requires Render(d) == "" || OpensAt(Render(d), 0)
    ensures Parse(l + Render(d)) == d.(lit := l)
    decreases |l|
  {
    hide TokenLen, IsToken, TokenFree, Render, OpensAt;
    if l == "" {
      assert l + Render(d) == Render(d);
    } else {
      var s := l + Render(d);
      LiteralStays(l, Render(d));
      TokenFreeTail(l);
      ParseLiteral(l[1..], d);
      assert s[0] == l[0] && s[1..] == l[1..] + Render(d);
      assert Parse(s) == Prepend(l[0], Parse(s[1..]));
      assert [l[0]] + l[1..] == l;
    }
  }

  lemma ParseToken(t: string, d: Doc)
    requires IsToken(t) && Parse(Render(d)) == d
    ensures Parse(t + Render(d)) == Node("", t, d) && OpensAt(t + Render(d), 0)
  {
    hide IsToken, Render, OpensAt;
    var s := t + Render(d);
    TokenStarts(t, Render(d));
    assert s[..|t|] == t && s[|t|..] == Render(d);
  }

  /** Unique parse: a canonical document is what parsing its rendering gives back. */
  lemma {:induction false} ParseRender(d: Doc)
    requires Canonical(d)
    ensures Parse(Render(d)) == d
  {
    hide TokenLen, IsToken, TokenFree, OpensAt, Parse;
    match d
    case End(l) =>
      ParseLiteral(l, End("")) by { ParseEmpty(); }
      assert l + "" == l;
    case Node(l, t, r) =>
      ParseRender(r);
      ParseToken(t, r);
      var bare := Node("", t, r);
      assert Render(bare) == t + Render(r);
      ParseLiteral(l, bare);
      assert l + (t + Render(r)) == Render(d);
  }

  lemma ParseEmpty()
    ensures Parse("") == End("")
  {
  }

  lemma TokenFreeTail(l: string)
    requires TokenFree(l) && l != ""
    ensures TokenFree(l[1..])
  {
    TokenFreeSlice(l, 1, |l|);
    assert l[1..|l|] == l[1..];
  }

  function RestoreDoc(d: Doc, reverse: Reverse): string {
    match d
    case End(l) => l
    case Node(l, t, r) => l + Lookup(reverse, t) + RestoreDoc(r, reverse)
  }

  lemma RestorePrepend(c: char, d: Doc, reverse: Reverse)
    ensures RestoreDoc(Prepend(c, d), reverse) == [c] + RestoreDoc(d, reverse)
  {
    if d.Node? {
      var tail := RestoreDoc(d.rest, reverse);
      assert [c] + d.lit + Lookup(reverse, d.tok) + tail == [c] + (d.lit + Lookup(reverse, d.tok) + tail);
    }
  }

  lemma {:induction false} RestoreParse(s: string, reverse: Reverse)
    ensures RestoreString(s, reverse) == RestoreDoc(Parse(s), reverse)
    decreases |s|
  {
    if s != "" {
      RestoreStep(s, reverse);
      var k := StepLen(s);
      ParseStep(s);
      hide TokenLen, RestoreString, Parse, Prepend, StepLen;
      RestoreParse(s[k..], reverse);
      if TokenLen(s) > 0 {
        assert "" + Lookup(reverse, s[..k]) == Lookup(reverse, s[..k]);
      } else {
        RestorePrepend(s[0], Parse(s[k..]), reverse);
      }
    }
  }

  lemma ParseStep(s: string)
    requires s != ""
    ensures var k := StepLen(s);
            Parse(s) == if TokenLen(s) > 0 then Node("", s[..k], Parse(s[k..])) else Prepend(s[0], Parse(s[k..]))
    ensures TokenLen(s) == 0 ==> s[..StepLen(s)] == [s[0]]
  {
    hide TokenLen;
  }

  function DocTokens(d: Doc): seq<string> {
    match d
    case End(_) => []
    case Node(_, t, r) => [t] + DocTokens(r)
  }

  function DocLits(d: Doc): seq<string> {
    match d
    case End(l) => [l]
    case Node(l, _, r) => [l] + DocLits(r)
  }

  lemma {:induction false} TokensParse(s: string)
    ensures Tokens(s) == DocTokens(Parse(s))
    decreases |s|
  {
    hide TokenLen;
    if s != "" {
      var n := TokenLen(s);
      var k := if n > 0 then n else 1;
      TokensParse(s[k..]);
    }
  }
}
