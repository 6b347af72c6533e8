/** One-shot restoration of a whole body: the reference every other restoration is measured against. */
module Restore {
  import opened Collections
  import opened Placeholder

  /** Placeholder to original. */
  type Reverse = map<string, string>

  function Lookup(reverse: Reverse, token: string): string {
    if token in reverse then reverse[token] else token
  }

  /** Leftmost non-overlapping replacement of every placeholder by its original;
      placeholders that are not registered stay as they are. */
  function RestoreString(body: string, reverse: Reverse): string {
    var n := TokenLen(body);
    if body == "" then ""
    else if n > 0 then Lookup(reverse, body[..n]) + RestoreString(body[n..], reverse)
    else [body[0]] + RestoreString(body[1..], reverse)
  }

  /** A placeholder of `a + b` starts at `i` in `a` and ends in `b`. */
  predicate Straddles(a: string, b: string, i: nat)
    requires i < |a|
  {
    TokenLen((a + b)[i..]) > |a| - i
  }

  /** How far the scan moves on: over a placeholder, or over one byte. */
  function StepLen(s: string): (k: nat)
    requires s != ""
    ensures 1 <= k <= |s|
  {
    if TokenLen(s) > 0 then TokenLen(s) else 1
  }

  lemma RestoreStep(s: string, reverse: Reverse)
    requires s != ""
    ensures var k := StepLen(s);
            RestoreString(s, reverse) ==
            (if TokenLen(s) > 0 then Lookup(reverse, s[..k]) else s[..k]) + RestoreString(s[k..], reverse)
  {
    hide TokenLen;
    assert s[..1] == [s[0]];
  }

  /** A placeholder met inside `a` lies in `a`, and the rest of `a` is not straddled either. */
  lemma StraddleShift(a: string, b: string, k: nat)
    requires k <= |a| && forall i: nat | i < |a| :: !Straddles(a, b, i)
    ensures (a + b)[k..] == a[k..] + b && (a + b)[..k] == a[..k]
    ensures forall i: nat | i < |a[k..]| :: !Straddles(a[k..], b, i)
  {
    hide TokenLen;
    forall i: nat | i < |a[k..]| ensures !Straddles(a[k..], b, i) {
      assert !Straddles(a, b, k + i);
      assert (a[k..] + b)[i..] == (a + b)[k + i..];
    }
  }

  /** Restoration distributes over a cut that no placeholder straddles. */
  lemma {:induction false} RestoreConcat(a: string, b: string, reverse: Reverse)
    requires forall i: nat | i < |a| :: !Straddles(a, b, i)
    ensures RestoreString(a + b, reverse) == RestoreString(a, reverse) + RestoreString(b, reverse)
    decreases |a|
  {
    if a == "" {
      assert a + b == b;
    } else {
      assert (a + b)[0..] == a + b && !Straddles(a, b, 0);
      TokenLenPrefix(a, b);
      var k := StepLen(a);
      assert StepLen(a + b) == k;
      RestoreStep(a + b, reverse);
      RestoreStep(a, reverse);
      StraddleShift(a, b, k);
      hide TokenLen, RestoreString, Straddles, StepLen;
      RestoreConcat(a[k..], b, reverse);
      AppendAssoc(if TokenLen(a) > 0 then Lookup(reverse, a[..k]) else a[..k], RestoreString(a[k..], reverse), RestoreString(b, reverse));
    }
  }

  predicate TokenFree(s: string) {
    forall i: nat | i < |s| :: TokenLen(s[i..]) == 0
  }

  lemma {:induction false} TokenFreeRestores(s: string, reverse: Reverse)
    requires TokenFree(s)
    ensures RestoreString(s, reverse) == s
    decreases |s|
  {
    hide TokenLen;
    if s != "" {
      assert s[0..] == s;
      forall i: nat | i < |s[1..]| ensures TokenLen(s[1..][i..]) == 0 {
        assert s[1..][i..] == s[i + 1..];
      }
      TokenFreeRestores(s[1..], reverse);
    }
  }

  lemma TokenFreeSlice(s: string, i: nat, j: nat)
    requires TokenFree(s) && i <= j <= |s|
    ensures TokenFree(s[i..j])
  {
    forall k: nat | k < j - i ensures TokenLen(s[i..j][k..]) == 0 {
      assert s[i + k..] == s[i..j][k..] + s[j..];
      TokenLenPrefix(s[i..j][k..], s[j..]);
    }
  }

  /** With nothing registered restoration is the identity. */
  lemma {:induction false} NothingRegistered(s: string)
    ensures RestoreString(s, map[]) == s
    decreases |s|
  {
    hide TokenLen;
    if s != "" {
      var n := TokenLen(s);
      var k := if n > 0 then n else 1;
      NothingRegistered(s[k..]);
      assert s == s[..k] + s[k..];
    }
  }

  /** Every placeholder occurrence the left-to-right scan finds in `s`. */
  function Tokens(s: string): (r: seq<string>)
  {
    var n := TokenLen(s);
    if s == "" then []
    else if n > 0 then [s[..n]] + Tokens(s[n..])
    else Tokens(s[1..])
  }

  lemma TokensStep(s: string)
    requires s != ""
    ensures Tokens(s) == (if TokenLen(s) > 0 then [s[..StepLen(s)]] else []) + Tokens(s[StepLen(s)..])
  {
    hide TokenLen;
  }

  /** A body without registered placeholders restores to itself. */
  lemma {:induction false} UnregisteredRestores(s: string, reverse: Reverse)
    requires forall t | t in Tokens(s) :: t !in reverse
    ensures RestoreString(s, reverse) == s
    decreases |s|
  {
    if s != "" {
      var k := StepLen(s);
      RestoreStep(s, reverse);
      TokensStep(s);
      hide TokenLen, RestoreString, Tokens, StepLen;
      InHalves(if TokenLen(s) > 0 then [s[..k]] else [], Tokens(s[k..]));
      UnregisteredRestores(s[k..], reverse);
      assert TokenLen(s) > 0 ==> Lookup(reverse, s[..k]) == s[..k];
      assert s[..k] + s[k..] == s;
    }
  }

  lemma InHalves(a: seq<string>, b: seq<string>)
    ensures forall t :: t in a + b <==> t in a || t in b
  {
  }
}
