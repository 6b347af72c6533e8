/** Small facts about sequences and sets. */
module Collections {

  lemma AppendAssoc<T>(a: seq<T>, b: seq<T>, c: seq<T>)
    ensures (a + b) + c == a + (b + c)
  {
  }

  lemma AppendThree<T>(a: seq<T>, b: seq<T>, c: seq<T>, d: seq<T>)
    ensures a + (b + c + d) == a + b + c + d
  {
  }

  lemma SliceSnoc<T>(s: seq<T>, n: nat)
    requires n < |s|
    ensures s[..n + 1] == s[..n] + [s[n]]
  {
  }

  lemma SomeId(s: set<int>)
    ensures s == {} || exists k :: k in s
  {
    if !exists k :: k in s {
      assert s == {};
    }
  }

  lemma SomeName(s: set<string>)
    ensures s == {} || exists k :: k in s
  {
    if !exists k :: k in s {
      assert s == {};
    }
  }

  lemma SubsetCount<T>(a: set<T>, b: set<T>)
    requires a <= b
    ensures |a| <= |b| && (a < b ==> |a| < |b|)
  {
    assert b == a + (b - a);
    assert a < b ==> b - a != {};
  }

  // ---- sifting a list ----

  /** Positions before i that pass. */
  ghost function Passing<T>(s: seq<T>, keep: T -> bool, i: nat): set<nat>
    requires i <= |s|
  {
    set j | 0 <= j < i && keep(s[j])
  }

  /** r is what passes of s, in its order: each element that passes stands behind as many as pass before it, and nothing else
      is there. */
  ghost predicate Sifted<T>(s: seq<T>, keep: T -> bool, r: seq<T>) {
    && |r| == |Passing(s, keep, |s|)|
    && forall i | 0 <= i < |s| && keep(s[i]) :: |Passing(s, keep, i)| < |r| && r[|Passing(s, keep, i)|] == s[i]
  }

  lemma PassingStep<T>(s: seq<T>, keep: T -> bool, i: nat)
    requires i < |s|
    ensures |Passing(s, keep, i + 1)| == |Passing(s, keep, i)| + if keep(s[i]) then 1 else 0
  {
    var before := Passing(s, keep, i);
    assert Passing(s, keep, i + 1) == if keep(s[i]) then before + {i} else before;
  }

  lemma PassingNone<T>(s: seq<T>, keep: T -> bool)
    ensures Passing(s, keep, 0) == {}
  {
  }

  lemma {:induction false} PassingCons<T>(x: T, s: seq<T>, keep: T -> bool, i: nat)
    requires i <= |s|
    ensures |Passing([x] + s, keep, i + 1)| == |Passing(s, keep, i)| + if keep(x) then 1 else 0
    decreases i
  {
    var all := [x] + s;
    PassingStep(all, keep, i);
    if i == 0 {
      PassingNone(s, keep);
      PassingNone(all, keep);
    } else {
      assert all[i] == s[i - 1];
      PassingCons(x, s, keep, i - 1);
      PassingStep(s, keep, i - 1);
    }
  }

  lemma SiftedEmpty<T>(keep: T -> bool)
    ensures Sifted([], keep, [])
  {
    PassingNone([], keep);
  }

  lemma SiftedCons<T>(x: T, s: seq<T>, keep: T -> bool, r: seq<T>)
    requires Sifted(s, keep, r)
    ensures Sifted([x] + s, keep, if keep(x) then [x] + r else r)
  {
    hide Passing;
    var all, kept := [x] + s, if keep(x) then [x] + r else r;
    PassingCons(x, s, keep, |s|);
    assert |kept| == |Passing(all, keep, |all|)|;
    forall i | 0 <= i < |all| && keep(all[i])
      ensures |Passing(all, keep, i)| < |kept| && kept[|Passing(all, keep, i)|] == all[i]
    {
      if i == 0 {
        PassingNone(all, keep);
      } else {
        SiftedConsAt(x, s, keep, r, i - 1);
      }
    }
  }

  lemma SiftedConsAt<T>(x: T, s: seq<T>, keep: T -> bool, r: seq<T>, i: nat)
    requires Sifted(s, keep, r) && i < |s| && keep(s[i])
    ensures var kept := if keep(x) then [x] + r else r;
            |Passing([x] + s, keep, i + 1)| < |kept| && kept[|Passing([x] + s, keep, i + 1)|] == ([x] + s)[i + 1]
  {
    PassingCons(x, s, keep, i);
    hide Passing;
  }

  lemma PassingPrefix<T>(s: seq<T>, keep: T -> bool, n: nat, i: nat)
    requires i <= n <= |s|
    ensures Passing(s[..n], keep, i) == Passing(s, keep, i)
  {
  }

  /** The k-th element that passes. */
  lemma {:induction false} PassingAt<T>(s: seq<T>, keep: T -> bool, k: nat) returns (i: nat)
    requires k < |Passing(s, keep, |s|)|
    ensures i < |s| && keep(s[i]) && |Passing(s, keep, i)| == k
    decreases |s|
  {
    PassingNone(s, keep);
    var n := |s| - 1;
    PassingStep(s, keep, n);
    if k < |Passing(s, keep, n)| {
      PassingPrefix(s, keep, n, n);
      i := PassingAt(s[..n], keep, k);
      PassingPrefix(s, keep, n, i);
    } else {
      i := n;
    }
  }

  /** There is one such list; it holds exactly what passes, and all of s when all of s does. */
  lemma SiftedIs<T>(s: seq<T>, keep: T -> bool, r: seq<T>, r': seq<T>)
    requires Sifted(s, keep, r) && Sifted(s, keep, r')
    ensures r == r'
    ensures forall x :: x in r <==> x in s && keep(x)
  {
    forall k | 0 <= k < |r| ensures r[k] == r'[k] && r[k] in s && keep(r[k]) {
      var i := PassingAt(s, keep, k);
    }
  }

  lemma {:induction false} SiftedAll<T>(s: seq<T>, keep: T -> bool)
    requires forall x | x in s :: keep(x)
    ensures Sifted(s, keep, s)
    decreases |s|
  {
    hide Sifted;
    if s == [] {
      SiftedEmpty(keep);
    } else {
      SiftedAll(s[1..], keep);
      SiftedCons(s[0], s[1..], keep, s[1..]);
      assert s == [s[0]] + s[1..];
    }
  }

  lemma {:induction false} SiftedNothing<T>(s: seq<T>, keep: T -> bool)
    requires forall x | x in s :: !keep(x)
    ensures Sifted(s, keep, [])
    decreases |s|
  {
    hide Sifted;
    if s == [] {
      SiftedEmpty(keep);
    } else {
      SiftedNothing(s[1..], keep);
      SiftedCons(s[0], s[1..], keep, []);
      assert s == [s[0]] + s[1..];
    }
  }
}
