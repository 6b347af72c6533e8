/** Round-robin selection among a channel's keys, skipping the ones that cool. */
module KeySelect {

  const WORD := 0x1_0000_0000_0000_0000

  predicate Cooling(cooldowns: map<string, int>, key: string, now: int) {
    key in cooldowns && now < cooldowns[key]
  }

  /** Position reached `offset` places behind `start` on a ring of n. */
  function At(start: nat, offset: nat, n: nat): (i: nat)
    requires n > 0
    ensures i < n
  {
    (start + offset) % n
  }

  /** Ticket counter and cooldowns of one channel. The counter is 64 bits wide and wraps. */
  class Keys {
    var cursor: nat
    var cooldowns: map<string, int>

    constructor ()
      ensures cursor == 0 && cooldowns == map[]
    {
      cursor, cooldowns := 0, map[];
    }

    ghost predicate Valid()
      reads this
    {
      cursor < WORD
    }

    /** Whether the key cools; an expired entry is deleted on the way. */
    method CheckCooling(key: string, now: int) returns (cooling: bool)
      modifies this`cooldowns
      ensures cooling == Cooling(old(cooldowns), key, now)
      ensures forall k :: Cooling(cooldowns, k, now) == Cooling(old(cooldowns), k, now)
      ensures cooldowns.Keys <= old(cooldowns).Keys
    {
      if key !in cooldowns {
        return false;
      }
      if now < cooldowns[key] {
        return true;
      }
      cooldowns := cooldowns - {key};
      cooling := false;
    }

    /** The key of this round: the first one in cyclic order from the ticket that does not cool. A channel without a key
        list falls back to its single key and takes no ticket. */
    method Select(keys: seq<string>, now: int) returns (index: nat, ok: bool)
      requires Valid()
      modifies this
      ensures Valid()
      ensures cursor == if keys == [] then old(cursor) else (old(cursor) + 1) % WORD
      ensures forall k :: Cooling(cooldowns, k, now) == Cooling(old(cooldowns), k, now)
      ensures keys == [] ==> ok && index == 0
      ensures keys != [] ==>
                (ok <==> exists k | k in keys :: !Cooling(old(cooldowns), k, now))
      ensures keys != [] && ok ==>
                exists offset: nat :: FirstFree(old(cooldowns), keys, now, old(cursor) % |keys|, offset, index)
    {
      if keys == [] {
        return 0, true;
      }
      var ticket := (cursor + 1) % WORD;
      cursor := ticket;
      TicketIndex(old(cursor), |keys|);
      var start: nat := ((ticket + WORD - 1) % WORD) % |keys|;
      var offset: nat := 0;
      while offset < |keys|
        invariant offset <= |keys| && start == old(cursor) % |keys| && cursor == (old(cursor) + 1) % WORD
        invariant forall k :: Cooling(cooldowns, k, now) == Cooling(old(cooldowns), k, now)
        invariant forall o: nat | o < offset :: Cooling(old(cooldowns), keys[At(start, o, |keys|)], now)
      {
        index := At(start, offset, |keys|);
        var cooling := CheckCooling(keys[index], now);
        if !cooling {
          FoundFree(old(cooldowns), keys, now, start, offset, index);
          return index, true;
        }
        offset := offset + 1;
      }
      AllVisited(old(cooldowns), keys, now, start);
      return 0, false;
    }
  }

  /** The start index wraps together with the ticket. */
  lemma TicketIndex(cursor: nat, n: nat)
    requires cursor < WORD && n > 0
    ensures (((cursor + 1) % WORD + WORD - 1) % WORD) % n == cursor % n
  {
  }

  ghost predicate FirstFree(cooldowns: map<string, int>, keys: seq<string>, now: int, start: nat, offset: nat, index: nat)
    requires keys != []
  {
    && offset < |keys| && index == At(start, offset, |keys|) && !Cooling(cooldowns, keys[index], now)
    && forall o: nat | o < offset :: Cooling(cooldowns, keys[At(start, o, |keys|)], now)
  }

  lemma FoundFree(cooldowns: map<string, int>, keys: seq<string>, now: int, start: nat, offset: nat, index: nat)
    requires offset < |keys| && index == At(start, offset, |keys|) && !Cooling(cooldowns, keys[index], now)
    requires forall o: nat | o < offset :: Cooling(cooldowns, keys[At(start, o, |keys|)], now)
    ensures FirstFree(cooldowns, keys, now, start, offset, index)
    ensures exists k | k in keys :: !Cooling(cooldowns, k, now)
  {
    assert keys[index] in keys;
  }

  lemma CyclicPosition(start: nat, k: nat, n: nat)
    requires start < n && k < n
    ensures var o := if k >= start then k - start else k + n - start; o < n && At(start, o, n) == k
  {
  }

  /** A full turn that finds every key cooling leaves none out. */
  lemma AllVisited(cooldowns: map<string, int>, keys: seq<string>, now: int, start: nat)
    requires start < |keys|
    requires forall o: nat | o < |keys| :: Cooling(cooldowns, keys[At(start, o, |keys|)], now)
    ensures forall k | k in keys :: Cooling(cooldowns, k, now)
  {
    forall k | k in keys ensures Cooling(cooldowns, k, now) {
      var i: nat :| i < |keys| && keys[i] == k;
      CyclicPosition(start, i, |keys|);
      var o: nat := if i >= start then i - start else i + |keys| - start;
      assert Cooling(cooldowns, keys[At(start, o, |keys|)], now);
    }
  }

  // ---- fairness ----

  /** How often key k is used by `count` consecutive tickets from `first` on, nobody cooling. */
  function Uses(first: nat, count: nat, n: nat, k: nat): nat
    requires n > 0
  {
    if count == 0 then 0
    else Uses(first, count - 1, n, k) + if (first + count - 1) % n == k then 1 else 0
  }

  /** Tickets below x that fall on key k. */
  function Below(x: nat, n: nat, k: nat): nat
    requires n > 0
  {
    x / n + if x % n > k then 1 else 0
  }

  lemma DivStep(x: nat, n: nat)
    requires n > 0
    ensures if x % n == n - 1 then (x + 1) / n == x / n + 1 && (x + 1) % n == 0
            else (x + 1) / n == x / n && (x + 1) % n == x % n + 1
  {
    var q, r := x / n, x % n;
    assert x == q * n + r;
    if r == n - 1 {
      assert x + 1 == (q + 1) * n;
      DivUnique(x + 1, n, q + 1, 0);
    } else {
      DivUnique(x + 1, n, q, r + 1);
    }
  }

  lemma DivUnique(x: nat, n: nat, q: nat, r: nat)
    requires n > 0 && r < n && x == q * n + r
    ensures x / n == q && x % n == r
  {
    QuotientsAgree(n, q, r, x / n, x % n);
  }

  lemma QuotientsAgree(n: nat, q: nat, r: nat, p: nat, s: nat)
    requires r < n && s < n && q * n + r == p * n + s
    ensures p == q && s == r
  {
    if q > p {
      Multiple(q - p, n, q * n, p * n);
    } else if q < p {
      Multiple(p - q, n, p * n, q * n);
    }
  }

  lemma Multiple(d: nat, n: nat, a: int, b: int)
    requires d >= 1 && a - b == d * n
    ensures a - b >= n
  {
    assert (d - 1) * n >= 0;
    assert d * n == (d - 1) * n + n;
  }

  lemma {:induction false} UsesBelow(first: nat, count: nat, n: nat, k: nat)
    requires k < n
    ensures Uses(first, count, n, k) == Below(first + count, n, k) - Below(first, n, k)
  {
    if count > 0 {
      UsesBelow(first, count - 1, n, k);
      DivStep(first + count - 1, n);
    }
  }

  lemma BelowTurn(x: nat, n: nat, k: nat)
    requires k < n
    ensures Below(x + n, n, k) == Below(x, n, k) + 1
  {
    assert x == x / n * n + x % n;
    assert x + n == (x / n + 1) * n + x % n;
    DivUnique(x + n, n, x / n + 1, x % n);
  }

  /** N consecutive tickets use each of n keys floor(N / n) or ceil(N / n) times. */
  lemma {:induction false} Fair(first: nat, count: nat, n: nat, k: nat)
    requires k < n
    ensures count / n <= Uses(first, count, n, k) <= (count + n - 1) / n
  {
    UsesBelow(first, count, n, k);
    if count < n {
      UsesBelow(first, n, n, k);
      BelowTurn(first, n, k);
      UsesGrow(first, count, n, n, k);
      DivUnique(count, n, 0, count);
      if count > 0 {
        DivUnique(count + n - 1, n, 1, count - 1);
      } else {
        DivUnique(n - 1, n, 0, n - 1);
      }
    } else {
      Fair(first, count - n, n, k);
      UsesBelow(first, count - n, n, k);
      BelowTurn(first + count - n, n, k);
      TurnDiv(count - n, n);
      TurnDiv(count - 1, n);
    }
  }

  lemma TurnDiv(x: nat, n: nat)
    requires n > 0
    ensures (x + n) / n == x / n + 1
  {
    assert x == x / n * n + x % n;
    assert x + n == (x / n + 1) * n + x % n;
    DivUnique(x + n, n, x / n + 1, x % n);
  }

  lemma {:induction false} UsesGrow(first: nat, a: nat, b: nat, n: nat, k: nat)
    requires n > 0 && a <= b
    ensures Uses(first, a, n, k) <= Uses(first, b, n, k)
    decreases b
  {
    if a < b {
      UsesGrow(first, a, b - 1, n, k);
    }
  }
}
