/** Exponential cooldown of a failed member, computed over the reals. */
module Backoff {

  /** The part of a group's relay configuration the circuit breaker reads. */
  datatype Config = Config(
    cooldownSeconds: int,
    multiplier: real,
    maxSeconds: int,
    affinitySeconds: int,
    maxAttempts: int,
    emergencyItem: int)

  function Max(a: int, b: int): int {
    if a < b then b else a
  }

  function Pow(m: real, level: nat): real {
    if level == 0 then 1.0 else m * Pow(m, level - 1)
  }

  function Base(c: Config): real {
    Max(c.cooldownSeconds, 1) as real
  }

  function Factor(c: Config): real {
    if c.multiplier < 1.0 then 1.0 else c.multiplier
  }

  /** The backoff cut at the ceiling, when there is one. */
  function Cut(seconds: real, maxSeconds: int): real {
    var ceiling := Max(maxSeconds, 0) as real;
    if ceiling >= 1.0 && seconds > ceiling then ceiling else seconds
  }

  function CooldownMillis(c: Config, level: int): int {
    var seconds := if level > 0 then Base(c) * Pow(Factor(c), level) else Base(c);
    (Cut(seconds, c.maxSeconds) * 1000.0).Floor
  }

  lemma {:induction false} PowMonotone(m: real, a: nat, b: nat)
    requires m >= 1.0 && a <= b
    ensures 1.0 <= Pow(m, a) <= Pow(m, b)
    decreases b
  {
    if a < b {
      PowMonotone(m, a, b - 1);
      assert Pow(m, b) >= Pow(m, b - 1) by {
        var p := Pow(m, b - 1);
        assert (m - 1.0) * p >= 0.0;
      }
    } else if a > 0 {
      PowMonotone(m, a - 1, a - 1);
      assert Pow(m, a) >= Pow(m, a - 1) by {
        var p := Pow(m, a - 1);
        assert (m - 1.0) * p >= 0.0;
      }
    }
  }

  function Uncut(c: Config, level: int): real {
    Base(c) * Pow(Factor(c), Max(level, 0))
  }

  lemma CutShape(u: real, v: real, maxSeconds: int)
    requires 1.0 <= u <= v
    ensures 1000 <= (Cut(u, maxSeconds) * 1000.0).Floor <= (Cut(v, maxSeconds) * 1000.0).Floor
    ensures maxSeconds >= 1 ==> (Cut(u, maxSeconds) * 1000.0).Floor <= 1000 * maxSeconds
  {
  }

  /** The cooldown is the floor of 1000 times the smaller of base * factor^level and the ceiling; it never shrinks
      as the level rises, lasts at least a second and never exceeds the ceiling. */
  lemma CooldownShape(c: Config, a: int, b: int)
    requires a <= b
    ensures 1000 <= CooldownMillis(c, a) <= CooldownMillis(c, b)
    ensures c.maxSeconds >= 1 ==> CooldownMillis(c, a) <= 1000 * c.maxSeconds
    ensures var least := if Uncut(c, a) < c.maxSeconds as real then Uncut(c, a) else c.maxSeconds as real;
            c.maxSeconds >= 1 ==> CooldownMillis(c, a) == (1000.0 * least).Floor
  {
    hide Base, Factor, Pow, Uncut, Cut;
    UncutRises(c, a, b);
    CooldownIs(c, a);
    CooldownIs(c, b);
    CutShape(Uncut(c, a), Uncut(c, b), c.maxSeconds);
    CutIsMin(Uncut(c, a), c.maxSeconds);
  }

  lemma CutIsMin(u: real, maxSeconds: int)
    ensures maxSeconds >= 1 ==> Cut(u, maxSeconds) == if u < maxSeconds as real then u else maxSeconds as real
  {
  }

  lemma UncutRises(c: Config, a: int, b: int)
    requires a <= b
    ensures 1.0 <= Uncut(c, a) <= Uncut(c, b)
  {
    hide Pow, Base, Factor;
    BaseAtLeastOne(c);
    PowMonotone(Factor(c), Max(a, 0), Max(b, 0));
    ScaleMonotone(Base(c), Pow(Factor(c), Max(a, 0)), Pow(Factor(c), Max(b, 0)));
  }

  lemma CooldownIs(c: Config, level: int)
    ensures CooldownMillis(c, level) == (Cut(Uncut(c, level), c.maxSeconds) * 1000.0).Floor
  {
    assert Base(c) * 1.0 == Base(c);
  }

  lemma BaseAtLeastOne(c: Config)
    ensures Base(c) >= 1.0 && Factor(c) >= 1.0
  {
  }

  lemma ScaleMonotone(base: real, p: real, q: real)
    requires base >= 1.0 && 1.0 <= p <= q
    ensures 1.0 <= base <= base * p <= base * q
  {
    assert base * (q - p) >= 0.0 && base * (p - 1.0) >= 0.0;
  }

  /** Without a ceiling a member at level zero cools for the configured seconds, one at least, and each level multiplies the
      time by the configured factor, at least one. */
  lemma LevelsMultiply(c: Config, level: nat)
    requires c.maxSeconds <= 0
    ensures CooldownMillis(c, 0) == 1000 * (if c.cooldownSeconds >= 1 then c.cooldownSeconds else 1)
    ensures Uncut(c, level + 1) == Uncut(c, level) * if c.multiplier >= 1.0 then c.multiplier else 1.0
    ensures CooldownMillis(c, level) == (Uncut(c, level) * 1000.0).Floor
  {
    var m, p := Factor(c), Pow(Factor(c), level);
    assert Pow(m, level + 1) == m * p;
    assert Base(c) * (m * p) == (Base(c) * p) * m;
    if level == 0 {
      assert Base(c) * Pow(m, 0) == Base(c);
    }
  }
}
