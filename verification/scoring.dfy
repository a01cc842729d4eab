/** Points per lock, levels, the energy meter that buys bombs, and the
    gravity speed curve. */
module Scoring {

  const LEVEL_LINES: nat := 10
  const BASE_DROP_MS: nat := 1000
  const MIN_DROP_MS: nat := 70
  const MAX_BOMBS: nat := 3
  const ENERGY_PER_BOMB: nat := 100
  const ENERGY_PER_LINE: nat := 20
  const ENERGY_PER_LOCK: nat := 5

  function Min(a: int, b: int): int {
    if a < b then a else b
  }

  function Max(a: int, b: int): int {
    if a < b then b else a
  }

  /** Base points for clearing n lines with one lock. */
  function ScoreForLines(n: int): (points: nat)
    ensures points > 0 <==> 1 <= n <= 4
    ensures points % 100 == 0 && points <= 800
  {
    if n == 1 then 100
    else if n == 2 then 300
    else if n == 3 then 500
    else if n == 4 then 800
    else 0
  }

  /** Only one to four lines score; more lines at once always score more, and
      clearing several lines together beats clearing them one at a time. */
  lemma ScoreForLinesShape()
    ensures forall n :: ScoreForLines(n) > 0 <==> 1 <= n <= 4
    ensures forall a, b | 1 <= a < b <= 4 :: ScoreForLines(a) < ScoreForLines(b)
    ensures forall n | 2 <= n <= 4 :: ScoreForLines(n) > n * ScoreForLines(1)
  {
  }

  /** The level reached after `lines` cleared lines. */
  function LevelFor(lines: nat): (level: nat)
    ensures level >= 1
    ensures (level - 1) * LEVEL_LINES <= lines < level * LEVEL_LINES
  {
    lines / LEVEL_LINES + 1
  }

  /** The conversion loop as written: while the meter holds at least 100, take
      100 off and add a bomb, never holding more than three; the energy of a
      bomb bought past the cap is lost. */
  function ConvertEnergy(energy: nat, bombs: nat): (r: (nat, nat))
    decreases energy
    ensures r.0 == energy % ENERGY_PER_BOMB
    ensures r.1 == if energy < ENERGY_PER_BOMB then bombs
                   else Min(MAX_BOMBS, bombs + energy / ENERGY_PER_BOMB)
  {
    if energy >= ENERGY_PER_BOMB then
      ConvertEnergy(energy - ENERGY_PER_BOMB, Min(MAX_BOMBS, bombs + 1))
    else
      (energy, bombs)
  }

  /** After conversion the meter is below one bomb, the bomb count stays
      capped, and bombs are never lost. */
  lemma ConvertEnergyBounds(energy: nat, bombs: nat)
    requires bombs <= MAX_BOMBS
    ensures ConvertEnergy(energy, bombs).0 < ENERGY_PER_BOMB
    ensures bombs <= ConvertEnergy(energy, bombs).1 <= MAX_BOMBS
  {
  }

  function Pow(b: nat, n: nat): (r: nat)
    ensures b > 0 ==> r > 0
  {
    if n == 0 then 1 else b * Pow(b, n - 1)
  }

  /** 1000 * 0.85^n rounded down, computed exactly as 1000 * 17^n / 20^n. */
  function Curve(n: nat): nat {
    BASE_DROP_MS * Pow(17, n) / Pow(20, n)
  }

  /** Milliseconds per gravity step at a level: the geometric curve, never
      below 70 ms, and 1000 ms at level 1. */
  function DropIntervalFor(level: int): (ms: nat)
    ensures MIN_DROP_MS <= ms <= BASE_DROP_MS
    ensures level <= 1 ==> ms == BASE_DROP_MS
  {
    var lvl := Max(1, level);
    CurveAtMostBase(lvl - 1);
    Max(MIN_DROP_MS, Curve(lvl - 1))
  }

  /** x / b is at most c whenever x is below (c + 1) * b. */
  lemma DivAtMost(x: nat, b: nat, c: nat)
    requires b > 0
    requires x < (c + 1) * b
    ensures x / b <= c
  {
    var q := x / b;
    assert x == q * b + x % b;
  }

  lemma {:induction false} PowGrowsSlower(n: nat)
    ensures Pow(17, n) <= Pow(20, n)
  {
    if n > 0 {
      PowGrowsSlower(n - 1);
    }
  }

  lemma CurveAtMostBase(n: nat)
    ensures Curve(n) <= BASE_DROP_MS
  {
    PowGrowsSlower(n);
    var a, b := Pow(17, n), Pow(20, n);
    assert BASE_DROP_MS * a <= BASE_DROP_MS * b;
    DivAtMost(BASE_DROP_MS * a, b, BASE_DROP_MS);
  }

  /** One more level never slows the curve: floor(0.85 * v) <= v in exact
      arithmetic. */
  lemma CurveStep(n: nat)
    ensures Curve(n + 1) <= Curve(n)
  {
    var a, b := BASE_DROP_MS * Pow(17, n), Pow(20, n);
    var q := a / b;
    assert a == q * b + a % b;
    assert a < (q + 1) * b;
    assert BASE_DROP_MS * Pow(17, n + 1) == 17 * a;
    assert Pow(20, n + 1) == 20 * b;
    assert 17 * a < 17 * ((q + 1) * b);
    assert 17 * ((q + 1) * b) <= (q + 1) * (20 * b);
    DivAtMost(17 * a, 20 * b, q);
  }

  /** The drop interval never grows as the level rises. */
  lemma {:induction false} DropIntervalMonotone(lo: int, hi: int)
    requires lo <= hi
    decreases hi - lo
    ensures DropIntervalFor(hi) <= DropIntervalFor(lo)
  {
    if lo < hi {
      DropIntervalMonotone(lo, hi - 1);
      if hi > 1 {
        CurveStep(hi - 2);
      }
    }
  }
}
