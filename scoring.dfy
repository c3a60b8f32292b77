/** Score for cleared lines, and the level and fall speed derived from the line total. */
module Scoring {
  /** Base points for clearing 1, 2, 3 or 4 lines with one lock. */
  const LineClearTable: seq<nat> := [40, 100, 300, 1200]

  /** Points for one lock that cleared n lines at the given level; a lock that clears
      nothing scores nothing and does not consult the table. */
  function LineClearPoints(n: nat, level: nat): (p: nat)
    requires n <= 4
    ensures n == 0 ==> p == 0
    ensures level >= 1 ==> (p == 0 <==> n == 0)
  {
    if n == 0 then 0 else LineClearTable[n - 1] * level
  }

  /** The table's worked values, and the zero case for every level. */
  lemma LineClearPointsExamples(level: nat)
    ensures LineClearPoints(1, 1) == 40 && LineClearPoints(4, 1) == 1200
    ensures LineClearPoints(2, 3) == 300 && LineClearPoints(0, level) == 0
  {
  }

  /** At any positive level, clearing more lines at once is worth strictly more,
      and the award is the level-1 award scaled by the level. */
  lemma LineClearPointsOrder(n: nat, m: nat, level: nat)
    requires n < m <= 4 && level >= 1
    ensures LineClearPoints(n, level) < LineClearPoints(m, level)
    ensures LineClearPoints(m, level) == level * LineClearPoints(m, 1)
  {
  }

  /** The level for a total of cleared lines: one more per ten lines. */
  function LevelFor(lines: nat): (level: nat)
    ensures level >= 1
    ensures (level - 1) * 10 <= lines < level * 10
  {
    lines / 10 + 1
  }

  /** Milliseconds between gravity ticks at a level: 1000 at level 1, 100 less per
      level, never below 100. */
  function DropTimeFor(level: int): (ms: int)
    ensures 100 <= ms
    ensures level >= 1 ==> ms <= 1000
    ensures ms == 100 || ms == 1000 - (level - 1) * 100
    ensures ms >= 1000 - (level - 1) * 100
  {
    if 1000 - (level - 1) * 100 < 100 then 100 else 1000 - (level - 1) * 100
  }

  /** More lines never lower the level nor slow the game down. */
  lemma LevelMonotone(a: nat, b: nat)
    requires a <= b
    ensures LevelFor(a) <= LevelFor(b)
    ensures DropTimeFor(LevelFor(b)) <= DropTimeFor(LevelFor(a))
  {
  }

  /** Twenty-five lines give level 3 and 800 ms; from level 10 on the speed is capped. */
  lemma LevelExamples(level: int)
    ensures LevelFor(25) == 3 && DropTimeFor(LevelFor(25)) == 800
    ensures LevelFor(0) == 1 && DropTimeFor(1) == 1000
    ensures level >= 10 ==> DropTimeFor(level) == 100
  {
  }
}
