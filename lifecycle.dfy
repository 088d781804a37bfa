/**
 * The per-cell lifecycle rules shared by the scripts that let dead cells decay:
 * the crowding factor computed once per tick, the rule for a dead cell, and
 * the transition of a live cell to the dead state.
 */
module Lifecycle {
  import opened CellState

  /** Number of ticks a dead cell stays in the population (`DEAD_LIFETIME`). */
  const DEAD_LIFETIME: int := 20

  /**
   * The global crowding factor `max(0, 1 - n/K)`, or 1 when the carrying
   * capacity `K` is not positive. `nCells` is `len(cells)` before the tick,
   * dead cells included.
   */
  function CrowdFactor(nCells: nat, capacity: int): (r: real)
    ensures 0.0 <= r <= 1.0
    ensures capacity <= 0 ==> r == 1.0
    ensures nCells == 0 ==> r == 1.0
    ensures capacity > 0 ==> (r == 0.0 <==> nCells >= capacity)
    ensures capacity > 0 && nCells < capacity ==> r == 1.0 - nCells as real / capacity as real
  {
    if capacity > 0 then
      var ratio := nCells as real / capacity as real;
      RatioAtLeastOne(nCells as real, capacity as real);
      RatioMonotone(0.0, nCells as real, capacity as real);
      Max(0.0, 1.0 - ratio)
    else
      1.0
  }

  /** More cells never mean faster growth: the factor is non-increasing in `n`. */
  lemma CrowdFactorAntitone(n1: nat, n2: nat, capacity: int)
    requires n1 <= n2
    ensures CrowdFactor(n2, capacity) <= CrowdFactor(n1, capacity)
  {
    if capacity > 0 {
      RatioMonotone(n1 as real, n2 as real, capacity as real);
    }
  }

  /**
   * One tick of a dead cell: growth and division stop, the colour is grey and
   * the counter goes up by one. The second component says whether the cell is
   * scheduled for removal, which it is once the new counter has reached
   * `DEAD_LIFETIME`.
   */
  function Decay(c: Cell): (Cell, bool) {
    var aged := c.(growthRate := 0.0, divideFlag := false, color := COL_DEAD,
                   deadCounter := c.deadCounter + 1);
    (aged, aged.deadCounter >= DEAD_LIFETIME)
  }

  /**
   * The state every killing rule leaves a cell in: dead, not growing, not
   * dividing, grey, with its counter restarted at zero.
   */
  function Killed(c: Cell): (r: Cell) {
    c.(cellType := DEAD_TYPE, growthRate := 0.0, divideFlag := false,
       color := COL_DEAD, deadCounter := 0)
  }

  /** A dead cell after `k` ticks of decay (ignoring its removal). */
  function Aged(c: Cell, k: nat): Cell {
    if k == 0 then c else Decay(Aged(c, k - 1)).0
  }

  /** Decay increments the counter by exactly one per tick and changes nothing else. */
  lemma {:induction false} AgedCounter(c: Cell, k: nat)
    ensures Aged(c, k).deadCounter == c.deadCounter + k
    ensures Aged(c, k).cellType == c.cellType
    ensures SameEngineFields(Aged(c, k), c)
    ensures k > 0 ==> Aged(c, k).growthRate == 0.0 && !Aged(c, k).divideFlag
  {
    if k > 0 {
      AgedCounter(c, k - 1);
    }
  }

  /**
   * The off-by-one boundary of removal: a cell that has just been killed
   * (counter 0) is scheduled for removal by its `k`-th tick of decay exactly
   * when `k >= DEAD_LIFETIME`; so it is removed on its 20th tick as a dead
   * cell, not on its 19th, and it never sees a 21st.
   */
  lemma RemovedOnLifetimeTick(c: Cell, k: nat)
    requires c.deadCounter == 0 && k >= 1
    ensures Decay(Aged(c, k - 1)).1 <==> k >= DEAD_LIFETIME
  {
    AgedCounter(c, k - 1);
  }

  /** A cell killed this tick cannot be removed in the same tick. */
  lemma KilledNotRemovable(c: Cell)
    ensures Killed(c).deadCounter < DEAD_LIFETIME
    ensures Killed(Killed(c)) == Killed(c)
  {
  }
}
