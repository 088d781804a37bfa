/**
 * `staph_growth.py`: a single growing lineage. `update` colours each cell
 * by its type and, once a cell is oversized, flags it for division and
 * turns its axis by a quarter turn in the plane, so consecutive divisions
 * alternate between two perpendicular axes.
 */
module StaphGrowth {
  import opened CellState
  import opened Population

  const GROWTH_RATE: real := 2.0
  const TARGET_BASE: real := 1.0
  const TARGET_JITTER: real := 0.5

  /** `cell.dir = [-y, x, z]`: a quarter turn about the z axis. */
  function QuarterTurn(v: Vec3): (r: Vec3)
    ensures r.z == v.z
    ensures r.x * r.x + r.y * r.y == v.x * v.x + v.y * v.y
    ensures r.x * v.x + r.y * v.y == 0.0
  {
    Vec3(-v.y, v.x, v.z)
  }

  /** `k` consecutive quarter turns. */
  function Turned(v: Vec3, k: nat): Vec3 {
    if k == 0 then v else QuarterTurn(Turned(v, k - 1))
  }

  /** Four quarter turns are the identity, so the axis is periodic with period 4. */
  lemma {:induction false} TurnedPeriodic(v: Vec3, k: nat)
    ensures Turned(v, k + 4) == Turned(v, k)
  {
    if k > 0 {
      TurnedPeriodic(v, k - 1);
      assert Turned(v, k + 4) == QuarterTurn(Turned(v, k + 3));
    } else {
      assert Turned(v, 0) == v;
      var v1 := Turned(v, 1);
      var v2 := Turned(v, 2);
      var v3 := Turned(v, 3);
      assert v1 == Vec3(-v.y, v.x, v.z);
      assert v2 == Vec3(-v.x, -v.y, v.z);
      assert v3 == Vec3(v.y, -v.x, v.z);
    }
  }

  /** Any number of turns keeps the height and the length of the axis in the plane. */
  lemma {:induction false} TurnedKeepsLength(v: Vec3, k: nat)
    ensures Turned(v, k).z == v.z
    ensures Turned(v, k).x * Turned(v, k).x + Turned(v, k).y * Turned(v, k).y == v.x * v.x + v.y * v.y
  {
    if k > 0 {
      TurnedKeepsLength(v, k - 1);
    }
  }

  /** `[t*0.6 + 0.1, 1.0 - t*0.6, 0.3]` for cell type `t`. */
  function TypeColor(t: int): (col: Color)
    ensures col.b == 0.3 && col.r + col.g == 1.1
    ensures t == 0 ==> col == Color(0.1, 1.0, 0.3)
    ensures t == 1 ==> col == Color(0.7, 0.4, 0.3)
    ensures 0 <= t <= 1 ==> InUnitCube(col)
  {
    Color(t as real * 0.6 + 0.1, 1.0 - t as real * 0.6, 0.3)
  }

  /** The rule `update` applies to one cell. */
  function Step(c: Cell): Cell {
    var colored := c.(color := TypeColor(c.cellType));
    if Oversized(c) then colored.(divideFlag := true, dir := QuarterTurn(c.dir)) else colored
  }

  /** The population after one call of `update`. */
  function Updated<K>(cells: map<K, Cell>): map<K, Cell> {
    map id | id in cells :: Step(cells[id])
  }

  /** `update(cells)`: one sweep over the dictionary. */
  method Update<K>(cells: map<K, Cell>) returns (r: map<K, Cell>)
    ensures r == Updated(cells)
  {
    r := MapCells(cells, Step);
  }

  /**
   * Every cell takes its type colour; an oversized cell is flagged and its
   * axis turned a quarter; the flag is never cleared; a cell that is not
   * oversized changes only its colour. No id is added or removed.
   */
  lemma UpdatedFields<K>(cells: map<K, Cell>)
    ensures Updated(cells).Keys == cells.Keys
    ensures forall id :: id in cells ==>
      var r := Updated(cells)[id];
      var c := cells[id];
      && r.color == TypeColor(c.cellType)
      && (c.divideFlag ==> r.divideFlag)
      && (Oversized(c) ==> r.divideFlag && r.dir == QuarterTurn(c.dir) && r == c.(color := r.color, divideFlag := true, dir := r.dir))
      && (!Oversized(c) ==> r == c.(color := r.color))
  {
  }

  /**
   * The axis of a cell that `update` finds oversized on `k` consecutive
   * ticks (the engine not having divided it) has made `k` quarter turns.
   */
  function Repeated(c: Cell, k: nat): Cell {
    if k == 0 then c else Step(Repeated(c, k - 1))
  }

  lemma {:induction false} RepeatedTurns(c: Cell, k: nat)
    requires Oversized(c)
    ensures Repeated(c, k).dir == Turned(c.dir, k)
    ensures Oversized(Repeated(c, k))
    ensures k > 0 ==> Repeated(c, k).divideFlag
  {
    if k > 0 {
      RepeatedTurns(c, k - 1);
    }
  }

  /** `init(cell)`: target volume in `[1, 1.5]`, growth rate 2; nothing else is set. */
  function Init(c: Cell, u: real): (r: Cell)
    requires 0.0 <= u <= TARGET_JITTER
    ensures TARGET_BASE <= r.targetVol <= TARGET_BASE + TARGET_JITTER
    ensures r.growthRate == GROWTH_RATE
    ensures r == c.(targetVol := r.targetVol, growthRate := r.growthRate)
  {
    c.(targetVol := TARGET_BASE + u, growthRate := GROWTH_RATE)
  }

  /**
   * `divide(parent, d1, d2)`: each daughter draws its own target volume in
   * `[1, 1.5]`; nothing else is set, so type, rate and colour are whatever
   * the engine copied from the parent.
   */
  function Divide(parent: Cell, d1: Cell, d2: Cell, u1: real, u2: real): (r: (Cell, Cell))
    requires 0.0 <= u1 <= TARGET_JITTER && 0.0 <= u2 <= TARGET_JITTER
    ensures TARGET_BASE <= r.0.targetVol <= TARGET_BASE + TARGET_JITTER
    ensures TARGET_BASE <= r.1.targetVol <= TARGET_BASE + TARGET_JITTER
    ensures r.0 == d1.(targetVol := r.0.targetVol) && r.1 == d2.(targetVol := r.1.targetVol)
  {
    (d1.(targetVol := TARGET_BASE + u1), d2.(targetVol := TARGET_BASE + u2))
  }
}
