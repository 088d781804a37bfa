/**
 * `pasa.py`: two species growing side by side with no signals and no
 * killing. `update` only refreshes the division flag of every cell and the
 * base growth rate of SA and PA.
 */
module Pasa {
  import opened CellState
  import opened Population

  const SA_MU: real := 1.2
  const PA_MU: real := 0.6
  const DIV_LENGTH_MEAN_PA: real := 3.5
  const DIV_LENGTH_MEAN_SA: real := 1.0
  const SA_JITTER: real := 0.15
  const PA_JITTER: real := 0.5

  const COL_SA: Color := Color(0.20, 0.80, 0.20)
  const COL_PA: Color := Color(0.20, 0.40, 0.95)

  /** The rule `update` applies to one cell. */
  function Step(c: Cell): Cell {
    var flagged := c.(divideFlag := Oversized(c));
    if c.cellType == SA_TYPE then flagged.(growthRate := SA_MU)
    else if c.cellType == PA_TYPE then flagged.(growthRate := PA_MU)
    else flagged
  }

  /** The population after one call of `update`. */
  function Updated<K>(cells: map<K, Cell>): map<K, Cell> {
    map id | id in cells :: Step(cells[id])
  }

  /** `update(cells)`: one sweep over the dictionary. */
  method Update<K>(cells: map<K, Cell>) returns (r: map<K, Cell>)
    ensures r == Updated(cells)
  {
    r := MapCells(cells, Step);
  }

  /**
   * Every cell's flag says whether it is oversized; SA grow at `SA_MU`, PA
   * at `PA_MU`, other cells keep their rate; the set of ids, every type and
   * everything else are unchanged.
   */
  lemma UpdatedFields<K>(cells: map<K, Cell>)
    ensures Updated(cells).Keys == cells.Keys
    ensures forall id :: id in cells ==>
      var r := Updated(cells)[id];
      var c := cells[id];
      && r.divideFlag == Oversized(c)
      && r.growthRate == (if c.cellType == SA_TYPE then SA_MU else if c.cellType == PA_TYPE then PA_MU else c.growthRate)
      && r == c.(divideFlag := r.divideFlag, growthRate := r.growthRate)
  {
  }

  /** Running `update` twice in a row gives the same population as once: nothing accumulates. */
  lemma UpdateIdempotent<K>(cells: map<K, Cell>)
    ensures Updated(Updated(cells)) == Updated(cells)
  {
    var once := Updated(cells);
    forall id | id in once
      ensures Updated(once)[id] == once[id]
    {
      assert Step(Step(cells[id])) == Step(cells[id]);
    }
  }

  /**
   * `init(cell)`: SA and PA get their rate, colour and a target volume in
   * their range; other cells keep everything. The division flag is cleared.
   */
  function Init(c: Cell, u: real): (r: Cell)
    requires c.cellType == SA_TYPE ==> 0.0 <= u <= SA_JITTER
    requires c.cellType == PA_TYPE ==> 0.0 <= u <= PA_JITTER
    ensures r.cellType == c.cellType && SameGeometry(r, c) && !r.divideFlag && r.deadCounter == c.deadCounter
    ensures c.cellType == SA_TYPE ==>
      r.growthRate == SA_MU && r.color == COL_SA &&
      DIV_LENGTH_MEAN_SA <= r.targetVol <= DIV_LENGTH_MEAN_SA + SA_JITTER
    ensures c.cellType == PA_TYPE ==>
      r.growthRate == PA_MU && r.color == COL_PA &&
      DIV_LENGTH_MEAN_PA <= r.targetVol <= DIV_LENGTH_MEAN_PA + PA_JITTER
    ensures c.cellType != SA_TYPE && c.cellType != PA_TYPE ==> r == c.(divideFlag := false)
  {
    var set1 :=
      if c.cellType == SA_TYPE then c.(growthRate := SA_MU, color := COL_SA, targetVol := DIV_LENGTH_MEAN_SA + u)
      else if c.cellType == PA_TYPE then c.(growthRate := PA_MU, color := COL_PA, targetVol := DIV_LENGTH_MEAN_PA + u)
      else c;
    set1.(divideFlag := false)
  }

  /** What `divide` writes into one daughter of a parent of type `t`. */
  function Daughter(t: int, d: Cell, u: real): Cell {
    var typed := d.(cellType := t);
    var set1 :=
      if t == SA_TYPE then typed.(color := COL_SA, growthRate := SA_MU, targetVol := DIV_LENGTH_MEAN_SA + u)
      else if t == PA_TYPE then typed.(color := COL_PA, growthRate := PA_MU, targetVol := DIV_LENGTH_MEAN_PA + u)
      else typed;
    set1.(divideFlag := false)
  }

  /**
   * `divide(parent, d1, d2)`: both daughters inherit the parent's type; SA
   * and PA daughters get their colour, rate and an independently drawn
   * target volume in their range; the division flag is cleared on both.
   */
  function Divide(parent: Cell, d1: Cell, d2: Cell, u1: real, u2: real): (r: (Cell, Cell))
    requires parent.cellType == SA_TYPE ==> 0.0 <= u1 <= SA_JITTER && 0.0 <= u2 <= SA_JITTER
    requires parent.cellType == PA_TYPE ==> 0.0 <= u1 <= PA_JITTER && 0.0 <= u2 <= PA_JITTER
    ensures r.0.cellType == parent.cellType && r.1.cellType == parent.cellType
    ensures SameGeometry(r.0, d1) && SameGeometry(r.1, d2)
    ensures !r.0.divideFlag && !r.1.divideFlag
    ensures r.0.deadCounter == d1.deadCounter && r.1.deadCounter == d2.deadCounter
    ensures parent.cellType == SA_TYPE ==>
      && r.0.growthRate == SA_MU && r.1.growthRate == SA_MU && r.0.color == COL_SA && r.1.color == COL_SA
      && DIV_LENGTH_MEAN_SA <= r.0.targetVol <= DIV_LENGTH_MEAN_SA + SA_JITTER
      && DIV_LENGTH_MEAN_SA <= r.1.targetVol <= DIV_LENGTH_MEAN_SA + SA_JITTER
    ensures parent.cellType == PA_TYPE ==>
      && r.0.growthRate == PA_MU && r.1.growthRate == PA_MU && r.0.color == COL_PA && r.1.color == COL_PA
      && DIV_LENGTH_MEAN_PA <= r.0.targetVol <= DIV_LENGTH_MEAN_PA + PA_JITTER
      && DIV_LENGTH_MEAN_PA <= r.1.targetVol <= DIV_LENGTH_MEAN_PA + PA_JITTER
    ensures parent.cellType != SA_TYPE && parent.cellType != PA_TYPE ==>
      r.0 == d1.(cellType := parent.cellType, divideFlag := false) &&
      r.1 == d2.(cellType := parent.cellType, divideFlag := false)
  {
    (Daughter(parent.cellType, d1, u1), Daughter(parent.cellType, d2, u2))
  }

  /** A daughter of any parent is exactly what `init` makes of a new cell of the parent's type. */
  lemma DivideMatchesInit(parent: Cell, d1: Cell, d2: Cell, u1: real, u2: real)
    requires parent.cellType == SA_TYPE ==> 0.0 <= u1 <= SA_JITTER && 0.0 <= u2 <= SA_JITTER
    requires parent.cellType == PA_TYPE ==> 0.0 <= u1 <= PA_JITTER && 0.0 <= u2 <= PA_JITTER
    ensures Divide(parent, d1, d2, u1, u2).0 == Init(d1.(cellType := parent.cellType), u1)
    ensures Divide(parent, d1, d2, u1, u2).1 == Init(d2.(cellType := parent.cellType), u2)
  {
  }
}
