/**
 * `test_v2.py`: contact killing through the spatial hash, without crowding,
 * dead-cell removal or a dead counter. The neighbourhood scan is written as
 * two nested offset loops that leave only the innermost loop on a hit, so a
 * struck SA can be struck again; the strike is idempotent, so the outcome is
 * still "dead exactly when a PA is within the kill radius".
 */
module TestV2Kill {
  import opened CellState
  import opened Population
  import opened SpatialHash
  import opened ContactSweep

  const SA_MU: real := 1.8
  const PA_MU: real := 0.6
  const DIV_LENGTH_MEAN_PA: real := 3.5
  const DIV_LENGTH_MEAN_SA: real := 1.0
  const SA_JITTER: real := 0.15
  const PA_JITTER: real := 0.5

  const COL_SA: Color := Color(1.0, 0.0, 0.0)
  const COL_PA: Color := Color(0.0, 0.0, 1.0)

  const KILL_RADIUS: real := 2.0
  const KILL_RADIUS_SQ: real := KILL_RADIUS * KILL_RADIUS
  const GRID_SIZE: real := KILL_RADIUS

  /** The script's killing switch. */
  datatype Config = Config(contactKilling: bool)

  const CONFIG: Config := Config(contactKilling := false)

  /** The kill assignment of this script: dead, not growing, not dividing, grey; the counter is not touched. */
  function Struck(c: Cell): (r: Cell)
    ensures r.cellType == DEAD_TYPE && r.growthRate == 0.0 && !r.divideFlag && r.color == COL_DEAD
    ensures r.deadCounter == c.deadCounter && SameEngineFields(r, c)
  {
    c.(cellType := DEAD_TYPE, growthRate := 0.0, divideFlag := false, color := COL_DEAD)
  }

  /** Striking a struck cell again changes nothing: the repeated hits of the scan are harmless. */
  lemma StrikeIdempotent(c: Cell)
    ensures Struck(Struck(c)) == Struck(c)
  {
  }

  /** The dead-cell rule: growth stops and the cell stays grey; any other non-SA, non-PA cell is left alone. */
  function Rest(c: Cell): Cell {
    if c.cellType == DEAD_TYPE then c.(growthRate := 0.0, divideFlag := false, color := COL_DEAD) else c
  }

  function GrowSa(c: Cell): Cell {
    c.(growthRate := SA_MU, divideFlag := Oversized(c))
  }

  function GrowPa(c: Cell): Cell {
    c.(growthRate := PA_MU, divideFlag := Oversized(c))
  }

  /** The rule of one tick for one cell, given whether a PA is within the kill radius of it. */
  function Step(hit: bool, c: Cell): Cell {
    if c.cellType == SA_TYPE then (if hit then Struck(c) else GrowSa(c))
    else if c.cellType == PA_TYPE then GrowPa(c)
    else Rest(c)
  }

  /** The population after one call of `update`: the contact test is brute force. */
  ghost function Updated<K>(cfg: Config, cells: map<K, Cell>): map<K, Cell> {
    map id | id in cells :: Step(cfg.contactKilling && PaWithin(cells, cells[id].pos.x, cells[id].pos.y, KILL_RADIUS_SQ), cells[id])
  }

  /**
   * The SA scan of lines 161-179: both offset loops run to the end unless
   * the outer one sees `killed` at the top of an iteration, and every hit
   * re-applies the strike. The cell ends struck exactly when some bucket of
   * the neighbourhood holds a PA within the radius.
   */
  method StrikeNeighbors<K>(grid: Grid<K>, k0: Key, x0: real, y0: real, c: Cell) returns (r: Cell, killed: bool)
    ensures killed <==> NeighborHit(grid, k0, x0, y0, KILL_RADIUS_SQ)
    ensures r == if killed then Struck(c) else c
  {
    r, killed := c, false;
    var dx := -1;
    while dx <= 1
      invariant -1 <= dx <= 2
      invariant r == if killed then Struck(c) else c
      invariant killed ==> NeighborHit(grid, k0, x0, y0, KILL_RADIUS_SQ)
      invariant !killed ==> forall j :: 0 <= j < 3 * (dx + 1) ==>
        !BucketHit(grid, Shift(k0, NEIGHBOR_OFFSETS[j]), x0, y0, KILL_RADIUS_SQ)
    {
      if killed {
        break;
      }
      var dy := -1;
      while dy <= 1
        invariant -1 <= dy <= 2
        invariant r == if killed then Struck(c) else c
        invariant killed ==> NeighborHit(grid, k0, x0, y0, KILL_RADIUS_SQ)
        invariant !killed ==> forall j :: 0 <= j < 3 * (dx + 1) + (dy + 1) ==>
          !BucketHit(grid, Shift(k0, NEIGHBOR_OFFSETS[j]), x0, y0, KILL_RADIUS_SQ)
      {
        OffsetAt(dx, dy);
        var key := (k0.0 + dx, k0.1 + dy);
        assert key == Shift(k0, NEIGHBOR_OFFSETS[3 * (dx + 1) + (dy + 1)]);
        if key in grid && |grid[key]| > 0 {
          var hit := ScanBucket(grid[key], x0, y0, KILL_RADIUS_SQ);
          if hit {
            r := Struck(r);
            killed := true;
          }
        }
        dy := dy + 1;
      }
      dx := dx + 1;
    }
  }

  /**
   * The SA pass: `for cid in sa_ids`, strike the SA if the scan finds a PA
   * nearby, otherwise grow it. Cells that are not listed are left alone.
   */
  method StrikeSa<K>(r0: map<K, Cell>, grid: Grid<K>, saIds: seq<K>) returns (r: map<K, Cell>)
    requires forall i :: 0 <= i < |saIds| ==> saIds[i] in r0 && r0[saIds[i]].cellType == SA_TYPE
    requires forall i, j :: 0 <= i < j < |saIds| ==> saIds[i] != saIds[j]
    ensures r.Keys == r0.Keys
    ensures forall id :: id in r0 && id !in saIds ==> r[id] == r0[id]
    ensures forall i :: 0 <= i < |saIds| ==>
      var c := r0[saIds[i]];
      r[saIds[i]] == Step(NeighborHit(grid, GridIndex(c.pos.x, c.pos.y, GRID_SIZE), c.pos.x, c.pos.y, KILL_RADIUS_SQ), c)
  {
    r := r0;
    for k := 0 to |saIds|
      invariant r.Keys == r0.Keys
      invariant forall id :: id in r0 && id !in saIds[..k] ==> r[id] == r0[id]
      invariant forall i :: 0 <= i < k ==>
        var c := r0[saIds[i]];
        r[saIds[i]] == Step(NeighborHit(grid, GridIndex(c.pos.x, c.pos.y, GRID_SIZE), c.pos.x, c.pos.y, KILL_RADIUS_SQ), c)
    {
      var cid := saIds[k];
      assert cid !in saIds[..k];
      var c := r[cid];
      var x0, y0 := c.pos.x, c.pos.y;
      var struck, killed := StrikeNeighbors(grid, GridIndex(x0, y0, GRID_SIZE), x0, y0, c);
      if !killed {
        struck := GrowSa(c);
      }
      r := r[cid := struck];
      assert saIds[..k + 1] == saIds[..k] + [cid];
    }
    assert saIds[..|saIds|] == saIds;
  }

  /**
   * The PA pass of lines 187-191: every entry of every bucket grows its PA.
   * A PA listed twice is grown twice, to the same result.
   */
  method GrowIndexedPa<K>(r0: map<K, Cell>, grid: Grid<K>) returns (r: map<K, Cell>)
    requires forall k, e :: k in grid && e in grid[k] ==> e.id in r0 && r0[e.id].cellType == PA_TYPE
    ensures r.Keys == r0.Keys
    ensures forall k, e :: k in grid && e in grid[k] ==> r[e.id] == GrowPa(r0[e.id])
    ensures forall id :: id in r0 ==> r[id] == r0[id] || (r0[id].cellType == PA_TYPE && r[id] == GrowPa(r0[id]))
  {
    r := r0;
    var todo := grid.Keys;
    ghost var done: set<K> := {};
    while todo != {}
      invariant todo <= grid.Keys && r.Keys == r0.Keys
      invariant forall id :: id in done ==> id in r0 && r0[id].cellType == PA_TYPE && r[id] == GrowPa(r0[id])
      invariant forall id :: id in r0 && id !in done ==> r[id] == r0[id]
      invariant forall k, e :: k in grid && k !in todo && e in grid[k] ==> e.id in done
      decreases todo
    {
      var key := Pick(todo);
      var list := grid[key];
      for i := 0 to |list|
        invariant r.Keys == r0.Keys
        invariant forall id :: id in done ==> id in r0 && r0[id].cellType == PA_TYPE && r[id] == GrowPa(r0[id])
        invariant forall id :: id in r0 && id !in done ==> r[id] == r0[id]
        invariant forall k, e :: k in grid && k !in todo && e in grid[k] ==> e.id in done
        invariant forall j :: 0 <= j < i ==> list[j].id in done
      {
        var cid := list[i].id;
        assert list[i] in grid[key];
        r := r[cid := GrowPa(r[cid])];
        done := done + {cid};
      }
      todo := todo - {key};
    }
  }

  /**
   * `update(cells)`: with contact killing off, one rewriting sweep;
   * otherwise the classification pass, the SA strike pass and the PA pass
   * over the grid. Either way the result is the brute-force reference, and
   * no cell is removed.
   */
  method Update<K>(cfg: Config, cells: map<K, Cell>) returns (r: map<K, Cell>)
    ensures r == Updated(cfg, cells)
  {
    if !cfg.contactKilling {
      r := MapCells(cells, c => Step(false, c));
      return;
    }
    var first, grid, saIds, removals := ClassifyPass(cells, GRID_SIZE, c => c, c => (Rest(c), false));
    var struck := StrikeSa(first, grid, saIds);
    r := GrowIndexedPa(struck, grid);
    forall id | id in cells
      ensures r[id] == Updated(cfg, cells)[id]
    {
      var c := cells[id];
      if c.cellType == SA_TYPE {
        var i :| 0 <= i < |saIds| && saIds[i] == id;
        SaOutcome(cells, grid, c, struck[id]);
      } else {
        assert id !in saIds;
        if c.cellType == PA_TYPE {
          assert Entry(c.pos.x, c.pos.y, id) in grid[GridIndex(c.pos.x, c.pos.y, GRID_SIZE)];
        }
      }
    }
  }

  /** The grid-based outcome of one SA strike is the brute-force reference. */
  lemma SaOutcome<K>(cells: map<K, Cell>, grid: Grid<K>, c: Cell, struck: Cell)
    requires c.cellType == SA_TYPE
    requires Indexes(grid, cells, cells.Keys, GRID_SIZE)
    requires struck == Step(NeighborHit(grid, GridIndex(c.pos.x, c.pos.y, GRID_SIZE), c.pos.x, c.pos.y, KILL_RADIUS_SQ), c)
    ensures struck == Step(PaWithin(cells, c.pos.x, c.pos.y, KILL_RADIUS_SQ), c)
    ensures struck.cellType != PA_TYPE
  {
    assert KILL_RADIUS * KILL_RADIUS == KILL_RADIUS_SQ;
    ScanMatchesBruteForce(grid, cells, c.pos.x, c.pos.y, GRID_SIZE, KILL_RADIUS);
  }

  /** No cell is ever removed or added. */
  lemma UpdatedKeepsIds<K>(cfg: Config, cells: map<K, Cell>)
    ensures Updated(cfg, cells).Keys == cells.Keys
  {
  }

  /**
   * An SA is struck exactly when contact killing is on and some PA of the
   * pre-tick population is within the kill radius; a struck SA keeps its
   * counter; a surviving one grows at `SA_MU` (no crowding).
   */
  lemma UpdatedSaFate<K>(cfg: Config, cells: map<K, Cell>, id: K)
    requires id in cells && cells[id].cellType == SA_TYPE
    ensures var r := Updated(cfg, cells);
            var c := cells[id];
            && (r[id].cellType == DEAD_TYPE <==>
                  cfg.contactKilling && PaWithin(cells, c.pos.x, c.pos.y, KILL_RADIUS_SQ))
            && (r[id].cellType == DEAD_TYPE ==> r[id] == Struck(c))
            && (r[id].cellType != DEAD_TYPE ==>
                  r[id].cellType == SA_TYPE && r[id].growthRate == SA_MU && r[id].divideFlag == Oversized(c))
  {
  }

  /**
   * Every PA grows at exactly `PA_MU`; dead cells stay dead, grey and not
   * growing; only an SA changes type, and none does without contact
   * killing. The hooks never write geometry, chemistry or the counter.
   */
  lemma UpdatedOtherFates<K>(cfg: Config, cells: map<K, Cell>)
    ensures forall id :: id in cells ==>
      var r := Updated(cfg, cells);
      && SameEngineFields(r[id], cells[id]) && r[id].deadCounter == cells[id].deadCounter
      && (cells[id].cellType == PA_TYPE ==>
            r[id].cellType == PA_TYPE && r[id].growthRate == PA_MU && r[id].divideFlag == Oversized(cells[id]))
      && (cells[id].cellType == DEAD_TYPE ==>
            r[id].cellType == DEAD_TYPE && r[id].growthRate == 0.0 && !r[id].divideFlag)
      && (r[id].cellType != cells[id].cellType ==> cells[id].cellType == SA_TYPE && cfg.contactKilling)
  {
  }

  /**
   * `init(cell)`: SA and PA get their rate, colour and a target volume in
   * their range; any other cell stops growing and turns grey. Only the
   * division flag is cleared.
   */
  function Init(c: Cell, u: real): (r: Cell)
    requires c.cellType == SA_TYPE ==> 0.0 <= u <= SA_JITTER
    requires c.cellType == PA_TYPE ==> 0.0 <= u <= PA_JITTER
    ensures r.cellType == c.cellType && SameGeometry(r, c)
    ensures !r.divideFlag && r.deadCounter == c.deadCounter
    ensures c.cellType == SA_TYPE ==>
      r.growthRate == SA_MU && r.color == COL_SA &&
      DIV_LENGTH_MEAN_SA <= r.targetVol <= DIV_LENGTH_MEAN_SA + SA_JITTER
    ensures c.cellType == PA_TYPE ==>
      r.growthRate == PA_MU && r.color == COL_PA &&
      DIV_LENGTH_MEAN_PA <= r.targetVol <= DIV_LENGTH_MEAN_PA + PA_JITTER
    ensures c.cellType != SA_TYPE && c.cellType != PA_TYPE ==>
      r.growthRate == 0.0 && r.color == COL_DEAD && r.targetVol == c.targetVol
  {
    var set1 :=
      if c.cellType == SA_TYPE then c.(growthRate := SA_MU, color := COL_SA, targetVol := DIV_LENGTH_MEAN_SA + u)
      else if c.cellType == PA_TYPE then c.(growthRate := PA_MU, color := COL_PA, targetVol := DIV_LENGTH_MEAN_PA + u)
      else c.(growthRate := 0.0, color := COL_DEAD);
    set1.(divideFlag := false)
  }

  /** What `divide` writes into one daughter of a parent of type `t`. */
  function Daughter(t: int, d: Cell, u: real): Cell {
    var typed := d.(cellType := t);
    var set1 :=
      if t == SA_TYPE then typed.(color := COL_SA, growthRate := SA_MU, targetVol := DIV_LENGTH_MEAN_SA + u)
      else if t == PA_TYPE then typed.(color := COL_PA, growthRate := PA_MU, targetVol := DIV_LENGTH_MEAN_PA + u)
      else typed;
    set1.(divideFlag := false)
  }

  /**
   * `divide(parent, d1, d2)`: both daughters inherit the parent's type; SA
   * and PA daughters get their colour, rate and an independently drawn
   * target volume in their range; the division flag is cleared on both.
   */
  function Divide(parent: Cell, d1: Cell, d2: Cell, u1: real, u2: real): (r: (Cell, Cell))
    requires parent.cellType == SA_TYPE ==> 0.0 <= u1 <= SA_JITTER && 0.0 <= u2 <= SA_JITTER
    requires parent.cellType == PA_TYPE ==> 0.0 <= u1 <= PA_JITTER && 0.0 <= u2 <= PA_JITTER
    ensures r.0.cellType == parent.cellType && r.1.cellType == parent.cellType
    ensures SameGeometry(r.0, d1) && SameGeometry(r.1, d2)
    ensures !r.0.divideFlag && !r.1.divideFlag
    ensures r.0.deadCounter == d1.deadCounter && r.1.deadCounter == d2.deadCounter
    ensures parent.cellType == SA_TYPE ==>
      && r.0.growthRate == SA_MU && r.1.growthRate == SA_MU && r.0.color == COL_SA && r.1.color == COL_SA
      && DIV_LENGTH_MEAN_SA <= r.0.targetVol <= DIV_LENGTH_MEAN_SA + SA_JITTER
      && DIV_LENGTH_MEAN_SA <= r.1.targetVol <= DIV_LENGTH_MEAN_SA + SA_JITTER
    ensures parent.cellType == PA_TYPE ==>
      && r.0.growthRate == PA_MU && r.1.growthRate == PA_MU && r.0.color == COL_PA && r.1.color == COL_PA
      && DIV_LENGTH_MEAN_PA <= r.0.targetVol <= DIV_LENGTH_MEAN_PA + PA_JITTER
      && DIV_LENGTH_MEAN_PA <= r.1.targetVol <= DIV_LENGTH_MEAN_PA + PA_JITTER
    ensures parent.cellType != SA_TYPE && parent.cellType != PA_TYPE ==>
      r.0 == d1.(cellType := parent.cellType, divideFlag := false) &&
      r.1 == d2.(cellType := parent.cellType, divideFlag := false)
  {
    (Daughter(parent.cellType, d1, u1), Daughter(parent.cellType, d2, u2))
  }

  /** An SA or PA daughter is exactly what `init` makes of a new cell of the parent's type. */
  lemma DivideMatchesInit(parent: Cell, d1: Cell, d2: Cell, u1: real, u2: real)
    requires parent.cellType == SA_TYPE || parent.cellType == PA_TYPE
    requires parent.cellType == SA_TYPE ==> 0.0 <= u1 <= SA_JITTER && 0.0 <= u2 <= SA_JITTER
    requires parent.cellType == PA_TYPE ==> 0.0 <= u1 <= PA_JITTER && 0.0 <= u2 <= PA_JITTER
    ensures Divide(parent, d1, d2, u1, u2).0 == Init(d1.(cellType := parent.cellType), u1)
    ensures Divide(parent, d1, d2, u1, u2).1 == Init(d2.(cellType := parent.cellType), u2)
  {
  }
}
