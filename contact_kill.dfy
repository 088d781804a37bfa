/**
 * `contact_kill.py`: SA (type 0) die on contact with PA (type 1). With
 * contact killing on, `update` indexes the PA cells in a uniform spatial
 * hash with buckets as large as the kill radius and kills every SA that has
 * a PA within the kill radius, found by the 3x3 neighbourhood scan. Dead
 * cells decay and are removed after `DEAD_LIFETIME` ticks; growth is slowed
 * by the global crowding factor.
 */
module ContactKill {
  import opened CellState
  import opened Lifecycle
  import opened Population
  import opened SpatialHash
  import opened ContactSweep

  const SA_MU: real := 1.8
  const PA_MU: real := 0.6
  const DIV_LENGTH_MEAN_PA: real := 3.5
  const DIV_LENGTH_MEAN_SA: real := 1.0
  const SA_JITTER: real := 0.15
  const PA_JITTER: real := 0.5

  const MAX_CELLS: int := 10000
  const CARRYING_CAPACITY: int := MAX_CELLS

  const COL_SA: Color := Color(0.0, 1.0, 0.0)
  const COL_PA: Color := Color(0.0, 0.0, 1.0)

  const EFFECTIVE_RADIUS_SA: real := 1.0
  const EFFECTIVE_RADIUS_PA: real := 1.0
  const KILL_RADIUS: real := EFFECTIVE_RADIUS_SA + EFFECTIVE_RADIUS_PA
  const KILL_RADIUS_SQ: real := KILL_RADIUS * KILL_RADIUS
  /** Buckets as large as the kill radius, which the scan needs. */
  const GRID_SIZE: real := KILL_RADIUS

  /** The script's killing switch. */
  datatype Config = Config(contactKilling: bool)

  const CONFIG: Config := Config(contactKilling := true)

  /** The first-pass rule for a cell that is not SA: PA grow, dead cells decay. */
  function Other(crowd: real, c: Cell): (Cell, bool) {
    if c.cellType == PA_TYPE then
      (c.(growthRate := PA_MU * crowd, divideFlag := Oversized(c), deadCounter := 0), false)
    else if c.cellType == DEAD_TYPE then Decay(c)
    else (c, false)
  }

  /** The first pass resets an SA's counter before its fate is known. */
  function SaFirst(c: Cell): Cell {
    c.(deadCounter := 0)
  }

  /** An SA that survived the scan. */
  function GrowSa(crowd: real, c: Cell): Cell {
    c.(growthRate := SA_MU * crowd, divideFlag := Oversized(c))
  }

  /** The rule of one tick for one cell, given whether a PA is within the kill radius of it. */
  function Step(crowd: real, hit: bool, c: Cell): (Cell, bool) {
    if c.cellType == SA_TYPE then
      (if hit then Killed(SaFirst(c)) else GrowSa(crowd, SaFirst(c)), false)
    else Other(crowd, c)
  }

  /** The reference rule: the contact test is brute force over every PA of the pre-tick population. */
  ghost function SpecFn<K>(cfg: Config, cells: map<K, Cell>, crowd: real): Cell -> (Cell, bool) {
    (c: Cell) => Step(crowd, cfg.contactKilling && PaWithin(cells, c.pos.x, c.pos.y, KILL_RADIUS_SQ), c)
  }

  /** The population after one call of `update`. */
  ghost function Updated<K>(cfg: Config, cells: map<K, Cell>): map<K, Cell> {
    Tick(cells, SpecFn(cfg, cells, CrowdFactor(|cells|, CARRYING_CAPACITY)))
  }

  /**
   * `update(cells)`: without contact killing one sweep; with it the
   * classification pass, the SA pass with the 3x3 scan, then the removals.
   * Either way the result is the brute-force reference.
   */
  method Update<K>(cfg: Config, cells: map<K, Cell>) returns (r: map<K, Cell>)
    ensures r == Updated(cfg, cells)
  {
    var crowd := CrowdFactor(|cells|, CARRYING_CAPACITY);
    ghost var spec := SpecFn(cfg, cells, crowd);
    if !cfg.contactKilling {
      var plain := c => Step(crowd, false, c);
      r := SweepThenRemove(cells, plain);
      TickAgrees(cells, plain, spec);
      return;
    }
    assert cfg == Config(true);
    r := UpdateWithContact(cells);
  }

  /** The contact-killing branch of `update`: classification pass, SA pass with the 3x3 scan, removals. */
  method UpdateWithContact<K>(cells: map<K, Cell>) returns (r: map<K, Cell>)
    ensures r == Updated(Config(true), cells)
  {
    var crowd := CrowdFactor(|cells|, CARRYING_CAPACITY);
    ghost var spec := SpecFn(Config(true), cells, crowd);
    var other := (c: Cell) => Other(crowd, c);
    var never := (c: Cell) => false;
    var grow := (c: Cell) => GrowSa(crowd, c);
    var first, grid, saIds, removals := ClassifyPass(cells, GRID_SIZE, SaFirst, other);
    var swept := SaPass(first, grid, saIds, GRID_SIZE, KILL_RADIUS_SQ, true, never, grow);
    r := RemoveAll(swept, removals);
    SweptMatchesSpec(cells, crowd, grid, first, saIds, swept, other, never, grow);
    TickFromSweep(cells, spec, swept, removals);
  }

  /** After both passes, every cell holds what the brute-force reference rule makes of it. */
  lemma SweptMatchesSpec<K>(cells: map<K, Cell>, crowd: real, grid: Grid<K>, first: map<K, Cell>, saIds: seq<K>,
                            swept: map<K, Cell>, other: Cell -> (Cell, bool), never: Cell -> bool, grow: Cell -> Cell)
    requires forall c :: other(c) == Other(crowd, c) && !never(c) && grow(c) == GrowSa(crowd, c)
    requires Indexes(grid, cells, cells.Keys, GRID_SIZE)
    requires first.Keys == cells.Keys
    requires forall id :: id in cells && cells[id].cellType == SA_TYPE ==> first[id] == SaFirst(cells[id])
    requires forall id :: id in cells && cells[id].cellType != SA_TYPE ==> first[id] == other(cells[id]).0
    requires forall i :: 0 <= i < |saIds| ==> saIds[i] in cells && cells[saIds[i]].cellType == SA_TYPE
    requires forall id :: id in cells && cells[id].cellType == SA_TYPE ==> id in saIds
    requires swept.Keys == first.Keys
    requires forall id :: id in first && id !in saIds ==> swept[id] == first[id]
    requires forall i :: 0 <= i < |saIds| ==>
      swept[saIds[i]] == SaFate(grid, GRID_SIZE, KILL_RADIUS_SQ, true, never, grow, first[saIds[i]])
    ensures forall id :: id in cells ==> swept[id] == SpecFn(Config(true), cells, crowd)(cells[id]).0
  {
    forall id | id in cells
      ensures swept[id] == SpecFn(Config(true), cells, crowd)(cells[id]).0
    {
      if cells[id].cellType == SA_TYPE {
        var i :| 0 <= i < |saIds| && saIds[i] == id;
        SaSwept(cells, crowd, grid, first[id], swept[id], id, never, grow);
      } else {
        assert id !in saIds;
      }
    }
  }

  /**
   * For one SA with contact killing on, the grid-based fate of the second
   * pass is the brute-force reference rule.
   */
  lemma SaSwept<K>(cells: map<K, Cell>, crowd: real, grid: Grid<K>, first: Cell, swept: Cell, id: K,
                   preKilled: Cell --> bool, grow: Cell --> Cell)
    requires id in cells && cells[id].cellType == SA_TYPE
    requires Indexes(grid, cells, cells.Keys, GRID_SIZE)
    requires first == SaFirst(cells[id])
    requires preKilled.requires(first) && !preKilled(first)
    requires grow.requires(first) && grow(first) == GrowSa(crowd, first)
    requires swept == SaFate(grid, GRID_SIZE, KILL_RADIUS_SQ, true, preKilled, grow, first)
    ensures swept == SpecFn(Config(true), cells, crowd)(cells[id]).0
  {
    var c := cells[id];
    assert KILL_RADIUS * KILL_RADIUS == KILL_RADIUS_SQ;
    ScanMatchesBruteForce(grid, cells, c.pos.x, c.pos.y, GRID_SIZE, KILL_RADIUS);
    var hit := NeighborHit(grid, GridIndex(c.pos.x, c.pos.y, GRID_SIZE), c.pos.x, c.pos.y, KILL_RADIUS_SQ);
    assert hit == PaWithin(cells, c.pos.x, c.pos.y, KILL_RADIUS_SQ);
    assert swept == if hit then Killed(first) else GrowSa(crowd, first);
  }

  /** What the per-cell rule does to each kind of cell. */
  lemma StepCases(crowd: real, hit: bool, c: Cell)
    ensures SameEngineFields(Step(crowd, hit, c).0, c)
    ensures Step(crowd, hit, c).1 <==> c.cellType == DEAD_TYPE && c.deadCounter + 1 >= DEAD_LIFETIME
    ensures c.cellType == DEAD_TYPE ==> Step(crowd, hit, c).0 == Decay(c).0
    ensures c.cellType == SA_TYPE ==>
      Step(crowd, hit, c).0 == (if hit then Killed(c) else GrowSa(crowd, c).(deadCounter := 0))
    ensures c.cellType == PA_TYPE ==>
      Step(crowd, hit, c).0 == c.(growthRate := PA_MU * crowd, divideFlag := Oversized(c), deadCounter := 0)
    ensures c.cellType != DEAD_TYPE && c.cellType != SA_TYPE && c.cellType != PA_TYPE ==> Step(crowd, hit, c).0 == c
  {
  }

  /** The rule `Updated` applies to one cell of the population. */
  lemma StepOf<K>(cfg: Config, cells: map<K, Cell>, id: K)
    requires id in cells
    ensures var s := Step(CrowdFactor(|cells|, CARRYING_CAPACITY),
                          cfg.contactKilling && PaWithin(cells, cells[id].pos.x, cells[id].pos.y, KILL_RADIUS_SQ),
                          cells[id]);
            var r := Updated(cfg, cells);
            (id in r <==> !s.1) && (id in r ==> r[id] == s.0)
  {
  }

  /**
   * Only dead cells disappear, and a dead cell disappears exactly on the tick
   * its counter reaches `DEAD_LIFETIME`; no cell is added.
   */
  lemma UpdatedRemovesOnlyExpiredDead<K>(cfg: Config, cells: map<K, Cell>)
    ensures Updated(cfg, cells).Keys <= cells.Keys
    ensures forall id :: id in cells ==>
      (id !in Updated(cfg, cells) <==>
         cells[id].cellType == DEAD_TYPE && cells[id].deadCounter + 1 >= DEAD_LIFETIME)
  {
    forall id | id in cells
      ensures id !in Updated(cfg, cells) <==>
              cells[id].cellType == DEAD_TYPE && cells[id].deadCounter + 1 >= DEAD_LIFETIME
    {
      StepOf(cfg, cells, id);
    }
  }

  /**
   * An SA dies exactly when contact killing is on and some PA of the
   * pre-tick population lies within the kill radius; it is then in the
   * killed state (counter 0) and still present. Otherwise it grows at
   * `SA_MU * crowd`, its flag says whether it is oversized, and its counter is 0.
   */
  lemma UpdatedSaFate<K>(cfg: Config, cells: map<K, Cell>, id: K)
    requires id in cells && cells[id].cellType == SA_TYPE
    ensures var r := Updated(cfg, cells);
            var c := cells[id];
            && id in r
            && (r[id].cellType == DEAD_TYPE <==>
                  cfg.contactKilling && PaWithin(cells, c.pos.x, c.pos.y, KILL_RADIUS_SQ))
            && (r[id].cellType == DEAD_TYPE ==> r[id] == Killed(c))
            && (r[id].cellType != DEAD_TYPE ==>
                  && r[id].cellType == SA_TYPE
                  && r[id].growthRate == SA_MU * CrowdFactor(|cells|, CARRYING_CAPACITY)
                  && r[id].divideFlag == Oversized(c) && r[id].deadCounter == 0)
  {
    StepOf(cfg, cells, id);
  }

  /** A PA is never killed or removed; it grows at `PA_MU * crowd`, at most `PA_MU`. */
  lemma UpdatedPaFate<K>(cfg: Config, cells: map<K, Cell>, id: K)
    requires id in cells && cells[id].cellType == PA_TYPE
    ensures var r := Updated(cfg, cells);
            && id in r && r[id].cellType == PA_TYPE
            && r[id].growthRate == PA_MU * CrowdFactor(|cells|, CARRYING_CAPACITY)
            && 0.0 <= r[id].growthRate <= PA_MU
            && r[id].divideFlag == Oversized(cells[id]) && r[id].deadCounter == 0
  {
    StepOf(cfg, cells, id);
  }

  /**
   * No cell is revived or retyped other than SA to dead; without contact
   * killing no cell changes type at all. The hooks never write geometry,
   * chemistry or the division target.
   */
  lemma UpdatedTypes<K>(cfg: Config, cells: map<K, Cell>)
    ensures forall id :: id in Updated(cfg, cells) ==>
      && SameEngineFields(Updated(cfg, cells)[id], cells[id])
      && (Updated(cfg, cells)[id].cellType == cells[id].cellType ||
          (cells[id].cellType == SA_TYPE && Updated(cfg, cells)[id].cellType == DEAD_TYPE))
      && (!cfg.contactKilling ==> Updated(cfg, cells)[id].cellType == cells[id].cellType)
  {
    forall id | id in Updated(cfg, cells)
      ensures && SameEngineFields(Updated(cfg, cells)[id], cells[id])
              && (Updated(cfg, cells)[id].cellType == cells[id].cellType ||
                  (cells[id].cellType == SA_TYPE && Updated(cfg, cells)[id].cellType == DEAD_TYPE))
              && (!cfg.contactKilling ==> Updated(cfg, cells)[id].cellType == cells[id].cellType)
    {
      StepOf(cfg, cells, id);
    }
  }

  /**
   * `init(cell)`: SA and PA get their rate, colour and a target volume in
   * their range; any other cell stops growing and turns grey, and keeps its
   * target volume. Flags are cleared.
   */
  function Init(c: Cell, u: real): (r: Cell)
    requires c.cellType == SA_TYPE ==> 0.0 <= u <= SA_JITTER
    requires c.cellType == PA_TYPE ==> 0.0 <= u <= PA_JITTER
    ensures r.cellType == c.cellType && SameGeometry(r, c)
    ensures !r.divideFlag && r.deadCounter == 0
    ensures c.cellType == SA_TYPE ==>
      r.growthRate == SA_MU && r.color == COL_SA &&
      DIV_LENGTH_MEAN_SA <= r.targetVol <= DIV_LENGTH_MEAN_SA + SA_JITTER
    ensures c.cellType == PA_TYPE ==>
      r.growthRate == PA_MU && r.color == COL_PA &&
      DIV_LENGTH_MEAN_PA <= r.targetVol <= DIV_LENGTH_MEAN_PA + PA_JITTER
    ensures c.cellType != SA_TYPE && c.cellType != PA_TYPE ==>
      r.growthRate == 0.0 && r.color == COL_DEAD && r.targetVol == c.targetVol
  {
    var set1 :=
      if c.cellType == SA_TYPE then c.(growthRate := SA_MU, color := COL_SA, targetVol := DIV_LENGTH_MEAN_SA + u)
      else if c.cellType == PA_TYPE then c.(growthRate := PA_MU, color := COL_PA, targetVol := DIV_LENGTH_MEAN_PA + u)
      else c.(growthRate := 0.0, color := COL_DEAD);
    set1.(divideFlag := false, deadCounter := 0)
  }

  /** What `divide` writes into one daughter of a parent of type `t`. */
  function Daughter(t: int, d: Cell, u: real): Cell {
    var typed := d.(cellType := t);
    var set1 :=
      if t == SA_TYPE then typed.(color := COL_SA, growthRate := SA_MU, targetVol := DIV_LENGTH_MEAN_SA + u)
      else if t == PA_TYPE then typed.(color := COL_PA, growthRate := PA_MU, targetVol := DIV_LENGTH_MEAN_PA + u)
      else typed;
    set1.(divideFlag := false, deadCounter := 0)
  }

  /**
   * `divide(parent, d1, d2)`: both daughters inherit the parent's type; SA
   * and PA daughters get their colour, rate and an independently drawn
   * target volume in their range; flags are cleared on both.
   */
  function Divide(parent: Cell, d1: Cell, d2: Cell, u1: real, u2: real): (r: (Cell, Cell))
    requires parent.cellType == SA_TYPE ==> 0.0 <= u1 <= SA_JITTER && 0.0 <= u2 <= SA_JITTER
    requires parent.cellType == PA_TYPE ==> 0.0 <= u1 <= PA_JITTER && 0.0 <= u2 <= PA_JITTER
    ensures r.0.cellType == parent.cellType && r.1.cellType == parent.cellType
    ensures SameGeometry(r.0, d1) && SameGeometry(r.1, d2)
    ensures !r.0.divideFlag && !r.1.divideFlag && r.0.deadCounter == 0 && r.1.deadCounter == 0
    ensures parent.cellType == SA_TYPE ==>
      && r.0.growthRate == SA_MU && r.1.growthRate == SA_MU && r.0.color == COL_SA && r.1.color == COL_SA
      && DIV_LENGTH_MEAN_SA <= r.0.targetVol <= DIV_LENGTH_MEAN_SA + SA_JITTER
      && DIV_LENGTH_MEAN_SA <= r.1.targetVol <= DIV_LENGTH_MEAN_SA + SA_JITTER
    ensures parent.cellType == PA_TYPE ==>
      && r.0.growthRate == PA_MU && r.1.growthRate == PA_MU && r.0.color == COL_PA && r.1.color == COL_PA
      && DIV_LENGTH_MEAN_PA <= r.0.targetVol <= DIV_LENGTH_MEAN_PA + PA_JITTER
      && DIV_LENGTH_MEAN_PA <= r.1.targetVol <= DIV_LENGTH_MEAN_PA + PA_JITTER
    ensures parent.cellType != SA_TYPE && parent.cellType != PA_TYPE ==>
      r.0 == d1.(cellType := parent.cellType, divideFlag := false, deadCounter := 0) &&
      r.1 == d2.(cellType := parent.cellType, divideFlag := false, deadCounter := 0)
  {
    (Daughter(parent.cellType, d1, u1), Daughter(parent.cellType, d2, u2))
  }

  /** An SA or PA daughter is exactly what `init` makes of a new cell of the parent's type. */
  lemma DivideMatchesInit(parent: Cell, d1: Cell, d2: Cell, u1: real, u2: real)
    requires parent.cellType == SA_TYPE || parent.cellType == PA_TYPE
    requires parent.cellType == SA_TYPE ==> 0.0 <= u1 <= SA_JITTER && 0.0 <= u2 <= SA_JITTER
    requires parent.cellType == PA_TYPE ==> 0.0 <= u1 <= PA_JITTER && 0.0 <= u2 <= PA_JITTER
    ensures Divide(parent, d1, d2, u1, u2).0 == Init(d1.(cellType := parent.cellType), u1)
    ensures Divide(parent, d1, d2, u1, u2).1 == Init(d2.(cellType := parent.cellType), u2)
  {
  }
}
