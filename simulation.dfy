/**
 * `simulation.py`: SA (type 0) are killed either by intracellular toxin
 * (`species[0]`, secreted by PA and exchanged through the membrane) or by
 * contact with a PA, found through the same spatial hash as in
 * `contact_kill.py`. The toxin test comes first; the contact scan runs only
 * for an SA the toxin has not killed. Dead cells decay and are removed.
 */
module Simulation {
  import opened CellState
  import opened Lifecycle
  import opened Population
  import opened SpatialHash
  import opened ContactSweep
  import opened Membrane

  const SA_MU: real := 1.8
  const PA_MU: real := 0.6
  const DIV_LENGTH_MEAN_PA: real := 3.5
  const DIV_LENGTH_MEAN_SA: real := 1.0
  const SA_JITTER: real := 0.15
  const PA_JITTER: real := 0.5
  const OTHER_TARGET_VOL: real := 3.0

  const MAX_CELLS: int := 20000
  const CARRYING_CAPACITY: int := MAX_CELLS

  const COL_SA: Color := Color(1.0, 0.0, 0.0)
  const COL_PA: Color := Color(0.0, 0.0, 1.0)
  const COL_OTHER: Color := Color(0.5, 0.5, 0.5)

  const EFFECTIVE_RADIUS_SA: real := 1.0
  const EFFECTIVE_RADIUS_PA: real := 1.0
  const KILL_RADIUS: real := EFFECTIVE_RADIUS_SA + EFFECTIVE_RADIUS_PA
  const KILL_RADIUS_SQ: real := KILL_RADIUS * KILL_RADIUS
  const GRID_SIZE: real := KILL_RADIUS

  const TOXIN_MEMBRANE_DIFF: real := 1.0
  const TOXIN_PROD_RATE_PA: real := 1.0
  const TOXIN_KILL_THRESHOLD: real := 0.5

  /** The two killing switches. */
  datatype Config = Config(contactKilling: bool, diffusiveKilling: bool)

  const CONFIG: Config := Config(contactKilling := false, diffusiveKilling := true)

  /** The solver attaches one intracellular species, the toxin. */
  predicate HasSpecies(c: Cell) {
    |c.species| >= 1
  }

  function BaseColor(t: int): Color {
    if t == SA_TYPE then COL_SA else if t == PA_TYPE then COL_PA else COL_OTHER
  }

  /** `min(tox / TOXIN_KILL_THRESHOLD, 1)`: reaches 1 exactly at the kill threshold. */
  function ToxinLevel(tox: real): (norm: real)
    ensures norm <= 1.0
    ensures tox >= 0.0 ==> 0.0 <= norm
    ensures norm == 1.0 <==> tox >= TOXIN_KILL_THRESHOLD
    ensures tox == 0.0 ==> norm == 0.0
  {
    Min(tox / TOXIN_KILL_THRESHOLD, 1.0)
  }

  /**
   * `toxin_to_color`: dead cells are grey; with diffusive killing the base
   * colour fades to white with the intracellular toxin, reaching white at
   * the kill threshold; otherwise the base colour.
   */
  function ToxinColor(cfg: Config, c: Cell): (col: Color)
    requires HasSpecies(c)
    ensures c.cellType == DEAD_TYPE ==> col == COL_DEAD
    ensures c.cellType != DEAD_TYPE && !cfg.diffusiveKilling ==> col == BaseColor(c.cellType)
    ensures c.cellType != DEAD_TYPE && cfg.diffusiveKilling && c.species[0] >= 0.0 ==>
      && InUnitCube(col)
      && col.r >= BaseColor(c.cellType).r && col.g >= BaseColor(c.cellType).g && col.b >= BaseColor(c.cellType).b
      && (col == Color(1.0, 1.0, 1.0) <==> c.species[0] >= TOXIN_KILL_THRESHOLD)
      && (c.species[0] == 0.0 ==> col == BaseColor(c.cellType))
  {
    if c.cellType == DEAD_TYPE then COL_DEAD
    else if cfg.diffusiveKilling then
      var norm := ToxinLevel(c.species[0]);
      if c.species[0] >= 0.0 then
        WhitenBounds(BaseColor(c.cellType), norm);
        Whiten(BaseColor(c.cellType), norm)
      else
        Whiten(BaseColor(c.cellType), norm)
    else BaseColor(c.cellType)
  }

  /** The first-pass rule for a cell that is not SA: PA grow and take the toxin colour, dead cells decay. */
  function Other(cfg: Config, crowd: real, c: Cell): (Cell, bool)
    requires HasSpecies(c)
  {
    if c.cellType == PA_TYPE then
      (c.(growthRate := PA_MU * crowd, divideFlag := Oversized(c), deadCounter := 0, color := ToxinColor(cfg, c)), false)
    else if c.cellType == DEAD_TYPE then Decay(c)
    else (c, false)
  }

  /** The first pass resets an SA's counter before its fate is known. */
  function SaFirst(c: Cell): Cell {
    c.(deadCounter := 0)
  }

  /** The diffusive test: intracellular toxin at or above the threshold. */
  predicate Poisoned(cfg: Config, c: Cell)
    requires HasSpecies(c)
  {
    cfg.diffusiveKilling && c.species[0] >= TOXIN_KILL_THRESHOLD
  }

  /** An SA that survived both tests. */
  function GrowSa(cfg: Config, crowd: real, c: Cell): Cell
    requires HasSpecies(c)
  {
    c.(growthRate := SA_MU * crowd, divideFlag := Oversized(c), color := ToxinColor(cfg, c))
  }

  /** The rule of one tick for one cell, given whether contact killing found a PA near it. */
  function Step(cfg: Config, crowd: real, hit: bool, c: Cell): (Cell, bool)
    requires HasSpecies(c)
  {
    if c.cellType == SA_TYPE then
      (if Poisoned(cfg, c) || hit then Killed(SaFirst(c)) else GrowSa(cfg, crowd, SaFirst(c)), false)
    else Other(cfg, crowd, c)
  }

  /** The reference rule: the contact test is brute force over every PA of the pre-tick population. */
  ghost function SpecFn<K>(cfg: Config, cells: map<K, Cell>, crowd: real): Cell --> (Cell, bool) {
    (c: Cell) requires HasSpecies(c) =>
      Step(cfg, crowd, cfg.contactKilling && PaWithin(cells, c.pos.x, c.pos.y, KILL_RADIUS_SQ), c)
  }

  /** The population after one call of `update`. */
  ghost function Updated<K>(cfg: Config, cells: map<K, Cell>): map<K, Cell>
    requires forall id :: id in cells ==> HasSpecies(cells[id])
  {
    Tick(cells, SpecFn(cfg, cells, CrowdFactor(|cells|, CARRYING_CAPACITY)))
  }

  /**
   * `update(cells)`: with both switches off one sweep; otherwise the
   * classification pass, the SA pass (toxin test, then the 3x3 scan when
   * contact killing is on), then the removals. Either way the result is the
   * brute-force reference.
   */
  method Update<K>(cfg: Config, cells: map<K, Cell>) returns (r: map<K, Cell>)
    requires forall id :: id in cells ==> HasSpecies(cells[id])
    ensures r == Updated(cfg, cells)
  {
    var crowd := CrowdFactor(|cells|, CARRYING_CAPACITY);
    ghost var spec := SpecFn(cfg, cells, crowd);
    if !cfg.contactKilling && !cfg.diffusiveKilling {
      var plain := (c: Cell) requires HasSpecies(c) => Step(cfg, crowd, false, c);
      r := SweepThenRemove(cells, plain);
      TickAgrees(cells, plain, spec);
      return;
    }
    var other := (c: Cell) requires HasSpecies(c) => Other(cfg, crowd, c);
    var first, grid, saIds, removals := ClassifyPass(cells, GRID_SIZE, SaFirst, other);
    forall i | 0 <= i < |saIds|
      ensures HasSpecies(first[saIds[i]])
    {
      assert HasSpecies(cells[saIds[i]]);
    }
    var poisoned := (c: Cell) requires HasSpecies(c) => Poisoned(cfg, c);
    var grow := (c: Cell) requires HasSpecies(c) => GrowSa(cfg, crowd, c);
    var swept := SaPass(first, grid, saIds, GRID_SIZE, KILL_RADIUS_SQ, cfg.contactKilling, poisoned, grow);
    r := RemoveAll(swept, removals);
    forall id | id in cells
      ensures swept[id] == spec(cells[id]).0
    {
      assert HasSpecies(cells[id]);
      if cells[id].cellType == SA_TYPE {
        var i :| 0 <= i < |saIds| && saIds[i] == id;
        SaSwept(cfg, cells, crowd, grid, first[id], swept[id], id, poisoned, grow);
      } else {
        assert id !in saIds;
      }
    }
    TickFromSweep(cells, spec, swept, removals);
  }

  /** For one SA, the grid-based fate of the second pass is the brute-force reference rule. */
  lemma SaSwept<K>(cfg: Config, cells: map<K, Cell>, crowd: real, grid: Grid<K>, first: Cell, swept: Cell, id: K,
                   preKilled: Cell --> bool, grow: Cell --> Cell)
    requires id in cells && cells[id].cellType == SA_TYPE && HasSpecies(cells[id])
    requires Indexes(grid, cells, cells.Keys, GRID_SIZE)
    requires first == SaFirst(cells[id])
    requires preKilled.requires(first) && preKilled(first) == Poisoned(cfg, first)
    requires grow.requires(first) && grow(first) == GrowSa(cfg, crowd, first)
    requires swept == SaFate(grid, GRID_SIZE, KILL_RADIUS_SQ, cfg.contactKilling, preKilled, grow, first)
    ensures swept == Step(cfg, crowd, cfg.contactKilling && PaWithin(cells, cells[id].pos.x, cells[id].pos.y, KILL_RADIUS_SQ), cells[id]).0
  {
    var c := cells[id];
    assert KILL_RADIUS * KILL_RADIUS == KILL_RADIUS_SQ;
    ScanMatchesBruteForce(grid, cells, c.pos.x, c.pos.y, GRID_SIZE, KILL_RADIUS);
    var hit := NeighborHit(grid, GridIndex(c.pos.x, c.pos.y, GRID_SIZE), c.pos.x, c.pos.y, KILL_RADIUS_SQ);
    assert hit == PaWithin(cells, c.pos.x, c.pos.y, KILL_RADIUS_SQ);
    assert Poisoned(cfg, first) == Poisoned(cfg, c);
    assert swept == if Poisoned(cfg, c) || (cfg.contactKilling && hit) then Killed(first) else GrowSa(cfg, crowd, first);
  }

  /** The rule `Updated` applies to one cell of the population. */
  lemma StepOf<K>(cfg: Config, cells: map<K, Cell>, id: K)
    requires forall id :: id in cells ==> HasSpecies(cells[id])
    requires id in cells && HasSpecies(cells[id])
    ensures var s := Step(cfg, CrowdFactor(|cells|, CARRYING_CAPACITY),
                          cfg.contactKilling && PaWithin(cells, cells[id].pos.x, cells[id].pos.y, KILL_RADIUS_SQ),
                          cells[id]);
            var r := Updated(cfg, cells);
            (id in r <==> !s.1) && (id in r ==> r[id] == s.0)
  {
  }

  /** What the per-cell rule does, whatever the contact test says. */
  lemma StepCases(cfg: Config, crowd: real, hit: bool, c: Cell)
    requires HasSpecies(c)
    ensures SameEngineFields(Step(cfg, crowd, hit, c).0, c)
    ensures Step(cfg, crowd, hit, c).1 <==> c.cellType == DEAD_TYPE && c.deadCounter + 1 >= DEAD_LIFETIME
    ensures c.cellType == DEAD_TYPE ==> Step(cfg, crowd, hit, c).0 == Decay(c).0
    ensures c.cellType == SA_TYPE ==>
      Step(cfg, crowd, hit, c).0 ==
        (if Poisoned(cfg, c) || hit then Killed(c) else GrowSa(cfg, crowd, c).(deadCounter := 0))
    ensures c.cellType == PA_TYPE ==> Step(cfg, crowd, hit, c).0 == Other(cfg, crowd, c).0
    ensures c.cellType != DEAD_TYPE && c.cellType != SA_TYPE && c.cellType != PA_TYPE ==>
      Step(cfg, crowd, hit, c).0 == c
  {
  }

  /**
   * Only dead cells disappear, and a dead cell disappears exactly on the tick
   * its counter reaches `DEAD_LIFETIME`; no cell is added.
   */
  lemma UpdatedRemovesOnlyExpiredDead<K>(cfg: Config, cells: map<K, Cell>)
    requires forall id :: id in cells ==> HasSpecies(cells[id])
    ensures Updated(cfg, cells).Keys <= cells.Keys
    ensures forall id :: id in cells ==>
      (id !in Updated(cfg, cells) <==>
         cells[id].cellType == DEAD_TYPE && cells[id].deadCounter + 1 >= DEAD_LIFETIME)
  {
    var u := Updated(cfg, cells);
    var crowd := CrowdFactor(|cells|, CARRYING_CAPACITY);
    forall id | id in cells
      ensures id !in u <==> cells[id].cellType == DEAD_TYPE && cells[id].deadCounter + 1 >= DEAD_LIFETIME
    {
      var c := cells[id];
      assert HasSpecies(c);
      StepOf(cfg, cells, id);
      StepCases(cfg, crowd, cfg.contactKilling && PaWithin(cells, c.pos.x, c.pos.y, KILL_RADIUS_SQ), c);
    }
  }

  /**
   * An SA dies exactly when its intracellular toxin has reached the
   * threshold under diffusive killing, or contact killing is on and some PA
   * of the pre-tick population is within the kill radius. A killed SA has
   * type 2, growth 0, no division and counter 0; a surviving one grows at
   * `SA_MU * crowd` with the toxin colour and counter 0.
   */
  lemma UpdatedSaFate<K>(cfg: Config, cells: map<K, Cell>, id: K)
    requires forall id :: id in cells ==> HasSpecies(cells[id])
    requires id in cells && cells[id].cellType == SA_TYPE && HasSpecies(cells[id])
    ensures var r := Updated(cfg, cells);
            var c := cells[id];
            && id in r
            && (r[id].cellType == DEAD_TYPE <==>
                  (cfg.diffusiveKilling && c.species[0] >= TOXIN_KILL_THRESHOLD) ||
                  (cfg.contactKilling && PaWithin(cells, c.pos.x, c.pos.y, KILL_RADIUS_SQ)))
            && (r[id].cellType == DEAD_TYPE ==> r[id] == Killed(c))
            && (r[id].cellType != DEAD_TYPE ==>
                  && r[id].cellType == SA_TYPE
                  && r[id].growthRate == SA_MU * CrowdFactor(|cells|, CARRYING_CAPACITY)
                  && r[id].divideFlag == Oversized(c) && r[id].deadCounter == 0
                  && r[id].color == ToxinColor(cfg, c))
  {
    StepOf(cfg, cells, id);
  }

  /** A PA is never killed or removed; it grows at `PA_MU * crowd` and takes the toxin colour. */
  lemma UpdatedPaFate<K>(cfg: Config, cells: map<K, Cell>, id: K)
    requires forall id :: id in cells ==> HasSpecies(cells[id])
    requires id in cells && cells[id].cellType == PA_TYPE && HasSpecies(cells[id])
    ensures var r := Updated(cfg, cells);
            && id in r && r[id].cellType == PA_TYPE
            && r[id].growthRate == PA_MU * CrowdFactor(|cells|, CARRYING_CAPACITY)
            && 0.0 <= r[id].growthRate <= PA_MU
            && r[id].divideFlag == Oversized(cells[id]) && r[id].deadCounter == 0
            && r[id].color == ToxinColor(cfg, cells[id])
  {
    StepOf(cfg, cells, id);
  }

  /**
   * Only an SA can change type, and only to dead; with both switches off no
   * cell changes type. The hooks never write geometry, chemistry or the
   * division target.
   */
  lemma UpdatedTypes<K>(cfg: Config, cells: map<K, Cell>)
    requires forall id :: id in cells ==> HasSpecies(cells[id])
    ensures forall id :: id in Updated(cfg, cells) ==>
      && SameEngineFields(Updated(cfg, cells)[id], cells[id])
      && (Updated(cfg, cells)[id].cellType == cells[id].cellType ||
          (cells[id].cellType == SA_TYPE && Updated(cfg, cells)[id].cellType == DEAD_TYPE))
      && (!cfg.contactKilling && !cfg.diffusiveKilling ==> Updated(cfg, cells)[id].cellType == cells[id].cellType)
  {
    forall id | id in Updated(cfg, cells)
      ensures && SameEngineFields(Updated(cfg, cells)[id], cells[id])
              && (Updated(cfg, cells)[id].cellType == cells[id].cellType ||
                  (cells[id].cellType == SA_TYPE && Updated(cfg, cells)[id].cellType == DEAD_TYPE))
              && (!cfg.contactKilling && !cfg.diffusiveKilling ==> Updated(cfg, cells)[id].cellType == cells[id].cellType)
    {
      assert HasSpecies(cells[id]);
      StepOf(cfg, cells, id);
      StepCases(cfg, CrowdFactor(|cells|, CARRYING_CAPACITY),
                cfg.contactKilling && PaWithin(cells, cells[id].pos.x, cells[id].pos.y, KILL_RADIUS_SQ), cells[id]);
    }
  }

  // ---------------------------------------------------------------------
  // Reaction kernels: one species (toxin_in) and one signal (toxin)
  // ---------------------------------------------------------------------

  /** `specRateCL`: PA produce toxin; every cell exchanges it with the grid. */
  function SpecRate(t: int, toxinIn: real, toxin: real, area: real, gridVolume: real): real
    requires gridVolume > 0.0
  {
    var ex := Exchange(TOXIN_MEMBRANE_DIFF, toxin, toxinIn, area, gridVolume);
    if t == PA_TYPE then TOXIN_PROD_RATE_PA + ex else ex
  }

  /** `sigRateCL`: the grid side of the exchange. */
  function SigRate(toxinIn: real, toxin: real, area: real, gridVolume: real): real
    requires gridVolume > 0.0
  {
    Outflux(TOXIN_MEMBRANE_DIFF, toxin, toxinIn, area, gridVolume)
  }

  /**
   * The exchange conserves toxin: inside and outside rates add up to the PA
   * production alone; the toxin flows into a cell exactly when the outside
   * is richer.
   */
  lemma KernelsConserveToxin(t: int, toxinIn: real, toxin: real, area: real, gridVolume: real)
    requires gridVolume > 0.0
    ensures SpecRate(t, toxinIn, toxin, area, gridVolume) + SigRate(toxinIn, toxin, area, gridVolume) ==
            (if t == PA_TYPE then TOXIN_PROD_RATE_PA else 0.0)
    ensures area > 0.0 && t != PA_TYPE ==>
      (SpecRate(t, toxinIn, toxin, area, gridVolume) > 0.0 <==> toxin > toxinIn)
  {
    OutfluxIsExchange(TOXIN_MEMBRANE_DIFF, toxin, toxinIn, area, gridVolume);
    if area > 0.0 {
      FluxSign(TOXIN_MEMBRANE_DIFF, toxin - toxinIn, area, gridVolume);
    }
  }

  // ---------------------------------------------------------------------
  // init and divide
  // ---------------------------------------------------------------------

  /**
   * `init(cell)`: SA and PA get their rate, colour and a target volume in
   * their range; any other cell stops growing, turns grey and gets target
   * 3. Flags are cleared.
   */
  function Init(c: Cell, u: real): (r: Cell)
    requires c.cellType == SA_TYPE ==> 0.0 <= u <= SA_JITTER
    requires c.cellType == PA_TYPE ==> 0.0 <= u <= PA_JITTER
    ensures r.cellType == c.cellType && SameGeometry(r, c)
    ensures !r.divideFlag && r.deadCounter == 0
    ensures c.cellType == SA_TYPE ==>
      r.growthRate == SA_MU && r.color == COL_SA &&
      DIV_LENGTH_MEAN_SA <= r.targetVol <= DIV_LENGTH_MEAN_SA + SA_JITTER
    ensures c.cellType == PA_TYPE ==>
      r.growthRate == PA_MU && r.color == COL_PA &&
      DIV_LENGTH_MEAN_PA <= r.targetVol <= DIV_LENGTH_MEAN_PA + PA_JITTER
    ensures c.cellType != SA_TYPE && c.cellType != PA_TYPE ==>
      r.growthRate == 0.0 && r.color == COL_DEAD && r.targetVol == OTHER_TARGET_VOL
  {
    var set1 :=
      if c.cellType == SA_TYPE then c.(growthRate := SA_MU, color := COL_SA, targetVol := DIV_LENGTH_MEAN_SA + u)
      else if c.cellType == PA_TYPE then c.(growthRate := PA_MU, color := COL_PA, targetVol := DIV_LENGTH_MEAN_PA + u)
      else c.(growthRate := 0.0, color := COL_DEAD, targetVol := OTHER_TARGET_VOL);
    set1.(divideFlag := false, deadCounter := 0)
  }

  /** What `divide` writes into one daughter of a parent of type `t`. */
  function Daughter(t: int, d: Cell, u: real): Cell {
    var typed := d.(cellType := t);
    var set1 :=
      if t == SA_TYPE then typed.(color := COL_SA, growthRate := SA_MU, targetVol := DIV_LENGTH_MEAN_SA + u)
      else if t == PA_TYPE then typed.(color := COL_PA, growthRate := PA_MU, targetVol := DIV_LENGTH_MEAN_PA + u)
      else typed;
    set1.(divideFlag := false, deadCounter := 0)
  }

  /**
   * `divide(parent, d1, d2)`: both daughters inherit the parent's type; SA
   * and PA daughters get their colour, rate and an independently drawn
   * target volume in their range; flags are cleared on both.
   */
  function Divide(parent: Cell, d1: Cell, d2: Cell, u1: real, u2: real): (r: (Cell, Cell))
    requires parent.cellType == SA_TYPE ==> 0.0 <= u1 <= SA_JITTER && 0.0 <= u2 <= SA_JITTER
    requires parent.cellType == PA_TYPE ==> 0.0 <= u1 <= PA_JITTER && 0.0 <= u2 <= PA_JITTER
    ensures r.0.cellType == parent.cellType && r.1.cellType == parent.cellType
    ensures SameGeometry(r.0, d1) && SameGeometry(r.1, d2)
    ensures !r.0.divideFlag && !r.1.divideFlag && r.0.deadCounter == 0 && r.1.deadCounter == 0
    ensures parent.cellType == SA_TYPE ==>
      && r.0.growthRate == SA_MU && r.1.growthRate == SA_MU && r.0.color == COL_SA && r.1.color == COL_SA
      && DIV_LENGTH_MEAN_SA <= r.0.targetVol <= DIV_LENGTH_MEAN_SA + SA_JITTER
      && DIV_LENGTH_MEAN_SA <= r.1.targetVol <= DIV_LENGTH_MEAN_SA + SA_JITTER
    ensures parent.cellType == PA_TYPE ==>
      && r.0.growthRate == PA_MU && r.1.growthRate == PA_MU && r.0.color == COL_PA && r.1.color == COL_PA
      && DIV_LENGTH_MEAN_PA <= r.0.targetVol <= DIV_LENGTH_MEAN_PA + PA_JITTER
      && DIV_LENGTH_MEAN_PA <= r.1.targetVol <= DIV_LENGTH_MEAN_PA + PA_JITTER
    ensures parent.cellType != SA_TYPE && parent.cellType != PA_TYPE ==>
      r.0 == d1.(cellType := parent.cellType, divideFlag := false, deadCounter := 0) &&
      r.1 == d2.(cellType := parent.cellType, divideFlag := false, deadCounter := 0)
  {
    (Daughter(parent.cellType, d1, u1), Daughter(parent.cellType, d2, u2))
  }

  /** An SA or PA daughter is exactly what `init` makes of a new cell of the parent's type. */
  lemma DivideMatchesInit(parent: Cell, d1: Cell, d2: Cell, u1: real, u2: real)
    requires parent.cellType == SA_TYPE || parent.cellType == PA_TYPE
    requires parent.cellType == SA_TYPE ==> 0.0 <= u1 <= SA_JITTER && 0.0 <= u2 <= SA_JITTER
    requires parent.cellType == PA_TYPE ==> 0.0 <= u1 <= PA_JITTER && 0.0 <= u2 <= PA_JITTER
    ensures Divide(parent, d1, d2, u1, u2).0 == Init(d1.(cellType := parent.cellType), u1)
    ensures Divide(parent, d1, d2, u1, u2).1 == Init(d2.(cellType := parent.cellType), u2)
  {
  }
}
