/**
 * `diffusion_kill.py`: SA (type 0) and PA (type 1) without quorum sensing.
 * PA always produce toxin and the growth inhibitor; SA grow more slowly
 * under the inhibitor and, with diffusive killing on, die once the
 * extracellular toxin reaches the threshold. Dead cells (type 2) decay and
 * are removed after `DEAD_LIFETIME` ticks.
 */
module DiffusionKill {
  import opened CellState
  import opened Lifecycle
  import opened Population
  import opened Membrane

  const SA_MU: real := 1.8
  const PA_MU: real := 0.6
  const DIV_LENGTH_MEAN_PA: real := 3.5
  const DIV_LENGTH_MEAN_SA: real := 1.0
  const SA_JITTER: real := 0.15
  const PA_JITTER: real := 0.5
  const OTHER_TARGET_VOL: real := 3.0

  const MAX_CELLS: int := 10000
  const CARRYING_CAPACITY: int := MAX_CELLS

  const COL_SA: Color := Color(0.0, 1.0, 0.0)
  const COL_PA: Color := Color(0.0, 0.0, 1.0)
  const COL_OTHER: Color := Color(0.5, 0.5, 0.5)

  const TOXIN_MEMBRANE_DIFF: real := 10.0
  const TOXIN_PROD_RATE_PA: real := 1.0
  const TOXIN_KILL_THRESHOLD: real := 0.5
  const INHIB_MEMBRANE_DIFF: real := 10.0
  const INHIB_PROD_RATE_PA: real := 1.0
  const INHIB_EFFECT_STRENGTH: real := 1.0
  /** The inhibitor concentration at which an SA is drawn fully yellow. */
  const INHIB_COLOR_REF: real := 1.0 / INHIB_EFFECT_STRENGTH

  const N_SIGNALS: nat := 2

  /** The script's module-level switches. */
  datatype Config = Config(
    diffusiveKilling: bool, inhibitorOn: bool, colorByToxin: bool, colorByInhibitor: bool)

  /** The switches as the script sets them. */
  const CONFIG: Config := Config(
    diffusiveKilling := false, inhibitorOn := true, colorByToxin := false, colorByInhibitor := true)

  predicate HasSignals(c: Cell) {
    |c.signals| >= N_SIGNALS
  }

  /** `max(0, 1 - alpha * c)`, or 1 with the inhibitor off. */
  function InhibitorGrowthFactor(cfg: Config, conc: real): (f: real)
    ensures 0.0 <= f
    ensures conc >= 0.0 ==> f <= 1.0
    ensures !cfg.inhibitorOn ==> f == 1.0
    ensures cfg.inhibitorOn ==> (f == 0.0 <==> conc >= 1.0 / INHIB_EFFECT_STRENGTH)
    ensures cfg.inhibitorOn && conc <= 1.0 / INHIB_EFFECT_STRENGTH ==> f == 1.0 - INHIB_EFFECT_STRENGTH * conc
  {
    if !cfg.inhibitorOn then 1.0 else Max(0.0, 1.0 - INHIB_EFFECT_STRENGTH * conc)
  }

  /** More inhibitor never means faster SA growth. */
  lemma InhibitorFactorAntitone(cfg: Config, c1: real, c2: real)
    requires c1 <= c2
    ensures InhibitorGrowthFactor(cfg, c2) <= InhibitorGrowthFactor(cfg, c1)
  {
  }

  /** The extracellular inhibitor an SA responds to: `signals[1]`, or 0 with the inhibitor off. */
  function InhibitorOut(cfg: Config, c: Cell): real
    requires cfg.inhibitorOn ==> |c.signals| >= 2
  {
    if cfg.inhibitorOn then c.signals[1] else 0.0
  }

  function BaseColor(t: int): Color {
    if t == SA_TYPE then COL_SA else if t == PA_TYPE then COL_PA else COL_OTHER
  }

  /** The signal values `cell_color` reads are present. */
  predicate ColorReadable(cfg: Config, c: Cell) {
    c.cellType != DEAD_TYPE ==>
      && (cfg.colorByInhibitor && c.cellType == SA_TYPE && cfg.inhibitorOn ==> |c.signals| >= 2)
      && (!(cfg.colorByInhibitor && c.cellType == SA_TYPE) && cfg.colorByToxin && cfg.diffusiveKilling ==>
            |c.signals| >= 1)
  }

  /** `min(toxin / threshold, 1)`, or 0 for a non-positive threshold. */
  function ToxinLevel(tox: real): (norm: real)
    ensures norm <= 1.0
    ensures tox >= 0.0 ==> 0.0 <= norm
    ensures norm == 1.0 <==> tox >= TOXIN_KILL_THRESHOLD
  {
    if TOXIN_KILL_THRESHOLD > 0.0 then Min(tox / TOXIN_KILL_THRESHOLD, 1.0) else 0.0
  }

  /**
   * `cell_color`: dead cells are grey; with inhibitor colouring an SA goes
   * from green to yellow as `min(inh / INHIB_COLOR_REF, 1)`; otherwise toxin
   * colouring (only with diffusive killing) fades the base colour to white,
   * reaching white at the kill threshold; otherwise the base colour.
   */
  function CellColor(cfg: Config, c: Cell): (col: Color)
    requires ColorReadable(cfg, c)
    ensures c.cellType == DEAD_TYPE ==> col == COL_DEAD
    ensures c.cellType == SA_TYPE && cfg.colorByInhibitor ==>
      col.g == 1.0 && col.b == 0.0 && col.r <= 1.0 &&
      (InhibitorOut(cfg, c) >= 0.0 ==> 0.0 <= col.r) &&
      (col.r == 1.0 <==> InhibitorOut(cfg, c) >= INHIB_COLOR_REF)
    ensures (c.cellType != DEAD_TYPE && !(c.cellType == SA_TYPE && cfg.colorByInhibitor) &&
             !(cfg.colorByToxin && cfg.diffusiveKilling)) ==> col == BaseColor(c.cellType)
    ensures (c.cellType != DEAD_TYPE && !(c.cellType == SA_TYPE && cfg.colorByInhibitor) &&
             cfg.colorByToxin && cfg.diffusiveKilling && c.signals[0] >= 0.0) ==>
      InUnitCube(col) && (col == Color(1.0, 1.0, 1.0) <==> c.signals[0] >= TOXIN_KILL_THRESHOLD)
  {
    var t := c.cellType;
    if t == DEAD_TYPE then COL_DEAD
    else if cfg.colorByInhibitor && t == SA_TYPE then
      var inh := InhibitorOut(cfg, c);
      var norm := if INHIB_COLOR_REF > 0.0 then Min(inh / INHIB_COLOR_REF, 1.0) else 0.0;
      Color(norm, 1.0, 0.0)
    else if cfg.colorByToxin && cfg.diffusiveKilling then
      var norm := ToxinLevel(c.signals[0]);
      if c.signals[0] >= 0.0 then
        WhitenBounds(BaseColor(t), norm);
        Whiten(BaseColor(t), norm)
      else
        Whiten(BaseColor(t), norm)
    else BaseColor(t)
  }

  /**
   * The reference concentration is `1 / alpha`, so the red channel of an SA
   * is exactly `1 - f` for its growth factor `f`, at every concentration:
   * the colour shows the growth effect.
   */
  lemma SaColorShowsGrowthEffect(cfg: Config, c: Cell)
    requires c.cellType == SA_TYPE && cfg.colorByInhibitor && ColorReadable(cfg, c)
    ensures CellColor(cfg, c).r == 1.0 - InhibitorGrowthFactor(cfg, InhibitorOut(cfg, c))
  {
  }

  /** `SA_MU * crowd * f`: SA growth under crowding and inhibition. */
  function SaRate(crowd: real, f: real): real {
    SA_MU * crowd * f
  }

  /** With both factors in `[0, 1]`, SA growth lies between 0 and `SA_MU`. */
  lemma SaRateWithin(crowd: real, f: real)
    requires 0.0 <= crowd <= 1.0 && 0.0 <= f <= 1.0
    ensures 0.0 <= SaRate(crowd, f) <= SA_MU
  {
    ScaleWithin(SA_MU, crowd);
    ScaleWithin(SA_MU * crowd, f);
  }

  /** A live SA that was not killed. */
  function GrownSa(cfg: Config, crowd: real, c: Cell): Cell
    requires HasSignals(c)
  {
    c.(growthRate := SaRate(crowd, InhibitorGrowthFactor(cfg, InhibitorOut(cfg, c))),
       divideFlag := Oversized(c),
       deadCounter := if cfg.diffusiveKilling then c.deadCounter else 0,
       color := CellColor(cfg, c))
  }

  /** A PA: crowded growth, blue. */
  function GrownPa(crowd: real, c: Cell): Cell {
    c.(growthRate := PA_MU * crowd, divideFlag := Oversized(c), deadCounter := 0, color := COL_PA)
  }

  /** The rule `update` applies to one cell (both branches). */
  function Step(cfg: Config, crowd: real, c: Cell): (Cell, bool)
    requires HasSignals(c)
  {
    if c.cellType == DEAD_TYPE then Decay(c)
    else if c.cellType == SA_TYPE then
      if cfg.diffusiveKilling && c.signals[0] >= TOXIN_KILL_THRESHOLD then (Killed(c), false)
      else (GrownSa(cfg, crowd, c), false)
    else if c.cellType == PA_TYPE then (GrownPa(crowd, c), false)
    else (c, false)
  }

  function StepFn(cfg: Config, crowd: real): Cell --> (Cell, bool) {
    c requires HasSignals(c) => Step(cfg, crowd, c)
  }

  /** The population after one call of `update`. */
  function Updated<K>(cfg: Config, cells: map<K, Cell>): map<K, Cell>
    requires forall id :: id in cells ==> HasSignals(cells[id])
  {
    Tick(cells, StepFn(cfg, CrowdFactor(|cells|, CARRYING_CAPACITY)))
  }

  /** `update(cells)`. */
  method Update<K>(cfg: Config, cells: map<K, Cell>) returns (r: map<K, Cell>)
    requires forall id :: id in cells ==> HasSignals(cells[id])
    ensures r == Updated(cfg, cells)
  {
    var crowd := CrowdFactor(|cells|, CARRYING_CAPACITY);
    r := SweepThenRemove(cells, StepFn(cfg, crowd));
  }

  /** What the per-cell rule does to each kind of cell. */
  lemma StepCases(cfg: Config, crowd: real, c: Cell)
    requires HasSignals(c)
    ensures SameEngineFields(Step(cfg, crowd, c).0, c)
    ensures Step(cfg, crowd, c).1 <==> c.cellType == DEAD_TYPE && c.deadCounter + 1 >= DEAD_LIFETIME
    ensures c.cellType == DEAD_TYPE ==> Step(cfg, crowd, c).0.cellType == DEAD_TYPE
    ensures c.cellType == SA_TYPE ==>
      if cfg.diffusiveKilling && c.signals[0] >= TOXIN_KILL_THRESHOLD
      then Step(cfg, crowd, c).0 == Killed(c)
      else Step(cfg, crowd, c).0 == GrownSa(cfg, crowd, c)
    ensures c.cellType == PA_TYPE ==> Step(cfg, crowd, c).0 == GrownPa(crowd, c)
    ensures c.cellType != DEAD_TYPE && c.cellType != SA_TYPE && c.cellType != PA_TYPE ==>
      Step(cfg, crowd, c).0 == c
  {
  }

  /** The rule `Updated` applied to one cell of the population. */
  lemma StepOf<K>(cfg: Config, cells: map<K, Cell>, id: K)
    requires forall id :: id in cells ==> HasSignals(cells[id])
    requires id in cells && HasSignals(cells[id])
    ensures var s := Step(cfg, CrowdFactor(|cells|, CARRYING_CAPACITY), cells[id]);
            var r := Updated(cfg, cells);
            (id in r <==> !s.1) && (id in r ==> r[id] == s.0)
  {
  }

  /**
   * Only dead cells disappear, and a dead cell disappears exactly on the tick
   * its counter reaches `DEAD_LIFETIME`; no cell is added.
   */
  lemma UpdatedRemovesOnlyExpiredDead<K>(cfg: Config, cells: map<K, Cell>)
    requires forall id :: id in cells ==> HasSignals(cells[id])
    ensures Updated(cfg, cells).Keys <= cells.Keys
    ensures forall id :: id in cells ==>
      (id !in Updated(cfg, cells) <==>
         cells[id].cellType == DEAD_TYPE && cells[id].deadCounter + 1 >= DEAD_LIFETIME)
  {
    var r := Updated(cfg, cells);
    forall id | id in cells
      ensures id !in r <==> cells[id].cellType == DEAD_TYPE && cells[id].deadCounter + 1 >= DEAD_LIFETIME
    {
      assert HasSignals(cells[id]);
      StepOf(cfg, cells, id);
      StepCases(cfg, CrowdFactor(|cells|, CARRYING_CAPACITY), cells[id]);
    }
  }

  /**
   * An SA dies this tick exactly when diffusive killing is on and its
   * extracellular toxin has reached the threshold; it is then in the killed
   * state and still in the population. Otherwise it grows at
   * `SA_MU * crowd * f`, at most `SA_MU` when the inhibitor is not negative.
   */
  lemma UpdatedSaFate<K>(cfg: Config, cells: map<K, Cell>, id: K)
    requires forall id :: id in cells ==> HasSignals(cells[id])
    requires id in cells && cells[id].cellType == SA_TYPE && HasSignals(cells[id])
    ensures var r := Updated(cfg, cells);
            var f := InhibitorGrowthFactor(cfg, InhibitorOut(cfg, cells[id]));
            && id in r
            && (r[id].cellType == DEAD_TYPE <==> cfg.diffusiveKilling && cells[id].signals[0] >= TOXIN_KILL_THRESHOLD)
            && (r[id].cellType == DEAD_TYPE ==> r[id] == Killed(cells[id]))
            && (r[id].cellType != DEAD_TYPE ==>
                  && r[id].growthRate == SaRate(CrowdFactor(|cells|, CARRYING_CAPACITY), f)
                  && r[id].divideFlag == Oversized(cells[id])
                  && (InhibitorOut(cfg, cells[id]) >= 0.0 ==> 0.0 <= r[id].growthRate <= SA_MU)
                  && r[id].deadCounter == (if cfg.diffusiveKilling then cells[id].deadCounter else 0))
  {
    var crowd := CrowdFactor(|cells|, CARRYING_CAPACITY);
    StepOf(cfg, cells, id);
    StepCases(cfg, crowd, cells[id]);
    if InhibitorOut(cfg, cells[id]) >= 0.0 {
      SaRateWithin(crowd, InhibitorGrowthFactor(cfg, InhibitorOut(cfg, cells[id])));
    }
  }

  /** A PA is never killed or removed, and grows at `PA_MU * crowd`, at most `PA_MU`. */
  lemma UpdatedPaFate<K>(cfg: Config, cells: map<K, Cell>, id: K)
    requires forall id :: id in cells ==> HasSignals(cells[id])
    requires id in cells && cells[id].cellType == PA_TYPE && HasSignals(cells[id])
    ensures var r := Updated(cfg, cells);
            && id in r && r[id].cellType == PA_TYPE
            && r[id].growthRate == PA_MU * CrowdFactor(|cells|, CARRYING_CAPACITY)
            && 0.0 <= r[id].growthRate <= PA_MU
            && r[id].divideFlag == Oversized(cells[id]) && r[id].deadCounter == 0 && r[id].color == COL_PA
  {
    StepOf(cfg, cells, id);
    StepCases(cfg, CrowdFactor(|cells|, CARRYING_CAPACITY), cells[id]);
  }

  /**
   * Dead cells stay dead, and the hooks never write geometry, chemistry or
   * the division target during a tick.
   */
  lemma UpdatedKeepsDeadAndEngineFields<K>(cfg: Config, cells: map<K, Cell>)
    requires forall id :: id in cells ==> HasSignals(cells[id])
    ensures forall id :: id in Updated(cfg, cells) && id in cells ==>
      SameEngineFields(Updated(cfg, cells)[id], cells[id]) &&
      (cells[id].cellType == DEAD_TYPE ==> Updated(cfg, cells)[id].cellType == DEAD_TYPE)
  {
    var r := Updated(cfg, cells);
    forall id | id in r && id in cells
      ensures SameEngineFields(r[id], cells[id]) &&
              (cells[id].cellType == DEAD_TYPE ==> r[id].cellType == DEAD_TYPE)
    {
      assert HasSignals(cells[id]);
      StepOf(cfg, cells, id);
      StepCases(cfg, CrowdFactor(|cells|, CARRYING_CAPACITY), cells[id]);
    }
  }

  /** With the script's switches no cell ever changes type: killing is off. */
  lemma ScriptNeverKills<K>(cells: map<K, Cell>)
    requires forall id :: id in cells ==> HasSignals(cells[id])
    ensures forall id :: id in Updated(CONFIG, cells) && id in cells ==>
      Updated(CONFIG, cells)[id].cellType == cells[id].cellType
  {
    var r := Updated(CONFIG, cells);
    forall id | id in r && id in cells
      ensures r[id].cellType == cells[id].cellType
    {
      assert HasSignals(cells[id]);
      StepOf(CONFIG, cells, id);
      StepCases(CONFIG, CrowdFactor(|cells|, CARRYING_CAPACITY), cells[id]);
    }
  }

  // ---------------------------------------------------------------------
  // Reaction kernels
  // ---------------------------------------------------------------------

  /** `specRateCL`: PA produce both molecules; every cell exchanges with the grid. */
  function SpecRates(t: int, ch: Chemistry): Rates
    requires ch.gridVolume > 0.0
  {
    var exTox := Exchange(TOXIN_MEMBRANE_DIFF, ch.toxin, ch.toxinIn, ch.area, ch.gridVolume);
    var exInh := Exchange(INHIB_MEMBRANE_DIFF, ch.inhibitor, ch.inhibitorIn, ch.area, ch.gridVolume);
    if t == PA_TYPE then Rates(TOXIN_PROD_RATE_PA + exTox, INHIB_PROD_RATE_PA + exInh)
    else Rates(exTox, exInh)
  }

  /** `sigRateCL`: the grid side of the exchange. */
  function SigRates(ch: Chemistry): Rates
    requires ch.gridVolume > 0.0
  {
    Rates(Outflux(TOXIN_MEMBRANE_DIFF, ch.toxin, ch.toxinIn, ch.area, ch.gridVolume),
          Outflux(INHIB_MEMBRANE_DIFF, ch.inhibitor, ch.inhibitorIn, ch.area, ch.gridVolume))
  }

  /**
   * Exchange conserves both molecules: across the two kernels only the PA
   * production is left, and nothing decays.
   */
  lemma KernelsConserveExchange(t: int, ch: Chemistry)
    requires ch.gridVolume > 0.0
    ensures SpecRates(t, ch).toxin + SigRates(ch).toxin == (if t == PA_TYPE then TOXIN_PROD_RATE_PA else 0.0)
    ensures SpecRates(t, ch).inhibitor + SigRates(ch).inhibitor == (if t == PA_TYPE then INHIB_PROD_RATE_PA else 0.0)
  {
    OutfluxIsExchange(TOXIN_MEMBRANE_DIFF, ch.toxin, ch.toxinIn, ch.area, ch.gridVolume);
    OutfluxIsExchange(INHIB_MEMBRANE_DIFF, ch.inhibitor, ch.inhibitorIn, ch.area, ch.gridVolume);
  }

  // ---------------------------------------------------------------------
  // init and divide
  // ---------------------------------------------------------------------

  /**
   * `init(cell)`: SA and PA get their rate, colour and a target volume in
   * their range; any other cell stops growing, turns grey and gets target
   * 3. Flags are cleared. `u` is the value `random.uniform` draws.
   */
  function Init(c: Cell, u: real): (r: Cell)
    requires c.cellType == SA_TYPE ==> 0.0 <= u <= SA_JITTER
    requires c.cellType == PA_TYPE ==> 0.0 <= u <= PA_JITTER
    ensures r.cellType == c.cellType && SameGeometry(r, c)
    ensures !r.divideFlag && r.deadCounter == 0
    ensures c.cellType == SA_TYPE ==>
      r.growthRate == SA_MU && r.color == COL_SA &&
      DIV_LENGTH_MEAN_SA <= r.targetVol <= DIV_LENGTH_MEAN_SA + SA_JITTER
    ensures c.cellType == PA_TYPE ==>
      r.growthRate == PA_MU && r.color == COL_PA &&
      DIV_LENGTH_MEAN_PA <= r.targetVol <= DIV_LENGTH_MEAN_PA + PA_JITTER
    ensures c.cellType != SA_TYPE && c.cellType != PA_TYPE ==>
      r.growthRate == 0.0 && r.color == COL_DEAD && r.targetVol == OTHER_TARGET_VOL
  {
    var set1 :=
      if c.cellType == SA_TYPE then c.(growthRate := SA_MU, color := COL_SA, targetVol := DIV_LENGTH_MEAN_SA + u)
      else if c.cellType == PA_TYPE then c.(growthRate := PA_MU, color := COL_PA, targetVol := DIV_LENGTH_MEAN_PA + u)
      else c.(growthRate := 0.0, color := COL_DEAD, targetVol := OTHER_TARGET_VOL);
    set1.(divideFlag := false, deadCounter := 0)
  }

  /** What `divide` writes into one daughter of a parent of type `t`. */
  function Daughter(t: int, d: Cell, u: real): Cell {
    var typed := d.(cellType := t);
    var set1 :=
      if t == SA_TYPE then typed.(color := COL_SA, growthRate := SA_MU, targetVol := DIV_LENGTH_MEAN_SA + u)
      else if t == PA_TYPE then typed.(color := COL_PA, growthRate := PA_MU, targetVol := DIV_LENGTH_MEAN_PA + u)
      else typed;
    set1.(divideFlag := false, deadCounter := 0)
  }

  /**
   * `divide(parent, d1, d2)`: both daughters inherit the parent's type; SA
   * and PA daughters get their colour, rate and an independently drawn
   * target volume in their range; flags are cleared on both.
   */
  function Divide(parent: Cell, d1: Cell, d2: Cell, u1: real, u2: real): (r: (Cell, Cell))
    requires parent.cellType == SA_TYPE ==> 0.0 <= u1 <= SA_JITTER && 0.0 <= u2 <= SA_JITTER
    requires parent.cellType == PA_TYPE ==> 0.0 <= u1 <= PA_JITTER && 0.0 <= u2 <= PA_JITTER
    ensures r.0.cellType == parent.cellType && r.1.cellType == parent.cellType
    ensures SameGeometry(r.0, d1) && SameGeometry(r.1, d2)
    ensures !r.0.divideFlag && !r.1.divideFlag && r.0.deadCounter == 0 && r.1.deadCounter == 0
    ensures parent.cellType == SA_TYPE ==>
      && r.0.growthRate == SA_MU && r.1.growthRate == SA_MU && r.0.color == COL_SA && r.1.color == COL_SA
      && DIV_LENGTH_MEAN_SA <= r.0.targetVol <= DIV_LENGTH_MEAN_SA + SA_JITTER
      && DIV_LENGTH_MEAN_SA <= r.1.targetVol <= DIV_LENGTH_MEAN_SA + SA_JITTER
    ensures parent.cellType == PA_TYPE ==>
      && r.0.growthRate == PA_MU && r.1.growthRate == PA_MU && r.0.color == COL_PA && r.1.color == COL_PA
      && DIV_LENGTH_MEAN_PA <= r.0.targetVol <= DIV_LENGTH_MEAN_PA + PA_JITTER
      && DIV_LENGTH_MEAN_PA <= r.1.targetVol <= DIV_LENGTH_MEAN_PA + PA_JITTER
    ensures parent.cellType != SA_TYPE && parent.cellType != PA_TYPE ==>
      r.0 == d1.(cellType := parent.cellType, divideFlag := false, deadCounter := 0) &&
      r.1 == d2.(cellType := parent.cellType, divideFlag := false, deadCounter := 0)
  {
    (Daughter(parent.cellType, d1, u1), Daughter(parent.cellType, d2, u2))
  }

  /** An SA or PA daughter is exactly what `init` makes of a new cell of the parent's type. */
  lemma DivideMatchesInit(parent: Cell, d1: Cell, d2: Cell, u1: real, u2: real)
    requires parent.cellType == SA_TYPE || parent.cellType == PA_TYPE
    requires parent.cellType == SA_TYPE ==> 0.0 <= u1 <= SA_JITTER && 0.0 <= u2 <= SA_JITTER
    requires parent.cellType == PA_TYPE ==> 0.0 <= u1 <= PA_JITTER && 0.0 <= u2 <= PA_JITTER
    ensures Divide(parent, d1, d2, u1, u2).0 == Init(d1.(cellType := parent.cellType), u1)
    ensures Divide(parent, d1, d2, u1, u2).1 == Init(d2.(cellType := parent.cellType), u2)
  {
  }
}
