/**
 * The regulation engine shared by the two quorum-sensing scripts
 * (`diffusion_kill_QS.py` and `diffusion_kill_QS_extracellular.py`).
 *
 * PA cells carry their production state in their type: silent (3) produce
 * nothing, inhibitor-only (4) produce the growth inhibitor, active (1)
 * produce toxin and inhibitor. Two one-way switches, the toxin QS and the
 * inhibitor QS, fire once when the PA population reaches their thresholds
 * and promote the PA cells. SA cells grow more slowly under the inhibitor
 * and, with diffusive killing on, die once the extracellular toxin reaches
 * the kill threshold.
 *
 * The two scripts run the same `update`; they differ in whether SA respond to
 * the inhibitor only after the inhibitor QS has fired (`responseGated`), and
 * in their reaction kernels, which live in their own modules.
 */
module QuorumSensing {
  import opened CellState
  import opened Lifecycle
  import opened Population

  /** PA production states (`PA_TYPE_*`). */
  const PA_TYPE_ACTIVE: int := 1
  const PA_TYPE_SILENT: int := 3
  const PA_TYPE_INHIB_ONLY: int := 4

  const SA_MU: real := 1.8
  const PA_MU: real := 0.6
  const DIV_LENGTH_MEAN_PA: real := 3.5
  const DIV_LENGTH_MEAN_SA: real := 1.0
  /** Upper ends of the `random.uniform(0, ...)` jitter added to the target volume. */
  const SA_JITTER: real := 0.15
  const PA_JITTER: real := 0.5
  /** The target volume `init` gives any cell that is neither SA nor PA. */
  const OTHER_TARGET_VOL: real := 3.0

  const MAX_CELLS: int := 2500
  const CARRYING_CAPACITY: int := MAX_CELLS * 5

  const COL_SA: Color := Color(0.0, 1.0, 0.0)
  const COL_PA_SILENT: Color := Color(0.0, 0.0, 1.0)
  const COL_PA_INHIB_ONLY: Color := Color(1.0, 0.5, 0.0)
  const COL_PA_ACTIVE: Color := Color(1.0, 0.0, 0.0)
  /** The base colour of a cell of any other type. */
  const COL_OTHER: Color := Color(0.5, 0.5, 0.5)
  const COL_WHITE: Color := Color(1.0, 1.0, 1.0)

  const TOXIN_KILL_THRESHOLD: real := 1.0
  const INHIB_EFFECT_STRENGTH: real := 0.5
  const INHIB_GROWTH_COST: real := 0.2
  const TOXIN_GROWTH_COST: real := 0.3
  const QS_POP_THRESHOLD_TOXIN: nat := 150
  const QS_POP_THRESHOLD_INHIB: nat := 30

  /** Both scripts run the grid with two signals: toxin (0) and inhibitor (1). */
  const N_SIGNALS: nat := 2

  /** The scripts' module-level switches. */
  datatype Config = Config(
    diffusiveKilling: bool,
    inhibitorOn: bool,
    qsOnToxin: bool,
    qsOnInhib: bool,
    colorByToxin: bool,
    colorByInhibitor: bool,
    /** SA respond to the inhibitor only once the inhibitor QS has fired. */
    responseGated: bool)

  /** The two global switches `QS_ACTIVE_TOXIN` and `QS_ACTIVE_INHIB`. */
  datatype QsFlags = QsFlags(toxin: bool, inhib: bool)

  /** Both switches start off. */
  const QS_START: QsFlags := QsFlags(false, false)

  predicate IsPa(t: int) {
    t == PA_TYPE_ACTIVE || t == PA_TYPE_SILENT || t == PA_TYPE_INHIB_ONLY
  }

  predicate IsPaCell(c: Cell) {
    IsPa(c.cellType)
  }

  /** What the reaction kernels let a PA state secrete. */
  predicate ProducesToxin(t: int) {
    t == PA_TYPE_ACTIVE
  }

  predicate ProducesInhibitor(t: int) {
    t == PA_TYPE_ACTIVE || t == PA_TYPE_INHIB_ONLY
  }

  /** How far a PA state has been promoted: silent 0, inhibitor-only 1, active 2. */
  function Activity(t: int): int {
    if t == PA_TYPE_SILENT then 0 else if t == PA_TYPE_INHIB_ONLY then 1 else 2
  }

  /** Every cell handed to `update` carries the grid's signal values. */
  predicate HasSignals(c: Cell) {
    |c.signals| >= N_SIGNALS
  }

  // ---------------------------------------------------------------------
  // Growth factors
  // ---------------------------------------------------------------------

  /** Whether the inhibitor slows SA down at all under these switches. */
  predicate InhibitionActive(cfg: Config, qs: QsFlags) {
    cfg.inhibitorOn && (!cfg.responseGated || qs.inhib)
  }

  /**
   * The factor `max(0, 1 - alpha * c)` on SA growth, or 1 when the inhibitor
   * is off or (in the gated script) its QS has not fired. It decreases
   * linearly from 1 and reaches 0 exactly at concentration `1 / alpha`.
   */
  function InhibitorGrowthFactor(cfg: Config, qs: QsFlags, conc: real): (f: real)
    ensures 0.0 <= f
    ensures conc >= 0.0 ==> f <= 1.0
    ensures !InhibitionActive(cfg, qs) ==> f == 1.0
    ensures InhibitionActive(cfg, qs) ==> (f == 0.0 <==> conc >= 1.0 / INHIB_EFFECT_STRENGTH)
    ensures InhibitionActive(cfg, qs) && conc <= 1.0 / INHIB_EFFECT_STRENGTH ==>
      f == 1.0 - INHIB_EFFECT_STRENGTH * conc
  {
    if !cfg.inhibitorOn || (cfg.responseGated && !qs.inhib) then 1.0
    else Max(0.0, 1.0 - INHIB_EFFECT_STRENGTH * conc)
  }

  /** More inhibitor never means faster SA growth. */
  lemma InhibitorFactorAntitone(cfg: Config, qs: QsFlags, c1: real, c2: real)
    requires c1 <= c2
    ensures InhibitorGrowthFactor(cfg, qs, c2) <= InhibitorGrowthFactor(cfg, qs, c1)
  {
  }

  /**
   * The metabolic cost of production on PA growth: each molecule a PA state
   * secretes (as the reaction kernels decide it) costs its share of growth.
   */
  function PaGrowthFactor(t: int): (f: real)
    ensures IsPa(t) ==> f == 1.0 - (if ProducesInhibitor(t) then INHIB_GROWTH_COST else 0.0)
                                 - (if ProducesToxin(t) then TOXIN_GROWTH_COST else 0.0)
    ensures !IsPa(t) ==> f == 1.0
    ensures 0.0 < f <= 1.0
  {
    if t == PA_TYPE_SILENT then 1.0
    else if t == PA_TYPE_INHIB_ONLY then Max(0.0, 1.0 - INHIB_GROWTH_COST)
    else if t == PA_TYPE_ACTIVE then Max(0.0, 1.0 - INHIB_GROWTH_COST - TOXIN_GROWTH_COST)
    else 1.0
  }

  /** The further a PA is promoted, the slower it grows. */
  lemma PromotionSlowsGrowth(t1: int, t2: int)
    requires IsPa(t1) && IsPa(t2) && Activity(t1) <= Activity(t2)
    ensures PaGrowthFactor(t2) <= PaGrowthFactor(t1)
    ensures Activity(t1) < Activity(t2) ==> PaGrowthFactor(t2) < PaGrowthFactor(t1)
  {
  }

  // ---------------------------------------------------------------------
  // Colour
  // ---------------------------------------------------------------------

  /** The per-type base colour, before any recolouring. */
  function BaseColor(t: int): Color {
    if t == SA_TYPE then COL_SA
    else if t == PA_TYPE_ACTIVE then COL_PA_ACTIVE
    else if t == PA_TYPE_INHIB_ONLY then COL_PA_INHIB_ONLY
    else if t == PA_TYPE_SILENT then COL_PA_SILENT
    else COL_OTHER
  }

  /** SA are recoloured by the inhibitor's growth effect. */
  predicate InhibitorTint(cfg: Config, qs: QsFlags, t: int) {
    cfg.colorByInhibitor && t == SA_TYPE && (!cfg.responseGated || qs.inhib)
  }

  /** Live cells fade to white with the extracellular toxin. */
  predicate ToxinTint(cfg: Config, qs: QsFlags) {
    cfg.colorByToxin && cfg.diffusiveKilling && qs.toxin
  }

  /** The signal values `cell_color` reads are present. */
  predicate ColorReadable(cfg: Config, qs: QsFlags, c: Cell) {
    c.cellType != DEAD_TYPE ==>
      && (InhibitorTint(cfg, qs, c.cellType) && cfg.inhibitorOn ==> |c.signals| >= 2)
      && (!InhibitorTint(cfg, qs, c.cellType) && ToxinTint(cfg, qs) ==> |c.signals| >= 1)
  }

  /** The extracellular inhibitor an SA responds to: `signals[1]`, or 0 with the inhibitor off. */
  function InhibitorOut(cfg: Config, c: Cell): real
    requires cfg.inhibitorOn ==> |c.signals| >= 2
  {
    if cfg.inhibitorOn then c.signals[1] else 0.0
  }

  /** `min(toxin / threshold, 1)`, or 0 for a non-positive threshold. */
  function ToxinLevel(tox: real): (norm: real)
    ensures norm <= 1.0
    ensures tox >= 0.0 ==> 0.0 <= norm
    ensures norm == 1.0 <==> tox >= TOXIN_KILL_THRESHOLD
  {
    if TOXIN_KILL_THRESHOLD > 0.0 then Min(tox / TOXIN_KILL_THRESHOLD, 1.0) else 0.0
  }

  /**
   * `cell_color`: dead cells are grey; a tinted SA shows its inhibitor growth
   * factor `f` as `[1 - f, 1, 0]` (green at full growth, yellow when growth
   * stops); otherwise toxin recolouring fades the base colour to white,
   * reaching white at the kill threshold; otherwise the base colour. The
   * colour is displayable whenever the concentrations it reads are not
   * negative.
   */
  function CellColor(cfg: Config, qs: QsFlags, c: Cell): (col: Color)
    requires ColorReadable(cfg, qs, c)
    ensures c.cellType == DEAD_TYPE ==> col == COL_DEAD
    ensures c.cellType != DEAD_TYPE && InhibitorTint(cfg, qs, c.cellType) ==>
      col == Color(1.0 - InhibitorGrowthFactor(cfg, qs, InhibitorOut(cfg, c)), 1.0, 0.0)
    ensures c.cellType != DEAD_TYPE && !InhibitorTint(cfg, qs, c.cellType) && !ToxinTint(cfg, qs) ==>
      col == BaseColor(c.cellType)
    ensures c.cellType != DEAD_TYPE && !InhibitorTint(cfg, qs, c.cellType) && ToxinTint(cfg, qs) && c.signals[0] >= 0.0 ==>
      && col.r >= BaseColor(c.cellType).r && col.g >= BaseColor(c.cellType).g && col.b >= BaseColor(c.cellType).b
      && (col == COL_WHITE <==> c.signals[0] >= TOXIN_KILL_THRESHOLD)
    ensures (forall i :: 0 <= i < |c.signals| ==> c.signals[i] >= 0.0) ==> InUnitCube(col)
  {
    var t := c.cellType;
    if t == DEAD_TYPE then COL_DEAD
    else if InhibitorTint(cfg, qs, t) then
      var f := InhibitorGrowthFactor(cfg, qs, InhibitorOut(cfg, c));
      Color(1.0 - f, 1.0, 0.0)
    else if ToxinTint(cfg, qs) then
      var norm := ToxinLevel(c.signals[0]);
      if c.signals[0] >= 0.0 then
        WhitenBounds(BaseColor(t), norm);
        Whiten(BaseColor(t), norm)
      else
        Whiten(BaseColor(t), norm)
    else BaseColor(t)
  }

  // ---------------------------------------------------------------------
  // Quorum sensing
  // ---------------------------------------------------------------------

  /** Which switches fire this tick, given the PA count before the tick. */
  function Fired(cfg: Config, qs: QsFlags, nPa: nat): QsFlags {
    QsFlags(cfg.qsOnToxin && !qs.toxin && nPa >= QS_POP_THRESHOLD_TOXIN,
            cfg.qsOnInhib && !qs.inhib && nPa >= QS_POP_THRESHOLD_INHIB)
  }

  /**
   * The switches after a tick: each one latches, and one that was off turns
   * on exactly when it is enabled and the PA count has reached its threshold.
   */
  function NextFlags(cfg: Config, qs: QsFlags, nPa: nat): (next: QsFlags)
    ensures qs.toxin ==> next.toxin
    ensures qs.inhib ==> next.inhib
    ensures !qs.toxin ==> (next.toxin <==> cfg.qsOnToxin && nPa >= QS_POP_THRESHOLD_TOXIN)
    ensures !qs.inhib ==> (next.inhib <==> cfg.qsOnInhib && nPa >= QS_POP_THRESHOLD_INHIB)
  {
    var fire := Fired(cfg, qs, nPa);
    QsFlags(qs.toxin || fire.toxin, qs.inhib || fire.inhib)
  }

  /** The switches after a run of ticks with the given PA counts. */
  function FlagsAfter(cfg: Config, qs: QsFlags, counts: seq<nat>): QsFlags
    decreases |counts|
  {
    if |counts| == 0 then qs else FlagsAfter(cfg, NextFlags(cfg, qs, counts[0]), counts[1..])
  }

  /**
   * Over any run, the toxin switch is on at the end exactly when it was on at
   * the start or toxin QS is enabled and some tick saw at least the threshold
   * number of PA; the same holds for the inhibitor switch.
   */
  lemma {:induction false} FlagsAfterLatch(cfg: Config, qs: QsFlags, counts: seq<nat>)
    ensures FlagsAfter(cfg, qs, counts).toxin <==>
      qs.toxin || (cfg.qsOnToxin && exists i :: 0 <= i < |counts| && counts[i] >= QS_POP_THRESHOLD_TOXIN)
    ensures FlagsAfter(cfg, qs, counts).inhib <==>
      qs.inhib || (cfg.qsOnInhib && exists i :: 0 <= i < |counts| && counts[i] >= QS_POP_THRESHOLD_INHIB)
    decreases |counts|
  {
    if |counts| > 0 {
      var next := NextFlags(cfg, qs, counts[0]);
      var rest := counts[1..];
      FlagsAfterLatch(cfg, next, rest);
      assert forall i :: 0 <= i < |rest| ==> rest[i] == counts[i + 1];
      if cfg.qsOnToxin && (exists i :: 0 <= i < |counts| && counts[i] >= QS_POP_THRESHOLD_TOXIN) {
        var i :| 0 <= i < |counts| && counts[i] >= QS_POP_THRESHOLD_TOXIN;
        if i > 0 {
          assert rest[i - 1] >= QS_POP_THRESHOLD_TOXIN;
        }
      }
      if cfg.qsOnInhib && (exists i :: 0 <= i < |counts| && counts[i] >= QS_POP_THRESHOLD_INHIB) {
        var i :| 0 <= i < |counts| && counts[i] >= QS_POP_THRESHOLD_INHIB;
        if i > 0 {
          assert rest[i - 1] >= QS_POP_THRESHOLD_INHIB;
        }
      }
    }
  }

  /** Inhibitor QS: silent PA become inhibitor-only. */
  function AfterInhibQs(c: Cell): Cell {
    if c.cellType == PA_TYPE_SILENT then c.(cellType := PA_TYPE_INHIB_ONLY) else c
  }

  /** Toxin QS: silent and inhibitor-only PA become active. */
  function AfterToxinQs(c: Cell): Cell {
    if c.cellType == PA_TYPE_SILENT || c.cellType == PA_TYPE_INHIB_ONLY then
      c.(cellType := PA_TYPE_ACTIVE)
    else c
  }

  /**
   * A cell after the switches that fire this tick, the inhibitor QS first.
   * Only the type of a PA changes, it stays a PA, its promotion never goes
   * back, and every PA is active once the toxin QS fires.
   */
  function Promote(fire: QsFlags, c: Cell): (r: Cell)
    ensures r == c.(cellType := r.cellType) && r.signals == c.signals
    ensures IsPa(r.cellType) <==> IsPa(c.cellType)
    ensures IsPa(c.cellType) ==> Activity(c.cellType) <= Activity(r.cellType)
    ensures !IsPa(c.cellType) ==> r == c
    ensures fire.toxin && IsPa(c.cellType) ==> r.cellType == PA_TYPE_ACTIVE
    ensures !fire.toxin && !fire.inhib ==> r == c
    ensures r.cellType == PA_TYPE_INHIB_ONLY ==> c.cellType == PA_TYPE_INHIB_ONLY || fire.inhib
    ensures r.cellType == PA_TYPE_ACTIVE ==> c.cellType == PA_TYPE_ACTIVE || fire.toxin
  {
    var c1 := if fire.inhib then AfterInhibQs(c) else c;
    if fire.toxin then AfterToxinQs(c1) else c1
  }

  // ---------------------------------------------------------------------
  // One tick
  // ---------------------------------------------------------------------

  /** `SA_MU * crowd * f`: SA growth under crowding and inhibition. */
  function SaRate(crowd: real, f: real): real {
    SA_MU * crowd * f
  }

  /** With both factors in `[0, 1]`, SA growth lies between 0 and `SA_MU`. */
  lemma SaRateWithin(crowd: real, f: real)
    requires 0.0 <= crowd <= 1.0 && 0.0 <= f <= 1.0
    ensures 0.0 <= SaRate(crowd, f) <= SA_MU
  {
    ScaleWithin(SA_MU, crowd);
    ScaleWithin(SA_MU * crowd, f);
  }

  /** `PA_MU * crowd * pa_growth_factor(t)`: PA growth under crowding and the cost of production. */
  function PaRate(crowd: real, t: int): real {
    PA_MU * crowd * PaGrowthFactor(t)
  }

  /** With `crowd` in `[0, 1]`, PA growth lies between 0 and `PA_MU`, whatever the state. */
  lemma PaRateWithin(crowd: real, t: int)
    requires 0.0 <= crowd <= 1.0
    ensures 0.0 <= PaRate(crowd, t) <= PA_MU
  {
    ScaleWithin(PA_MU, crowd);
    ScaleWithin(PA_MU * crowd, PaGrowthFactor(t));
  }

  /** A live SA that was not killed: inhibited, crowded growth. */
  function GrownSa(cfg: Config, qs: QsFlags, crowd: real, c: Cell): Cell
    requires HasSignals(c)
  {
    var f := InhibitorGrowthFactor(cfg, qs, InhibitorOut(cfg, c));
    c.(growthRate := SaRate(crowd, f),
       divideFlag := Oversized(c),
       deadCounter := if cfg.diffusiveKilling then c.deadCounter else 0,
       color := CellColor(cfg, qs, c))
  }

  /** A PA: crowded growth minus the cost of what it produces. */
  function GrownPa(cfg: Config, qs: QsFlags, crowd: real, c: Cell): Cell
    requires HasSignals(c)
  {
    c.(growthRate := PaRate(crowd, c.cellType),
       divideFlag := Oversized(c),
       deadCounter := 0,
       color := CellColor(cfg, qs, c))
  }

  /**
   * The rule `update` applies to one cell after the switches (both branches:
   * without diffusive killing no SA dies and SA counters are reset). The
   * second component says whether the cell is scheduled for removal.
   */
  function Step(cfg: Config, qs: QsFlags, crowd: real, c: Cell): (Cell, bool)
    requires HasSignals(c)
  {
    if c.cellType == DEAD_TYPE then Decay(c)
    else if c.cellType == SA_TYPE then
      if cfg.diffusiveKilling && c.signals[0] >= TOXIN_KILL_THRESHOLD then (Killed(c), false)
      else (GrownSa(cfg, qs, crowd, c), false)
    else if IsPa(c.cellType) then (GrownPa(cfg, qs, crowd, c), false)
    else (c, false)
  }

  function StepFn(cfg: Config, qs: QsFlags, crowd: real): Cell --> (Cell, bool) {
    c requires HasSignals(c) => Step(cfg, qs, crowd, c)
  }

  /** The cells after the switches that fire this tick. */
  function Promoted<K>(fire: QsFlags, cells: map<K, Cell>): (r: map<K, Cell>)
    ensures r.Keys == cells.Keys
    ensures forall id :: id in r ==> r[id] == Promote(fire, cells[id])
  {
    map id | id in cells :: Promote(fire, cells[id])
  }

  /** Promotion leaves the signal values alone. */
  lemma PromotedHasSignals<K>(fire: QsFlags, cells: map<K, Cell>)
    requires forall id :: id in cells ==> HasSignals(cells[id])
    ensures forall id :: id in Promoted(fire, cells) ==> HasSignals(Promoted(fire, cells)[id])
  {
    var p := Promoted(fire, cells);
    forall id | id in p
      ensures HasSignals(p[id])
    {
      assert HasSignals(cells[id]);
      assert p[id].signals == cells[id].signals;
    }
  }

  /** The two sweeps `update` runs when the switches fire give `Promoted`. */
  lemma PromotedInTwoSweeps<K>(fire: QsFlags, cells: map<K, Cell>, mid: map<K, Cell>, fin: map<K, Cell>)
    requires mid == if fire.inhib then (map id | id in cells :: AfterInhibQs(cells[id])) else cells
    requires fin == if fire.toxin then (map id | id in mid :: AfterToxinQs(mid[id])) else mid
    ensures fin == Promoted(fire, cells)
  {
    assert fin.Keys == Promoted(fire, cells).Keys;
    forall id | id in fin
      ensures fin[id] == Promoted(fire, cells)[id]
    {
    }
  }

  /** The population and the switches after one call of `update`. */
  function Updated<K>(cfg: Config, qs: QsFlags, cells: map<K, Cell>): (map<K, Cell>, QsFlags)
    requires forall id :: id in cells ==> HasSignals(cells[id])
  {
    var nPa := |IdsWhere(cells, IsPaCell)|;
    var fire := Fired(cfg, qs, nPa);
    var next := NextFlags(cfg, qs, nPa);
    var crowd := CrowdFactor(|cells|, CARRYING_CAPACITY);
    var promoted := Promoted(fire, cells);
    PromotedHasSignals(fire, cells);
    (Tick(promoted, StepFn(cfg, next, crowd)), next)
  }

  /**
   * The QS block of `update`: each switch that fires turns on and promotes
   * the PA cells, the inhibitor switch first.
   */
  method FireSwitches<K>(cfg: Config, qs: QsFlags, nPa: nat, cells: map<K, Cell>)
    returns (next: QsFlags, promoted: map<K, Cell>)
    ensures next == NextFlags(cfg, qs, nPa)
    ensures promoted == Promoted(Fired(cfg, qs, nPa), cells)
  {
    next := qs;
    ghost var fire := Fired(cfg, qs, nPa);
    var mid := cells;
    if cfg.qsOnInhib && !next.inhib && nPa >= QS_POP_THRESHOLD_INHIB {
      next := next.(inhib := true);
      mid := MapCells(cells, AfterInhibQs);
    }
    assert mid == if fire.inhib then (map id | id in cells :: AfterInhibQs(cells[id])) else cells;
    promoted := mid;
    if cfg.qsOnToxin && !next.toxin && nPa >= QS_POP_THRESHOLD_TOXIN {
      next := next.(toxin := true);
      promoted := MapCells(mid, AfterToxinQs);
    }
    assert promoted == if fire.toxin then (map id | id in mid :: AfterToxinQs(mid[id])) else mid;
    PromotedInTwoSweeps(fire, cells, mid, promoted);
  }

  /** The script's module globals and its `update` hook. */
  class Regulator {
    const cfg: Config
    /** `QS_ACTIVE_TOXIN`, `QS_ACTIVE_INHIB`. */
    var qs: QsFlags
    /** `STEP_COUNTER`. */
    var stepCounter: int

    constructor (cfg: Config)
      ensures this.cfg == cfg && qs == QS_START && stepCounter == 0
    {
      this.cfg := cfg;
      qs := QS_START;
      stepCounter := 0;
    }

    /** `update(cells)`: counts, fires the switches, then sweeps and pops. */
    method Update<K>(cells: map<K, Cell>) returns (r: map<K, Cell>)
      requires forall id :: id in cells ==> HasSignals(cells[id])
      modifies this
      ensures (r, qs) == Updated(cfg, old(qs), cells)
      ensures stepCounter == old(stepCounter) + 1
    {
      stepCounter := stepCounter + 1;
      var nPa := CountWhere(cells, IsPaCell);
      var crowd := CrowdFactor(|cells|, CARRYING_CAPACITY);
      var next, cur := FireSwitches(cfg, qs, nPa, cells);
      qs := next;
      r := SweepThenRemove(cur, StepFn(cfg, qs, crowd));
    }
  }

  // ---------------------------------------------------------------------
  // What a tick promises
  // ---------------------------------------------------------------------

  /** What the per-cell rule does to each kind of cell. */
  lemma StepCases(cfg: Config, qs: QsFlags, crowd: real, c: Cell)
    requires HasSignals(c)
    ensures SameEngineFields(Step(cfg, qs, crowd, c).0, c)
    ensures Step(cfg, qs, crowd, c).1 <==> c.cellType == DEAD_TYPE && c.deadCounter + 1 >= DEAD_LIFETIME
    ensures c.cellType == DEAD_TYPE ==> Step(cfg, qs, crowd, c).0.cellType == DEAD_TYPE
    ensures c.cellType == SA_TYPE ==>
      if cfg.diffusiveKilling && c.signals[0] >= TOXIN_KILL_THRESHOLD
      then Step(cfg, qs, crowd, c).0 == Killed(c)
      else Step(cfg, qs, crowd, c).0 == GrownSa(cfg, qs, crowd, c)
    ensures IsPa(c.cellType) ==> Step(cfg, qs, crowd, c).0 == GrownPa(cfg, qs, crowd, c)
    ensures c.cellType != DEAD_TYPE && c.cellType != SA_TYPE && !IsPa(c.cellType) ==>
      Step(cfg, qs, crowd, c).0 == c
  {
  }

  /** The rule `Updated` applied to one cell of the population. */
  lemma StepOf<K>(cfg: Config, qs: QsFlags, cells: map<K, Cell>, id: K)
    requires forall id :: id in cells ==> HasSignals(cells[id])
    requires id in cells && HasSignals(cells[id])
    ensures var nPa := |IdsWhere(cells, IsPaCell)|;
            var p := Promote(Fired(cfg, qs, nPa), cells[id]);
            var s := Step(cfg, NextFlags(cfg, qs, nPa), CrowdFactor(|cells|, CARRYING_CAPACITY), p);
            var r := Updated(cfg, qs, cells).0;
            HasSignals(p) && (id in r <==> !s.1) && (id in r ==> r[id] == s.0)
  {
    var nPa := |IdsWhere(cells, IsPaCell)|;
    var fire := Fired(cfg, qs, nPa);
    PromotedHasSignals(fire, cells);
    assert Promoted(fire, cells)[id] == Promote(fire, cells[id]);
  }

  /**
   * Only dead cells disappear, and a dead cell disappears exactly on the tick
   * its counter reaches `DEAD_LIFETIME`; no cell is added.
   */
  lemma UpdatedRemovesOnlyExpiredDead<K>(cfg: Config, qs: QsFlags, cells: map<K, Cell>)
    requires forall id :: id in cells ==> HasSignals(cells[id])
    ensures Updated(cfg, qs, cells).0.Keys <= cells.Keys
    ensures forall id :: id in cells ==>
      (id !in Updated(cfg, qs, cells).0 <==>
         cells[id].cellType == DEAD_TYPE && cells[id].deadCounter + 1 >= DEAD_LIFETIME)
  {
    forall id | id in cells
      ensures id !in Updated(cfg, qs, cells).0 <==>
        cells[id].cellType == DEAD_TYPE && cells[id].deadCounter + 1 >= DEAD_LIFETIME
    {
      RemovedIffExpired(cfg, qs, cells, id);
    }
    PromotedHasSignals(Fired(cfg, qs, |IdsWhere(cells, IsPaCell)|), cells);
  }

  /** One cell of `UpdatedRemovesOnlyExpiredDead`: promotion keeps its type dead or not, and its counter. */
  lemma RemovedIffExpired<K>(cfg: Config, qs: QsFlags, cells: map<K, Cell>, id: K)
    requires forall id :: id in cells ==> HasSignals(cells[id])
    requires id in cells
    ensures id !in Updated(cfg, qs, cells).0 <==>
      cells[id].cellType == DEAD_TYPE && cells[id].deadCounter + 1 >= DEAD_LIFETIME
  {
    var nPa := |IdsWhere(cells, IsPaCell)|;
    var c := cells[id];
    assert HasSignals(c);
    StepOf(cfg, qs, cells, id);
    var p := Promote(Fired(cfg, qs, nPa), c);
    StepCases(cfg, NextFlags(cfg, qs, nPa), CrowdFactor(|cells|, CARRYING_CAPACITY), p);
    assert p.deadCounter == c.deadCounter;
    assert p.cellType == DEAD_TYPE <==> c.cellType == DEAD_TYPE;
  }

  /**
   * An SA dies this tick exactly when diffusive killing is on and its
   * extracellular toxin has reached the threshold; it is then in the killed
   * state and is still in the population.
   */
  lemma UpdatedKillsExactlyPoisonedSa<K>(cfg: Config, qs: QsFlags, cells: map<K, Cell>, id: K)
    requires forall id :: id in cells ==> HasSignals(cells[id])
    requires id in cells && cells[id].cellType == SA_TYPE && HasSignals(cells[id])
    ensures var r := Updated(cfg, qs, cells).0;
            && id in r
            && (r[id].cellType == DEAD_TYPE <==> cfg.diffusiveKilling && cells[id].signals[0] >= TOXIN_KILL_THRESHOLD)
            && (r[id].cellType == DEAD_TYPE ==> r[id] == Killed(cells[id]))
  {
    var nPa := |IdsWhere(cells, IsPaCell)|;
    StepOf(cfg, qs, cells, id);
    StepCases(cfg, NextFlags(cfg, qs, nPa), CrowdFactor(|cells|, CARRYING_CAPACITY),
              Promote(Fired(cfg, qs, nPa), cells[id]));
  }

  /** A dead cell that is still there after the tick is still dead. */
  lemma UpdatedNoResurrection<K>(cfg: Config, qs: QsFlags, cells: map<K, Cell>)
    requires forall id :: id in cells ==> HasSignals(cells[id])
    ensures forall id :: id in Updated(cfg, qs, cells).0 && id in cells && cells[id].cellType == DEAD_TYPE ==>
      Updated(cfg, qs, cells).0[id].cellType == DEAD_TYPE
  {
    var nPa := |IdsWhere(cells, IsPaCell)|;
    var r := Updated(cfg, qs, cells).0;
    forall id | id in r && id in cells && cells[id].cellType == DEAD_TYPE
      ensures r[id].cellType == DEAD_TYPE
    {
      assert HasSignals(cells[id]);
      StepOf(cfg, qs, cells, id);
      StepCases(cfg, NextFlags(cfg, qs, nPa), CrowdFactor(|cells|, CARRYING_CAPACITY),
                Promote(Fired(cfg, qs, nPa), cells[id]));
    }
  }

  /**
   * PA never die and are never removed: the set of PA ids is the same after
   * the tick, and each PA's promotion only moves forward.
   */
  lemma UpdatedKeepsPa<K>(cfg: Config, qs: QsFlags, cells: map<K, Cell>)
    requires forall id :: id in cells ==> HasSignals(cells[id])
    ensures IdsWhere(Updated(cfg, qs, cells).0, IsPaCell) == IdsWhere(cells, IsPaCell)
    ensures forall id :: id in cells && IsPaCell(cells[id]) ==>
      id in Updated(cfg, qs, cells).0 &&
      Activity(cells[id].cellType) <= Activity(Updated(cfg, qs, cells).0[id].cellType)
  {
    var nPa := |IdsWhere(cells, IsPaCell)|;
    var r := Updated(cfg, qs, cells).0;
    UpdatedRemovesOnlyExpiredDead(cfg, qs, cells);
    forall id | id in cells
      ensures IsPaCell(cells[id]) ==> id in r && IsPaCell(r[id]) && Activity(cells[id].cellType) <= Activity(r[id].cellType)
      ensures id in r && IsPaCell(r[id]) ==> IsPaCell(cells[id])
    {
      assert HasSignals(cells[id]);
      StepOf(cfg, qs, cells, id);
      StepCases(cfg, NextFlags(cfg, qs, nPa), CrowdFactor(|cells|, CARRYING_CAPACITY),
                Promote(Fired(cfg, qs, nPa), cells[id]));
    }
  }

  /** The hooks never write geometry, chemistry or the division target during a tick. */
  lemma UpdatedKeepsEngineFields<K>(cfg: Config, qs: QsFlags, cells: map<K, Cell>)
    requires forall id :: id in cells ==> HasSignals(cells[id])
    ensures forall id :: id in Updated(cfg, qs, cells).0 && id in cells ==>
      SameEngineFields(Updated(cfg, qs, cells).0[id], cells[id])
  {
    var nPa := |IdsWhere(cells, IsPaCell)|;
    var r := Updated(cfg, qs, cells).0;
    forall id | id in r && id in cells
      ensures SameEngineFields(r[id], cells[id])
    {
      assert HasSignals(cells[id]);
      StepOf(cfg, qs, cells, id);
      StepCases(cfg, NextFlags(cfg, qs, nPa), CrowdFactor(|cells|, CARRYING_CAPACITY),
                Promote(Fired(cfg, qs, nPa), cells[id]));
    }
  }

  /**
   * A surviving SA grows at `SA_MU * crowd * f` and, with inhibitor
   * colouring, its red channel is exactly `1 - f`: the colour shows the
   * growth effect. Its growth lies between 0 and `SA_MU` when the inhibitor
   * concentration is not negative.
   */
  lemma UpdatedSaGrowth<K>(cfg: Config, qs: QsFlags, cells: map<K, Cell>, id: K)
    requires forall id :: id in cells ==> HasSignals(cells[id])
    requires id in cells && cells[id].cellType == SA_TYPE && HasSignals(cells[id])
    requires !(cfg.diffusiveKilling && cells[id].signals[0] >= TOXIN_KILL_THRESHOLD)
    ensures var r := Updated(cfg, qs, cells);
            var f := InhibitorGrowthFactor(cfg, r.1, InhibitorOut(cfg, cells[id]));
            && id in r.0
            && r.0[id].growthRate == SaRate(CrowdFactor(|cells|, CARRYING_CAPACITY), f)
            && r.0[id].divideFlag == Oversized(cells[id])
            && (InhibitorTint(cfg, r.1, SA_TYPE) ==> r.0[id].color.r == 1.0 - f)
            && (InhibitorOut(cfg, cells[id]) >= 0.0 ==> 0.0 <= r.0[id].growthRate <= SA_MU)
            && r.0[id].deadCounter == (if cfg.diffusiveKilling then cells[id].deadCounter else 0)
  {
    var nPa := |IdsWhere(cells, IsPaCell)|;
    var crowd := CrowdFactor(|cells|, CARRYING_CAPACITY);
    var next := NextFlags(cfg, qs, nPa);
    var p := Promote(Fired(cfg, qs, nPa), cells[id]);
    StepOf(cfg, qs, cells, id);
    StepCases(cfg, next, crowd, p);
    assert p == cells[id];
    var f := InhibitorGrowthFactor(cfg, next, InhibitorOut(cfg, p));
    var r := Updated(cfg, qs, cells);
    assert r.1 == next;
    assert r.0[id] == GrownSa(cfg, next, crowd, p);
    if InhibitorOut(cfg, cells[id]) >= 0.0 {
      SaRateWithin(crowd, f);
    }
  }

  /**
   * A PA grows at `PA_MU * crowd` times the cost factor of its state after
   * the switches, so it grows no faster than it would have silent.
   */
  lemma UpdatedPaGrowth<K>(cfg: Config, qs: QsFlags, cells: map<K, Cell>, id: K)
    requires forall id :: id in cells ==> HasSignals(cells[id])
    requires id in cells && IsPaCell(cells[id]) && HasSignals(cells[id])
    ensures var r := Updated(cfg, qs, cells).0;
            && id in r
            && r[id].growthRate == PaRate(CrowdFactor(|cells|, CARRYING_CAPACITY), r[id].cellType)
            && r[id].divideFlag == Oversized(cells[id])
            && r[id].deadCounter == 0
            && 0.0 <= r[id].growthRate <= PA_MU
  {
    var nPa := |IdsWhere(cells, IsPaCell)|;
    var crowd := CrowdFactor(|cells|, CARRYING_CAPACITY);
    var next := NextFlags(cfg, qs, nPa);
    var p := Promote(Fired(cfg, qs, nPa), cells[id]);
    StepOf(cfg, qs, cells, id);
    StepCases(cfg, next, crowd, p);
    var r := Updated(cfg, qs, cells).0;
    assert r[id] == GrownPa(cfg, next, crowd, p);
    PaRateWithin(crowd, r[id].cellType);
  }

  /**
   * Production follows the switches: an active PA exists only once the toxin
   * QS has fired and an inhibitor-only PA only once the inhibitor QS has.
   */
  predicate QsConsistent<K>(qs: QsFlags, cells: map<K, Cell>) {
    forall id :: id in cells ==>
      (cells[id].cellType == PA_TYPE_ACTIVE ==> qs.toxin) &&
      (cells[id].cellType == PA_TYPE_INHIB_ONLY ==> qs.inhib)
  }

  /** The seeded population (SA and silent PA) is consistent with both switches off. */
  lemma SeedConsistent<K>(cells: map<K, Cell>)
    requires forall id :: id in cells ==> cells[id].cellType == SA_TYPE || cells[id].cellType == PA_TYPE_SILENT
    ensures QsConsistent(QS_START, cells)
  {
  }

  /**
   * In a consistent population nothing secretes toxin before the toxin QS
   * has fired, and nothing secretes inhibitor before either switch has.
   */
  lemma NoProductionBeforeQs<K>(qs: QsFlags, cells: map<K, Cell>, id: K)
    requires QsConsistent(qs, cells) && id in cells
    ensures !qs.toxin ==> !ProducesToxin(cells[id].cellType)
    ensures !qs.toxin && !qs.inhib ==> !ProducesInhibitor(cells[id].cellType)
  {
  }

  /** Every tick keeps production consistent with the switches. */
  lemma UpdatedKeepsQsConsistent<K>(cfg: Config, qs: QsFlags, cells: map<K, Cell>)
    requires forall id :: id in cells ==> HasSignals(cells[id])
    requires QsConsistent(qs, cells)
    ensures QsConsistent(Updated(cfg, qs, cells).1, Updated(cfg, qs, cells).0)
  {
    var nPa := |IdsWhere(cells, IsPaCell)|;
    var r := Updated(cfg, qs, cells);
    UpdatedRemovesOnlyExpiredDead(cfg, qs, cells);
    forall id | id in r.0
      ensures (r.0[id].cellType == PA_TYPE_ACTIVE ==> r.1.toxin) &&
              (r.0[id].cellType == PA_TYPE_INHIB_ONLY ==> r.1.inhib)
    {
      assert HasSignals(cells[id]);
      StepOf(cfg, qs, cells, id);
      StepCases(cfg, NextFlags(cfg, qs, nPa), CrowdFactor(|cells|, CARRYING_CAPACITY),
                Promote(Fired(cfg, qs, nPa), cells[id]));
    }
  }

  // ---------------------------------------------------------------------
  // init and divide
  // ---------------------------------------------------------------------

  /**
   * `init(cell)`: SA get their rate, colour and a target volume in
   * `[1.0, 1.15]`; PA get theirs with a target in `[3.5, 4.0]`; any other
   * cell stops growing, turns grey and gets target 3. Flags are cleared.
   * `u` is the value drawn by `random.uniform`.
   */
  function Init(cfg: Config, qs: QsFlags, c: Cell, u: real): (r: Cell)
    requires c.cellType == SA_TYPE ==> 0.0 <= u <= SA_JITTER
    requires IsPa(c.cellType) ==> 0.0 <= u <= PA_JITTER && ColorReadable(cfg, qs, c)
    ensures r.cellType == c.cellType && SameGeometry(r, c)
    ensures !r.divideFlag && r.deadCounter == 0
    ensures c.cellType == SA_TYPE ==>
      r.growthRate == SA_MU && r.color == COL_SA &&
      DIV_LENGTH_MEAN_SA <= r.targetVol <= DIV_LENGTH_MEAN_SA + SA_JITTER
    ensures IsPa(c.cellType) ==>
      r.growthRate == PA_MU && r.color == CellColor(cfg, qs, c) &&
      DIV_LENGTH_MEAN_PA <= r.targetVol <= DIV_LENGTH_MEAN_PA + PA_JITTER
    ensures c.cellType != SA_TYPE && !IsPa(c.cellType) ==>
      r.growthRate == 0.0 && r.color == COL_DEAD && r.targetVol == OTHER_TARGET_VOL
  {
    var set1 :=
      if c.cellType == SA_TYPE then
        c.(growthRate := SA_MU, color := COL_SA, targetVol := DIV_LENGTH_MEAN_SA + u)
      else if IsPa(c.cellType) then
        c.(growthRate := PA_MU, color := CellColor(cfg, qs, c), targetVol := DIV_LENGTH_MEAN_PA + u)
      else
        c.(growthRate := 0.0, color := COL_DEAD, targetVol := OTHER_TARGET_VOL);
    set1.(divideFlag := false, deadCounter := 0)
  }

  /** What `divide` writes into one daughter of a parent of type `t`. */
  function Daughter(cfg: Config, qs: QsFlags, t: int, d: Cell, u: real): Cell
    requires IsPa(t) || t == SA_TYPE ==> ColorReadable(cfg, qs, d.(cellType := t))
  {
    var typed := d.(cellType := t);
    var set1 :=
      if t == SA_TYPE then
        typed.(color := CellColor(cfg, qs, typed), growthRate := SA_MU, targetVol := DIV_LENGTH_MEAN_SA + u)
      else if IsPa(t) then
        typed.(color := CellColor(cfg, qs, typed), growthRate := PA_MU, targetVol := DIV_LENGTH_MEAN_PA + u)
      else typed;
    set1.(divideFlag := false, deadCounter := 0)
  }

  /**
   * `divide(parent, d1, d2)`: both daughters inherit the parent's state;
   * SA and PA daughters get their growth rate, the colour `cell_color`
   * gives their type, and an independently drawn target volume in their
   * range; flags are cleared on both. `u1`, `u2` are the two draws.
   */
  function Divide(cfg: Config, qs: QsFlags, parent: Cell, d1: Cell, d2: Cell, u1: real, u2: real): (r: (Cell, Cell))
    requires parent.cellType == SA_TYPE ==> 0.0 <= u1 <= SA_JITTER && 0.0 <= u2 <= SA_JITTER
    requires IsPa(parent.cellType) ==> 0.0 <= u1 <= PA_JITTER && 0.0 <= u2 <= PA_JITTER
    requires IsPa(parent.cellType) || parent.cellType == SA_TYPE ==>
      ColorReadable(cfg, qs, d1.(cellType := parent.cellType)) &&
      ColorReadable(cfg, qs, d2.(cellType := parent.cellType))
    ensures r.0.cellType == parent.cellType && r.1.cellType == parent.cellType
    ensures SameGeometry(r.0, d1) && SameGeometry(r.1, d2)
    ensures !r.0.divideFlag && !r.1.divideFlag && r.0.deadCounter == 0 && r.1.deadCounter == 0
    ensures parent.cellType == SA_TYPE ==>
      && r.0.growthRate == SA_MU && r.1.growthRate == SA_MU
      && DIV_LENGTH_MEAN_SA <= r.0.targetVol <= DIV_LENGTH_MEAN_SA + SA_JITTER
      && DIV_LENGTH_MEAN_SA <= r.1.targetVol <= DIV_LENGTH_MEAN_SA + SA_JITTER
    ensures IsPa(parent.cellType) ==>
      && r.0.growthRate == PA_MU && r.1.growthRate == PA_MU
      && DIV_LENGTH_MEAN_PA <= r.0.targetVol <= DIV_LENGTH_MEAN_PA + PA_JITTER
      && DIV_LENGTH_MEAN_PA <= r.1.targetVol <= DIV_LENGTH_MEAN_PA + PA_JITTER
    ensures IsPa(parent.cellType) || parent.cellType == SA_TYPE ==>
      r.0.color == CellColor(cfg, qs, d1.(cellType := parent.cellType)) &&
      r.1.color == CellColor(cfg, qs, d2.(cellType := parent.cellType))
    ensures !IsPa(parent.cellType) && parent.cellType != SA_TYPE ==>
      r.0 == d1.(cellType := parent.cellType, divideFlag := false, deadCounter := 0) &&
      r.1 == d2.(cellType := parent.cellType, divideFlag := false, deadCounter := 0)
  {
    (Daughter(cfg, qs, parent.cellType, d1, u1), Daughter(cfg, qs, parent.cellType, d2, u2))
  }

  /**
   * A PA daughter is exactly what `init` makes of a new cell of the parent's
   * type. An SA daughter is too when SA are not recoloured; a recoloured SA
   * daughter shows its inhibitor tint at once, where `init` gives plain green.
   */
  lemma DivideMatchesInit(cfg: Config, qs: QsFlags, parent: Cell, d1: Cell, d2: Cell, u1: real, u2: real)
    requires parent.cellType == SA_TYPE ==> 0.0 <= u1 <= SA_JITTER && 0.0 <= u2 <= SA_JITTER
    requires IsPa(parent.cellType) ==> 0.0 <= u1 <= PA_JITTER && 0.0 <= u2 <= PA_JITTER
    requires IsPa(parent.cellType) || parent.cellType == SA_TYPE ==>
      ColorReadable(cfg, qs, d1.(cellType := parent.cellType)) &&
      ColorReadable(cfg, qs, d2.(cellType := parent.cellType))
    ensures IsPa(parent.cellType) ||
            (parent.cellType == SA_TYPE && !InhibitorTint(cfg, qs, SA_TYPE) && !ToxinTint(cfg, qs)) ==>
      Divide(cfg, qs, parent, d1, d2, u1, u2).0 == Init(cfg, qs, d1.(cellType := parent.cellType), u1)
  {
  }
}
