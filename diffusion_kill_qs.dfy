/**
 * `diffusion_kill_QS.py`: quorum-sensing PA with intracellular pools. Its
 * `update`, `init` and `divide` are the shared engine with the SA response to
 * the inhibitor gated by the inhibitor QS; what is its own are the switches
 * it ships with and its two reaction kernels, where toxin and inhibitor move
 * between each cell (`species`) and the grid (`signals`) across the membrane.
 */
module DiffusionKillQs {
  import opened CellState
  import opened QuorumSensing
  import opened Membrane

  const TOXIN_MEMBRANE_DIFF: real := 10.0
  const TOXIN_PROD_RATE_PA: real := 5.0
  const INHIB_MEMBRANE_DIFF: real := 40.0
  const INHIB_PROD_RATE_PA: real := 10.0
  const INHIBITOR_DECAY_OUT: real := 0.01
  const INHIBITOR_DECAY_IN: real := 0.0

  /** The switches as the script sets them. */
  const CONFIG: Config := Config(
    diffusiveKilling := true, inhibitorOn := true, qsOnToxin := true, qsOnInhib := true,
    colorByToxin := false, colorByInhibitor := true, responseGated := true)

  /**
   * In this script SA ignore the inhibitor until the inhibitor QS has fired,
   * and are recoloured only from then on.
   */
  lemma ResponseWaitsForQs(qs: QsFlags, conc: real)
    ensures !qs.inhib ==> InhibitorGrowthFactor(CONFIG, qs, conc) == 1.0
    ensures !qs.inhib ==> !InhibitorTint(CONFIG, qs, SA_TYPE)
    ensures qs.inhib && conc > 0.0 ==> InhibitorGrowthFactor(CONFIG, qs, conc) < 1.0
  {
  }

  /** The intracellular kernel `specRateCL`. */
  function SpecRates(t: int, ch: Chemistry): Rates
    requires ch.gridVolume > 0.0
  {
    var exTox := Exchange(TOXIN_MEMBRANE_DIFF, ch.toxin, ch.toxinIn, ch.area, ch.gridVolume);
    var exInh := Exchange(INHIB_MEMBRANE_DIFF, ch.inhibitor, ch.inhibitorIn, ch.area, ch.gridVolume);
    if t == PA_TYPE_ACTIVE then
      Rates(TOXIN_PROD_RATE_PA + exTox, INHIB_PROD_RATE_PA + exInh - INHIBITOR_DECAY_IN * ch.inhibitorIn)
    else if t == PA_TYPE_INHIB_ONLY then
      Rates(exTox, INHIB_PROD_RATE_PA + exInh - INHIBITOR_DECAY_IN * ch.inhibitorIn)
    else
      Rates(exTox, exInh - INHIBITOR_DECAY_IN * ch.inhibitorIn)
  }

  /** The extracellular kernel `sigRateCL`. */
  function SigRates(ch: Chemistry): Rates
    requires ch.gridVolume > 0.0
  {
    Rates(Outflux(TOXIN_MEMBRANE_DIFF, ch.toxin, ch.toxinIn, ch.area, ch.gridVolume),
          Outflux(INHIB_MEMBRANE_DIFF, ch.inhibitor, ch.inhibitorIn, ch.area, ch.gridVolume)
            - INHIBITOR_DECAY_OUT * ch.inhibitor)
  }

  /**
   * Membrane exchange conserves both molecules: across the two kernels it
   * cancels, and what is left is exactly the production of the cell's state
   * (toxin only by active PA, inhibitor by active and inhibitor-only PA, the
   * states whose growth pays the corresponding cost) minus decay.
   */
  lemma KernelsConserveExchange(t: int, ch: Chemistry)
    requires ch.gridVolume > 0.0
    ensures SpecRates(t, ch).toxin + SigRates(ch).toxin ==
      (if ProducesToxin(t) then TOXIN_PROD_RATE_PA else 0.0)
    ensures SpecRates(t, ch).inhibitor + SigRates(ch).inhibitor ==
      (if ProducesInhibitor(t) then INHIB_PROD_RATE_PA else 0.0)
        - INHIBITOR_DECAY_IN * ch.inhibitorIn - INHIBITOR_DECAY_OUT * ch.inhibitor
  {
    OutfluxIsExchange(TOXIN_MEMBRANE_DIFF, ch.toxin, ch.toxinIn, ch.area, ch.gridVolume);
    OutfluxIsExchange(INHIB_MEMBRANE_DIFF, ch.inhibitor, ch.inhibitorIn, ch.area, ch.gridVolume);
  }

  /**
   * A cell that produces nothing only exchanges: its intracellular toxin
   * rises exactly when the toxin outside exceeds the toxin inside.
   */
  lemma ToxinFlowsDownGradient(t: int, ch: Chemistry)
    requires ch.gridVolume > 0.0 && ch.area > 0.0 && !ProducesToxin(t)
    ensures SpecRates(t, ch).toxin > 0.0 <==> ch.toxin > ch.toxinIn
    ensures SpecRates(t, ch).toxin == 0.0 <==> ch.toxin == ch.toxinIn
  {
    FluxSign(TOXIN_MEMBRANE_DIFF, ch.toxin - ch.toxinIn, ch.area, ch.gridVolume);
  }

}
