/**
 * `diffusion_kill_QS_extracellular.py`: the quorum-sensing engine with no
 * intracellular pools. PA secrete straight into the grid, and SA respond to
 * the inhibitor they sense whether or not the inhibitor QS has fired (QS
 * still gates production).
 */
module DiffusionKillQsExtracellular {
  import opened CellState
  import opened QuorumSensing
  import opened Membrane

  const TOXIN_PROD_RATE_PA: real := 5.0
  const TOXIN_DECAY_OUT: real := 0.0
  const INHIB_PROD_RATE_PA: real := 10.0
  const INHIBITOR_DECAY_OUT: real := 0.01

  /** The switches as the script sets them. */
  const CONFIG: Config := Config(
    diffusiveKilling := true, inhibitorOn := true, qsOnToxin := true, qsOnInhib := true,
    colorByToxin := false, colorByInhibitor := true, responseGated := false)

  /**
   * SA respond to the inhibitor from the first tick: any positive
   * concentration slows them and shows in their colour whatever the switches.
   */
  lemma ResponseIgnoresQs(qs: QsFlags, conc: real)
    ensures InhibitorGrowthFactor(CONFIG, qs, conc) == InhibitorGrowthFactor(CONFIG, QS_START, conc)
    ensures conc > 0.0 ==> InhibitorGrowthFactor(CONFIG, qs, conc) < 1.0
    ensures InhibitorTint(CONFIG, qs, SA_TYPE)
  {
  }

  /**
   * The extracellular kernel `sigRateCL`: decay of both signals, plus the
   * secretion of a cell of type `t` at the voxel.
   */
  function SigRates(t: int, toxin: real, inhibitor: real): Rates {
    var rTox := -TOXIN_DECAY_OUT * toxin;
    var rInh := -INHIBITOR_DECAY_OUT * inhibitor;
    if t == PA_TYPE_ACTIVE then Rates(rTox + TOXIN_PROD_RATE_PA, rInh + INHIB_PROD_RATE_PA)
    else if t == PA_TYPE_INHIB_ONLY then Rates(rTox, rInh + INHIB_PROD_RATE_PA)
    else Rates(rTox, rInh)
  }

  /**
   * Secretion is exactly what the cell's state produces (the states whose
   * growth pays the matching cost); everything else is decay.
   */
  lemma SecretionMatchesProduction(t: int, toxin: real, inhibitor: real)
    ensures SigRates(t, toxin, inhibitor).toxin + TOXIN_DECAY_OUT * toxin ==
      (if ProducesToxin(t) then TOXIN_PROD_RATE_PA else 0.0)
    ensures SigRates(t, toxin, inhibitor).inhibitor + INHIBITOR_DECAY_OUT * inhibitor ==
      (if ProducesInhibitor(t) then INHIB_PROD_RATE_PA else 0.0)
  {
  }

  /**
   * Where no producer sits, the signals can only fall: a non-negative
   * concentration never grows, and the inhibitor strictly decays.
   */
  lemma NonProducersOnlyDecay(t: int, toxin: real, inhibitor: real)
    requires toxin >= 0.0 && inhibitor >= 0.0
    ensures !ProducesToxin(t) ==> SigRates(t, toxin, inhibitor).toxin <= 0.0
    ensures !ProducesInhibitor(t) ==> SigRates(t, toxin, inhibitor).inhibitor <= 0.0
    ensures !ProducesInhibitor(t) && inhibitor > 0.0 ==> SigRates(t, toxin, inhibitor).inhibitor < 0.0
  {
  }
}
