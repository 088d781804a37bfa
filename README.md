# CellModeller regulation scripts: a verified model of the population update engine

This project models the per-tick **population update engine** of a family of
CellModeller regulation scripts. In these scripts two bacterial species, SA
(type 0) and PA (type 1, or types 1/3/4 in the quorum-sensing scripts),
grow, divide, signal and kill each other. Dead cells have type 2. Each script
defines three hooks on the simulator's `cells` dictionary:

- `init(cell)`: species defaults for a new cell;
- `update(cells)`: the tick;
- `divide(parent, d1, d2)`: daughter defaults;

along with small pure helpers: growth factors, colours, `grid_index` and the
OpenCL reaction-rate formulas.

The model has shared modules:

| module | contents |
|---|---|
| `CellState` | the cell record and the numeric helpers |
| `Lifecycle` | the crowding factor, dead-cell decay, the kill assignment, the removal off-by-one |
| `Population` | the dictionary loops: count, rewrite, sweep-and-collect, pop-after-scan |
| `SpatialHash` | `grid_index`, `NEIGHBOR_OFFSETS`, the `pa_grid` index, the 3x3 scan |
| `ContactSweep` | the classification pass and the SA pass of the spatial-hash scripts |
| `Membrane` | the membrane-exchange flux of the kernels |
| `QuorumSensing` | the engine shared by the two quorum-sensing scripts |

There is one module per script: `DiffusionKillQs`, `DiffusionKillQsExtracellular`,
`DiffusionKill`, `Simulation`, `ContactKill`, `TestV2Kill`, `TestKill`, `Pasa`
and `StaphGrowth`.

How the scripts are modelled:

- **Cells.** A cell is a datatype value. The dictionary is a `map<K, Cell>`
  over an arbitrary key type `K`.
- **`update`.** Each script's `update` is a `method` with loops over the
  dictionary. It visits the keys in an arbitrary order, because every
  per-cell decision depends only on the cell and a pre-tick snapshot. The
  method is proved equal to a specification function `Updated`, and the
  script's promises are lemmas about `Updated`.
- **Contact killing.** `Updated` states the contact test by brute force over
  every PA of the pre-tick population. The methods use the spatial hash (or
  `test.py`'s list), so the proof that the method meets `Updated` is also
  the proof that the 3x3 grid scan is equivalent to the brute-force search.
- **Module globals.** The quorum-sensing globals `QS_ACTIVE_TOXIN`,
  `QS_ACTIVE_INHIB` and `STEP_COUNTER` are fields of the class
  `QuorumSensing.Regulator`. Its `Update` method changes them.
- **Switches.** The scripts' on/off switches are a `Config` record. Each
  script module fixes `CONFIG` to the values the script ships with.
- **Repeated hooks.** Several scripts repeat the same `init`, `divide` and
  helper text with their own constants. Each script module keeps its own
  copy, so that it reads against its own file.
- **Random draws.** `random.uniform(0, j)` becomes a real parameter `u`,
  with the precondition `0 <= u <= j`.
- **Solver inputs.** `volume`, `pos`, `dir`, `signals` and `species` are
  supplied by the mechanics and diffusion engines. They are inputs here.

## Model

| member | source | states |
|---|---|---|
| Lifecycle.CrowdFactor | scripts/diffusion_kill_QS.py:386-395 | the factor lies in [0, 1]; it is 1 when K <= 0 or n = 0; with K > 0 it is 0 exactly when n >= K, and otherwise equals 1 - n/K |
| Lifecycle.CrowdFactorAntitone | scripts/contact_kill.py:133-137 | a larger pre-tick population never gives a larger crowding factor |
| Lifecycle.AgedCounter | scripts/diffusion_kill_QS.py:465-471 | k ticks of decay raise the dead counter by exactly k; type, geometry, chemistry and target are kept; growth is 0 and the flag is false after at least one tick |
| Lifecycle.RemovedOnLifetimeTick | scripts/diffusion_kill_QS.py:469-471 | a cell killed with counter 0 is scheduled for removal on its k-th tick of decay exactly when k >= 20: on the 20th tick, not the 19th |
| Lifecycle.KilledNotRemovable | scripts/diffusion_kill_QS.py:477-484 | a killed cell has counter 0 < DEAD_LIFETIME, so it survives the tick it dies in; killing twice equals killing once |
| Population.CountWhere | scripts/diffusion_kill_QS.py:387-390 | the loop counts exactly the cells satisfying the predicate, whatever the order it visits them in |
| Population.MapCells | scripts/pasa.py:98-109 | the loop rewrites every cell by the rule and keeps the key set |
| Population.SweepCells | scripts/diffusion_kill_QS.py:462-471 | every cell is rewritten; the removal list holds, each once, exactly the ids the rule schedules |
| Population.RemoveAll | scripts/diffusion_kill_QS.py:500-501 | popping the listed ids removes exactly those ids; every other entry is untouched |
| Population.Tick | scripts/diffusion_kill_QS.py:462-501 | an id survives iff the rule does not schedule it, no id is added, and each survivor holds its rewritten cell |
| Population.TickFromSweep | scripts/contact_kill.py:193-260 | any rewrite plus removal list that agrees with the rule cell by cell gives exactly Tick after the pops |
| Population.SweepThenRemove | scripts/contact_kill.py:142-168 | scan-then-pop gives exactly Tick: the removals come after the whole scan |
| SpatialHash.NeighborOffsetsAre3x3 | scripts/contact_kill.py:54 | the offsets are exactly the nine pairs with both components in {-1, 0, 1} |
| SpatialHash.OffsetAt | scripts/test_v2.py:161-165 | the nested loops over dxg and dyg visit the offsets in list order |
| SpatialHash.GridIndex | scripts/contact_kill.py:57-59 | the bucket is the square of side `size` that contains the point: floor of each coordinate over `size` |
| SpatialHash.Insert | scripts/contact_kill.py:200 | `setdefault(key, []).append(e)`: the entry goes at the end of its bucket, or of a new bucket; other buckets are unchanged |
| SpatialHash.EmptyIndexes | scripts/contact_kill.py:190 | the empty dictionary indexes no cell |
| SpatialHash.InsertIndexes | scripts/contact_kill.py:197-200 | inserting a visited PA at its grid index keeps the invariant: every entry is a visited PA at its position, in its position's bucket, and every visited PA has an entry |
| SpatialHash.ScanBucket | scripts/contact_kill.py:240-251 | the loop breaks iff some entry of the bucket lies within squared distance r2 |
| SpatialHash.ScanNeighbors | scripts/contact_kill.py:232-251 | the scan over the nine buckets, which skips missing and empty ones and stops at the first hit, reports a hit iff some neighbouring bucket holds a PA within r2 |
| SpatialHash.CloseMeansAdjacent | scripts/contact_kill.py:45-59 | with bucket side at least the radius, two coordinates within the radius fall in buckets at most one apart |
| SpatialHash.HitIsPaWithin | scripts/simulation.py:354-371 | a hit in the 3x3 scan is a PA of the population within the radius |
| SpatialHash.WithinMeansNeighbor | scripts/simulation.py:45-49 | a PA within the radius lies in one of the nine neighbour buckets |
| SpatialHash.PaWithinIsHit | scripts/simulation.py:354-371 | with bucket side at least the radius, a PA within the radius is found by the scan |
| SpatialHash.ScanMatchesBruteForce | scripts/contact_kill.py:232-251 | with bucket side at least the radius, the 3x3 scan finds a PA iff brute force over every PA would |
| ContactSweep.ClassifyPass | scripts/contact_kill.py:193-218 | the first pass indexes exactly the PA cells in `pa_grid`, lists every SA id once in `sa_ids`, rewrites each cell by its rule, and schedules exactly the non-SA cells its rule schedules |
| ContactSweep.ClassifyOne | scripts/contact_kill.py:194-218 | one iteration of the first pass keeps the pass invariant, extended to the visited id: PA indexed, SA listed once and reset, other cells rewritten and scheduled by their rule, unvisited cells untouched |
| ContactSweep.SaPass | scripts/contact_kill.py:220-256 | each listed SA ends killed if pre-killed or if the scan hits, and grown otherwise; unlisted cells and the key set are unchanged |
| Membrane.OutfluxIsExchange | scripts/diffusion_kill_QS.py:292 | the grid-side exchange term is the exact negation of the cell-side one |
| Membrane.FluxSign | scripts/diffusion_kill_QS.py:282 | for positive D, area and voxel volume, the exchange term has the sign of outside minus inside |
| QuorumSensing.InhibitorGrowthFactor | scripts/diffusion_kill_QS.py:137-140 | the factor is 1 unless the inhibitor is on and (in the gated script) its QS has fired; otherwise it is max(0, 1 - alpha c): never negative, at most 1 for c >= 0, 0 exactly from c >= 1/alpha |
| QuorumSensing.InhibitorFactorAntitone | scripts/diffusion_kill_QS.py:139-140 | more inhibitor never gives a larger factor |
| QuorumSensing.PaGrowthFactor | scripts/diffusion_kill_QS.py:150-157 | a PA state's factor is 1 minus the cost of each molecule that state secretes (0.8 inhibitor-only, 0.5 active); silent and non-PA give 1; positive and at most 1; the extracellular script's copy (its lines 132-139) is the same |
| QuorumSensing.PromotionSlowsGrowth | scripts/diffusion_kill_QS.py:150-157 | the factor never increases with the activity level, and strictly decreases when the level rises |
| QuorumSensing.ToxinLevel | scripts/diffusion_kill_QS.py:217-220 | the normalised toxin is at most 1, non-negative for non-negative toxin, and 1 exactly from the kill threshold |
| QuorumSensing.CellColor | scripts/diffusion_kill_QS.py:169-227 | dead gives grey; a tinted SA gives [1 - f, 1, 0] for its growth factor f; under toxin colouring with a non-negative toxin every channel is at least the base colour's, and the colour is white exactly when the toxin is at or above the threshold; otherwise the base colour; the colour is in the unit cube for non-negative signals; the extracellular script's copy (its lines 148-169) is the same, with the SA tint not gated by QS |
| QuorumSensing.NextFlags | scripts/diffusion_kill_QS.py:398-406 | each flag latches, and a flag that was off turns on exactly when its QS is enabled and n_pa reaches its threshold |
| QuorumSensing.FlagsAfterLatch | scripts/diffusion_kill_QS_extracellular.py:337-345 | over any run, the toxin flag ends on exactly when it started on or toxin QS is enabled and some tick counted at least 150 PA; likewise the inhibitor flag at 30 PA |
| QuorumSensing.Promote | scripts/diffusion_kill_QS.py:398-410 | only a PA's type changes, and it stays a PA; promotion never lowers the activity level; every PA is active once the toxin QS fires; nothing changes when neither fires |
| QuorumSensing.SaRateWithin | scripts/diffusion_kill_QS.py:489 | SA_MU * crowd * f lies in [0, SA_MU] when both factors lie in [0, 1] |
| QuorumSensing.PaRateWithin | scripts/diffusion_kill_QS.py:495 | PA_MU * crowd * pa_growth_factor lies in [0, PA_MU] when crowd lies in [0, 1] |
| QuorumSensing.Promoted | scripts/diffusion_kill_QS.py:401-410 | the promoted population has the same ids, and each cell is promoted |
| QuorumSensing.PromotedHasSignals | scripts/diffusion_kill_QS.py:401-410 | promotion leaves the signal values of every cell alone |
| QuorumSensing.PromotedInTwoSweeps | scripts/diffusion_kill_QS.py:398-410 | the inhibitor sweep followed by the toxin sweep gives the combined promotion |
| QuorumSensing.FireSwitches | scripts/diffusion_kill_QS.py:397-410 | flags and cells after the QS block are NextFlags and Promoted with the switches that fire |
| QuorumSensing.Regulator.constructor | scripts/diffusion_kill_QS.py:107-114 | both QS flags start false and the step counter 0 |
| QuorumSensing.Regulator.Update | scripts/diffusion_kill_QS.py:379-501 | the new population and flags are Updated of the old flags and cells; STEP_COUNTER goes up by one; the extracellular script's copy (its lines 322-436) is the same |
| QuorumSensing.StepCases | scripts/diffusion_kill_QS.py:462-498 | per cell: dead decays and is scheduled iff counter + 1 >= 20; SA killed iff diffusive and signals[0] >= threshold, otherwise grown; PA grown; other types untouched; engine fields kept |
| QuorumSensing.StepOf | scripts/diffusion_kill_QS.py:462-501 | the tick applies the per-cell rule to each cell after promotion, with the new flags |
| QuorumSensing.UpdatedRemovesOnlyExpiredDead | scripts/diffusion_kill_QS.py:465-471 | no id is added; an id disappears iff its cell was dead with counter + 1 >= DEAD_LIFETIME |
| QuorumSensing.UpdatedKillsExactlyPoisonedSa | scripts/diffusion_kill_QS.py:477-484 | an SA stays present, and is dead afterwards iff diffusive killing is on and signals[0] >= threshold, and is then in the killed state |
| QuorumSensing.UpdatedNoResurrection | scripts/diffusion_kill_QS.py:465-471 | a dead cell that is still present is still dead |
| QuorumSensing.UpdatedKeepsPa | scripts/diffusion_kill_QS.py:493-498 | the set of PA ids is the same after the tick, so promotion keeps n_pa; each PA's activity never decreases |
| QuorumSensing.UpdatedKeepsEngineFields | scripts/diffusion_kill_QS.py:462-498 | no surviving cell has its geometry, chemistry or target volume changed |
| QuorumSensing.UpdatedSaGrowth | scripts/diffusion_kill_QS.py:486-491 | a surviving SA grows at SA_MU * crowd * f with the new flags, its flag is volume > targetVol, its red channel is 1 - f when tinted, its growth lies in [0, SA_MU], and its dead counter is kept under diffusive killing and reset to 0 otherwise (line 432) |
| QuorumSensing.UpdatedPaGrowth | scripts/diffusion_kill_QS.py:493-498 | a PA survives with growth PA_MU * crowd * factor of its new state, which lies in [0, PA_MU]; its flag is volume > targetVol and its counter 0 |
| QuorumSensing.SeedConsistent | scripts/diffusion_kill_QS.py:24-28 | a seeded population of SA and silent PA is consistent with both flags off |
| QuorumSensing.NoProductionBeforeQs | scripts/diffusion_kill_QS.py:270-285 | in a consistent population, nothing secretes toxin before the toxin QS, and nothing secretes inhibitor before either QS |
| QuorumSensing.UpdatedKeepsQsConsistent | scripts/diffusion_kill_QS.py:398-410 | every tick keeps "active PA only after toxin QS, inhibitor-only PA only after inhibitor QS" |
| QuorumSensing.Init | scripts/diffusion_kill_QS.py:356-376 | SA: SA_MU, green, target in [1.0, 1.15]; PA: PA_MU, cell_color, target in [3.5, 4.0]; other types: growth 0, grey, target 3.0; flag false and counter 0; the extracellular script's copy (its lines 303-320) is the same |
| QuorumSensing.Divide | scripts/diffusion_kill_QS.py:534-554 | both daughters take the parent's type, flag false and counter 0; SA daughters SA_MU with target in [1.0, 1.15]; PA daughters PA_MU with target in [3.5, 4.0]; colour from cell_color; the extracellular script's copy (its lines 448-468) is the same |
| QuorumSensing.DivideMatchesInit | scripts/diffusion_kill_QS.py:541-550 | the first daughter of a PA parent, or of an SA parent when SA are recoloured neither by inhibitor nor by toxin, is exactly what `init` makes of a new cell of the parent's type |
| DiffusionKillQs.ResponseWaitsForQs | scripts/diffusion_kill_QS.py:137-138 | before the inhibitor QS, SA growth is not inhibited and SA are not tinted; after it, any positive inhibitor slows them |
| DiffusionKillQs.KernelsConserveExchange | scripts/diffusion_kill_QS.py:270-294 | the two kernels' exchange terms cancel: toxin production only for type 1, inhibitor only for types 1 and 4, minus decay |
| DiffusionKillQs.ToxinFlowsDownGradient | scripts/diffusion_kill_QS.py:275-284 | a cell that makes no toxin gains toxin iff the grid value exceeds its pool, and is at rest iff they are equal |
| DiffusionKillQsExtracellular.ResponseIgnoresQs | scripts/diffusion_kill_QS_extracellular.py:120-123 | the factor does not depend on the QS flags; any positive inhibitor slows SA; SA are always tinted |
| DiffusionKillQsExtracellular.SecretionMatchesProduction | scripts/diffusion_kill_QS_extracellular.py:225-239 | toxin rate = -dec_tox toxin + k_tox only for type 1; inhibitor rate = -dec_inh inhibitor + k_inh only for types 1 and 4 |
| DiffusionKillQsExtracellular.NonProducersOnlyDecay | scripts/diffusion_kill_QS_extracellular.py:225-239 | where no producer sits, non-negative signals never grow, and positive inhibitor strictly decays |
| DiffusionKill.InhibitorGrowthFactor | scripts/diffusion_kill.py:92-95 | 1 with the inhibitor off; otherwise max(0, 1 - alpha c): never negative, at most 1 for c >= 0, 0 exactly from c >= 1/alpha |
| DiffusionKill.InhibitorFactorAntitone | scripts/diffusion_kill.py:92-95 | more inhibitor never gives a larger factor |
| DiffusionKill.ToxinLevel | scripts/diffusion_kill.py:136-139 | at most 1, non-negative for non-negative toxin, 1 exactly from the threshold |
| DiffusionKill.CellColor | scripts/diffusion_kill.py:106-147 | dead gives grey; an inhibitor-coloured SA gives [min(inh/ref, 1), 1, 0], with red 1 exactly from ref; toxin colouring is in the unit cube and white iff toxin >= threshold; otherwise the base colour |
| DiffusionKill.SaColorShowsGrowthEffect | scripts/diffusion_kill.py:121-131 | since ref = 1/alpha, the SA red channel is exactly 1 - f for the growth factor f |
| DiffusionKill.SaRateWithin | scripts/diffusion_kill.py:383 | SA_MU * crowd * f lies in [0, SA_MU] for factors in [0, 1] |
| DiffusionKill.Update | scripts/diffusion_kill.py:288-396 | the result is Updated: crowding from the pre-tick size, one sweep, then the pops |
| DiffusionKill.StepCases | scripts/diffusion_kill.py:354-391 | per cell: dead decays; SA killed iff diffusive and signals[0] >= threshold; PA grown, blue; engine fields kept |
| DiffusionKill.StepOf | scripts/diffusion_kill.py:354-396 | the tick applies the per-cell rule to each cell |
| DiffusionKill.UpdatedRemovesOnlyExpiredDead | scripts/diffusion_kill.py:357-364 | no id is added; an id disappears iff its cell was dead with counter + 1 >= 20 |
| DiffusionKill.UpdatedSaFate | scripts/diffusion_kill.py:370-385 | an SA dies iff killing is on and signals[0] >= threshold, and then is in the killed state; otherwise it grows at SA_MU * crowd * f <= SA_MU, keeping its dead counter under diffusive killing and resetting it to 0 otherwise (line 323) |
| DiffusionKill.UpdatedPaFate | scripts/diffusion_kill.py:387-391 | a PA stays PA with growth PA_MU * crowd <= PA_MU, flag volume > targetVol, counter 0, plain blue |
| DiffusionKill.UpdatedKeepsDeadAndEngineFields | scripts/diffusion_kill.py:305-335 | dead cells stay dead; geometry, chemistry and target are never written |
| DiffusionKill.ScriptNeverKills | scripts/diffusion_kill.py:305-335 | with the shipped switches (killing off) no cell changes type |
| DiffusionKill.KernelsConserveExchange | scripts/diffusion_kill.py:182-202 | the exchange terms cancel across the kernels: only type-1 production is left |
| DiffusionKill.Init | scripts/diffusion_kill.py:265-285 | SA and PA defaults with the target in range; other types growth 0, grey, target 3.0; flag and counter cleared |
| DiffusionKill.Divide | scripts/diffusion_kill.py:419-438 | daughters take the parent's type, with species colour, rate and target in range; flag and counter cleared |
| DiffusionKill.DivideMatchesInit | scripts/diffusion_kill.py:425-434 | an SA or PA daughter equals `init` of a new cell of the parent's type |
| Simulation.ToxinLevel | scripts/simulation.py:89-91 | 0 for zero toxin, at most 1, and 1 exactly from the threshold |
| Simulation.ToxinColor | scripts/simulation.py:77-99 | dead gives grey; with diffusion off, the base colour; otherwise in the unit cube, no darker than the base, white iff species[0] >= threshold, the base at zero toxin |
| Simulation.Update | scripts/simulation.py:233-381 | the result is Updated, whose contact test is brute force over the pre-tick PA: both-off sweep, or classification, SA pass and pops |
| Simulation.SaSwept | scripts/simulation.py:331-377 | for one SA, the grid-based SA pass gives the brute-force reference outcome |
| Simulation.StepOf | scripts/simulation.py:298-381 | the tick applies the reference rule to each cell |
| Simulation.StepCases | scripts/simulation.py:301-377 | per cell: dead decays; SA die iff poisoned or hit; PA grow with the toxin colour; engine fields kept |
| Simulation.UpdatedRemovesOnlyExpiredDead | scripts/simulation.py:319-326 | no id is added; an id disappears iff its cell was dead with counter + 1 >= 20 |
| Simulation.UpdatedSaFate | scripts/simulation.py:339-377 | an SA dies iff (diffusive and species[0] >= threshold) or (contact and a PA lies within the kill radius); dead has type 2, growth 0, no flag, counter 0; survivors SA_MU * crowd, toxin colour, counter 0 |
| Simulation.UpdatedPaFate | scripts/simulation.py:304-312 | a PA stays PA with growth PA_MU * crowd, flag volume > targetVol, counter 0, toxin colour |
| Simulation.UpdatedTypes | scripts/simulation.py:249-275 | only an SA changes type, and only to dead; with both switches off none does; engine fields kept |
| Simulation.KernelsConserveToxin | scripts/simulation.py:125-145 | inside and outside rates sum to the production of type 1 alone; a non-producer with area > 0 gains toxin iff the grid is richer |
| Simulation.Init | scripts/simulation.py:210-230 | SA (red) and PA defaults with the target in range; other types growth 0, grey, target 3.0; flag and counter cleared |
| Simulation.Divide | scripts/simulation.py:399-419 | daughters take the parent's type, species defaults with target in range; flag and counter cleared |
| Simulation.DivideMatchesInit | scripts/simulation.py:405-414 | an SA or PA daughter equals `init` of a new cell of the parent's type |
| ContactKill.Update | scripts/contact_kill.py:126-260 | the result is Updated, the brute-force reference: no-kill sweep, or classification, 3x3 SA pass and pops |
| ContactKill.UpdateWithContact | scripts/contact_kill.py:186-260 | the contact-killing branch gives exactly the brute-force reference Updated with contact killing on |
| ContactKill.SweptMatchesSpec | scripts/contact_kill.py:193-256 | after the classification pass and the SA pass, every cell holds what the brute-force reference rule makes of it |
| ContactKill.SaSwept | scripts/contact_kill.py:222-256 | for one SA, the grid-based outcome equals the brute-force reference |
| ContactKill.StepCases | scripts/contact_kill.py:194-256 | per cell: dead decays; SA killed iff hit, else SA_MU * crowd; PA PA_MU * crowd; engine fields kept |
| ContactKill.StepOf | scripts/contact_kill.py:194-260 | the tick applies the reference rule to each cell |
| ContactKill.UpdatedRemovesOnlyExpiredDead | scripts/contact_kill.py:211-218 | no id is added; an id disappears iff its cell was dead with counter + 1 >= 20 |
| ContactKill.UpdatedSaFate | scripts/contact_kill.py:240-256 | an SA dies iff contact is on and some PA has dx² + dy² <= KILL_RADIUS_SQ; dead has type 2, growth 0, no flag, counter 0; survivors SA_MU * crowd, flag volume > targetVol |
| ContactKill.UpdatedPaFate | scripts/contact_kill.py:197-204 | a PA stays PA with growth PA_MU * crowd, flag volume > targetVol, counter 0 |
| ContactKill.UpdatedTypes | scripts/contact_kill.py:142-168 | only SA become dead; without contact killing no cell changes type; engine fields kept |
| ContactKill.Init | scripts/contact_kill.py:104-123 | SA and PA defaults with the target in range; other types growth 0, grey, target kept; flag and counter cleared |
| ContactKill.Divide | scripts/contact_kill.py:277-304 | daughters take the parent's type, species defaults with target in range; flag and counter cleared |
| ContactKill.DivideMatchesInit | scripts/contact_kill.py:285-294 | an SA or PA daughter equals `init` of a new cell of the parent's type |
| TestV2Kill.Struck | scripts/test_v2.py:174-178 | the kill assignment: type 2, growth 0, no flag, grey, counter untouched |
| TestV2Kill.StrikeIdempotent | scripts/test_v2.py:161-179 | striking again changes nothing, so the repeated hits are harmless |
| TestV2Kill.StrikeNeighbors | scripts/test_v2.py:159-179 | the nested scan ends killed iff some neighbour bucket holds a PA within r2, and the cell is then struck, otherwise unchanged |
| TestV2Kill.StrikeSa | scripts/test_v2.py:154-184 | each listed SA ends struck iff the scan hits, otherwise grown at SA_MU; unlisted cells unchanged |
| TestV2Kill.GrowIndexedPa | scripts/test_v2.py:187-191 | every indexed PA is grown to PA_MU with flag volume > targetVol; no other cell changes |
| TestV2Kill.Update | scripts/test_v2.py:112-191 | the result is Updated, the brute-force reference, in both branches |
| TestV2Kill.SaOutcome | scripts/test_v2.py:154-184 | for one SA, the grid-based outcome equals the brute-force reference |
| TestV2Kill.UpdatedKeepsIds | scripts/test_v2.py:148-151 | no cell is ever removed or added |
| TestV2Kill.UpdatedSaFate | scripts/test_v2.py:172-184 | an SA is struck iff contact is on and a PA lies within the kill radius, keeping its counter; survivors grow at SA_MU with flag volume > targetVol |
| TestV2Kill.UpdatedOtherFates | scripts/test_v2.py:116-128 | PA grow at exactly PA_MU; dead cells stay dead with growth 0 and no flag; only SA change type, and none without contact killing |
| TestV2Kill.Init | scripts/test_v2.py:90-109 | SA and PA defaults with the target in range; other types growth 0, grey; only the flag cleared |
| TestV2Kill.Divide | scripts/test_v2.py:214-239 | daughters take the parent's type, species defaults with target in range; the flag cleared |
| TestV2Kill.DivideMatchesInit | scripts/test_v2.py:221-230 | an SA or PA daughter equals `init` of a new cell of the parent's type |
| TestKill.CollectPass | scripts/test.py:173-181 | pa_list lists exactly the PA with their positions, sa_list every SA once; dead cells get growth 0 and no flag; nothing else changes |
| TestKill.ScanList | scripts/test.py:188-200 | the loop breaks iff some listed PA is within KILL_RADIUS_SQ |
| TestKill.ListMatchesBruteForce | scripts/test.py:173-200 | a list of exactly the PA finds a hit iff some PA of the population is within the radius |
| TestKill.KillSa | scripts/test.py:184-205 | each listed SA is struck iff a listed PA is within the radius, else grown at SA_MU; unlisted cells unchanged |
| TestKill.GrowListedPa | scripts/test.py:208-211 | listed PA grow at PA_MU with flag volume > targetVol; unlisted cells unchanged |
| TestKill.Update | scripts/test.py:168-211 | the result is Updated, whose kill test ranges over every PA of the pre-tick population |
| TestKill.UpdatedKeepsIds | scripts/test.py:168-211 | no cell is ever removed or added |
| TestKill.UpdatedFates | scripts/test.py:184-211 | an SA dies iff a PA is within the radius; survivors SA_MU; PA stay PA at PA_MU; dead stay dead, growth 0, no flag; only SA change type, only to 2 |
| TestKill.Init | scripts/test.py:80-99 | SA and PA defaults with the target in range; other types growth 0, grey; only the flag cleared |
| TestKill.Divide | scripts/test.py:216-241 | daughters take the parent's type, species defaults with target in range; the flag cleared |
| TestKill.DivideMatchesInit | scripts/test.py:223-232 | an SA or PA daughter equals `init` of a new cell of the parent's type |
| Pasa.Update | scripts/pasa.py:96-109 | the result is Updated: one rewriting sweep |
| Pasa.UpdatedFields | scripts/pasa.py:101-109 | same ids; every flag is volume > targetVol; SA grow at SA_MU, PA at PA_MU, other types keep their rate; nothing else changes, types included |
| Pasa.UpdateIdempotent | scripts/pasa.py:96-109 | a second update in a row changes nothing |
| Pasa.Init | scripts/pasa.py:74-93 | SA: SA_MU, colour, target in [1.0, 1.15]; PA: PA_MU, colour, target in [3.5, 4.0]; other types only lose the flag |
| Pasa.Divide | scripts/pasa.py:112-133 | daughters take the parent's type and lose the flag; SA and PA daughters get species colour, rate and target in range; others nothing else |
| Pasa.DivideMatchesInit | scripts/pasa.py:115-128 | every daughter equals `init` of a new cell of the parent's type |
| StaphGrowth.QuarterTurn | scripts/staph_growth.py:34-35 | [-y, x, z] keeps z and x² + y² and is perpendicular to the old axis in the plane |
| StaphGrowth.TurnedPeriodic | scripts/staph_growth.py:34-35 | four quarter turns give back the original axis: the axis has period 4 |
| StaphGrowth.TurnedKeepsLength | scripts/staph_growth.py:34-35 | any number of turns keeps z and x² + y² |
| StaphGrowth.TypeColor | scripts/staph_growth.py:31 | [0.6 t + 0.1, 1 - 0.6 t, 0.3]: blue 0.3, red + green 1.1, in the unit cube for types 0 and 1 |
| StaphGrowth.Update | scripts/staph_growth.py:29-35 | the result is Updated: one rewriting sweep |
| StaphGrowth.UpdatedFields | scripts/staph_growth.py:30-35 | same ids; every cell takes its type colour; an oversized cell is flagged and its axis turned; the flag is never cleared; a cell that is not oversized changes only its colour |
| StaphGrowth.RepeatedTurns | scripts/staph_growth.py:32-35 | a cell that stays oversized for k ticks is flagged and its axis has turned k quarter turns |
| StaphGrowth.Init | scripts/staph_growth.py:24-26 | target in [1, 1.5] and growth 2.0; nothing else |
| StaphGrowth.Divide | scripts/staph_growth.py:38-41 | each daughter gets its own target in [1, 1.5]; nothing else |

## Left out

- `setup(sim)` in every script, the mechanics and diffusion solvers, and the
  renderers. They construct foreign engine objects. The fields those engines
  own (`volume`, `pos`, `dir`, `signals`, `species`) are inputs of the model.
  `update` requires every cell to carry the two grid signals (one
  intracellular species in `simulation.py`). The engine supplies them to
  every cell, so no caller is excluded.
- The OpenCL source strings (`cl_prefix` formatting and concatenation). Only
  the rate expressions are modelled, as functions on reals.
- The periodic `print` diagnostics and their `numpy` max and mean over
  `species` and `signals`. These are observation only. The `max()` over an
  empty SA set would raise `ValueError` there, and that is not modelled.
- `STEP_COUNTER` in the scripts other than the quorum-sensing ones. It is
  only read by the diagnostics.
- Random draws. Each `random.uniform(0, j)` is a parameter in `[0, j]`.
- IEEE floating point. All arithmetic is on `real`, and `np.floor` is
  `.Floor`.
- In-place mutation and aliasing of cell objects. Cells are values, and a
  hook returns the new dictionary or the new cell, not a mutated object.
- Dictionary iteration order. The loops pick keys in an arbitrary order,
  and every result is proved for every order.
- The extracellular script's `specRateCL`. It is an empty kernel with no
  intracellular species, so there is nothing to model.
- `max_cells` in `staph_growth.py`. It is used only by `setup`.
- `DIV_LENGTH_JITTER` (0.6) in every script. It is declared but never read:
  the jitter ranges actually drawn are 0.15 for SA and 0.5 for PA.
- Removals in `test_v2.py`: its first pass never schedules a removal, so the
  removal list that `ContactSweep.ClassifyPass` returns there is always empty
  and `TestV2Kill.Update` never pops it.
- QuorumSensing.DivideMatchesInit: it is stated only for PA daughters and
  untinted SA daughters. A tinted SA daughter takes its inhibitor colour at
  once, while `init` gives plain green, so the two differ.

### Where the scripts differ from one another and from their own comments

The model follows each script's code in each of these cases.

- **Which toxin kills in `simulation.py`.** `diffusion_kill.py` (line 370),
  `diffusion_kill_QS.py` (line 477) and `diffusion_kill_QS_extracellular.py`
  (line 412) kill on the extracellular `signals[0]`. `simulation.py` reads
  the intracellular `species[0]` instead (lines 339-341), and so does
  `Simulation.Poisoned`.
- **The kill threshold in `simulation.py`.** The comment on
  `TOXIN_KILL_THRESHOLD` (`simulation.py:64`) says an SA dies when its toxin
  is above the threshold. The code kills at or above it (line 341).
- **Dead cells in the test scripts.** `contact_kill.py` (lines 211-218),
  `simulation.py` and the three diffusion scripts age dead cells and remove
  them after `DEAD_LIFETIME` ticks, and their kills restart the counter at 0.
  `test_v2.py` and `test.py` never age or remove dead cells, and their kill
  assignment leaves `deadCounter` untouched. `TestV2Kill.Struck` and
  `TestKill.Struck` say so.
- **No crowding in three scripts.** `test_v2.py`, `test.py` and `pasa.py`
  use the bare species rates. The other scripts scale growth by the crowding
  factor (for example `contact_kill.py:133-137`).
- **Colours.** In `test_v2.py`, `test.py` (line 29) and `simulation.py`
  (line 37), `COL_SA` is red `[1, 0, 0]`, although the comment in the test
  scripts says green. The model uses the values.
- **Colour updates in `contact_kill.py`.** Its `update` never recolours a
  living cell. `diffusion_kill.py` paints every PA plain blue in `update`
  (lines 330 and 391) instead of calling `cell_color`.
