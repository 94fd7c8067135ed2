# HyProC NRP core in Dafny

HyProC simulates nuclear reaction profiling (NRP) of hydrogen with the
15N + 1H resonance at 6385 keV. Its core takes a layered target and does four things:

1. It segments the target so that the stopping power is nearly constant
   inside each layer (`mod2.assign_stopping`).
2. For one incident energy, it finds where the resonance is reached. It
   combines the beam, Doppler and straggling widths and remaps the
   broadened energy profile onto depth (`mod3`).
3. It integrates the remapped profile against the target's hydrogen
   profile to get a yield, and compares simulated and measured yields by
   chi-squared (`mod4`).
4. It uses a one-layer reference standard to turn simulated yields into
   measured ones (`UI.py`). `UI.py` also holds the target editor.

The project has seven modules:

- `Layers` (layers.dfy): elements, layers and targets, the error outcomes, and the running sums of areal density and energy loss.
- `Resonance` (resonance.dfy): the loss axis and layer search, in-layer and total depth, Bragg's-rule Z, the Doppler table, the straggling thicknesses and the combined width.
- `Broadening` (broadening.dfy): the energy-to-depth remapping, the layer contributions and the escape fraction.
- `Segmentation` (segmentation.dfy): the halving loop, the Count rule, daughter creation and daughter stopping powers. Each appears as recursive functions and as the source's loops.
- `Yield` (yield.dfy):
  - the step interpolation with `kind='next'`;
  - the hydrogen table;
  - the cell edges of the depth profile;
  - the unit-step grid;
  - the yield sum;
  - chi-squared.
- `Editor` (editor.dfy): the target editor's commands over a state made of the target, the selected layer and the selected element.
- `Calibration` (calibration.dfy): the reference standard and the constant K.

The stopping-power program (SRIM's SR Module) is an oracle parameter: a
function of an element list and an energy. It must answer positively for
every non-negative energy. The straggling law is also a parameter. The
broadened energy profile is a parameter too: a sequence of
(energy, intensity) samples standing for the Gaussian-Lorentzian
convolution. Where the source departs from its evident intent, the
operations take a `Variant`. `AsWritten` follows the code and `Corrected`
follows the intended behaviour (see Findings).

Python exceptions become `Result` errors:

- `ZeroDivision` for a division by zero, or a non-finite numpy quotient.
- `IndexOutOfRange` for `IndexError`.
- `Unbound` for a name read before assignment.
- `Mismatch` for the interpolator's `ValueError`.
- `NotANumber` for the `ValueError` of `float()` on an entry that is not a number.
- `OutOfFuel` for the unbounded halving loop.

`UI.py` imports `mod3_new` under the name `mod3`. `mod3_new` is not part
of this model, so the broadening modelled here is that of `mod3.py`.

Three behaviours of the code look unintended but are modelled exactly as
written:

- chi-squared zips the two vectors and ignores a length mismatch (`Yield.ChiSquaredIgnoresSurplus`);
- the yield grid has a fixed step of 1 TFU (`np.arange(a, b+1, 1)`), whatever the spacing of the depth samples;
- the layer counters are reset for every sample, so the contributions count the last sample only (`Broadening.Normalise`).

The Count rule (mod2.py:148-151) does not always keep a parent's
thickness. A parent halved ctr - 1 times becomes Count daughters of
density d / 2^(ctr-1). They add up to d only for ctr 1, 2, 3 and 5. At
ctr 4 they total 9/8 of d, and from ctr 6 on they total less than d
(`Segmentation.CountMatchesHalvings`). The model keeps the rule as it is.

## Model

| member | source | states |
|---|---|---|
| Resonance.LossAxis | mod3.py:23-39 | entry i of the loss axis is the energy lost crossing layers 0..i, one entry per layer |
| Resonance.LossAxisMonotone | mod3.py:34-39 | with non-negative stopping powers and densities the axis starts at layer 0's loss, each entry adds the layer's own loss, and the axis is non-decreasing |
| Resonance.FindLayerIndex | mod3.py:41-59 | front escape exactly when E_in < E_R; otherwise the first layer whose cumulative loss reaches E_in - E_R, or back escape when no layer does |
| Resonance.FindLayerIndexSentinel | mod3.py:53-59 | the integer code is -2 iff E_in < E_R, -1 iff E_in >= E_R and every cumulative loss is below E_in - E_R, and otherwise a layer index whose loss reaches it |
| Resonance.HitDivides | mod3.py:41-59 | when layer 0's stopping power is nonzero, the layer the first-match search returns has a nonzero stopping power too, even if later unreached layers carry 0 |
| Resonance.FindInLayerThickness | mod3.py:132-157 | the in-layer depth, multiplied back by the layer's stopping power, gives the loss still to be spent after the earlier layers |
| Resonance.InLayerThicknessBounds | mod3.py:132-157 | for the layer the search returns, the in-layer depth lies between 0 and that layer's areal density |
| Resonance.FindTotalThickness | mod3.py:159-188 | a front-escape depth times layer 0's stopping power gives back E_in - E_R; a back escape is the whole target; an in-target depth is the preceding layers plus a remainder that, times the layer's stopping power, is the loss left in that layer |
| Resonance.TotalThicknessPlacement | mod3.py:159-188 | the centre depth is negative for a front escape, the whole target for a back escape, and inside the resonance layer's depth interval otherwise |
| Resonance.MeanZ | mod3.py:75-90 | Bragg's-rule mean Z is the percent-weighted Z sum over the total percent, and fails with ZeroDivision exactly when the kept percentages sum to 0 |
| Resonance.MeanZScaleInvariant | mod3.py:84-90 | the normalisation makes the mean Z independent of a common positive scale of all percentages |
| Resonance.SameMean | mod3.py:84-90 | two layers whose kept Z-weighted and total percentages differ by one nonzero factor have the same mean Z, including the zero-total error |
| Resonance.Round2 | mod3.py:92 | round(x, 2) is a whole number of hundredths within 0.005 of x |
| Resonance.GetZ | mod3.py:61-92 | get_Z succeeds exactly when the kept percentages do not sum to 0, and lies within 0.005 of the mean Z |
| Resonance.DopplerSD | mod3.py:192-217 | the Doppler width lies in (1.6, 4.2421] for every Z in 0..118, and follows the linear fit for every Z other than 14, 22 and 82 |
| Resonance.DopplerIgnoresHydrogen | mod3.py:192-217 | adding hydrogen of any percentage to a layer leaves its Doppler width unchanged |
| Resonance.DopplerWidth | mod3.py:192-217 | the Doppler width exists exactly when the layer holds non-hydrogen elements at a nonzero total percentage; otherwise get_Z divides by zero |
| Resonance.DopplerLayer | mod3.py:332-341 | the layer that sets the Doppler width is always a layer of the target (layer 0 for a front escape, the last layer for a back escape) |
| Resonance.StraggThicknesses | mod3.py:261-278 | one thickness per crossed layer (none before the target, every layer behind it, layers 0..i for resonance layer i), every crossed layer but the resonance layer in full |
| Resonance.StraggPathIsCentreDepth | mod3.py:261-278 | for every target whose layer 0 has a nonzero stopping power, segmented ones with zero-stopping unreached layers included, the thicknesses fed to the straggling law add up to the centre depth of find_total_thickness |
| Resonance.StraggVariance | mod3.py:254-281 | the accumulated variance fails exactly when a layer crossed up to the resonance has no mean Z, and otherwise equals the sum of the per-layer squared straggling widths, which is non-negative |
| Resonance.WidthVariance | mod3.py:328-348 | the combined variance fails exactly when a needed mean Z is missing: the Doppler layer's (hydrogen left out) with Doppler on, or that of a layer crossed up to the resonance |
| Resonance.DopplerOffNeverWider | mod3.py:332-348 | for every target whose layer 0 has a nonzero stopping power, switching Doppler off keeps the width defined, never widens it, and leaves at least the beam variance |
| Resonance.CenterEnergy | mod3.py:350-356 | the grid centre is E_in below the resonance, E_R when it is reached inside the target, and above E_R after a back escape |
| Resonance.CenterAfterBackEscape | mod3.py:353-354 | after a back escape through non-negative layers, the grid centre is E_in minus the loss across the whole target |
| Broadening.RemapDepthConsistent | mod3.py:392-436 | for targets with positive densities and stopping powers, a front-escaped sample is placed before the front face, a back-escaped one beyond the back face, and an in-target one inside its layer's depth interval |
| Broadening.ResonanceInsideDepth | mod3.py:413-425 | for targets with positive densities and stopping powers, when the resonance is inside the target, a sample in any layer (same, deeper or shallower) is placed inside that layer's depth interval |
| Broadening.ResonanceOutsideDepth | mod3.py:427-436 | for targets with positive densities and stopping powers, when the resonance is outside the target, a sample in layer k is still placed inside layer k's depth interval |
| Broadening.RemapSample | mod3.py:384-411 | a sample's hit is the first-match search at its shifted energy; a back escape loses its intensity and every other sample keeps it |
| Broadening.LastCountsSum | mod3.py:388-411 | counters reset on every pass sum to 1 when the last sample fell in a layer and to 0 otherwise |
| Broadening.Normalise | mod3.py:441-444 | the contributions and escape fraction sum to 1, with the whole weight on the last sample's layer or on escape |
| Broadening.Remap | mod3.py:376-444 | for any target whose layer 0 has a nonzero stopping power, fails exactly on an empty profile; maps sample by sample, zeroing back escapes only; contributions plus escape sum to 1 |
| Broadening.WidthAtLeastBeam | mod3.py:348 | for every target whose layer 0 has a nonzero stopping power, the combined variance is never below the beam variance |
| Broadening.Broaden | mod3.py:328-444 | for any target whose layer 0 has a nonzero stopping power: depths and intensities match the samples one to one, one contribution per layer, contributions plus escape sum to 1, and the result exists exactly when the widths exist and the profile is non-empty |
| Broadening.BroadenDepthsPlaced | mod3.py:376-440 | every depth of the broadened profile lies before the front face, beyond the back face, or inside the layer its sample's energy falls in, as that energy's hit says |
| Segmentation.ProbeLayer | mod2.py:125-134 | entry and exit stopping powers are positive; the exit energy is clamped at 0 with the 1e-6 placeholder stopping power; every oracle call is at a non-negative energy |
| Segmentation.ConvergeLayer | mod2.py:112-143 | on success every probe before the last one failed and the last one settles, so the loop stops at the first settling density; the final density is the original one halved once per failed probe, the counter grows by at most the fuel, the last probe agrees within 0.5 %, and the stopping power is its midpoint |
| Segmentation.HalvedTimesPow2 | mod2.py:137-140 | a density halved n times, multiplied by 2^n, is the original density |
| Segmentation.CountFor | mod2.py:148-151 | a parent always becomes at least one daughter, and exactly one when it was never halved |
| Segmentation.FirstProbeSettles | mod2.py:137-143 | a layer that agrees on the first probe keeps its density and counter 1 |
| Segmentation.CountCoversCtr | mod2.py:148-151 | Count is at least the counter, and equal to it exactly for counters 1 and 2 |
| Segmentation.CountMatchesHalvings | mod2.py:145-158 | Count daughters of density d/2^(ctr-1) rebuild the parent exactly when ctr is 1, 2, 3 or 5 |
| Segmentation.ZeroWrite | mod2.py:165-168 | the write at `index` fails with IndexError exactly when `index` is past the end; the corrected write at the first daughter always succeeds and keeps earlier daughters |
| Segmentation.FillOne | mod2.py:172-190 | only the daughter at pos changes; its stopping power is 0 exactly when the energy left after the earlier daughters is spent or its parent was unreached, with no oracle call then, and otherwise positive from one probe starting at that entry energy |
| Segmentation.AssignDaughters | mod2.py:162-190 | the daughter loop keeps densities and elements, leaves earlier layers alone, and gives every daughter its stopping power at its own position |
| Segmentation.SettleParent | mod2.py:108-143 | an unreached parent breaks out at once with counter 1, density and stopping power unchanged and no oracle call; a reached one fails every probe before its last, ends with its last probe within the tolerance, the stopping power at that probe's midpoint, and its density halved ctr - 1 times |
| Segmentation.Fresh | mod2.py:157-158 | Count copies of the parent are appended, each with the density and stopping power the halving loop left and the parent's elements |
| Segmentation.SegmentLayer | mod2.py:107-190 | a pass appends one counter, fails only by fuel or (as written) by IndexError, and makes the unreached flag sticky |
| Segmentation.Segment | mod2.py:95-192 | besides running out of fuel only the as-written stray write can fail, and a finished run has one counter per input layer |
| Segmentation.SegmentShape | mod2.py:95-192 | the segmented target has sum(Count) layers, each a copy of its parent with the halved density, and every oracle call is at a non-negative energy |
| Segmentation.CorrectedStoppings | mod2.py:162-190 | every daughter's stopping power is the midpoint at its entry energy, or 0 from the first unreached parent on |
| Segmentation.VariantsAgreeWhenAllReached | mod2.py:165-168 | when the beam reaches every layer, the source's behaviour equals the corrected one |
| Segmentation.AsWrittenIndexError | mod2.py:154-168 | if a parent is unreached and no earlier parent was halved more than once, the source ends in IndexError |
| Segmentation.IndexErrorWitness | mod2.py:166-168 | a two-layer target of 6500 and 1000 TFU at 6500 keV with stopping power 1 fails as written and segments into two daughters when corrected |
| Segmentation.FirstProbeOneDaughter | mod2.py:137-151 | a reached parent that agrees on its first probe becomes exactly one daughter with the probe's midpoint stopping power |
| Segmentation.Halve | mod2.py:112-142 | the halving while loop ends in the same outcome as the recursive ConvergeLayer |
| Segmentation.FillDaughters | mod2.py:162-190 | the daughter for loop ends in the same target and calls as the recursive AssignDaughters |
| Segmentation.LayerStep | mod2.py:107-190 | one pass of the layer loop equals SegmentLayer |
| Segmentation.AssignStopping | mod2.py:95-192 | the nested loops of assign_stopping equal the recursive Segment |
| Yield.NextStep | mod4.py:27 | interp1d(kind='next', fill_value=0) is 0 outside the abscissa range and otherwise one of the ordinates |
| Yield.NextStepOnCell | mod4.py:27 | on ascending abscissae a point in (x[k-1], x[k]] takes y[k] |
| Yield.HydrogenTable | mod4.py:9-21 | one boundary and one value per layer plus a leading one; boundary i is the cumulative density of layers 0..i-1 (0 at the surface), the leading value is 0, and value i is layer i-1's hydrogen percent |
| Yield.HydrogenBoundsAscending | mod4.py:10-14 | with positive densities the layer boundaries are strictly ascending |
| Yield.HydrogenProfile | mod4.py:26-27 | the hydrogen profile is 0 at or before the front face and beyond the back face, and layer i's hydrogen percent on its depth interval (P(i), P(i+1)] |
| Yield.HydrogenAtMonotone | mod4.py:17-27 | more hydrogen in every layer never lowers the profile at any depth |
| Yield.CellEdges | mod4.py:30-33 | the edges are the midpoints of neighbouring depths with the first extrapolated symmetrically; fewer than two depths end in IndexError |
| Yield.CellEdgesBracket | mod4.py:31-33 | on ascending depths the edges ascend and each depth lies strictly between its left and right edge |
| Yield.BroadShifted | mod4.py:29-34 | as written, the profile at depth x[k] reads intensity y[k+1]: the next-neighbour lookup on left edges shifts the profile by one sample |
| Yield.BroadShiftWitness | mod4.py:29-34 | for depths [0, 2, 4] and intensities [1, 0, 0] the profile at 0 is 0 as written and 1 when corrected |
| Yield.BroadOnCell | mod4.py:29-34 | corrected, the profile is intensity y[k] on the whole cell (e[k], e[k+1]] of sample k |
| Yield.BroadAtSample | mod4.py:29-34 | corrected, the profile at each sample's own depth is that sample's intensity |
| Yield.BroadNonNegative | mod4.py:34 | non-negative intensities give a non-negative profile in both variants |
| Yield.Grid | mod4.py:40 | np.arange(a, b+1, 1): points a, a+1, ... strictly below b+1, and no further point fits |
| Yield.YieldGrid | mod4.py:37-40 | the grid starts at or before depth 0 and covers every sample depth |
| Yield.ComputeYield | mod4.py:24-46 | fails with IndexError for fewer than two depths and with ValueError for mismatched lengths, and succeeds otherwise |
| Yield.YieldHydrogenFree | mod4.py:17-46 | a target whose hydrogen percentages are all 0 yields exactly 0 |
| Yield.YieldWithoutHydrogen | mod4.py:17-46 | a target with no hydrogen element yields exactly 0 |
| Yield.YieldNonNegative | mod4.py:41-46 | non-negative percentages and intensities give a non-negative yield |
| Yield.YieldMonotone | mod4.py:24-46 | more hydrogen per layer with the same densities never lowers the yield and does not change whether it exists |
| Yield.SquaredGaps | mod4.py:49 | one squared gap per zipped pair, over the shorter of the two vectors, each non-negative and 0 exactly when the pair agrees |
| Yield.ChiSquared | mod4.py:48-50 | fails with ZeroDivision exactly for an empty experimental vector and is otherwise non-negative |
| Yield.ChiSquaredZeroIff | mod4.py:48-50 | chi-squared is 0 iff both vectors agree on every experimental index |
| Yield.ChiSquaredSelf | mod4.py:48-50 | a vector compared with itself gives 0 |
| Yield.ChiSquaredIgnoresSurplus | mod4.py:49 | entries of the simulated vector past the experimental length do not change the result |
| Editor.Initial | UI.py:22-37 | the editor opens on one valid layer of 1000 TFU holding silicon at 100 % |
| Editor.AddLayer | UI.py:170-175 | a default layer is appended and selected, the element selection returns to 0, and validity is kept |
| Editor.RemoveLayer | UI.py:177-183 | the selected layer is deleted unless it is the only one; the selection moves up, floored at 0 |
| Editor.DuplicateLayer | UI.py:185-191 | a copy of the selected layer is appended and selected, keeping the element selection |
| Editor.MoveLayerUp | UI.py:193-199 | the selected layer swaps with the one above and stays selected; the layers are a permutation of the old ones; nothing happens at the top |
| Editor.MoveLayerDown | UI.py:201-207 | the selected layer swaps with the one below and stays selected; the layers are a permutation of the old ones; nothing happens at the bottom |
| Editor.MoveUpThenDown | UI.py:193-207 | moving up and then down restores the state |
| Editor.MoveDownThenUp | UI.py:193-207 | moving down and then up restores the state |
| Editor.AddThenRemove | UI.py:170-183 | adding a layer and removing it restores the target |
| Editor.AddElement | UI.py:210-220 | a default element is appended to the selected layer only, and the element selection advances by one |
| Editor.RemoveElement | UI.py:222-231 | the picked element is deleted unless it is the layer's only one or nothing is picked; the element selection moves up, floored at 0 |
| Editor.SelectLayer | UI.py:237-250 | the picked layer becomes selected and the element selection is reset to 0 even with no pick |
| Editor.SelectElement | UI.py:269-283 | the picked element becomes selected; the target is unchanged |
| Editor.EditDensity | UI.py:253-266 | the selected layer's density changes only to a parsed positive value while the list has a selection; nothing else changes |
| Editor.EditElement | UI.py:286-311 | only the selected element of the selected layer can change, and only while the element list has a selection |
| Editor.EditZ | UI.py:295-298 | a Z entry is stored exactly when 0 < Z < 119 and otherwise ignored |
| Editor.EditPercent | UI.py:299-302 | a percentage is stored exactly when 0 <= p <= 100 and otherwise ignored |
| Editor.ValidTargetUsable | UI.py:28-37 | a target the editor keeps valid is non-empty with positive densities and admissible elements: Z in 1..118 and percentages between 0 and 100 |
| Calibration.GetStandardInfo | UI.py:356-376 | any unparsable entry ends in UnboundLocalError; otherwise the standard is hydrogen at H % plus Z at 100 - H %, with the oracle's positive stopping power at 6385 keV |
| Calibration.StandardTarget | UI.py:383-387 | the standard is one layer 1500 TFU deep with the standard's stopping power and elements, its hydrogen profile at the back face is the standard's hydrogen percent, and it is physical when the stopping power is positive |
| Calibration.StandardTargetFacts | UI.py:383-387 | the standard target is physical, and its hydrogen percent is H, or 100 when Z is 1 |
| Calibration.StandardYield | UI.py:379-391 | the simulated standard yield exists exactly when every standard entry and the beam width parse (an unparsable standard entry gives UnboundLocalError, an unparsable beam width then a ValueError), the broadened profile has at least two samples, and, with Doppler on, the standard has a non-hydrogen share (Z other than 1 and H other than 100 %) |
| Calibration.Quotient | UI.py:392 | the quotient fails exactly on a zero simulated yield, and otherwise scales the simulated yield exactly onto the measured one |
| Calibration.CalibrationConstant | UI.py:378-394 | K carries any earlier error, fails exactly when the simulated standard yield is 0, and otherwise K times that yield is the measured yield |
| Calibration.HydrogenFreeStandardFails | UI.py:378-394 | a standard with 0 % hydrogen and Z other than 1 never gives a constant |

## Left out

- Gaussian, Lorentzian, the discrete convolution, trapezoidal normalisation and the 1501-point grid (mod3.py:358-374) are floating-point numerics. The broadened energy profile is a parameter (`Broadening.Sample` list).
- Stragg_law (mod3.py:219-236) is an empirical power law with a square root. It is the parameter `StraggLaw`. stragg's final square root is not modelled because the width is combined as a variance.
- The SRIM call chain (mod2.py:22-93: file writes, process start, sleep, output parsing) is the `Oracle` parameter. Only the element list reaches it.
- Floating-point rounding, `inf` and `nan` are not modelled; reals are exact. A non-finite numpy quotient is reported as `ZeroDivision`.
- Resonance.Round2: Python's round() works on binary floats. The model rounds exact decimals half to even.
- Segmentation.ConvergeLayer: the source's halving loop has no bound. The `fuel` parameter caps the halvings, and `OutOfFuel` stands for a loop that would run longer.
- assign_stopping halves the caller's layer densities in place (mod2.py:139). The model returns the segmented target and leaves the input unchanged.
- The tkinter widgets, list refreshes, printing, file loading and saving, plotting and the threaded run (UI.py:40-165, 315-355, 397-473) are interface and I/O.
- The Calculation orchestration (UI.py:400-473) is not modelled. It runs segmentation, broadening and the yield per energy and scales the yields by K.
- Yield.NextStep: scipy's interp1d sorts its abscissae first. The model reads them in the given order, and the properties about it require ascending abscissae.
- Yield.ComputeYield: its contract states only when the yield exists. Its value is stated by the lemmas YieldNonNegative, YieldMonotone, YieldHydrogenFree and YieldWithoutHydrogen.
- Yield.HydrogenTable: an empty target is not treated specially. Broadening requires a non-empty target before the yield is reached.
- Segmentation.Halve, Segmentation.FillDaughters, Segmentation.LayerStep, Segmentation.AssignStopping: each contract equates the loop to its recursive function. The properties are stated on the functions.
- The editor commands require the selection indices to be in range. An out-of-range selection would raise IndexError in the source; every command keeps the selections in range, as `Valid` states.
- get_A, get_density (mod3.py:94-130) and the Bohr law are reached only through the disabled `if False:` branch of stragg, so they are left out.
- Broadening.Broaden: requires layer 0's stopping power to be nonzero (`FrontDivisible`). The source divides by it for every energy outside the target; on a target whose layer 0 has stopping power 0 it fails or yields a non-finite value, which the model does not follow. Later layers may carry stopping power 0, as segmentation leaves unreached daughters.
- Broadening.Remap: the same layer-0 precondition as Broaden, for the same reason.
- Broadening.WidthAtLeastBeam: the same layer-0 precondition as Broaden, for the same reason.
- Resonance.DopplerOffNeverWider: the same layer-0 precondition as Broaden, for the same reason.
- Resonance.StraggPathIsCentreDepth: the same layer-0 precondition as Broaden, for the same reason.
- Broadening.BroadenDepthsPlaced: stated for targets with positive densities and stopping powers throughout (`Physical`). A segmented target whose unreached daughters carry stopping power 0 is not covered by this placement property.
- Broadening.RemapDepthConsistent: the same restriction to targets with positive densities and stopping powers; a segmented target with zero-stopping unreached daughters is not covered.
- Broadening.ResonanceInsideDepth: the same restriction to targets with positive densities and stopping powers.
- Broadening.ResonanceOutsideDepth: the same restriction to targets with positive densities and stopping powers.
- Broadening.Broaden: the optional data files of `saveData` (mod3.py:446-458) are I/O.

## Findings

| source | as written | input that shows it | evidently intended | confidence | as-written member | corrected member |
|---|---|---|---|---|---|---|
| mod2.py:154-168 | for a parent the beam does not reach, the stopping power at position `index` is set to 0, where `index` is the running sum of halving counters rather than a daughter position | stopping power 1 keV/TFU at every energy, layers of 6500 and 1000 TFU of silicon, 6500 keV: the second parent is unreached, `index` is 2 and only two daughters exist, so the write raises IndexError. When the earlier daughters outnumber the earlier counters by exactly one, the write lands on the unreached parent's own first daughter and does no harm; when they outnumber them by two or more, it zeroes an earlier, reached daughter | zero the stopping power of the unreached parent's own first daughter | not executed | Segmentation.IndexErrorWitness | Segmentation.CorrectedStoppings |
| mod4.py:29-34 | left cell edges are handed to interp1d with kind='next', so the profile at a point takes the intensity of the next edge above it, i.e. sample k's intensity is shown over the cell of sample k-1 | depths [0, 2, 4] with intensities [1, 0, 0]: at depth 0 the profile is 0 instead of 1 | each sample's intensity over its own cell (e[k], e[k+1]] | not executed | Yield.BroadShiftWitness | Yield.BroadOnCell |
