# Aria, modelled and proved in Dafny

A model of the parts of Aria whose results other parts rely on: the host memory gate
and the explicit-state checker that vouches for it, the Majorana propagation engine
and its error certificate, the numerical oracles, the statevector reference simulator,
the lowering pass from Aria circuits to the execution IR, the truncated Fock-space
gates, and the hyperparameter study. Code that works in place is modelled in place, on
arrays and objects; expressions are functions; each method is proved against a
specification, and the theorems are about the specifications.

Arithmetic is over exact reals and unbounded integers. Machine words are written out
where they decide something: the grid counter, the saturating size and the integer
dimensions. Square roots, sines, cosines, exponentials and logarithms are function
parameters with the laws that are used stated as predicates. A float that may be NaN
or infinite is an optional value where the code tests for it.

| modules | what they model |
|---|---|
| `Wrappers` | the option and result shapes |
| `Worklist`, `HostGate` | breadth-first search, traces and the backward fixpoint over any finite graph; the admission ledger with crash, restart and prune for any number of processes |
| `Rdeps` | the reverse-dependency closure of the audit tool |
| `Linear`, `Ridge`, `RidgePenalty` | ridge regression by Gauss-Jordan elimination, and when it refuses |
| `Jacobi`, `Neumann`, `Supervised` | cyclic Jacobi sweeps, the Neumann inverse, the AUC and the least-squares head |
| `Bits`, `ComplexNumbers`, `Majorana`, `MajoranaFock`, `MajoranaPauli` | the monomial algebra, the operators on Fock states it stands for, and the Jordan-Wigner image of Pauli strings |
| `PauliTerms` | what a term of an observable means: the product of its operators, and when marking its qubits reads it |
| `MajoranaEngine`, `MajoranaBranch`, `MajoranaPropagate`, `MajoranaCertificate`, `MajoranaDoor`, `MajoranaGates` | the coefficient map, one rotation, the backward walk with cuts, the certificate, the Pauli door and the gate table |
| `Statevector`, `Simulator` | the in-place gate loops over 2^n amplitudes and the reference simulator |
| `PairMaps`, `TurnMaps`, `GateMeaning`, `GateTable`, `GateDiagonals`, `GateComposites`, `GateTilts`, `GateAgreement` | the gate table of the engine against the matrices of the simulator, gate by gate, up to a global phase |
| `CrossCheck`, `PauliExpectation` | the two engines side by side on whole circuits, and the evaluation of an observable on amplitudes |
| `DeferMeasure`, `DeferredRun`, `Dephase` | deferring measurements, the run it stands for outcome by outcome, dephasing the observable, and the expectation door for circuits that measure |
| `Expressions`, `Lowering` | symbol allocation, expression translation and the whole lowering |
| `CvFibers`, `CvSqueeze`, `CvFock`, `CvLeak`, `CvSqueezeLeak` | the displacement and squeeze recurrences, the leak budget, and what it cannot see |
| `TuneSpace`, `TuneGrid`, `TuneStudy`, `TunePruner`, `TuneModel` | search spaces, grid enumeration, the ask/report/tell loop, and the rank and median pruners |

`dafny verify dfyconfig.toml` checks the whole project.

## Where the code and its documentation differ

The model follows the code. Each point is proved by the member named.

- The checker's introduction expects `NeverOvercommitted` to fail for a ledger rewritten in place. It fails exactly when the needs that fit the box one by one exceed it together (`HostGate.OvercommitsExactly`), which the base configuration, whose needs add up to the capacity, rules out; the property that fails there is `AccountingCoversReality` (`HostGate.TruncationBreaksTheBooks`).
- The certificate documents generators of length four and more as the only ones that change a monomial's length. Every generator whose length is not two changes some length (`MajoranaCertificate.LengthKeptExactly`), and a run can cross the cut while the reported count is zero (`MajoranaCertificate.CountMissesShortGenerators`).
- An observable may name a qubit twice in one term, and one backend reads such a term as the product of its factors in list order. The Majorana engine marks flips and phases instead: `Z0Z0` is read as `Z0` and `X0Z0` as `Y0` (`PauliTerms.TwoZsAreMisread`, `PauliTerms.XThenZIsMisread`). The reading is right exactly when the list multiplies out to its marks (`PauliTerms.MarksReadExactly`), so always when no qubit is named twice (`PauliTerms.NamedOnceMultipliesOut`), and what a certificate bounds is the marked reading (`MajoranaGates.ExpectationWithCertificate`). The state-vector backend takes each factor's phase from the original index: `Y0Y0` evaluates to minus one (`PauliExpectation.TwoYsAreMisread`, `PauliExpectation.EvaluatorReadsExactly`).
- The engine accepts CU3 only as a controlled phase, but tests both tilts against 1e-12 and then drops them, so an exact run is not exact for a gate tilted within the threshold (`GateAgreement.TableAgrees`, `GateAgreement.SmallTiltIsDropped`).
- Dephasing is documented as recovering the value of the mixture for every observable. A term that flips a measured qubit twice is deleted although its product leaves the qubit alone (`Dephase.TwoXsAreDropped`); it is right exactly under the condition of `Dephase.DephasedExactly`, so always when no qubit is named twice.
- Givens rotations are documented as keeping every length. They do so for neighbouring wires only (`MajoranaGates.GivensLength`).
- Only a run whose bound excludes nothing is documented as refused. An exact run is refused too when the ceiling is zero or less, as for an observable with no terms or an explicit ceiling of zero (`MajoranaCertificate.Finish`, `MajoranaGates.WeightlessIsRefused`).
- Truncation is documented as following every rotation; the walk truncates once per gate (`MajoranaPropagate.UndoGate`).
- The lowering numbers `size` wires per quantum register, while the reported qubit count doubles spin registers (`Lowering.WiresAreFilledExactly`); and a slot declared twice leaves an index that belongs to nobody (`Lowering.FlatMapIsOntoExactly`, `Lowering.SameNameLosesAnIndex`, `Lowering.SpinRegisterLeavesAWire`).
- The ridge solver names its refusal a singular normal matrix. It refuses some systems with exactly one solution (`Ridge.RefusesSolvable`); a large enough penalty rules refusal out (`RidgePenalty.LargePenaltyIsAccepted`).
- The least-squares head is the global minimiser exactly when the spread reaches the threshold or there is no slope to find (`Supervised.HeadIsBestExactly`, `Supervised.NarrowSpreadMissesSlope`).
- The lost mass of a Fock state is a probability in the documentation; a state built from a tail above one has it lowered to one by the next displacement or squeeze (`CvFock.BudgetGrows`). A displacement by zero charges the budget although it moves nothing (`CvFock.ZeroDisplacement`, `CvFock.QuietGateStillCharges`).
- The mass past the pad is documented as far below any tolerance for the magnitudes the representation can carry. No magnitude is refused, and that mass is neither kept nor recorded: a large displacement leaves a state whose readout is accepted and far off (`CvLeak.RecordedMass`, `CvLeak.FarDisplacementUnseen`, `CvLeak.FarReadout`), and every squeeze but the zero one loses mass unseen (`CvSqueezeLeak.RecordedSqueezedMass`).
- A window of `size` grid suggestions lists every point once exactly when the counter does not wrap in it or the size divides its range (`TuneGrid.WindowExactly`); when the size saturates, points are missed (`TuneGrid.SaturatedGridMisses`).
- Relaxing the model gates is documented as widening them. The rank floor rises instead when it is negative before relaxing, and the ceiling falls when it is (`TuneModel.RelaxingWidens`, `TuneModel.RelaxingCanTighten`).
- A gate pruner may be built to wait for no trial. Asked before any trial has completed, it fixes its thresholds over no rows at all, and its collapse gate never fires for a share of at most one (`TuneModel.NoWarmupNeverCollapses`).

## Model

| member | source | states |
|---|---|---|
| `HostGate.Successors` | proofs/tla/check_hostgate.py:97-140 | the labelled successors are exactly the enabled actions, each with the state it leads to |
| `HostGate.StepKeepsInv` | proofs/tla/check_hostgate.py:97-140 | one step of any kind keeps the ledger invariant (owned records equal what is resident, stale ones belong to no live owner, the charge fits the box), except a crash that truncates a ledger someone else uses |
| `HostGate.InvIsSafe` | proofs/tla/check_hostgate.py:143-157 | the invariant excludes all three safety violations |
| `HostGate.SafetyExactly` | proofs/tla/check_hostgate.py:143-157 | every reachable state, for any number of processes, needs, capacity and restarts and under either keying, is safe if and only if the ledger is atomic, or there are fewer than two processes, or no grant can ever be made |
| `HostGate.TruncationBreaksTheBooks` | proofs/tla/check_hostgate.py:119-125 | otherwise one grant and one crash elsewhere reach a state whose books cover less than what is occupied |
| `HostGate.HealingTerminates` | proofs/tla/check_hostgate.py:208-210 | a run of prunes and releases is no longer than the number of positive records, each step clearing at least one |
| `HostGate.HealedIsEmpty` | proofs/tla/check_hostgate.py:110-138 | with identity keying and an atomic ledger, a state in which no prune and no release is enabled has empty ledger and empty memory |
| `HostGate.PruneBalances` | proofs/tla/check_hostgate.py:133-138 | where no stale record hides behind a live process, a single enabled prune makes charged equal occupied |
| `HostGate.StaleRecordSurvives` | proofs/tla/check_hostgate.py:68-88 | with an atomic ledger under pid-only keying, a stale record beside a live process survives every step except the crash of that process |
| `HostGate.HealableExactly` | proofs/tla/check_hostgate.py:194-225 | with an atomic ledger, a state can heal back to balance if and only if the keying is by identity or it holds no stale record |
| `HostGate.InPlaceHealsExactly` | proofs/tla/check_hostgate.py:194-225 | with a ledger rewritten in place, a reachable state holds no stale record and offers no prune, and it can heal if and only if its books balance already, under either keying |
| `HostGate.StaleIsReachable` | proofs/tla/check_hostgate.py:97-140 | acquire, crash, restart reaches such a stale record whenever a grant and a restart are possible |
| `HostGate.OccupiedWithinNeeds` | proofs/tla/check_hostgate.py:142-147 | whatever the flags, no run occupies more than the sum of the needs that fit the box one by one |
| `HostGate.OvercommitsExactly` | proofs/tla/check_hostgate.py:142-147 | some run occupies more than the box holds if and only if the ledger is rewritten in place and the needs that fit one by one exceed the capacity together, or, where no process ever restarts, exceed it together without one of them |
| `HostGate.Universe` | proofs/tla/check_hostgate.py:49-53 | with bounded restarts the possible states form a finite set, described exactly |
| `HostGate.Report` | proofs/tla/check_hostgate.py:228-260 | the whole checker, with bounded restarts: the number of states counted is the number of reachable states; a violation is reported if and only if the configuration is unsafe; a leak if and only if some reachable state cannot heal, which for an atomic ledger means pid-only keying, a possible restart and a possible grant, and for one rewritten in place means that the configuration is unsafe |
| `Worklist.Explore` | proofs/tla/check_hostgate.py:160-180 | breadth-first search visits exactly the reachable states, each once and level by level, counts every edge, and keeps the first offender in search order |
| `Worklist.TraceTo` | proofs/tla/check_hostgate.py:183-191 | the parent chain read backwards is a walk to the state, and no walk is shorter |
| `Worklist.WalksAreNoShorter` | proofs/tla/check_hostgate.py:160-191 | in a finished search tree every walk is at least as long as the depth it reaches |
| `Worklist.HealingPredecessors` | proofs/tla/check_hostgate.py:208-216 | the reversed table lists exactly the healing edges between explored states |
| `Worklist.CannotRebalance` | proofs/tla/check_hostgate.py:194-225 | the backward fixpoint returns exactly the explored states from which no healing walk reaches a balanced one |
| `Rdeps.ReverseEdges` | tools/audit/rdeps.py:102-111 | a crate is listed as a dependent with a kind exactly when it declares the dependency and that is how its last declaration reads |
| `Rdeps.Put` | tools/audit/rdeps.py:106-110 | assigning to a key keeps keys distinct and replaces exactly that entry |
| `Rdeps.ReachedExactly` | tools/audit/rdeps.py:114-140 | a crate is reached exactly when it depends on a member of the stable ball around the targets |
| `Rdeps.Closure` | tools/audit/rdeps.py:114-140 | the result lists exactly the crates reached by at least one reverse edge other than the targets, or by exactly one in direct mode; a label lacks its "via" exactly for direct dependents, and otherwise names the crate before the last on a shortest chain |
| `Ridge.NormalEquations` | crates/aria-verify-core/src/data.rs:92-118 | the loops build exactly the normal equations with the intercept column and the penalty on the diagonal |
| `Ridge.PivotRow` | crates/aria-verify-core/src/data.rs:120-127 | the pivot is the last of the rows whose entry is largest in magnitude |
| `Ridge.PivotKeepsSolutions` | crates/aria-verify-core/src/data.rs:131-143 | swapping, scaling and eliminating keeps the solution set |
| `Ridge.PivotAddsUnitColumn` | crates/aria-verify-core/src/data.rs:131-143 | treating a column makes it a unit column and leaves the earlier ones so |
| `Ridge.PivotColumn` | crates/aria-verify-core/src/data.rs:131-143 | the in-place row operations are the pivot step on the whole matrix |
| `Ridge.SolutionMinimises` | crates/aria-verify-core/src/data.rs:84-91 | with a non-negative penalty a solution of the normal equations has the least penalised squared error of all weight vectors |
| `Ridge.RidgeRegression` | crates/aria-verify-core/src/data.rs:87-146 | an accepted answer is the one solution of the normal equations and a global minimiser; mismatched inputs are refused, and anything else is accepted exactly when elimination never meets a column whose remaining entries are all under the pivot floor |
| `Ridge.RefusesSolvable` | crates/aria-verify-core/src/data.rs:128-130 | the floor refuses systems that have exactly one solution: a concrete sample set |
| `RidgePenalty.LargePenaltyIsAccepted` | crates/aria-verify-core/src/data.rs:112-130 | no sample set is refused once the penalty is at least the pivot floor times the square root of the number of unknowns |
| `RidgePenalty.TiedStep` | crates/aria-verify-core/src/data.rs:131-143 | what is left to reduce is as large, on vectors the reduced rows kill, as the whole matrix was |
| `RidgePenalty.NormalIsLarge` | crates/aria-verify-core/src/data.rs:92-114 | the matrix of the normal equations makes every vector with a unit entry at least as large as the penalty |
| `Ridge.RidgePredict` | crates/aria-verify-core/src/data.rs:149-151 | for any number of features: the dot product with the intercept feature appended, missing features counting as zero, and with too many of them the intercept weight once more times the first excess feature |
| `Jacobi.TangentSolves` | crates/aria-verify-core/src/oracle.rs:38-43 | the computed tangent solves the quadratic that makes the pivot vanish |
| `Jacobi.AngleIsUnit` | crates/aria-verify-core/src/oracle.rs:44-45 | the computed cosine and sine lie on the unit circle |
| `Jacobi.AngleClears` | crates/aria-verify-core/src/oracle.rs:36-59 | the computed angle turns the pivot into zero |
| `Jacobi.RotationKeepsSymmetry` | crates/aria-verify-core/src/oracle.rs:46-59 | a rotation keeps the matrix symmetric |
| `Jacobi.RotationKeepsTrace` | crates/aria-verify-core/src/oracle.rs:46-59 | a rotation keeps the trace |
| `Jacobi.RotationKeepsFrobenius` | crates/aria-verify-core/src/oracle.rs:46-59 | a rotation keeps the Frobenius norm |
| `Jacobi.RotationKeepsSpectrum` | crates/aria-verify-core/src/oracle.rs:46-59 | a rotation keeps every eigenvalue and adds none |
| `Jacobi.RotationKeepsNear` | crates/aria-verify-core/src/oracle.rs:46-59 | a rotation keeps, for every number and every bound, whether some unit vector is multiplied by the number but for a residual within the bound |
| `Jacobi.RotationLowersOff` | crates/aria-verify-core/src/oracle.rs:46-59 | a rotation that clears its pivot lowers the upper square sum by exactly the square of the pivot |
| `Jacobi.OffSum` | crates/aria-verify-core/src/oracle.rs:20-25 | the double loop sums the squares above the diagonal |
| `Jacobi.Rotate` | crates/aria-verify-core/src/oracle.rs:46-59 | the two loops are the similarity transform of the whole matrix |
| `Jacobi.AnnihilatedKeeps` | crates/aria-verify-core/src/oracle.rs:31-59 | the turn of one pivot clears it and keeps everything a run keeps, or changes nothing when it is negligible |
| `Jacobi.Sweep` | crates/aria-verify-core/src/oracle.rs:29-61 | one pass treats every pivot above the diagonal in row order |
| `Jacobi.SweepsKeep` | crates/aria-verify-core/src/oracle.rs:18-62 | any number of sweeps keeps symmetry, trace, Frobenius norm, spectrum and near-eigenvalues; a sweep lowers the upper square sum exactly when some pivot is not negligible and otherwise changes nothing |
| `Jacobi.JacobiEigenvalues` | crates/aria-verify-core/src/oracle.rs:13-66 | the answer is the diagonal, in descending order, after the first sweep count at which the upper square sum is negligible, or after a hundred; either way the numbers are near the spectrum of the input within what is left |
| `Jacobi.EigenvaluesBalance` | crates/aria-verify-core/src/oracle.rs:13-66 | the returned numbers add up to the trace, and their squares miss the Frobenius norm by twice what is left above the diagonal |
| `Jacobi.ReturnedAreNear` | crates/aria-verify-core/src/oracle.rs:13-66 | with the square sum S left above the diagonal, each returned number y has a unit vector v whose residual Av - yv has squared length at most S, and every eigenvalue of the input A is within the root of 2S of a returned number |
| `Jacobi.DiagonalizedIsExact` | crates/aria-verify-core/src/oracle.rs:13-66 | in particular, with nothing left the returned numbers are exactly the eigenvalues of the input |
| `Neumann.InvPoly` | crates/aria-verify-core/src/oracle.rs:107-115 | Horner's loop is the truncated series, and x times it misses one by a power of 1 - x |
| `Neumann.ErrorIs` | crates/aria-verify-core/src/oracle.rs:101-122 | the error of the series is that power over x |
| `Neumann.NeumannBound` | crates/aria-verify-core/src/oracle.rs:119-122 | on [1/kappa, 1] the error is within the bound, with equality at 1/kappa |
| `Majorana.PhaseParity` | crates/omega-backend-majoranaprop/src/majorana.rs:156-169 | the phase exponent of a product is odd exactly when the monomials anticommute |
| `Majorana.CountIsInversions` | crates/omega-backend-majoranaprop/src/majorana.rs:172-200 | the inversion count taken bit by bit is the number of inversions of the ordered product |
| `Majorana.PhaseCancels` | crates/omega-backend-majoranaprop/src/majorana.rs:202-219 | multiplying twice by the same monomial cancels both the key and the phase |
| `Majorana.PhaseSwap` | crates/omega-backend-majoranaprop/src/majorana.rs:202-219 | the two orders of a product differ by the sign that says whether the factors commute |
| `Majorana.SelfPhase` | crates/omega-backend-majoranaprop/src/majorana.rs:10-14 | a monomial is its own inverse |
| `Majorana.RotateBack` | crates/omega-backend-majoranaprop/src/majorana.rs:221-234 | rotating the image back returns the monomial with the opposite sign |
| `Majorana.RotationLength` | crates/omega-backend-majoranaprop/src/majorana.rs:24-29 | a length-two generator keeps every length it moves; a length-four one changes it by exactly two |
| `MajoranaFock.GammaAnticommute` | crates/omega-backend-majoranaprop/src/majorana.rs:7-9 | the operators on Fock states behind the keys anticommute |
| `MajoranaFock.MonomialProduct` | crates/omega-backend-majoranaprop/src/majorana.rs:17-22 | the product of two monomials, as operators, is the monomial of the symmetric difference times the power of i the code computes |
| `MajoranaFock.Hermitian` | crates/omega-backend-majoranaprop/src/majorana.rs:10-14 | every monomial with the computed phase is Hermitian |
| `MajoranaFock.ReadoutBound` | crates/omega-backend-majoranaprop/src/majorana.rs:10-14 | no monomial reads more than the squared norm of the state |
| `MajoranaFock.RotationRule` | crates/omega-backend-majoranaprop/src/majorana.rs:221-234 | reading a monomial after a rotation of the state is the two-term rule with the sign of `rotate_by` |
| `MajoranaFock.RotorKeepsMass` | crates/omega-backend-majoranaprop/src/majorana.rs:24-27 | the rotation is unitary |
| `MajoranaFock.VacuumReadout` | crates/omega-backend-majoranaprop/src/majorana.rs:236-264 | the computed vacuum readout is the expectation in the vacuum state |
| `MajoranaPauli.SiteIsProduct` | crates/omega-backend-majoranaprop/src/majorana.rs:271-307 | one X, Y or Z with its Jordan-Wigner string is the ordered product of its generators up to the computed power of i |
| `MajoranaPauli.FromPauli` | crates/omega-backend-majoranaprop/src/majorana.rs:266-318 | the key and exponent represent the Pauli string as an operator, and the exponent is always a sign |
| `MajoranaPauli.ExponentIsEven` | crates/omega-backend-majoranaprop/src/majorana.rs:266-317 | a string and its monomial differ by a sign only, since both square to one |
| `MajoranaEngine.MajoranaSum.Add` | crates/omega-backend-majoranaprop/src/engine.rs:324-327 | the key is present afterwards, its coefficient grows by the amount, and no other key or coefficient changes |
| `MajoranaEngine.MajoranaSum.Truncate` | crates/omega-backend-majoranaprop/src/engine.rs:364-377 | exactly the small and the long terms go, and the L1 mass before is the mass after plus what was banked |
| `MajoranaEngine.MajoranaSum.Expectation` | crates/omega-backend-majoranaprop/src/engine.rs:379-385 | the sum of coefficients times readouts in the vacuum |
| `MajoranaEngine.RotatedValue` | crates/omega-backend-majoranaprop/src/engine.rs:598-632 | rotating the coefficients or pulling back the readout gives the same value |
| `MajoranaEngine.RotatedL2` | crates/omega-backend-majoranaprop/src/engine.rs:598-632 | a rotation keeps the sum of the squared coefficients, merged keys included |
| `MajoranaEngine.TruncationBound` | crates/omega-backend-majoranaprop/src/engine.rs:364-377 | what truncation discards bounds what it changes, in every state of unit norm |
| `MajoranaBranch.Branch` | crates/omega-backend-majoranaprop/src/engine.rs:598-632 | the drained and refilled map is the rotated sum: its keys and coefficients are given for every key |
| `MajoranaBranch.BranchedValue` | crates/omega-backend-majoranaprop/src/engine.rs:598-632 | one rotation of the sum answers for one rotation of the state |
| `MajoranaBranch.BranchedL2` | crates/omega-backend-majoranaprop/src/engine.rs:598-632 | the sum of squares is the same after the rotation of the map |
| `MajoranaBranch.QuarterTurn` | crates/omega-backend-majoranaprop/src/engine.rs:603-607 | at a quarter or half turn the map is relabelled: same number of terms and same magnitudes |
| `MajoranaPropagate.Conjugate` | crates/omega-backend-majoranaprop/src/engine.rs:580-590 | the rotations of a gate, last to first, conjugate the sum, and the branching ones are counted |
| `MajoranaPropagate.CertifiedCut` | crates/omega-backend-majoranaprop/src/engine.rs:591-593 | a cut adds exactly what it discards to the certified distance |
| `MajoranaPropagate.UndoGate` | crates/omega-backend-majoranaprop/src/engine.rs:570-594 | one gate and its cut keep everything the walk maintains |
| `MajoranaPropagate.Propagate` | crates/omega-backend-majoranaprop/src/engine.rs:561-596 | the backward walk either stops at the last inexpressible gate, or ends in a sum whose reading is within the banked mass of the truth in every state, equal to the uncut one when nothing could be cut |
| `MajoranaCertificate.Finish` | crates/omega-backend-majoranaprop/src/engine.rs:508-556 | a returned value is within the discarded mass of the true expectation and below the ceiling; a run that discards nothing is exact, and returned if and only if the explicit ceiling, or with none given the range, is positive |
| `MajoranaCertificate.InformativeExactly` | crates/omega-backend-majoranaprop/src/engine.rs:116-118 | the certificate is informative exactly when its interval excludes some value of the a-priori range |
| `MajoranaCertificate.TruthInRange` | crates/omega-backend-majoranaprop/src/engine.rs:176-179 | the true expectation lies in the range given by the coefficients of the seed |
| `MajoranaCertificate.UncutL2` | crates/omega-backend-majoranaprop/src/engine.rs:139-140 | an uncut run conserves the sum of the squared coefficients |
| `MajoranaCertificate.LengthKeptExactly` | crates/omega-backend-majoranaprop/src/engine.rs:94-99 | a generator keeps the length of everything it moves if and only if its own length is two |
| `MajoranaCertificate.CountMissesShortGenerators` | crates/omega-backend-majoranaprop/src/engine.rs:585-587 | generators of length one and three change lengths while the branching count stays at zero: a concrete run |
| `MajoranaDoor.ObservableL1Norm` | crates/omega-backend-majoranaprop/src/engine.rs:176-179 | the sum of the magnitudes of the coefficients |
| `MajoranaDoor.PauliIsMonomial` | crates/omega-backend-majoranaprop/src/engine.rs:183-213 | the expectation of a Pauli string is that of its monomial with the sign of the encoding |
| `MajoranaDoor.Collect` | crates/omega-backend-majoranaprop/src/engine.rs:184-208 | which qubits some site of the term flips and which some site gives a phase, however often they are named; or the first qubit that does not exist |
| `PauliTerms.MarksReadExactly` | crates/omega-backend-majoranaprop/src/engine.rs:183-213 | those marks read a term as the product of its operators, in every state, if and only if the list multiplies out to them: no mark cancels and no power of i is left |
| `PauliTerms.NamedOnceMultipliesOut` | crates/omega-backend-majoranaprop/src/engine.rs:183-213 | so it does whenever no qubit is named twice, identities aside |
| `PauliTerms.ThreeZsAreRead` | crates/omega-backend-majoranaprop/src/engine.rs:183-213 | naming a qubit more than once need not do harm: three Zs multiply out to one |
| `PauliTerms.TwoZsAreMisread` | crates/omega-backend-majoranaprop/src/engine.rs:183-213 | Z on one qubit twice is read as Z: minus one where the product, the identity, reads one |
| `PauliTerms.XThenZIsMisread` | crates/omega-backend-majoranaprop/src/engine.rs:183-213 | X and then Z is read as Y, while the product is i times Y |
| `MajoranaDoor.SeedFromPauli` | crates/omega-backend-majoranaprop/src/engine.rs:183-213 | the seeded sum reads like the marks of the observable in every state, like the observable itself when every term multiplies out to its marks, and keeps its L1 mass within the range and its monomials within any cut the terms are within; a missing qubit is refused |
| `MajoranaGates.PauliRot` | crates/omega-backend-majoranaprop/src/engine.rs:658-675 | the rotation by a Pauli string is a Majorana rotation with the sign folded into the angle |
| `MajoranaGates.RotationsFor` | crates/omega-backend-majoranaprop/src/engine.rs:681-834 | each entry of the gate table becomes the rotations that turn every state as its Pauli rotations do, or is refused |
| `MajoranaGates.ExpectationWithCertificate` | crates/omega-backend-majoranaprop/src/engine.rs:465-476 | after the deferral: a missing qubit is named; a run is refused for a gate exactly when some gate has no entry or still waits on a classical bit, and otherwise when the dropped mass reaches the ceiling; a returned value is within the dropped mass of what the marks read, hence of the expectation when every term multiplies out; with nothing to cut it is exact, and returned if and only if the explicit ceiling, or with none given the range of the observable, is positive |
| `MajoranaGates.WeightlessIsRefused` | crates/omega-backend-majoranaprop/src/engine.rs:508-556 | with no explicit ceiling the range admits a run if and only if some term has a weight: an observable without one, the empty one first of all, is refused however exact its run |
| `MajoranaGates.CompiledRan` | crates/omega-backend-majoranaprop/src/engine.rs:561-596 | the compiled rotations turn states as the Pauli rotations of the circuit do |
| `MajoranaGates.CliffordCircuit` | crates/omega-backend-majoranaprop/src/engine.rs:741-782 | circuits of X, Y, Z, S, Sdg, Sx, Sxdg, H, CX, CY, CZ and Swap compile to quarter turns only |
| `MajoranaGates.GentleCircuit` | crates/omega-backend-majoranaprop/src/engine.rs:799-803 | circuits of gates about Z, half turns and Givens rotations of neighbouring wires drop nothing at any length cut that the seed respects |
| `MajoranaGates.GivensLength` | crates/omega-backend-majoranaprop/src/engine.rs:799-803 | the generators of a Givens rotation on wires p and q have length twice their distance, so only neighbouring wires keep lengths |
| `PairMaps.MixedTwice` | crates/omega-backend-majoranaprop/src/engine.rs:677-680 | mixing pairs of amplitudes twice is mixing them once by the products of the matrices |
| `GateTable.HadamardAmounts` | crates/omega-backend-majoranaprop/src/engine.rs:695-702 | the three quarter turns of H are the Hadamard matrix, up to a global phase |
| `GateTable.EulerKernel` | crates/omega-backend-majoranaprop/src/engine.rs:755-759 | the three rotations of U3 are its matrix, up to a global phase |
| `GateDiagonals.CPAmounts` | crates/omega-backend-majoranaprop/src/engine.rs:687-694 | the three rotations of a controlled phase are its matrix on the pairs with the control set, up to a global phase |
| `GateDiagonals.CRzAmounts` | crates/omega-backend-majoranaprop/src/engine.rs:783-787 | the two rotations of a controlled Rz are exactly its matrix |
| `GateDiagonals.CCZAmounts` | crates/omega-backend-majoranaprop/src/engine.rs:710-721 | seven commuting rotations are the doubly controlled sign, up to a global phase |
| `GateComposites.CXAmounts` | crates/omega-backend-majoranaprop/src/engine.rs:703-709 | the rotations of CX exchange the pairs with the control set |
| `GateComposites.SwapAmounts` | crates/omega-backend-majoranaprop/src/engine.rs:778-782 | the XX, YY and ZZ rotations of Swap exchange the pairs whose bits differ |
| `GateComposites.RbsAmounts` | crates/omega-backend-majoranaprop/src/engine.rs:799-803 | the two rotations of Rbs are the real rotation of the pairs whose bits differ |
| `GateAgreement.GivensGate` | crates/omega-backend-majoranaprop/src/engine.rs:799-803 | and that is the gate of the simulator, which names the wires the other way round |
| `GateAgreement.ExchangeGate` | crates/omega-backend-majoranaprop/src/engine.rs:805-811 | CX, CCX and CX again exchange two wires where the control is set |
| `GateAgreement.TableAgrees` | crates/omega-backend-majoranaprop/src/engine.rs:681-834 | every entry of the table turns every state as the matrix of its gate does, up to a global phase, if and only if it is not a CU3 whose dropped tilts do something |
| `GateTilts.ControlTells` | crates/omega-backend-majoranaprop/src/engine.rs:788-798 | two gates under one control that agree up to a phase in every state have the same matrix |
| `GateAgreement.SmallTiltIsDropped` | crates/omega-backend-majoranaprop/src/engine.rs:788-798 | a CU3 with tilts within the threshold is accepted, and agrees with the gate if and only if both tilts are zero |
| `CrossCheck.RunsAgree` | crates/omega-backend-majoranaprop/tests/engine_vs_statevector.rs:97-159 | the in-place run of the simulator, read as a state vector, is the circuit applied gate by gate |
| `CrossCheck.ExpectedIsTrue` | crates/omega-backend-majoranaprop/tests/engine_vs_statevector.rs:97-159 | what the engine certifies is read in the state after the gates themselves |
| `CrossCheck.EnginesAgree` | crates/omega-backend-majoranaprop/tests/engine_vs_statevector.rs:97-159 | for every circuit in both tables and every observable, what the engine certifies is read in the state that the run of the simulator leaves in its array |
| `CrossCheck.ForwardZAgrees` | crates/omega-backend-majoranaprop/tests/engine_vs_statevector.rs:185-199 | in particular what is certified about Z on a qubit is the signed mass the simulator reports |
| `PauliExpectation.EnginesReportAlike` | crates/omega-backend-majoranaprop/tests/engine_vs_statevector.rs:97-159 | for observables whose terms name no qubit twice it is the number the amplitudes evaluate to |
| `PauliExpectation.ExpectationPauli` | crates/omega-backend-statevector/src/sim.rs:1856-1900 | the two loops sum, over all indices, the product of the amplitude where the factors land, the phase they collect and the amplitude they start from |
| `PauliExpectation.Expectation` | crates/omega-backend-statevector/src/sim.rs:156-199 | the coefficients times those numbers, added up; a qubit the state does not have is refused by name |
| `PauliExpectation.EvaluatedReads` | crates/omega-backend-statevector/src/sim.rs:1856-1900 | the number is the reading of the product of the factors, with a sign for each phase taken after its qubit was flipped |
| `PauliExpectation.EvaluatorReadsExactly` | crates/omega-backend-statevector/src/sim.rs:1869-1893 | so it is the expectation of the product in every state if and only if there is an even number of those, or the product has no real expectation |
| `PauliExpectation.TwoYsAreMisread` | crates/omega-backend-statevector/src/sim.rs:1869-1893 | Y on one qubit twice is the identity, and evaluates to minus one |
| `PauliTerms.TermIsMultiple` | crates/omega-backend-mps/src/sim.rs:1816-1838 | the operators of a term applied in the order of the list are a power of i times one Hermitian string |
| `PauliTerms.ReadingTells` | crates/omega-backend-mps/src/sim.rs:1816-1838 | two such multiples, one of them Hermitian, that read alike in every state are the same |
| `Statevector.Apply1Q` | crates/aria-verify-core/src/sim.rs:33-46 | the pair loop applies the two-by-two matrix to every pair of amplitudes exactly once |
| `Statevector.ApplyControlled1Q` | crates/aria-verify-core/src/sim.rs:48-61 | the same where the control bit is set, and nothing elsewhere |
| `Statevector.SwapWires` | crates/aria-verify-core/src/sim.rs:63-75 | amplitudes whose two bits differ change places |
| `Statevector.RotateGivens` | crates/aria-verify-core/src/sim.rs:221-241 | the Rbs loop is the real rotation on the pairs whose two bits differ |
| `Statevector.ApplyToffoli` | crates/aria-verify-core/src/sim.rs:242-252 | X on the target where both controls are set |
| `Statevector.ApplyControlledSwap` | crates/aria-verify-core/src/sim.rs:253-262 | exchange of two wires where the control is set |
| `Statevector.Pairing` | crates/aria-verify-core/src/sim.rs:33-75 | partners are mutual, distinct, in range, touched together and on opposite sides |
| `Statevector.UnitaryKeepsMass` | crates/aria-verify-core/src/sim.rs:33-75 | a unitary matrix keeps the mass under every weight shared by its pairs |
| `Statevector.ExchangeKeepsHamming` | crates/aria-verify-core/src/sim.rs:63-75 | exchanging two differing bits keeps the Hamming weight |
| `Statevector.DiagonalKeepsAmplitudes` | crates/aria-verify-core/src/sim.rs:48-61 | a diagonal matrix of unit phases keeps every squared amplitude |
| `Statevector.GateIsLinear` | crates/aria-verify-core/src/sim.rs:33-75 | every gate is a linear map |
| `Statevector.NotRelabels` | crates/aria-verify-core/src/sim.rs:63-75 | the exchange-like gates are index involutions |
| `Simulator.TableIsUnitary` | crates/aria-verify-core/src/sim.rs:80-100 | every matrix of the gate table is unitary |
| `Simulator.Simulate` | crates/aria-verify-core/src/sim.rs:139-287 | the circuit is refused above twenty qubits or at an unsupported gate; otherwise the array holds the state after all gates, of mass one |
| `Simulator.RunKeepsMass` | crates/aria-verify-core/src/sim.rs:139-287 | every run keeps the sum of the squared amplitudes |
| `Simulator.RunKeepsSectors` | crates/aria-verify-core/src/sim.rs:221-262 | runs of exchanges, Givens rotations and diagonal gates keep the mass of every Hamming-weight sector |
| `Simulator.ForwardZExpectations` | crates/aria-verify-core/src/sim.rs:119-137 | each returned number is the signed mass of the run, between -1 and 1 |
| `Expressions.SymTab.IdOf` | crates/aria-runtime/src/lower.rs:58-68 | the id of a name; a new name extends the table at its end |
| `Expressions.SymTab.Conv` | crates/aria-runtime/src/lower.rs:73-108 | an expression is translated exactly when it is representable, its symbols numbered in walk order, with earlier ids unchanged |
| `Expressions.SymTab.ConvAll` | crates/aria-runtime/src/lower.rs:110-112 | the same for a list, left to right |
| `Expressions.ImageMeans` | crates/aria-runtime/src/lower.rs:73-108 | the translation evaluates to what the source expression does, under every binding, or both fail |
| `Expressions.ImageIsStable` | crates/aria-runtime/src/lower.rs:73-108 | later allocations leave a translation as it was |
| `Expressions.IdsAreDense` | crates/aria-runtime/src/lower.rs:44-46 | ids are injective, dense, and ordered by first appearance |
| `Lowering.Flatten` | crates/aria-runtime/src/lower.rs:117-136 | the loops build the global index of every register slot |
| `Lowering.FlatMapIsInjective` | crates/aria-runtime/src/lower.rs:117-136 | no two slots share an index and every index is below the total, whatever the register names |
| `Lowering.FlatMapIsOntoExactly` | crates/aria-runtime/src/lower.rs:117-136 | the indices are a numbering of the declared slots if and only if no slot is declared twice |
| `Lowering.SameNameLosesAnIndex` | crates/aria-runtime/src/lower.rs:117-136 | two registers of one name: index 0 belongs to nobody |
| `Lowering.SpinRegisterLeavesAWire` | crates/aria-runtime/src/lower.rs:235-236 | one spin register of one slot: of the two reported wires the second belongs to nobody |
| `Lowering.WiresAreFilledExactly` | crates/aria-runtime/src/lower.rs:235-236 | the flattened qubits fill the reported wires if and only if no quantum register is a non-empty spin register |
| `Lowering.LowerInstruction` | crates/aria-runtime/src/lower.rs:141-219 | an instruction is lowered exactly when its gate, parameters, qubits and condition can be, and to the operation the table gives |
| `Lowering.NeedsCollapse` | crates/aria-runtime/src/lower.rs:222-233 | the flag is set if and only if some gate other than barrier, measure and identity follows some measurement |
| `Lowering.Lower` | crates/aria-runtime/src/lower.rs:115-245 | the whole lowering: accepted exactly when every instruction is, operations in order, symbols numbered by first appearance |
| `Lowering.LoweringMeans` | crates/aria-runtime/src/lower.rs:115-245 | with one value for each symbol in id order, every parameter that reaches a gate evaluates as in the source circuit |
| `Expressions.ConcreteEval` | crates/aria-core/src/ast/expr.rs:43-53 | expressions without free symbols evaluate alike under every binding |
| `Expressions.FlatBindingMeans` | crates/omega-core/src/params.rs:33-70 | a value vector in id order means the binding by name it stands for |
| `CvFibers.DisplaceFiber` | crates/omega-backend-cv/src/lib.rs:76-116 | the swapped column buffers compute the displacement matrix applied to the fiber |
| `CvFibers.RowRecurrence` | crates/omega-backend-cv/src/lib.rs:466-475 | the matrix defined column by column satisfies the recurrence along its rows as well |
| `CvFibers.OppositeIsAdjoint` | crates/omega-backend-cv/src/lib.rs:76-116 | the opposite displacement is the conjugate transpose |
| `CvFibers.NoDisplacement` | crates/omega-backend-cv/src/lib.rs:76-116 | displacing by zero is the identity matrix |
| `CvSqueeze.SqueezeFiber` | crates/omega-backend-cv/src/lib.rs:148-212 | the two swapped buffers compute the squeeze matrix applied to the fiber |
| `CvSqueeze.ParityKept` | crates/omega-backend-cv/src/lib.rs:129-133 | no element links levels of different parity |
| `CvSqueeze.SectorKept` | crates/omega-backend-cv/src/lib.rs:178-180 | a state with photon numbers of one parity keeps it |
| `CvSqueeze.SqueezeRows` | crates/omega-backend-cv/src/lib.rs:129-133 | the squeeze matrix satisfies the row recurrence as well |
| `CvSqueeze.OppositeIsTransposed` | crates/omega-backend-cv/src/lib.rs:148-212 | the opposite squeeze is the transposed matrix |
| `CvSqueeze.NoSqueeze` | crates/omega-backend-cv/src/lib.rs:148-212 | squeezing by zero is the identity matrix |
| `CvFock.FockState.ExpectN` | crates/omega-backend-cv/src/lib.rs:378-403 | refused exactly when more has leaked than tolerated or the norm is zero; otherwise the weighted mean, between zero and the top level |
| `CvFock.FockState.Kerr` | crates/omega-backend-cv/src/lib.rs:412-426 | a phase on each level, no amplitude changes magnitude; a non-finite parameter is refused and changes nothing |
| `CvFock.FockState.PhaseShift` | crates/omega-backend-cv/src/lib.rs:428-438 | the same for the phase shifter |
| `CvFock.FockState.Displace` | crates/omega-backend-cv/src/lib.rs:508-538 | the kept levels are the displaced ones, and the losses grow by what lies between the cutoff and the pad above it |
| `CvFock.FockState.SqueezeBy` | crates/omega-backend-cv/src/lib.rs:579-602 | the same for the squeeze |
| `CvFock.PhotonsOutweighMass` | crates/omega-backend-cv/src/lib.rs:521-526 | spilled photons number at least the cutoff for each unit of spilled mass |
| `CvFock.BudgetGrows` | crates/omega-backend-cv/src/lib.rs:531-536 | the photon-weighted loss never shrinks; the plain loss stays in [0, 1] and never shrinks if and only if it was at most one |
| `CvFock.ZeroDisplacement` | crates/omega-backend-cv/src/lib.rs:508-538 | displacing by zero leaves every amplitude alone |
| `CvFock.QuietGateStillCharges` | crates/omega-backend-cv/src/lib.rs:531-536 | a gate that spills nothing still raises the budget unless nothing had been lost before |
| `CvFock.ZeroSqueeze` | crates/omega-backend-cv/src/lib.rs:579-602 | squeezing by zero leaves every amplitude alone |
| `CvLeak.RecordedMass` | crates/omega-backend-cv/src/lib.rs:508-538 | of a displaced vacuum the kept and the recorded mass never exceed one together, and make up one if and only if the displacement is zero |
| `CvLeak.FarDisplacementUnseen` | crates/omega-backend-cv/src/lib.rs:508-538 | if the squared displacement is at least twice a level j above the pad, no more than 2^-j of the displaced vacuum is kept or recorded |
| `CvLeak.PhotonsAreMass` | crates/omega-backend-cv/src/lib.rs:508-538 | the photons on the first levels are the squared displacement times the mass on one level fewer, so it is the mean of the whole state |
| `CvLeak.FarReadout` | crates/omega-backend-cv/src/lib.rs:378-403 | the vacuum on eight levels displaced by twenty: a readout that tolerates a millionth answers at most seven, where the mean is four hundred |
| `CvSqueezeLeak.PartialBound` | crates/omega-backend-cv/src/lib.rs:579-602 | the weights of the even levels add up to a partial sum whose square, times one minus tanh^2, misses one by at least a power of tanh^2 |
| `CvSqueezeLeak.RecordedSqueezedMass` | crates/omega-backend-cv/src/lib.rs:579-602 | of a squeezed vacuum the kept and the recorded mass never exceed one together, make up one if and only if the squeezing is zero, and fall short of one, squared, by at least tanh(r)^(2 (cutoff + pad)) |
| `CvFock.GateKeeps` | crates/omega-backend-cv/src/lib.rs:412-438 | what each of the four gates keeps of a state |
| `CvFock.RunKeeps` | crates/omega-backend-cv/src/lib.rs:378-403 | over any run a readout refused for leaking stays refused at the same tolerance, losses never shrink, and parity is kept by runs that never displace |
| `CvFock.RunGates` | crates/omega-backend-cv/src/lib.rs:412-602 | a run applies its gates one after the other and stops at the first refused one |
| `CvFock.FromAmplitudesWeighted` | crates/omega-backend-cv/src/lib.rs:334-365 | accepted exactly for finite amplitudes and non-negative finite tails, and stored as given |
| `TuneSpace.IntGridIsExact` | crates/aria-tune/src/space.rs:79-120 | a valid integer dimension lists exactly the multiples of the step between its bounds |
| `TuneSpace.FloatGridIsEven` | crates/aria-tune/src/space.rs:100-140 | a float dimension runs from bound to bound in equal steps |
| `TuneSpace.TryAdd` | crates/aria-tune/src/space.rs:224-228 | a dimension is accepted exactly when it validates, and then stands at the end of an otherwise unchanged space |
| `TuneSpace.AddMultiplies` | crates/aria-tune/src/space.rs:268-273 | adding a dimension multiplies the number of grid points by its cardinality |
| `TuneSpace.Size` | crates/aria-tune/src/space.rs:268-273 | the number of points, or the largest machine word when that overflows |
| `TuneGrid.GridSampler.Decode` | crates/aria-tune/src/sampler.rs:84-93 | the digits of the counter are a point whose index is the counter modulo the size |
| `TuneGrid.IndexInjective` | crates/aria-tune/src/sampler.rs:84-93 | two points with the same index are the same point |
| `TuneGrid.GridSampler.Suggest` | crates/aria-tune/src/sampler.rs:96-102 | the point at the counter, which then advances and wraps at the machine word |
| `TuneGrid.WindowListsAll` | crates/aria-tune/src/sampler.rs:84-102 | while nothing overflows, every window of `size` calls lists every grid point exactly once |
| `TuneGrid.WindowExactly` | crates/aria-tune/src/sampler.rs:84-102 | for a size within the machine word it does so if and only if the counter does not wrap in the window or the size divides its range |
| `TuneGrid.SaturatedGridMisses` | crates/aria-tune/src/sampler.rs:84-102 | when the size saturates, some point of the grid is listed by no call, wherever the counter stands |
| `TuneModel.Density` | crates/aria-tune/src/sampler.rs:154-163 | for any prior weight: probabilities proportional to the smoothed counts, undefined exactly when the divisor is zero, and without zeros when the weight is positive |
| `TuneModel.Split` | crates/aria-tune/src/sampler.rs:180-191 | the good and the bad are a ranking of all observations, better first and earlier first among equals, with at least one on each side |
| `TuneModel.RankingIsUnique` | crates/aria-tune/src/sampler.rs:180-186 | such a ranking leaves no choice |
| `TuneStudy.Study.DoAsk` | crates/aria-tune/src/study.rs:78-85 | a running trial with the next id and the point the sampler proposes from the completed history |
| `TuneStudy.Study.DoReport` | crates/aria-tune/src/study.rs:88-96 | one report is appended to one trial; an unknown id changes nothing |
| `TuneStudy.Study.DoShouldPrune` | crates/aria-tune/src/study.rs:101-118 | only a running trial can be pruned, and the verdict is recorded |
| `TuneStudy.Study.DoTell` | crates/aria-tune/src/study.rs:127-137 | only a running trial is finished, and a non-finite score prunes it |
| `TuneStudy.Study.Best` | crates/aria-tune/src/study.rs:140-152 | the earliest among the best completed trials, in either direction |
| `TuneStudy.Study.Run` | crates/aria-tune/src/study.rs:70-137 | any sequence of calls is the fold of its steps |
| `TuneStudy.CallsEvolve` | crates/aria-tune/src/study.rs:70-137 | over any sequence of calls ids stay positions, trials are never lost, and a state moves only from running, and once |
| `TuneStudy.CompletedStays` | crates/aria-tune/src/study.rs:70-75 | a completed trial keeps its score and stays in the history |
| `TunePruner.MedianHalves` | crates/aria-tune/src/pruner.rs:67-78 | a value worse than the median is beaten by at least half of the values, and one beaten by more than half is worse |
| `TunePruner.MedianPrunesBeaten` | crates/aria-tune/src/pruner.rs:81-106 | a trial is pruned only when at least half of the completed peers at its step are strictly better |
| `TunePruner.MedianMirrored` | crates/aria-tune/src/pruner.rs:81-106 | negating all values and flipping the direction changes no verdict |
| `TunePruner.VerdictIsRank` | crates/aria-tune/src/pruner.rs:139-163 | at a rung the verdict compares the rank of the trial with the number kept |
| `TunePruner.HalvingKeepsItsShare` | crates/aria-tune/src/pruner.rs:139-163 | when each of N trials is judged against all the others, at least the ceiling of N / eta survive, and exactly so many if and only if nobody among them is level with someone past them, as when all values differ |
| `TunePruner.HalvingMirrored` | crates/aria-tune/src/pruner.rs:139-163 | negating all values and flipping the direction changes no verdict |
| `TuneModel.GatePruner.Calibrate` | crates/aria-tune/src/pruner.rs:260-290 | thresholds are set from the first large enough history and never again; over no rows the floor is not a number |
| `TuneModel.CalibrateAll` | crates/aria-tune/src/pruner.rs:260-290 | over any sequence of calls, the first history with enough rows fixes the thresholds |
| `TuneModel.NoWarmupNeverCollapses` | crates/aria-tune/src/pruner.rs:260-290 | a pruner that waits for no trial and is first asked before any has completed never prunes for collapse |
| `TuneModel.RelaxingWidens` | crates/aria-tune/src/pruner.rs:287-289 | a larger relaxation lowers the floor, and does not lower the ceiling, if and only if each was not negative before relaxing; both together are what it takes to prune nothing more |
| `TuneModel.RelaxingCanTighten` | crates/aria-tune/src/pruner.rs:287-289 | five trials whose mean rank is below its deviation: relaxing raises the floor |
| `DeferMeasure.CheckMeasurements` | crates/omega-core/src/defer_measure.rs:162-195 | the first pass accepts exactly when every measurement is unconditional and its qubit is afterwards only measured or waited on, and otherwise names the first conditional measurement or the first use after one |
| `DeferMeasure.DeferMeasurements` | crates/omega-core/src/defer_measure.rs:161-279 | accepted exactly when the first pass accepts and every condition tests one measured bit for true before a gate with a controlled form; each condition becomes a control on the qubit that wrote its bit last, and the qubits whose outcome is used are listed once each; a refusal names the first thing in the way |
| `DeferMeasure.ControlIsFree` | crates/omega-core/src/defer_measure.rs:241-253 | the kept check against a gate that acts on its own control can never fire |
| `DeferMeasure.PrepareCircuit` | crates/omega-core/src/defer_measure.rs:338-355 | a circuit without measurements passes unchanged, conditions included; any other is deferred or refused |
| `DeferredRun.SteppedUnderControl` | crates/omega-core/src/defer_measure.rs:147-154 | where the control qubit is known, the controlled gate acts as the gate or not at all |
| `DeferredRun.RestProjected` | crates/omega-core/src/defer_measure.rs:48-56 | a qubit that is left alone after its measurement may be projected at the end of the deferred run instead |
| `DeferredRun.DeferredReads` | crates/omega-core/src/defer_measure.rs:1-56 | over all outcomes that are used, the run with collapses and conditions reads, with any reading, what the final state of the deferred circuit reads split over the values of the qubits used |
| `Dephase.DeferringAloneMisreads` | crates/omega-core/src/defer_measure.rs:8-19 | in the deferred state of a Hadamard, a measurement and a conditioned X, XX reads the whole mass; over the outcomes it reads nothing |
| `Dephase.DeferralKeepsExpectation` | crates/omega-core/src/defer_measure.rs:281-329 | the two halves together: the expectation over all outcomes of the run is that of the dephased observable in the final state of the deferred circuit, for every circuit that can be deferred and every observable whose terms multiply out to their marks |
| `Dephase.ReadingSplit` | crates/omega-core/src/executor.rs:928-941 | over the two outcomes of a qubit, a string that flips it reads nothing and any other reads as before |
| `Dephase.DephasedExactly` | crates/omega-core/src/executor.rs:963-978 | deleting or keeping a term is averaging it over the outcomes, in every state, if and only if the term flips no measured qubit, or its product flips one, or the product has no real expectation |
| `Dephase.TwoXsAreDropped` | crates/omega-core/src/executor.rs:938-978 | X twice on a measured qubit is the identity, yet the term is deleted |
| `Dephase.DephasedReads` | crates/omega-core/src/executor.rs:963-978 | the dephased observable reads the average over the outcomes when each of its terms does |
| `Dephase.ExpectationOfCircuit` | crates/omega-backend-majoranaprop/src/engine.rs:465-478 | the whole door: a circuit that measures is refused for its first fault exactly when it cannot be deferred; a term with a missing qubit is refused unless dephasing deletes it; a returned value is within the dropped mass of the expectation over all outcomes, for every observable whose terms multiply out to their marks and every circuit in which no acting tilt is dropped |
| `Supervised.Auc` | crates/aria-runtime/src/train_supervised.rs:124-155 | the pair statistic with half weight for ties, between 0 and 1, and one half when a class is missing |
| `Supervised.AucMapped` | crates/aria-runtime/src/train_supervised.rs:124-155 | unchanged by every strictly increasing map of the scores, and one minus it under every strictly decreasing one |
| `Supervised.LossAtMeans` | crates/aria-runtime/src/train_supervised.rs:158-173 | the loss of any line, around the means |
| `Supervised.HeadIsBestExactly` | crates/aria-runtime/src/train_supervised.rs:158-173 | the returned line is the global minimiser if and only if the spread reaches 1e-12 or the covariance is zero |
| `Supervised.NarrowSpreadMissesSlope` | crates/aria-runtime/src/train_supervised.rs:158-173 | two scores a ten-millionth apart: the flat line is returned although a sloped one is better |
| `Supervised.FitHeadMse` | crates/aria-runtime/src/train_supervised.rs:158-173 | the loops return that line: through the means, with slope zero when the spread is below 1e-12 and otherwise the covariance over the variance |

## Left out

- Floating point: rounding, NaN ordering and the snap-to-zero thresholds near machine precision; every quantity is an exact real.
- The ceiling on the number of live monomials and the peak count: they depend on the iteration order of a hash map.
- The fermionic seed and its dephasing in the Majorana basis; the engine is entered with a circuit and a Pauli observable.
- Measurements whose outcome nobody reads: the code takes them for readout lines and elides them, and the run with outcomes does the same.
- The a-priori mean-square ratio of the certificate: a published average-case bound that the code only evaluates.
- Packing monomial labels into machine words: a label is a sequence of booleans.
- Binding of symbolic gate parameters inside the simulator and the engine: gates carry real angles.
- The refusal of circuits with wires of more than two levels, made before any of the modelled code runs.
- Constructors of coherent and squeezed vacuum states, the default photon weight of a tail, the two-mode operations and the phased squeeze, which the code refuses as well.
- Export of studies to CSV and JSON, the mean score and the counters.
- The gradient, skill and slope gates of the gate pruner, and the random draws of the samplers.
- Logarithmic dimensions: their value is a parameter, so nothing is said about their spacing.
- Training by gradient steps and the logistic head.
- The eigenvalue oracle's convergence: each sweep is proved to make progress, not how much.
- Quantum Fourier amplitudes, brute-force cuts, Pauli decompositions and singular values of the oracle module: single expressions or exhaustive loops.
- Widths of symbol ids and wire indices: ids are unbounded.
- Matrix-product, GPU and photonic backends, command line, remote execution and bindings.
