# Three-body orbit simulation, modelled in Dafny

This project models the simulation core of `script.js`. That file is a browser page that integrates
three point masses under softened Newtonian gravity (G = 1) and draws their orbits. The model covers:

- the page's single `state` record: `running`, `step`, `dt`, the softening length and the bodies;
- `createInitialBodies` and `reset`;
- the direct pairwise force sum `computeAccelerations`, which skips the self term;
- the kick-drift-kick leapfrog step `leapfrogStep`;
- the energy diagnostic `computeEnergy`;
- the bounded trail buffer `updateTrails`, which keeps at most 260 points per body;
- the run/pause toggle `toggleRunning`;
- the reset button handler;
- the per-frame rule of `animate`: two steps plus two trail updates when running, nothing when paused.

Layout, one module per concern:

- `bodies.dfy` (`Bodies`): vectors, bodies, the softening constant and the softened squared distance.
- `gravity.dfy` (`Gravity`): the pairwise pull and the acceleration of every body as recursive sums.
- `leapfrog.dfy` (`Leapfrog`): the half-kick, the drift and one whole step as functions on the list of
  bodies, with exact time reversibility.
- `energy.dfy` (`Energy`): kinetic and pair-potential sums, with their signs and their pair counting.
- `trails.dfy` (`Trails`): the bounded first-in-first-out trail.
- `simulation.dfy` (`OrbitSimulation`): the class `State`. Its methods update the fields in place with
  the source's loops, and each method is proved equal to the functions above.

Modelling decisions:

- Numbers are mathematical reals.
- `Math.sqrt` is the constant field `State.sqrt`, supplied when the state is built. The model assumes
  only that it is positive on positive arguments (`SqrtPositive`).
- The softening length is the constant `SOFTENING = 0.02`. The source sets it once in the state
  literal (`script.js:15`) and never reassigns it.
- A body is a value (`Body(m, r, v, trail)`) held in the sequence field `State.bodies`. The source
  mutates body objects in place; the methods instead replace element `i` of the sequence.
- The constructor of `State` is the state literal. The slider's initial `dt` is a parameter, and the
  bodies start empty. The top-level `reset()` call that follows it (`script.js:179`) is a call of
  `Reset` by the client.
- `ComputeEnergy` keeps the kinetic term inline as the source does. It takes each pair term from the
  function `PairPotential`, which computes the same softened `m_a * m_b / dist`.
- `script.js` has no centre-of-mass normalisation, no mass validation and no step-count parameter.
  Positive masses are a class invariant instead: `InitialBodies` establishes it and every step keeps
  it. The frame rule does exactly two steps.

## Model

| member | source | states |
|---|---|---|
| Bodies.DistSq | script.js:47 | the softened squared distance is at least softening², so it is strictly positive even for coincident bodies and its root can be divided by |
| Bodies.DistSqSymmetric | script.js:93 | the softened distance is the same measured from either body of a pair |
| Gravity.PairAccel | script.js:45-52 | the pull of one body on another lies along the line joining them, and is zero when their positions coincide |
| Gravity.PairAccelAttracts | script.js:45-52 | for a nonnegative puller mass each component of the pull has the sign of the separation, so the pull points towards the other body |
| Gravity.PairAccelReads | script.js:45-50 | a single pull reads only the puller's mass and position and the pulled body's position |
| Gravity.AccelSum | script.js:43-53 | the inner accumulation for body i over the bodies below j, skipping j == i; its properties are carried by AccelSumCoincidentIsZero, AccelSumReadsMassesAndPositions and AccelSumIgnoresOwnMassAndVelocity |
| Gravity.AccelSumCoincidentIsZero | script.js:45-52 | bodies at body i's own position add nothing to its acceleration |
| Gravity.Accelerations | script.js:40 | exactly one acceleration per body |
| Gravity.AccelSumReadsMassesAndPositions | script.js:43-53 | each partial sum of pulls depends only on masses and positions, never on velocities or trails |
| Gravity.AccelerationsReadMassesAndPositions | script.js:39-55 | two body lists with the same masses and positions get the same accelerations |
| Gravity.AccelSumIgnoresOwnMassAndVelocity | script.js:43-44 | the self term is skipped: a partial sum for body i ignores body i's own mass and velocity |
| Gravity.OwnMassDoesNotPullItself | script.js:44 | replacing body i by any body at the same position leaves body i's acceleration unchanged |
| Gravity.LoneBodyFeelsNoForce | script.js:39-55 | a one-body system gets the zero acceleration |
| Gravity.TwoBodyAccelerations | script.js:39-55 | with two bodies, each acceleration is exactly the pull of the other body |
| Gravity.PairPullsAreOpposite | script.js:45-52 | action and reaction: the mass-weighted pulls within a pair are equal and opposite |
| Leapfrog.KickBody | script.js:61-62 | a half-kick of one body writes only its velocity: mass, position and trail are kept |
| Leapfrog.HalfKick | script.js:60-63 | a half-kick of every body, with the same accelerations used for the second kick at script.js:71-74, keeps the number of bodies, every mass, position and trail; HalfKickUndone and HalfKickKeepsAccelerations carry its inverse and its effect on the forces |
| Leapfrog.DriftBody | script.js:66-67 | a drift of one body writes only its position: mass, velocity and trail are kept |
| Leapfrog.Drift | script.js:65-68 | a drift of every body keeps the number of bodies, every mass, velocity and trail; DriftUndone carries its inverse |
| Leapfrog.StepBodies | script.js:58-77 | a step keeps the number of bodies, every mass and every trail |
| Leapfrog.HalfKickUndone | script.js:60-63 | a half-kick with -dt undoes a half-kick with dt under the same accelerations |
| Leapfrog.DriftUndone | script.js:65-68 | a drift with -dt undoes a drift with dt |
| Leapfrog.HalfKickKeepsAccelerations | script.js:70 | a half-kick moves no body, so the accelerations taken after it are the ones taken before it |
| Leapfrog.StepReversible | script.js:59-74 | over exact arithmetic, a step with dt followed by a step with -dt restores every body exactly |
| Leapfrog.LoneBodyMovesUniformly | script.js:59-74 | a lone body keeps its velocity and moves by exactly v * dt in one step |
| Energy.KineticTerm | script.js:84 | a body's kinetic energy is nonnegative when its mass is |
| Energy.PairPotential | script.js:91-94 | the magnitude of a pair term is positive when both masses are positive |
| Energy.Kinetic | script.js:83-85 | the kinetic sum over the first n bodies in index order; KineticNonnegative and LoneBodyEnergy carry its properties |
| Energy.RowPotential | script.js:88-95 | the inner j-loop sum for body i, subtracting one pair term per j > i; RowPotentialNonpositive and RowPotentialAppend carry its properties |
| Energy.Potential | script.js:87-96 | the outer i-loop sum of the rows; PotentialNonpositive and PotentialAddsOneTermPerPair carry its properties |
| Energy.TotalEnergy | script.js:98 | kinetic plus potential; LoneBodyEnergy and TwoBodyEnergy carry its values for one and two bodies |
| Energy.ColumnPotential | script.js:94 | the reference sum by columns: the pair terms of one body with each body before it, against which PotentialAddsOneTermPerPair checks the row sums |
| Energy.KineticNonnegative | script.js:83-85 | with positive masses the kinetic sum is nonnegative |
| Energy.RowPotentialNonpositive | script.js:88-95 | with positive masses the inner-loop sum for one body is at most zero |
| Energy.PotentialNonpositive | script.js:87-96 | with positive masses the potential part is at most zero |
| Energy.LoneBodyEnergy | script.js:79-98 | with a single body the energy is its kinetic energy |
| Energy.TwoBodyEnergy | script.js:79-98 | with two bodies the energy is both kinetic terms minus the one pair term, which is counted once |
| Energy.PairPotentialSymmetric | script.js:91-94 | a pair term is the same with the two bodies swapped |
| Energy.RowPotentialAppend | script.js:88-95 | appending a body leaves unchanged the inner sums that end before it |
| Energy.PotentialAppendPrefix | script.js:87-96 | appending a body adds one pair term to each row of the potential below it |
| Energy.PotentialAddsOneTermPerPair | script.js:87-96 | a new body adds exactly one pair term with each body already present and nothing else: one term per unordered pair i < j |
| Trails.TrailPush | script.js:103-106 | a push appends the point; if the trail was full (260) the oldest point is dropped; the kept points keep their order; a trail within the bound stays within it and ends at the new point |
| Trails.TrailsUpdated | script.js:101-108 | a trail update changes no mass, position or velocity and keeps the number of bodies |
| Trails.TrailsUpdatedEndAtPositions | script.js:101-108 | after an update every trail is within 260 and ends at its body's current position; a full trail loses exactly its oldest point, any other grows by one |
| OrbitSimulation.InitialBodies | script.js:22-31 | the initial configuration has three bodies, each with a positive mass and an empty trail |
| OrbitSimulation.Advance | script.js:152-155 | n rounds of one leapfrog step followed by one trail update; AdvanceKeepsBodiesValid carries its invariants and AnimateFrame uses it with n = 2 |
| OrbitSimulation.RoundKeepsBodiesValid | script.js:153-154 | one step followed by one trail update keeps the number of bodies, every mass, positive masses and bounded trails, and ends every trail at its body's new position |
| OrbitSimulation.AdvanceKeepsBodiesValid | script.js:150-156 | repeated step-plus-trail rounds keep the number of bodies, every mass, positive masses and bounded trails; after at least one round every trail ends at its body's position |
| OrbitSimulation.State.constructor | script.js:11-18 | the initial state is paused, at step 0, with the given dt and no bodies |
| OrbitSimulation.State.Reset | script.js:33-37 | reset installs the initial bodies and sets step to 0, leaving running and dt alone |
| OrbitSimulation.State.ComputeAccelerations | script.js:39-55 | the nested accumulation loops return one acceleration per body, equal to the pairwise sum that skips the self term |
| OrbitSimulation.State.KickVelocities | script.js:60-63 | the in-place half-kick loop turns the bodies into their half-kicked values and writes only velocities |
| OrbitSimulation.State.DriftPositions | script.js:65-68 | the in-place drift loop turns the bodies into their drifted values and writes only positions |
| OrbitSimulation.State.LeapfrogStep | script.js:58-77 | the in-place step turns the bodies into StepBodies of the old bodies, increments step by exactly 1, and keeps masses positive and trails bounded |
| OrbitSimulation.State.ComputeEnergy | script.js:79-98 | the kinetic loop and the nested i < j pair loops return the total energy and change no state |
| OrbitSimulation.State.UpdateTrails | script.js:101-108 | the in-place push-and-shift loop turns the bodies into their trail-updated values and keeps every trail within 260 |
| OrbitSimulation.State.AnimateFrame | script.js:151-156 | a running frame does exactly two rounds of step plus trail update and adds 2 to step; a paused frame changes nothing |
| OrbitSimulation.State.ToggleRunning | script.js:162 | toggling negates running |
| OrbitSimulation.State.ResetClicked | script.js:171-175 | the reset button installs the initial bodies, sets step to 0 and pauses |

## Left out

- Canvas drawing, colours, the `scale` mapping and text formatting (`drawFrame`, `toFixed`, script.js:110-148) are screen output only.
- DOM lookups, event-listener registration, `requestAnimationFrame` scheduling and the `drawFrame` call at the end of each frame are browser I/O.
- The toggle button's label text (script.js:163, 174) is screen output only.
- `updateDt` and the `parseFloat` of the slider value (script.js:14, 166-168) are browser input. `dt` is a constructor parameter instead.
- Floating-point rounding and NaN/Infinity propagation are not modelled, because the model computes over exact reals. The reversibility proved here holds exactly only over reals.
- Approximate energy conservation and orbit accuracy are claims of numerical analysis about floating point, so they are not stated.
- `Math.sqrt` is only assumed positive on positive arguments; no other property of the square root is used or stated.
- The softening length is the fixed constant 0.02, as in the source, rather than a parameter. The positivity facts are proved for that value.
- Bodies are values in a sequence, so the model does not capture aliasing of body objects. No such aliasing exists in the source, because `createInitialBodies` builds fresh objects.
- Centre-of-mass normalisation and validation of initial conditions are not in `script.js`, so there is no code to model.
