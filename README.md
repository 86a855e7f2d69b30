# New-year animation: fireworks engine, product showcase and view state machine

This project models the three parts of the new-year animation app that follow
discrete rules, and proves properties of them in Dafny:

- **The fireworks engine** of `components/FireworksDisplay.tsx`:
  - the text rasterizer that turns a glyph's RGBA buffer into particle offsets;
  - the `Particle` and `Rocket` classes;
  - the fixed show script;
  - the per-frame `animate` pass, which launches rockets, updates every rocket
    and particle once, splices out exploded rockets and faded particles, and
    advances the frame counter.

  The engine is modelled imperatively: `Fireworks.Show`, `Fireworks.Rocket` and
  `Fireworks.Particle` are classes, and the frame pass is two backward loops
  that splice in place. The script (`show_schedule.dfy`) and the rasterizer's
  specification (`text_raster.dfy`) are pure functions.
- **The product showcase** of `components/Showcase.tsx`:
  - the card-reveal sequencer (`scheduleNextCard` with its accelerating card
    delays and the grid, exit and finish timeouts);
  - the per-card layout rules: start colour, 5 × 5 grid cell, exit offset,
    active target and the two-digit label.
- **The top-level view state machine** of `App.tsx`:
  - the six phases and the two timed transitions;
  - the hidden skip key;
  - the light cord and the lights-out sequence;
  - which screen is mounted in which state.

  The Showcase sequencer is embedded in the app state, because its timeouts
  and its `onFinished` callback reach back into the view state, also during
  the Showcase's one-second exit fade. The app is modelled as written and in
  two corrected variants, described under Findings.

Files:

- `wrappers.dfy`: `Option`.
- `text_raster.dfy`: module `TextRaster`.
- `show_schedule.dfy`: module `ShowSchedule`.
- `fireworks.dfy`: module `Fireworks`.
- `showcase.dfy`: module `Showcase`.
- `app.dfy`: module `App`.

Foreign services are parameters:

- **Math.random** is a `Fireworks.Runtime` object holding a stream of values
  in [0, 1) and a counter of values drawn. Every draw of the source happens in
  the source's order.
- **The peony direction** is a `Runtime.spark` map: `cos`/`sin` of the angle
  times the square root of the radius draw. Its results lie in the unit disk.
- **The glyph canvas** is `Runtime.glyph`. It gives the RGBA buffer of a
  270 × 270 canvas, or `None` when no 2D context exists.

JavaScript numbers are exact reals. Timeouts are events applied in order. Each
timeout's delay is a constant beside its event.

## Model

| member | source | states |
|---|---|---|
| TextRaster.TextParticleCoordinates | components/FireworksDisplay.tsx:32-62 | the nested stride-4 scan returns exactly `Raster`: empty without a 2D context, otherwise every kept grid pixel in scan order |
| TextRaster.Raster | components/FireworksDisplay.tsx:35-61 | the result is empty without a 2D context, has at most ceil(h/4)·ceil(w/4) points, every point lies in [−w/2, w/2) × [−h/2, h/2), and the points are in row-major order |
| TextRaster.Cells | components/FireworksDisplay.tsx:51-52 | the number of stride-4 grid positions below n is ceil(n/4) |
| TextRaster.AlphaIndexInBounds | components/FireworksDisplay.tsx:53 | the alpha-byte index (gy·w + gx)·4 + 3 of every pixel lies inside the w·h·4 buffer |
| TextRaster.RasterMembership | components/FireworksDisplay.tsx:49-57 | in both directions: a point is emitted iff it is (gx − w/2, gy − h/2) for a grid pixel with both coordinates multiples of 4, inside the canvas, whose alpha exceeds 128 |
| TextRaster.GridMembership | components/FireworksDisplay.tsx:51-57 | for a grid pixel, its offset is emitted iff its alpha byte exceeds 128 |
| TextRaster.RasterDistinct | components/FireworksDisplay.tsx:51-60 | no point is emitted twice |
| TextRaster.RowSamples | components/FireworksDisplay.tsx:52-59 | the inner loop emits at most one point per grid column |
| TextRaster.RowShape | components/FireworksDisplay.tsx:52-59 | one row's points lie on that pixel row, inside the canvas, strictly left to right |
| TextRaster.RowMembership | components/FireworksDisplay.tsx:52-59 | a point is among the first n columns' samples of a row iff it is a kept grid pixel of that row left of column 4n |
| TextRaster.Samples | components/FireworksDisplay.tsx:51-60 | the outer loop emits at most ceil(w/4) points per row |
| TextRaster.SamplesShape | components/FireworksDisplay.tsx:51-60 | the points of the first m rows lie inside the canvas, above row 4m, in row-major order |
| TextRaster.SamplesMembership | components/FireworksDisplay.tsx:51-60 | a point is among the first m rows' samples iff it is a kept grid pixel above row 4m |
| ShowSchedule.Schedule | components/FireworksDisplay.tsx:228-252 | frames 20, 140, 270 and 450 launch 1, 2, 3 and 4 rockets; every other frame launches none |
| ShowSchedule.Peonies | components/FireworksDisplay.tsx:229-242 | a list of launches holds at most as many peonies as launches |
| ShowSchedule.FrameCounts | components/FireworksDisplay.tsx:228-252 | launches and peonies per frame: 1/1, 2/2, 3/3 and 4/0 on the four script frames, 0/0 elsewhere |
| ShowSchedule.LaunchTotals | components/FireworksDisplay.tsx:228-252 | the rockets launched before frame n number 0, 1, 3, 6 or 10 depending on which script frames precede n; the peonies 0, 1, 3 or 6 |
| ShowSchedule.ShowTotals | components/FireworksDisplay.tsx:228-252 | the whole show launches 10 rockets, 6 of them peonies |
| ShowSchedule.FinaleSpellsYear | components/FireworksDisplay.tsx:245-252 | the four finale rockets are text shells carrying '2', '0', '2', '6' at 0.2, 0.4, 0.6 and 0.8 of the width |
| Fireworks.Runtime.Random | components/FireworksDisplay.tsx:190 | Math.random() consumes the next value of the stream, which lies in [0, 1) |
| Fireworks.Runtime.Rand | components/FireworksDisplay.tsx:29 | rand(min, max) is u·(max − min) + min for the next draw u, and lies in [min, max) |
| Fireworks.Particle.constructor | components/FireworksDisplay.tsx:79-92 | a new particle has alpha 1, its previous position equal to its position, the given velocity and colour, and a decay drawn from [0.004, 0.010) |
| Fireworks.Particle.Update | components/FireworksDisplay.tsx:94-106 | the previous position becomes the old position; velocity gets friction then gravity; position moves by the new velocity; alpha falls by exactly the decay, so strictly |
| Fireworks.AlphaAfterLinear | components/FireworksDisplay.tsx:89-105 | after n updates alpha is 1 − n·decay |
| Fireworks.ParticleLifetime | components/FireworksDisplay.tsx:89-91 | with a decay of at least 0.004, alpha is at most 0 after 250 updates, so the particle is culled |
| Fireworks.AliveParticleAge | components/FireworksDisplay.tsx:265-268 | a particle still showing positive alpha has had fewer than 250 updates |
| Fireworks.VyAfterLinear | components/FireworksDisplay.tsx:146-152 | after n updates a rocket's vertical velocity is the launch velocity plus 0.12·n |
| Fireworks.RocketFlight | components/FireworksDisplay.tsx:146-157 | a rocket launched with vy in (−12, −10] reaches vy ≥ −0.5 within 96 updates |
| Fireworks.RisingRocketAge | components/FireworksDisplay.tsx:146-157 | a rocket still below the apex velocity has had at most 95 updates |
| Fireworks.Rocket.FlightBound | components/FireworksDisplay.tsx:150-159 | a rocket that has not exploded has had at most 95 updates |
| Fireworks.SparkSpeed | components/FireworksDisplay.tsx:188-193 | a peony spark's speed is at most the burst power |
| Fireworks.Rocket.constructor | components/FireworksDisplay.tsx:133-148 | a new rocket starts at the canvas height, unexploded, with vy in (−12, −10], vx in [−0.3, 0.3) and the launch's colour, shell and character |
| Fireworks.Rocket.Update | components/FireworksDisplay.tsx:150-160 | vy grows by 0.12, then x and y move; the rocket explodes iff vy ≥ −0.5 or y ≤ targetY, and only then are its burst's particles appended; it draws `ExplodeDraws` random numbers if it explodes and none otherwise |
| Fireworks.Rocket.Explode | components/FireworksDisplay.tsx:178-208 | sets `exploded` and appends its burst: 150 distinct fresh particles at the rocket's position for a peony, with hue within 10 of the rocket's and speed at most a power drawn from [5, 9); one particle per rasterized glyph point, in order, for a text shell with a character; nothing otherwise. It draws exactly `ExplodeDraws` random numbers: 1 + 4 · 150 for a peony, 3 per glyph point for a text shell, none otherwise |
| Fireworks.Rocket.PeonyBurst | components/FireworksDisplay.tsx:184-198 | the peony loop appends exactly 150 distinct new particles, each at the rocket's position with a jittered hue and speed at most the power, drawing exactly 4 random numbers per spark (angle, radius, hue jitter, decay) |
| Fireworks.Rocket.TextBurst | components/FireworksDisplay.tsx:201-206 | the text loop appends one particle per glyph point, in order, with the rocket's hue and velocity 0.05 times the point's offset, give or take 0.2, drawing exactly 3 random numbers per point (two jitters, decay) |
| Fireworks.Rocket.AddPeonySpark | components/FireworksDisplay.tsx:188-197 | one peony iteration appends one new spark and draws four random values |
| Fireworks.Rocket.AddTextSpark | components/FireworksDisplay.tsx:203-205 | one text iteration appends one new spark aimed at its glyph point and draws three random values |
| Fireworks.UnexplodedSound | components/FireworksDisplay.tsx:256-263 | the kept rockets are unexploded rockets of the list, none twice |
| Fireworks.UnexplodedComplete | components/FireworksDisplay.tsx:256-263 | no unexploded rocket is dropped |
| Fireworks.AliveSound | components/FireworksDisplay.tsx:265-272 | the kept particles have positive alpha and come from the list, none twice |
| Fireworks.AliveComplete | components/FireworksDisplay.tsx:265-272 | no particle with positive alpha is dropped |
| Fireworks.BurstsAbove | components/FireworksDisplay.tsx:256-263 | setting the burst of rocket i leaves the concatenation of the bursts above i unchanged |
| Fireworks.Splice | components/FireworksDisplay.tsx:259 | splice(i, 1) on the partly swept list removes exactly index i and keeps the rest in order |
| Fireworks.SelectFromFlags | components/FireworksDisplay.tsx:256-272 | what the sweep keeps above index j depends only on the decisions made there |
| Fireworks.AliveSelect | components/FireworksDisplay.tsx:265-272 | keeping exactly the particles with positive alpha, in order, is the `Alive` filter |
| Fireworks.UnexplodedSelect | components/FireworksDisplay.tsx:256-263 | keeping exactly the unexploded rockets, in order, is the `Unexploded` filter |
| Fireworks.Culled | components/FireworksDisplay.tsx:265-272 | after the backward particle pass, the list is the live particles in their old order, all valid, none twice |
| Fireworks.Landed | components/FireworksDisplay.tsx:256-263 | after the backward rocket pass, the list is the unexploded rockets in their old order, all valid, none twice |
| Fireworks.Show.constructor | components/FireworksDisplay.tsx:211-213 | the show starts with no rockets, no particles and frame 0 |
| Fireworks.Show.Animate | components/FireworksDisplay.tsx:215-276 | one frame: launches exactly `Schedule(frame)`; every rocket, old or new, is updated once and exactly the unexploded ones are kept, in order; the particles born are one burst per rocket, in the order the backward loop visits them (`Bursts`), each of the size its shell gives when the rocket exploded and empty otherwise (`BurstSizes`); every particle, old or born, is updated once and exactly the live ones are kept, in order; frame grows by 1; no exploded rocket or faded particle remains |
| Fireworks.Show.RocketPhase | components/FireworksDisplay.tsx:227-263 | the launches and the rocket pass: the rocket list becomes `Unexploded(old + spawned)`, each rocket updated once; the bursts, one per rocket from the last to the first and sized by whether it exploded, are appended after the old particles, which are untouched |
| Fireworks.Show.ParticlePhase | components/FireworksDisplay.tsx:265-274 | the particle pass and the counter: particles become `Alive(old)`, each updated once; frame grows by 1; no rocket changes, so the burst sizes still hold |
| Fireworks.Show.FlyRockets | components/FireworksDisplay.tsx:256-263 | the rocket pass in filter form: the list becomes `Unexploded(old)`, each rocket updated once, and the particles grow by the bursts, one per rocket from the last to the first |
| Fireworks.Show.Spawn | components/FireworksDisplay.tsx:228-252 | pushes one new rocket per launch of the frame, in order, each at the bottom edge at its fraction of the width |
| Fireworks.Show.LaunchRocket | components/FireworksDisplay.tsx:229 | one `rockets.push(new Rocket(...))` with the launch's parameters scaled to the canvas |
| Fireworks.Show.UpdateRockets | components/FireworksDisplay.tsx:256-263 | index form of the rocket loop: every rocket updated once, the kept ones exactly the unexploded; the particles born are the rockets' bursts concatenated from the last rocket to the first, each sized by whether its rocket exploded |
| Fireworks.Show.RocketLoop | components/FireworksDisplay.tsx:256-263 | the backward loop carries the pass invariant from index \|rockets\| − 1 down to −1, and with it the bursts of the rockets above the index, in visiting order |
| Fireworks.Show.UpdateRocketAt | components/FireworksDisplay.tsx:257-262 | one iteration moves the pass invariant from index i to i − 1 and appends rocket i's burst: `Fired`, that is the rocket's full `BurstOf` content (fresh distinct sparks of its shell's shape and size) if it exploded, and empty otherwise |
| Fireworks.Show.Advance | components/FireworksDisplay.tsx:257 | one rocket update: the particles grow by exactly the rocket's burst, which is its `BurstOf` (size, distinct fresh sparks, peony and text shapes) when it exploded and empty otherwise (`Fired`); all particles stay valid and live, none twice |
| Fireworks.Show.SpliceAt | components/FireworksDisplay.tsx:258-259 | removes the rocket at index i iff it exploded |
| Fireworks.Show.UpdateParticles | components/FireworksDisplay.tsx:265-272 | the particle loop: the list becomes `Alive(old)`, each particle updated exactly once, no rocket touched |
| Fireworks.Show.SweepParticles | components/FireworksDisplay.tsx:265-272 | index form of the particle loop: every particle updated once, the kept ones exactly those with positive alpha |
| Fireworks.Show.ParticleLoop | components/FireworksDisplay.tsx:265-272 | the backward loop carries the pass invariant from index \|particles\| − 1 down to −1 |
| Fireworks.Show.UpdateParticleAt | components/FireworksDisplay.tsx:266-271 | one iteration moves the pass invariant from index i to i − 1 |
| Fireworks.Show.FadeAt | components/FireworksDisplay.tsx:267-268 | removes the particle at index i iff its alpha is at most 0 |
| Showcase.GridCell | components/Showcase.tsx:125-137 | a cell exists iff the index is below 25; x is one of −38, −19, 0, 19, 38 and y one of −34, −17, 0, 17, 34 |
| Showcase.GridCellInverse | components/Showcase.tsx:128-136 | the card index is recovered from its cell |
| Showcase.GridCellInjective | components/Showcase.tsx:128-136 | no two of the first 25 cards share a cell |
| Showcase.GridCellCovers | components/Showcase.tsx:128-136 | every cell of the 5 × 5 grid is taken, by card row·5 + col |
| Showcase.ColourCycle | components/Showcase.tsx:112-119 | from card 1 on, colours repeat every 5 cards, come from the palette, differ from the first card's colour and differ between neighbours |
| Showcase.InitialConfig | components/Showcase.tsx:98-122 | card 0 starts at (0, 0) with rotation 0 and colour 'from-slate-50 to-white'; every other card starts 1200 from the centre with rotation in [−22.5, 22.5) and its palette colour |
| Showcase.ExitSpreads | components/Showcase.tsx:174-187 | the exit x is twice the grid x, pushing outward, 0 for a card without a cell, and within ±76 |
| Showcase.TargetPrecedence | components/Showcase.tsx:142-192 | the exit target applies iff exiting; otherwise the grid target (or the fade-out for card 26) iff grid; otherwise the stack target at depth index |
| Showcase.Decimal | components/Showcase.tsx:238 | `String(n)` is a non-empty digit string |
| Showcase.PadStart | components/Showcase.tsx:238 | `padStart(len, fill)` keeps the string as its suffix, fills only in front, and reaches length max(len, \|s\|) |
| Showcase.DecimalRoundTrip | components/Showcase.tsx:238 | reading `String(n)` back gives n; it starts with '0' only for 0 and has one digit iff n < 10 |
| Showcase.LabelValue | components/Showcase.tsx:238 | the label is a digit string worth index + 1; it has exactly two characters iff index < 99; below 9 it is '0' and the digit |
| Showcase.FirstAndLastLabel | components/Showcase.tsx:238 | the first card reads "01" and the 26th reads "26" |
| Showcase.DelayBounds | components/Showcase.tsx:44-46 | every card delay lies in [250, 1500]; the first is 1500; delays never grow |
| Showcase.FloorPower | components/Showcase.tsx:46 | 1500·0.9^17 is above 250 and 1500·0.9^18 below it |
| Showcase.DelayFloor | components/Showcase.tsx:44-46 | the delay is at the 250 ms floor exactly from card 18 on |
| Showcase.RevealTimeBounds | components/Showcase.tsx:42-51 | revealing n cards takes between 250·n and 1500·n ms |
| Showcase.NextTimer | components/Showcase.tsx:19-50 | `scheduleNextCard(count)` arms the grid pause iff count ≥ the number of items, else the next card tick |
| Showcase.Cleanups | components/Showcase.tsx:17-56 | both cleanups keep the invariant and unmount; the one as written cancels a pending card tick and nothing else, so a pending grid, exit or finish timeout stays pending; the corrected one leaves nothing pending |
| Showcase.BeginInv | components/Showcase.tsx:53 | the sequence starts consistent |
| Showcase.FireStep | components/Showcase.tsx:20-51 | each timeout keeps the invariant: a card tick adds exactly one card; only the grid timeout sets `isGrid`, only the exit timeout sets `isExiting`, only the last calls `onFinished` |
| Showcase.FireNInv | components/Showcase.tsx:20-51 | the invariant holds after any number of timeouts, so `visibleCount` never exceeds the number of items and `onFinished` is called at most once |
| Showcase.Reveals | components/Showcase.tsx:48-51 | after k ≤ total card ticks, exactly k cards are visible |
| Showcase.FireNSplit | components/Showcase.tsx:20-51 | m + n timeouts are m timeouts followed by n |
| Showcase.Quiet | components/Showcase.tsx:20-51 | with nothing pending, no timeout changes anything |
| Showcase.Sequence | components/Showcase.tsx:19-53 | after one tick per card all cards are visible; then the grid, the exit and `onFinished` follow, one timeout each, after which nothing is pending |
| Showcase.Rendered | components/Showcase.tsx:69 | the rendered cards are items[0..visibleCount), each with its index |
| Showcase.UnmountSilences | components/Showcase.tsx:56 | with a cleanup that cancels the whole sequence (not the one as written), no timeout fires after unmounting and `onFinished` is not called |
| Showcase.OrphanedFinish | components/Showcase.tsx:56 | with the cleanup as written, unmounting during the grid pause still leads to `onFinished` three timeouts later |
| Showcase.CardSequence.constructor | components/Showcase.tsx:10-53 | mounting starts with no visible card and `scheduleNextCard(0)` armed |
| Showcase.CardSequence.ScheduleNextCard | components/Showcase.tsx:19-50 | arms the grid pause or the tick for card count |
| Showcase.CardSequence.Tick | components/Showcase.tsx:22-51 | the pending timeout runs its callback: `Fire` on the state, keeping the invariant |
| Showcase.CardSequence.Unmount | components/Showcase.tsx:56 | unmounting runs the cleanup as written: a pending card tick is cancelled, a pending end timeout is not; the invariant is kept |
| Showcase.CardSequence.Cards | components/Showcase.tsx:69 | the rendered list is `Rendered(items, state)` |
| App.Init | App.tsx:13-16 | the app starts on the splash screen with `isDark`, `showReady` and `startFireworks` false, nothing pending and the Showcase not mounted |
| App.ToLower | App.tsx:38 | `toLowerCase` maps each ASCII letter and keeps the length |
| App.SkipKeys | App.tsx:38 | the skip key is exactly "s" or "S" |
| App.SetView | App.tsx:99-115 | changing the view changes no other flag; entering the showcase mounts a fresh sequencer; leaving it leaves the sequencer mounted and pending, for the exit fade |
| App.RunAppend | App.tsx:19-62 | running a + b is running a, then b |
| App.ViewTimers | App.tsx:19-32 | transitioning becomes intro; intro becomes showcase and starts the card sequence; the view timeout changes the state exactly in the states that arm one (`ViewDelay`: 1000 ms and 2500 ms) |
| App.SkipKey | App.tsx:36-41 | the skip key moves to `ready_for_dark` iff the view is not `ready_for_dark` yet and the lights are on; any other key, or the skip key then, changes nothing |
| App.CordPull | components/LightCord.tsx:24-32 | a drag end changes the state iff the cord is shown, the offset exceeds 60 and the cord was not pulled; a pull turns the lights off, arms the first lights timeout, hides the cord and makes a second pull a no-op |
| App.FinishedView | App.tsx:111 | as written, `onFinished` sets the outro from any view; with the guard, only from the showcase view; it changes nothing else |
| App.Monotone | App.tsx:47-62 | `isDark`, `startFireworks` and the pulled flag are never reset |
| App.RunMonotone | App.tsx:47-62 | the same over any run of events |
| App.InitInv | App.tsx:13-16 | the initial state satisfies the invariant, in every variant |
| App.StepInv | App.tsx:19-121 | every event keeps the invariant, as written and corrected: the sequencer is idle before the showcase, mounted in it and afterwards only while fading out; the outro only follows `onFinished`; lights are off exactly after a pull, at the cord's phase or, with the unguarded `onFinished`, in the outro; "READY?" shows exactly between the first and second lights timeouts; the fireworks start with the third |
| App.Progress | App.tsx:19-121 | `onFinished` is never undone and rank plus calls never drops; the only event that moves the phase back is an unguarded `onFinished` taking `ready_for_dark` back to the outro |
| App.Forward | App.tsx:99-121 | with the guarded `onFinished`, the phases only move forward and `ready_for_dark` is final |
| App.RunInv | App.tsx:19-121 | over any run the invariant holds; the phase goes back at most one place, and not at all once `onFinished` was called; with the guard it never goes back and `ready_for_dark` is final |
| App.Screens | App.tsx:85-167 | "READY?" and the fireworks appear only in the dark and never together; while the fireworks run the splash, intro, showcase view and cord are gone; with the guard the outro is gone too |
| App.LightsOut | App.tsx:47-62 | after a pull, "READY?" appears at 1500 ms, disappears at 4000 ms, and the fireworks start at 4500 ms; then nothing is pending |
| App.Ticks | components/Showcase.tsx:48-51 | a run of n Showcase timeouts |
| App.RevealCards | components/Showcase.tsx:48-51 | while the showcase view is up, its first timeouts only reveal cards |
| App.Opening | App.tsx:19-32 | Continue and the two view timers bring the showcase with a fresh sequencer |
| App.Chain | App.tsx:19-121 | a run through known states ends in the last one |
| App.AllCardsOut | components/Showcase.tsx:19-51 | the opening and 26 card ticks show every card, with the grid pause pending |
| App.GridAndExit | components/Showcase.tsx:22-36 | the grid pause and the grid hold set the grid and the exit and leave `onFinished`'s timeout pending |
| App.ReachesNearFinish | components/Showcase.tsx:19-51 | after every card, two timeouts leave `onFinished`'s timeout pending in the showcase view |
| App.ShowReachesOutro | App.tsx:109-121 | after all cards, the three end timeouts call `onFinished` and the outro is mounted while the Showcase fades out |
| App.FinaleEndsInFireworks | App.tsx:100-167 | the fade ends; the outro's completion brings the cord; a pull and the three lights timeouts start the fireworks, with no screen left and nothing of the Showcase pending |
| App.LateLightsOut | App.tsx:35-62 | after every card: the skip, the end of the fade, a pull and the lights timeouts start the fireworks, leaving what the cleanup did not cancel |
| App.LateTicks | components/Showcase.tsx:22-36 | then, as written, the orphaned end timeouts call `onFinished` and set the outro; with the full cleanup nothing fires |
| App.LateRun | App.tsx:35-62 | the whole late run is the opening, the cards, the lights-out and the last three timeouts |
| App.LateFinishAsWritten | App.tsx:109-112 | as written, pressing S after the last card, pulling the cord and starting the fireworks still mounts the outro over them |
| App.LateFinishCorrected | App.tsx:109-112 | with the whole sequence cancelled on unmount, the same events leave the app at the cord's phase with the fireworks running |
| App.SkipBeforeFinish | App.tsx:100-115 | S pressed while `onFinished`'s timeout is pending: the timeout fires during the fade; unguarded it sets the outro, guarded the cord's phase stays |
| App.FinishDuringExit | App.tsx:100-115 | from the start: with either cleanup, pressing S less than a second before `onFinished` still leads to the outro; only the guard keeps `ready_for_dark` |
| App.AppRoot.constructor | App.tsx:12-16 | the component starts in `Init()` with the invariant of the app as written |
| App.AppRoot.SetViewState | App.tsx:13 | `setViewState`, mounting the Showcase on entering its view |
| App.AppRoot.OnContinue | App.tsx:88 | the Continue button takes one `Step` of the app as written and keeps its invariant |
| App.AppRoot.OnViewTimer | App.tsx:19-32 | the view timeout takes one `Step` of the app as written and keeps its invariant |
| App.AppRoot.OnKeyDown | App.tsx:36-41 | the keydown listener takes one `Step` of the app as written and keeps its invariant |
| App.AppRoot.OnShowcaseTick | App.tsx:109-112 | a Showcase timeout takes one `Step`; the last one calls the unguarded `onFinished`; the invariant of the app as written is kept |
| App.AppRoot.OnShowcaseExited | App.tsx:100-115 | the end of the fade unmounts the Showcase with the cleanup as written, one `Step`, keeping the invariant |
| App.AppRoot.OnOutroComplete | App.tsx:121 | `onSequenceComplete` takes one `Step` of the app as written and keeps its invariant |
| App.AppRoot.OnCordDragEnd | components/LightCord.tsx:24-32 | the cord's drag end, and `handleLightsOut` when it counts as a pull, take one `Step` of the app as written and keep its invariant |
| App.AppRoot.OnLightsTick | App.tsx:51-61 | the pending lights timeout takes one `Step` of the app as written and keeps its invariant |

## Left out

- Drawing is not modelled: `Particle.draw`, `Rocket.draw`, the destination-out fade, additive compositing and canvas sizing (components/FireworksDisplay.tsx:19-26, 108-117, 162-176, 216-223). These are rendering calls.
- Glyph rendering is not modelled: `fillText` and `getImageData` (components/FireworksDisplay.tsx:33-46). The model takes their result, an alpha buffer or `None`.
- Animation-frame scheduling is not modelled (components/FireworksDisplay.tsx:275-282). One `Animate` call is one frame. The cleanup cancels only the first frame request, but the display is never unmounted, so this has no effect in the app.
- Trajectories are not modelled beyond the stated bounds. The friction (0.95), gravity (0.035) and rocket-gravity (0.12) updates are stated exactly, but nothing is proved about positions.
  - The peony direction `cos`/`sin`/`sqrt` is a host map into the unit disk.
  - Floating-point rounding is not modelled; numbers are exact reals.
- Fireworks.Show.Animate: ties the particles born to the rockets' bursts by order and by size. What each burst holds (`BurstOf`: fresh distinct sparks, peony and text shapes) is stated per rocket by `Fireworks.Show.Advance` and is not carried through the loop.
- Fireworks.Show.RocketPhase: the same; each burst's contents are stated by `Fireworks.Show.Advance`.
- Fireworks.Show.UpdateRockets: the same; each burst's contents are stated by `Fireworks.Show.Advance`.
- Fireworks.Show.RocketLoop: the same; each burst's contents are stated by `Fireworks.Show.Advance` and `Fireworks.Show.UpdateRocketAt`.
- Fireworks.Show.FlyRockets: the same; each burst's contents are stated by `Fireworks.Show.Advance` and `Fireworks.Show.UpdateRocketAt`.
- The Showcase's random visuals are not modelled. These are the fly-in angle (a unit-vector parameter of `InitialConfig`), the exit's random y offset and rotation, and the stack and grid scale, opacity and blur values (components/Showcase.tsx:105-109, 142-187). Only the target each card animates to is modelled.
- Spring and easing parameters, per-card delays and z-index are not modelled (components/Showcase.tsx:197-231, App.tsx:102-107, 129-134). These are animation configuration.
- The Showcase effect re-runs when its `onFinished` prop changes identity. The app does not re-render while the showcase view is up, and a leaving child keeps its last props, so the model has one mount per showcase.
- Of the exit animations of `AnimatePresence`, only the Showcase's is modelled (App.tsx:100-115). The Showcase stays mounted for one second after its view is left, its timeouts still firing, until the event `ShowcaseExited` unmounts it. The visibility predicates describe what the render conditions select. The other exits are not modelled:
  - The splash screen stays mounted for 1.5 s after Continue (components/SplashScreen.tsx:36-40), and its button stays clickable, since the intro screen does not take pointer events (components/IntroScreen.tsx:7). A click after the view timer has set `intro` sets `transitioning` again (App.tsx:88). The model's `Continue` acts only in the splash view.
  - The outro's wrapper fades out (App.tsx:120) with the outro's last timer still pending (components/CommunityOutro.tsx:38-41). The view can leave the outro only for `ready_for_dark`, so that timer then sets the view it already has.
  - The cord's wrapper slides out (App.tsx:127-140) with the cord still draggable. A pull during that slide turns the lights off in whatever view was set, for instance `outro` after the unguarded late `onFinished`. The model's `CordDragEnd` acts only while `CordShown` holds.
- App.Progress: does not cover a Continue click on the fading splash screen after the view timer has set `intro`. That click takes `intro` back to `transitioning`, a second kind of backward step that the model does not have.
- App.RunInv: the same. A late Continue click is a backward step besides the unguarded `onFinished`, so a run of the app as written can go back twice.
- App.Forward: the same. The guard on `onFinished` does not stop a late Continue click from taking `intro` back to `transitioning`.
- Timing is not modelled as a clock. Timeouts are events in order, with their delays as constants.
  - The model therefore also allows orders that the delays rule out, such as the Showcase's fade ending after the lights timeouts. The invariants hold for every order.
  - The outro's own nine timers (components/CommunityOutro.tsx:12-46) are one event, `OutroComplete`. It acts only in the outro view; its exit fade is covered above.
  - The splash, intro, heart and snow components are not part of this model.
- Keys are ASCII only: `toLowerCase` is modelled on ASCII letters. No other Unicode character lowercases to "s".
- The cord's haptic call, drag physics and rope drawing are not modelled (components/LightCord.tsx:9-22, 27, 34-87). Only the pull rule is.
- The product texts are not modelled. Only the list length, 26 (data/products.ts:6-32), enters the model.

## Findings

| source | as written | input that shows it | evidently intended | confidence | as-written member | corrected member |
|---|---|---|---|---|---|---|
| components/Showcase.tsx:56 | The effect cleanup clears only `timeoutId`, the last card tick. The grid, exit and finish timeouts of lines 22-36 are never stored, so they survive an unmount. | Unmount the Showcase after the 26th card appears, within the 8 s end sequence. `onFinished` still fires. | Unmounting cancels the whole pending sequence. | not executed | Showcase.OrphanedFinish | Showcase.UnmountSilences |
| App.tsx:109-112 | Because the end timeouts survive the unmount, the unguarded `onFinished` callback sets `outro` after the skip key has left the showcase. | Press S within 8 s of the 26th card, pull the cord, and let the lights timeouts start the fireworks. The remaining Showcase timeouts then mount the outro over the fireworks and leave the cord's phase. | After a skip the showcase never calls back. | not executed | App.LateFinishAsWritten | App.LateFinishCorrected |
| App.tsx:105-111 | The leaving Showcase stays mounted for its one-second exit fade, so a full cleanup alone does not stop `onFinished`: the timeout may fire before the unmount, and the callback sets `outro` from any view. | Press S less than a second before `onFinished`'s timeout. The outro replaces the cord's phase, with either cleanup. | `onFinished` sets `outro` only from the showcase view, `setViewState(v => v === 'showcase' ? 'outro' : v)`, besides the full cleanup; then `ready_for_dark` is final. | not executed | App.FinishDuringExit | App.Forward |

The model keeps the three apps side by side: `App.Variant` is `AsWritten`, `CleanupOnly` (the full cleanup) or `Corrected` (the full cleanup and the guard). The invariant and the lemmas about runs are proved for every variant. The components `App.AppRoot` and `Showcase.CardSequence` are the code as written. `App.Forward` and the guarded parts of `App.RunInv` and `App.Screens` hold only for `Corrected`.
