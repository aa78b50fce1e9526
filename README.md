# Beatmaker step sequencer, modelled in Dafny

Beatmaker is a browser drum machine. Each instrument row (Kick, Snare,
High-hat) has a strip of buttons. A transport walks through the steps and
plays the sample of every row whose button at the current step is active. The
program keeps five pieces of module-level state, and its event handlers update
them in place:

- `isPlaying`, the play/stop flag;
- `beatIndex`, the current step;
- `BPM`, the tempo;
- `isMobile`, which gives a bar of 4 steps on narrow viewports and 8 otherwise;
- the grid of `isActive` flags.

The handlers are the play button (`togglePlay`), the transport tick
(`playLoop`), the button click listener, the tempo input (`handleBPMChange`),
the resize listener (`handleResize`) and the space bar (`handleSpacebar`).

The project has three layers.

- **Pure rules.** These are `Layout`, `Tempo`, `Instruments` and `Grid`.
  `Layout` holds the viewport threshold and the steps per bar. `Tempo` holds
  the tempo clamp and the delay to the next tick. `Instruments` holds the
  row-name switch of `initializeSequencer`. `Grid` holds the click on one
  button.
- **The transport as a state machine over values.** This is `Transport`, with
  its properties in `TransportProperties`. A `State` holds the five pieces of
  state, the pending `setTimeout` callbacks and a log of the triggered samples.
  Each handler is a function from state to state.
  - A pending callback is either the next `playLoop` tick (`StepTimer`) or the
    150 ms highlight-off of one button (`RestoreTimer`).
  - `RunTimer` lets any pending callback run next, so the proofs do not depend
    on the browser's timer order.
- **The handlers as the program writes them.** This is `Machine.Sequencer`, a
  class whose fields are the program's variables. Its methods update those
  fields in place: `playLoop` keeps its loop over the rows. Each method is
  proved to move the state exactly as the matching `Transport` function does
  (`ensures Snapshot() == Transport.Tick(old(Snapshot()))`, and so on). The
  play button and the space bar run the corrected play/stop described under
  Findings. The top-level handlers (play/stop, a pending callback, the tempo
  input, resize and the space bar) keep the transport invariant `Valid`; a
  click keeps it when it already held. The tick's row loop and the tick
  itself run inside a callback and are not required to keep it on their own.

Two invariants carry most of the proofs.

- **One chain of ticks.** Exactly one `playLoop` tick is pending while playing,
  and none while stopped (`Transport.Valid`). This is an invariant of the
  corrected play/stop described under Findings, which cancels the pending tick
  on stop. The code as written does not keep it: a single stop leaves the
  pending tick in place while stopped (`StopAsWrittenLeavesTickPending`), and
  a quick restart then runs two chains.
- **The pattern.** The pattern is the grid as it will be once every pending
  highlight-off has clicked its button back (`TransportProperties.Pattern`).
  - A tick clicks every active button of the current step off, and its
    highlight-offs click them back on.
  - So ticks, highlight-offs and play/stop never change the pattern, in
    whatever order the callbacks run.
  - A user click changes the pattern at exactly the button clicked, even while
    that button is being highlighted.

The tick period is `60000 / BPM - 150` ms, measured from the start of one tick
to the next tick's callback (main.js:127).

## Model

| member | source | states |
|---|---|---|
| Layout.IsMobileWidth | main.js:11 | the layout is mobile exactly when the viewport is at most 768 pixels wide, as at start-up and in `handleResize` (main.js:159) |
| Layout.BeatsPerRow | main.js:100 | a bar has 4 steps on mobile and 8 otherwise; the mobile bar is shorter and divides the desktop bar |
| Layout.NextBeat | main.js:125 | the step after `beatIndex` is `beatIndex + 1` inside the bar and 0 after its last step; it always lies inside the current bar and is congruent to `beatIndex + 1` modulo the bar length, which also fixes it for a step left outside the bar by a resize |
| Layout.WiderViewportNeverFewerSteps | main.js:11 | the `innerWidth <= 768` test never gives a wider viewport fewer steps than a narrower one |
| Layout.WalkGoesRoundTheBar | main.js:125 | `n` advances from a step inside the bar land on `(beatIndex + n) % beatsPerRow` |
| Tempo.ClampBpm | main.js:144-155 | the stored tempo lies in [40, 240]; a request inside the range is kept, below 40 it becomes 40, above 240 it becomes 240 |
| Tempo.ClampIsNearestAllowed | main.js:147-151 | the stored tempo is the allowed tempo nearest to the request |
| Tempo.ClampIdempotent | main.js:147-151 | clamping a clamped tempo changes nothing |
| Tempo.ClampMonotone | main.js:147-151 | a larger request never gives a slower tempo |
| Tempo.StepDelay | main.js:127 | the delay to the next tick is one beat at `bpm` less the 150 ms highlight, `60000 / bpm - 150` ms (the highlight-off runs asynchronously, so ticks are this far apart) |
| Tempo.StepDelayInRange | main.js:127 | for every clamped tempo the next tick is 100 to 1350 ms away (1350 at 40 BPM, 100 at 240 BPM), so the delay is always positive |
| Tempo.StepDelayShrinksAsTempoRises | main.js:127 | a faster tempo never waits longer for its next tick |
| Instruments.NewRow | main.js:32-53 | a row keeps its label; a known label gets a non-empty colour tag; any other label keeps an empty sample path and colour tag |
| Instruments.KnownRowNaming | main.js:40-53 | for Kick, Snare and High-hat the colour tag is the label in lower case and the sample path is `<tag>/<tag>_1.wav` |
| Instruments.LoadedRowCount | main.js:29-55 | set-up gives rows to the longest run of known labels at the start of the page: every label before it is known, and the label right after it, if any, is not, since its empty colour tag makes `classList.add` at main.js:55 throw and ends the set-up |
| Instruments.DistinctInstrumentsDistinctSamples | main.js:40-53 | two different known instruments never share a sample path or a colour tag |
| Grid.Toggle | main.js:69-73 | a click negates the `isActive` flag of that one button and leaves every other button and the grid's shape unchanged |
| Grid.ToggleTwice | main.js:69-73 | two clicks on the same button give back the grid one started from |
| Grid.ToggleCommutes | main.js:69-73 | clicks on any two buttons commute |
| Transport.Init | main.js:7-11 | start-up state is stopped, at step 0, at 120 BPM, in the layout `innerWidth <= 768` gives, with no callback pending, an empty log, one row of inactive buttons per loaded row; it satisfies the invariant |
| Transport.FireRow | main.js:111-114 | in one row the tick leaves the button at the current step inactive (clicking it if it was active) and every other button of the row unchanged |
| Transport.FireColumn | main.js:103-115 | the tick clicks every active button of the current step off and leaves every button of any other step unchanged |
| Transport.ActiveRows | main.js:111-112 | the rows whose sample the tick triggers are exactly those active at the step, in increasing order |
| Transport.Restores | main.js:117-122 | the tick schedules one highlight-off per row, for the button at the current step, carrying whether that button was clicked |
| Transport.Tick | main.js:97-129 | a stopped tick changes nothing; a running tick advances the step to `NextBeat` and keeps flag, tempo and layout |
| Transport.Ticks | main.js:125 | `n` ticks in a row advance the step as `n` calls of `NextBeat` |
| Transport.RunTimer | main.js:117-127 | running any pending callback keeps flag, tempo and layout and the state's shape |
| Transport.Click | main.js:69-73 | a user click toggles one button, changes nothing else and keeps the invariant |
| Transport.ChangeBpm | main.js:144-155 | the tempo becomes the clamped request and nothing else changes |
| Transport.Resize | main.js:158-160 | the layout mode becomes `innerWidth <= 768` and nothing else changes |
| Transport.CancelSteps | main.js:90-94 | the correction (not in the source): on stop every pending tick is dropped, as a `clearTimeout` would, and every pending highlight-off is kept, with its multiplicity |
| Transport.TogglePlayAsWritten | main.js:83-95 | play/stop as written negates the flag; stop only sets step 0 and leaves the pending callbacks, the grid and the log as they were; start runs one tick from the current step |
| Transport.TogglePlay | main.js:83-95 | play/stop negates the flag; stopping resets the step to 0, drops the pending tick and keeps the pending highlight-offs, the tempo, the layout, the grid and the log; starting runs one tick from the current step |
| Transport.IsPlayKey | main.js:164 | the keys that toggle playback are exactly `" "` and `"Spacebar"` |
| Transport.KeyDown | main.js:163-168 | playback toggles exactly when the key is a play key, and then the state is that of the corrected play/stop; any other key changes nothing |
| TransportProperties.TickAddsOneTick | main.js:127 | a running tick schedules exactly one further tick |
| TransportProperties.StoppedTickDoesNothing | main.js:98 | when stopped, a pending tick only disappears: no sample, no click, no step change, no new tick |
| TransportProperties.RunningTimersKeepsEveryLoop | main.js:117-127 | while playing, running any pending callback keeps the number of pending ticks |
| TransportProperties.TogglePlayKeepsOneLoop | main.js:83-95 | the corrected play/stop keeps the one-chain invariant |
| TransportProperties.RunTimerKeepsOneLoop | main.js:117-127 | running any pending callback keeps the one-chain invariant |
| TransportProperties.KeyDownKeepsOneLoop | main.js:163-168 | a key press, with the corrected play/stop behind the play keys, keeps the one-chain invariant |
| TransportProperties.StopAsWrittenLeavesTickPending | main.js:90-94 | as written, stopping a valid playing transport leaves it stopped at step 0 with one tick still pending, outside the one-chain invariant |
| TransportProperties.RestartBeforeTickDoublesLoop | main.js:83-98 | as written, play, stop and play before the pending tick runs leave two ticks pending while playing, which breaks the invariant |
| TransportProperties.RestartBeforeTickKeepsOneLoop | main.js:83-98 | with the pending tick cancelled on stop, the same presses leave exactly one tick pending |
| TransportProperties.TickTriggersExactlyActiveRows | main.js:103-115 | a tick appends to the sample log exactly the rows active at the current step, each once and in row order, and keeps the earlier log |
| TransportProperties.TicksGoRoundTheBar | main.js:100-125 | `n` ticks from a step inside the bar reach `(beatIndex + n) % beatsPerRow`; from 0 on desktop, ticks visit 0 to 7 and the eighth returns to 0 |
| TransportProperties.ShrinkPastBarFiresHiddenStep | main.js:100-125 | a switch to the mobile layout at any desktop step 4 to 7 leaves the step outside the 4-step bar; the next tick still fires that hidden step and then wraps sooner, to `(beatIndex + 1) % 4`: to 0 from step 7 only, so from steps 4 to 6 step 0 is skipped |
| TransportProperties.TempoChangeWaitsForNextTick | main.js:127 | a tempo change leaves the pending tick alone; the tick after it is scheduled at the new, clamped tempo |
| TransportProperties.ClickBacksAt | main.js:117-120 | running highlight-offs flips a button once per pending click-back addressed to it, in any order |
| TransportProperties.RestoresPending | main.js:117-122 | a tick schedules one click-back for each button it clicked, and no other |
| TransportProperties.ClickBackUndoesTick | main.js:111-122 | the click and click-back of a tick are an involution: once its highlight-offs have run, in any order, every button is as before the tick |
| TransportProperties.TickKeepsPattern | main.js:103-127 | a tick does not change the pattern |
| TransportProperties.RunTimerKeepsPattern | main.js:117-122 | running any pending callback does not change the pattern |
| TransportProperties.ClickTogglesPattern | main.js:69-73 | a user click toggles the pattern at that button only, even mid-highlight |
| TransportProperties.TogglePlayKeepsPattern | main.js:83-95 | the corrected play/stop does not change the pattern |
| TransportProperties.SettledGridIsPattern | main.js:117-122 | with no click-back pending, the grid is the pattern |
| TransportProperties.RunAllKeepsPattern | main.js:117-127 | any sequence of callbacks leaves the pattern unchanged |
| TransportProperties.TimeoutsUndoTheTicksClicks | main.js:111-122 | from a settled grid, a tick and then any callbacks, with no user click, leave every button as before the tick once no click-back is pending |
| Machine.Sequencer.constructor | main.js:28-81 | the set-up loop gives one row record per label, as the row-name switch builds it, and stops at the first unknown label; all buttons inactive; the start-up state; the invariant holds |
| Machine.Sequencer.Click | main.js:69-73 | the click listener updates the grid in place exactly as `Transport.Click`, keeping the invariant when it held |
| Machine.Sequencer.FireButton | main.js:104-122 | one pass of the row loop: an active button is logged as played and clicked, and a highlight-off carrying `needClick` is scheduled |
| Machine.Sequencer.FireStep | main.js:103-123 | the row loop leaves the grid, callbacks and sample log as `FireColumn`, `Restores` and `ActiveRows` give them |
| Machine.Sequencer.PlayLoop | main.js:97-129 | `playLoop` moves the state exactly as `Transport.Tick` |
| Machine.Sequencer.TogglePlay | main.js:83-95 | `togglePlay`, with the pending tick cancelled on stop, moves the state as `Transport.TogglePlay` and keeps the invariant |
| Machine.Sequencer.RunTimer | main.js:117-127 | running pending callback `k` moves the state as `Transport.RunTimer` and keeps the invariant |
| Machine.Sequencer.HandleBpmChange | main.js:144-155 | the shown and stored tempo is the clamped input; the state moves as `Transport.ChangeBpm` |
| Machine.Sequencer.HandleResize | main.js:158-160 | the state moves as `Transport.Resize` and keeps the invariant |
| Machine.Sequencer.HandleKeyDown | main.js:163-168 | the default action is suppressed exactly for the play keys; the state moves as `Transport.KeyDown`, with the corrected play/stop, and keeps the invariant |

## Left out

- Web Audio is not modelled: the audio context, fetching and decoding the samples, and `playSample`. A triggered sample is recorded as its row number in the `played` log.
- The DOM is not modelled: element lookup, listener registration, the `playing` and colour classes, and the play button's label. `buttonElement.click()` inside `playLoop` is modelled as the click listener's toggle.
- Real timer timing is not modelled. The pending callbacks are a list, and any of them may run next. This covers every order the browser could choose, including the intended one (a highlight-off after the tick that scheduled it).
- Asynchronous loading is not modelled: buttons are created only after a row's sample has loaded. The model creates every loaded row's buttons at start-up; a failed fetch is not modelled. Every row is required to have at least 8 buttons, so that a tick never reads past the end of a row.
- JavaScript's string-to-number coercion of the tempo input is not modelled, and neither is its behaviour on non-numeric or fractional input. The input is an integer.
- Each row's button objects are elements of a list of lists of flags. The source creates no aliasing between them.
- The viewport width and the pressed key are parameters of their handlers.
- Transport.TogglePlay: this is the corrected play/stop described under Findings, not the code as written. The code as written is `Transport.TogglePlayAsWritten`.
- Machine.Sequencer.TogglePlay: this uses the corrected play/stop described under Findings, which cancels the pending tick on stop.
- Transport.CancelSteps: this is the `clearTimeout` of the correction; the source's stop branch cancels nothing.
- Transport.KeyDown: a play key runs the corrected play/stop, so stopping with the space bar cancels the pending tick, which `handleSpacebar` as written (through `togglePlay`) does not.
- Machine.Sequencer.HandleKeyDown: like `Transport.KeyDown`, it runs the corrected play/stop.

## Findings

| source | as written | input that shows it | evidently intended | confidence | as-written member | corrected member |
|---|---|---|---|---|---|---|
| main.js:83-98 | stopping only clears the flag, and the pending `playLoop` callback is relied on to see the flag and stop | press play, stop and play again within one tick period (under 1350 ms at 40 BPM): the first tick's callback is still pending when the second start schedules another, so two chains of ticks run and the transport plays at double rate | stop cancels the pending tick (`clearTimeout`), so exactly one chain runs while playing | not executed | TransportProperties.RestartBeforeTickDoublesLoop | TransportProperties.RestartBeforeTickKeepsOneLoop |
