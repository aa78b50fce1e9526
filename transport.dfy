/**
 * The transport as a state machine over values: play/stop, the current step,
 * the tempo, the layout mode, the grid, the pending `setTimeout` callbacks and
 * the log of triggered samples. The class in `Machine` is proved against
 * these functions.
 */
module Transport {
  import opened Grid
  import opened Layout
  import opened Tempo

  /**
   * A pending `setTimeout` callback: either the next `playLoop` tick, scheduled
   * `StepDelay(bpm)` milliseconds after the tick that created it (`bpm` is the
   * tempo at that moment), or the 150 ms callback that ends the highlight of
   * button `(row, step)` and clicks it back when the tick clicked it
   * (`needClick`).
   */
  datatype Timer =
    | StepTimer(bpm: int)
    | RestoreTimer(row: nat, step: nat, needClick: bool)

  /**
   * The sequencer's state. `played` records, in order, the row of every sample
   * that was triggered; it stands for the calls to `playSample`.
   */
  datatype State = State(
    isPlaying: bool,
    beatIndex: nat,
    bpm: int,
    isMobile: bool,
    cells: Cells,
    timers: seq<Timer>,
    played: seq<nat>)

  /**
   * The shape every reachable state has: a clamped tempo, a step inside the
   * widest bar, at least a bar of buttons in every row, and click-backs that
   * address existing buttons.
   */
  ghost predicate Shaped(st: State)
  {
    && MinBpm <= st.bpm <= MaxBpm
    && st.beatIndex < MaxBeatsPerRow
    && (forall r :: 0 <= r < |st.cells| ==> |st.cells[r]| >= MaxBeatsPerRow)
    && (forall t :: t in st.timers && t.RestoreTimer? ==> t.row < |st.cells| && t.step < MaxBeatsPerRow)
  }

  /** The number of pending `playLoop` ticks. */
  function StepCount(ts: seq<Timer>): (n: nat)
    ensures n <= |ts|
  {
    if ts == [] then 0 else (if ts[0].StepTimer? then 1 else 0) + StepCount(ts[1..])
  }

  /**
   * The transport invariant: exactly one tick is pending while playing and
   * none while stopped, so that at most one chain of ticks runs.
   */
  ghost predicate Valid(st: State)
  {
    Shaped(st) && StepCount(st.timers) == if st.isPlaying then 1 else 0
  }

  /** The state after start-up: stopped at step 0, 120 BPM, every button inactive. */
  function Init(rowCount: nat, buttonsPerRow: nat, innerWidth: int): (st: State)
    requires buttonsPerRow >= MaxBeatsPerRow
    ensures Valid(st)
    ensures |st.cells| == rowCount
    ensures forall r, s :: InRange(st.cells, r, s) ==> !st.cells[r][s]
    ensures st == State(false, 0, DefaultBpm, IsMobileWidth(innerWidth), st.cells, [], [])
  {
    State(false, 0, DefaultBpm, IsMobileWidth(innerWidth),
          seq(rowCount, _ => seq(buttonsPerRow, _ => false)), [], [])
  }

  // ---------------------------------------------------------------------------
  // One tick of playLoop

  /** A row after the tick at step `col`: an active button is clicked off. */
  function FireRow(row: seq<bool>, col: nat): (row': seq<bool>)
    requires col < |row|
    ensures |row'| == |row| && !row'[col]
    ensures forall s :: 0 <= s < |row| && s != col ==> row'[s] == row[s]
  {
    if row[col] then row[col := !row[col]] else row
  }

  /** The grid after the tick at step `col` clicked every active button of that step. */
  function FireColumn(g: Cells, col: nat): (g': Cells)
    requires HasColumn(g, col)
    ensures SameShape(g, g')
    ensures forall r :: 0 <= r < |g| ==> !g'[r][col]
    ensures forall r, s :: InRange(g, r, s) && s != col ==> g'[r][s] == g[r][s]
  {
    if g == [] then []
    else
      var n := |g| - 1;
      FireColumn(g[..n], col) + [FireRow(g[n], col)]
  }

  /** The rows, in order, whose sample the tick at step `col` triggers. */
  function ActiveRows(g: Cells, col: nat): (rows: seq<nat>)
    requires HasColumn(g, col)
    ensures forall r: nat :: r in rows <==> r < |g| && g[r][col]
    ensures forall i, j :: 0 <= i < j < |rows| ==> rows[i] < rows[j]
    ensures forall i :: 0 <= i < |rows| ==> rows[i] < |g|
  {
    if g == [] then []
    else
      var n := |g| - 1;
      ActiveRows(g[..n], col) + (if g[n][col] then [n] else [])
  }

  /** The highlight-off callbacks the tick at step `col` schedules, one per row. */
  function Restores(g: Cells, col: nat): (ts: seq<Timer>)
    requires HasColumn(g, col)
    ensures |ts| == |g|
    ensures forall r :: 0 <= r < |g| ==> ts[r] == RestoreTimer(r, col, g[r][col])
  {
    if g == [] then []
    else
      var n := |g| - 1;
      Restores(g[..n], col) + [RestoreTimer(n, col, g[n][col])]
  }

  /**
   * `playLoop`: when playing, fire the current step (trigger the samples of its
   * active buttons, click them off, schedule one highlight-off per row), advance
   * the step modulo the current steps per row and schedule the next tick; when
   * stopped, nothing at all.
   */
  function Tick(st: State): (t: State)
    requires Shaped(st)
    ensures Shaped(t)
    ensures t.isPlaying == st.isPlaying && t.bpm == st.bpm && t.isMobile == st.isMobile
    ensures !st.isPlaying ==> t == st
    ensures st.isPlaying ==> t.beatIndex == NextBeat(st.beatIndex, st.isMobile)
  {
    if !st.isPlaying then st
    else
      var col := st.beatIndex;
      st.(cells := FireColumn(st.cells, col),
          timers := st.timers + Restores(st.cells, col) + [StepTimer(st.bpm)],
          played := st.played + ActiveRows(st.cells, col),
          beatIndex := NextBeat(col, st.isMobile))
  }

  /**
   * `n` ticks in a row, with nothing else in between: while playing, the step
   * advances as `n` calls of `NextBeat`.
   */
  function Ticks(st: State, n: nat): (t: State)
    requires Shaped(st)
    ensures Shaped(t)
    ensures t.isPlaying == st.isPlaying && t.isMobile == st.isMobile
    ensures st.isPlaying ==> t.beatIndex == Walk(st.beatIndex, st.isMobile, n)
    decreases n
  {
    if n == 0 then st else Ticks(Tick(st), n - 1)
  }

  // ---------------------------------------------------------------------------
  // The other events

  /** `ts` without its element at index `k`: the timer that has just run. */
  function RemoveAt(ts: seq<Timer>, k: nat): (r: seq<Timer>)
    requires k < |ts|
    ensures |r| == |ts| - 1
    ensures forall t :: t in r ==> t in ts
  {
    ts[..k] + ts[k + 1..]
  }

  /**
   * The browser runs pending callback `k`: a tick runs `playLoop`; a
   * highlight-off clicks its button back when the tick had clicked it.
   */
  function RunTimer(st: State, k: nat): (t: State)
    requires Shaped(st) && k < |st.timers|
    ensures Shaped(t)
    ensures t.isPlaying == st.isPlaying && t.bpm == st.bpm && t.isMobile == st.isMobile
  {
    var rest := st.(timers := RemoveAt(st.timers, k));
    match st.timers[k]
    case StepTimer(_) => Tick(rest)
    case RestoreTimer(r, s, needClick) =>
      if needClick then rest.(cells := Toggle(st.cells, r, s)) else rest
  }

  /** The user clicks button `(r, s)`. */
  function Click(st: State, r: nat, s: nat): (t: State)
    requires InRange(st.cells, r, s)
    ensures Valid(st) ==> Valid(t)
    ensures t.cells == Toggle(st.cells, r, s)
    ensures t == st.(cells := t.cells)
  {
    st.(cells := Toggle(st.cells, r, s))
  }

  /** `handleBPMChange`: the tempo input changed to `requested`. */
  function ChangeBpm(st: State, requested: int): (t: State)
    ensures MinBpm <= t.bpm <= MaxBpm
    ensures Valid(st) ==> Valid(t)
    ensures t == st.(bpm := ClampBpm(requested))
  {
    st.(bpm := ClampBpm(requested))
  }

  /** `handleResize`: the viewport is now `innerWidth` pixels wide. */
  function Resize(st: State, innerWidth: int): (t: State)
    ensures Valid(st) ==> Valid(t)
    ensures t == st.(isMobile := IsMobileWidth(innerWidth))
  {
    st.(isMobile := IsMobileWidth(innerWidth))
  }

  /** Pending ticks are dropped, pending highlight-offs kept (`clearTimeout` on the tick). */
  function CancelSteps(ts: seq<Timer>): (r: seq<Timer>)
    ensures StepCount(r) == 0
    ensures forall x :: multiset(r)[x] == if x.RestoreTimer? then multiset(ts)[x] else 0
    ensures forall t :: t in r ==> t in ts
  {
    if ts == [] then []
    else
      var rest := CancelSteps(ts[1..]);
      assert ts == [ts[0]] + ts[1..];
      if ts[0].RestoreTimer? then
        assert ([ts[0]] + rest)[1..] == rest;
        [ts[0]] + rest
      else rest
  }

  /**
   * `togglePlay` as it is written: negate the flag; on start run a tick at once,
   * on stop go back to step 0 and rely on the pending tick to see the flag.
   */
  function TogglePlayAsWritten(st: State): (t: State)
    requires Shaped(st)
    ensures Shaped(t)
    ensures t.isPlaying == !st.isPlaying
    ensures !t.isPlaying ==> t == st.(isPlaying := false, beatIndex := 0)
    ensures t.isPlaying ==> t == Tick(st.(isPlaying := true))
  {
    if st.isPlaying then st.(isPlaying := false, beatIndex := 0)
    else Tick(st.(isPlaying := true))
  }

  /**
   * `togglePlay`, with the pending tick cancelled on stop so that a quick
   * stop-and-start cannot leave two chains of ticks running.
   */
  function TogglePlay(st: State): (t: State)
    requires Shaped(st)
    ensures Shaped(t)
    ensures t.isPlaying == !st.isPlaying
    ensures !t.isPlaying ==> t.beatIndex == 0 && StepCount(t.timers) == 0 && t.cells == st.cells
    ensures !t.isPlaying ==> t == st.(isPlaying := false, beatIndex := 0, timers := CancelSteps(st.timers))
    ensures t.isPlaying ==> t == Tick(st.(isPlaying := true))
  {
    if st.isPlaying then st.(isPlaying := false, beatIndex := 0, timers := CancelSteps(st.timers))
    else Tick(st.(isPlaying := true))
  }

  /** The keys `handleSpacebar` reacts to. */
  predicate IsPlayKey(key: string): (isPlayKey: bool)
    ensures isPlayKey <==> key in {" ", "Spacebar"}
  {
    key == " " || key == "Spacebar"
  }

  /** `handleSpacebar`: a key went down. */
  function KeyDown(st: State, key: string): (t: State)
    requires Shaped(st)
    ensures Shaped(t)
    ensures t.isPlaying != st.isPlaying <==> IsPlayKey(key)
    ensures IsPlayKey(key) ==> t == TogglePlay(st)
    ensures !IsPlayKey(key) ==> t == st
  {
    if IsPlayKey(key) then TogglePlay(st) else st
  }
}
