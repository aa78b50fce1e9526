/**
 * What the transport promises: one chain of ticks, a tick that triggers
 * exactly the active rows, a click-back that undoes the tick's clicks, a step
 * that walks the bar, and a tempo change that waits for the next tick.
 */
module TransportProperties {
  import opened Grid
  import opened Layout
  import opened Tempo
  import opened Transport

  // ---------------------------------------------------------------------------
  // Counting pending ticks

  lemma {:induction false} StepCountAppend(a: seq<Timer>, b: seq<Timer>)
    ensures StepCount(a + b) == StepCount(a) + StepCount(b)
  {
    if a == [] {
      assert a + b == b;
    } else {
      StepCountAppend(a[1..], b);
      assert (a + b)[1..] == a[1..] + b;
    }
  }

  /** Running a callback takes exactly that one callback out of the pending ones. */
  lemma RemoveAtMultiset(ts: seq<Timer>, k: nat)
    requires k < |ts|
    ensures multiset(RemoveAt(ts, k)) == multiset(ts) - multiset{ts[k]}
  {
    assert ts == ts[..k] + [ts[k]] + ts[k + 1..];
  }

  lemma StepCountRemoveAt(ts: seq<Timer>, k: nat)
    requires k < |ts|
    ensures StepCount(RemoveAt(ts, k)) + (if ts[k].StepTimer? then 1 else 0) == StepCount(ts)
  {
    var pre, post := ts[..k], ts[k + 1..];
    assert RemoveAt(ts, k) == pre + post;
    StepCountAppend(pre, post);
    assert ts[k..][1..] == post;
    StepCountAppend(pre, ts[k..]);
    assert ts == pre + ts[k..];
  }

  lemma {:induction false} StepCountOfHighlightOffs(ts: seq<Timer>)
    requires forall t :: t in ts ==> t.RestoreTimer?
    ensures StepCount(ts) == 0
  {
    if ts != [] {
      assert ts[0] in ts;
      StepCountOfHighlightOffs(ts[1..]);
    }
  }

  /** A tick that fires schedules exactly one further tick. */
  lemma TickAddsOneTick(st: State)
    requires Shaped(st) && st.isPlaying
    ensures StepCount(Tick(st).timers) == StepCount(st.timers) + 1
  {
    var offs := Restores(st.cells, st.beatIndex);
    StepCountOfHighlightOffs(offs);
    StepCountAppend(st.timers, offs);
    StepCountAppend(st.timers + offs, [StepTimer(st.bpm)]);
  }

  /** When stopped, a pending tick runs out without any effect beyond disappearing. */
  lemma StoppedTickDoesNothing(st: State, k: nat)
    requires Shaped(st) && !st.isPlaying && k < |st.timers| && st.timers[k].StepTimer?
    ensures RunTimer(st, k) == st.(timers := RemoveAt(st.timers, k))
    ensures StepCount(RunTimer(st, k).timers) == StepCount(st.timers) - 1
  {
    StepCountRemoveAt(st.timers, k);
  }

  /** Running a pending callback while playing never ends a chain of ticks. */
  lemma RunningTimersKeepsEveryLoop(st: State, k: nat)
    requires Shaped(st) && st.isPlaying && k < |st.timers|
    ensures RunTimer(st, k).isPlaying
    ensures StepCount(RunTimer(st, k).timers) == StepCount(st.timers)
  {
    StepCountRemoveAt(st.timers, k);
    if st.timers[k].StepTimer? {
      TickAddsOneTick(st.(timers := RemoveAt(st.timers, k)));
    }
  }

  // ---------------------------------------------------------------------------
  // The single-loop invariant

  lemma TogglePlayKeepsOneLoop(st: State)
    requires Valid(st)
    ensures Valid(TogglePlay(st))
  {
    if !st.isPlaying {
      TickAddsOneTick(st.(isPlaying := true));
    }
  }

  lemma RunTimerKeepsOneLoop(st: State, k: nat)
    requires Valid(st) && k < |st.timers|
    ensures Valid(RunTimer(st, k))
  {
    StepCountRemoveAt(st.timers, k);
    if st.timers[k].StepTimer? {
      TickAddsOneTick(st.(timers := RemoveAt(st.timers, k)));
    }
  }

  lemma KeyDownKeepsOneLoop(st: State, key: string)
    requires Valid(st)
    ensures Valid(KeyDown(st, key))
  {
    if IsPlayKey(key) {
      TogglePlayKeepsOneLoop(st);
    }
  }

  /**
   * As written, stop leaves the pending tick in place: the transport is
   * stopped with one tick still pending, which only the flag test at its
   * start turns into a no-op.
   */
  lemma StopAsWrittenLeavesTickPending(st: State)
    requires Valid(st) && st.isPlaying
    ensures var t := TogglePlayAsWritten(st);
      !t.isPlaying && t.beatIndex == 0 && StepCount(t.timers) == 1 && !Valid(t)
  {
  }

  /**
   * As written, play, stop and play again before the first pending tick has run
   * leaves two ticks pending while playing: two chains of `playLoop` then run
   * side by side.
   */
  lemma RestartBeforeTickDoublesLoop(st: State)
    requires Valid(st) && !st.isPlaying
    ensures var t := TogglePlayAsWritten(TogglePlayAsWritten(TogglePlayAsWritten(st)));
      t.isPlaying && StepCount(t.timers) == 2 && !Valid(t)
  {
    var s1 := TogglePlayAsWritten(st);
    TickAddsOneTick(st.(isPlaying := true));
    var s2 := TogglePlayAsWritten(s1);
    TickAddsOneTick(s2.(isPlaying := true));
  }

  /** With the pending tick cancelled on stop, the same presses leave one chain. */
  lemma RestartBeforeTickKeepsOneLoop(st: State)
    requires Valid(st) && !st.isPlaying
    ensures var t := TogglePlay(TogglePlay(TogglePlay(st)));
      t.isPlaying && StepCount(t.timers) == 1
  {
    TogglePlayKeepsOneLoop(st);
    TogglePlayKeepsOneLoop(TogglePlay(st));
    TogglePlayKeepsOneLoop(TogglePlay(TogglePlay(st)));
  }

  // ---------------------------------------------------------------------------
  // What a tick triggers and where the step goes

  /** A tick triggers the sample of exactly the rows active at the current step, each once. */
  lemma TickTriggersExactlyActiveRows(st: State)
    requires Shaped(st) && st.isPlaying
    ensures var t := Tick(st);
      && |t.played| >= |st.played|
      && t.played[..|st.played|] == st.played
      && (forall r: nat :: r in t.played[|st.played|..] <==> r < |st.cells| && st.cells[r][st.beatIndex])
      && (forall i, j :: |st.played| <= i < j < |t.played| ==> t.played[i] < t.played[j])
  {
  }

  /**
   * From a step inside the bar, `n` ticks move the step `n` places round the
   * bar: on a desktop bar from step 0, ticks 0 to 7 fire steps 0 to 7 and the
   * eighth comes back to step 0.
   */
  lemma TicksGoRoundTheBar(st: State, n: nat)
    requires Shaped(st) && st.isPlaying && st.beatIndex < BeatsPerRow(st.isMobile)
    ensures Ticks(st, n).beatIndex == (st.beatIndex + n) % BeatsPerRow(st.isMobile)
  {
    WalkGoesRoundTheBar(st.beatIndex, st.isMobile, n);
  }

  /**
   * Shrinking to the mobile layout at one of the desktop steps 4 to 7 leaves
   * the step outside the four-step bar: the next tick still fires that hidden
   * step and then wraps sooner, to `(beatIndex + 1) % 4`, so from steps 4 to
   * 6 it skips step 0 of the new bar.
   */
  lemma ShrinkPastBarFiresHiddenStep(st: State, innerWidth: int)
    requires Shaped(st) && st.isPlaying && !st.isMobile
    requires MobileBeatsPerRow <= st.beatIndex < MaxBeatsPerRow
    requires IsMobileWidth(innerWidth)
    ensures var m := Resize(st, innerWidth);
      && m.beatIndex >= BeatsPerRow(m.isMobile)
      && Tick(m).played == st.played + ActiveRows(st.cells, st.beatIndex)
      && Tick(m).beatIndex == (st.beatIndex + 1) % MobileBeatsPerRow
      && (Tick(m).beatIndex == 0 <==> st.beatIndex == MaxBeatsPerRow - 1)
  {
  }

  /**
   * A tempo change leaves the pending tick's delay alone; the tick after it
   * is scheduled with the delay of the new, clamped tempo.
   */
  lemma TempoChangeWaitsForNextTick(st: State, requested: int)
    requires Shaped(st) && st.isPlaying
    ensures ChangeBpm(st, requested).timers == st.timers
    ensures var t := Tick(ChangeBpm(st, requested));
      |t.timers| > 0 && t.timers[|t.timers| - 1] == StepTimer(ClampBpm(requested))
  {
  }

  // ---------------------------------------------------------------------------
  // The click / click-back of a tick

  /** The number of pending highlight-offs that will click button `(r, s)` back. */
  function Pending(ts: seq<Timer>, r: nat, s: nat): (count: nat)
  {
    multiset(ts)[RestoreTimer(r, s, true)]
  }

  predicate Odd(n: nat)
  {
    n % 2 == 1
  }

  /** One more click-back flips the parity (an arithmetic helper of the proofs below). */
  lemma OddStep(n: nat)
    ensures Odd(n + 1) == !Odd(n)
  {
  }

  /** The grid after one pending callback ran, as far as its click-back goes. */
  function ClickBack(g: Cells, t: Timer): (g': Cells)
    ensures SameShape(g, g')
  {
    if t.RestoreTimer? && t.needClick && InRange(g, t.row, t.step) then Toggle(g, t.row, t.step) else g
  }

  /** The grid after the callbacks `ts` ran in this order, as far as their click-backs go. */
  function ClickBacks(g: Cells, ts: seq<Timer>): (g': Cells)
    ensures SameShape(g, g')
    decreases ts
  {
    if ts == [] then g else ClickBacks(ClickBack(g, ts[0]), ts[1..])
  }

  /**
   * The pattern the user has set: the grid once every pending click-back has
   * run. The transport's own clicks never change it.
   */
  function Pattern(st: State): (pattern: Cells)
  {
    ClickBacks(st.cells, st.timers)
  }

  /**
   * Running click-backs flips a button once per click-back addressed to it,
   * whatever the order they run in.
   */
  lemma {:induction false} ClickBacksAt(g: Cells, ts: seq<Timer>, r: nat, s: nat)
    requires InRange(g, r, s)
    ensures ClickBacks(g, ts)[r][s] == (g[r][s] != Odd(Pending(ts, r, s)))
    decreases ts
  {
    if ts != [] {
      var h := ClickBack(g, ts[0]);
      ClickBacksAt(h, ts[1..], r, s);
      assert ts == [ts[0]] + ts[1..];
      assert multiset(ts) == multiset{ts[0]} + multiset(ts[1..]);
      var n := Pending(ts[1..], r, s);
      if ts[0] == RestoreTimer(r, s, true) {
        assert h[r][s] == !g[r][s] && Pending(ts, r, s) == n + 1;
        OddStep(n);
      } else {
        assert h[r][s] == g[r][s] && Pending(ts, r, s) == n;
      }
    }
  }

  /** A tick schedules one click-back for each button it clicked, and none other. */
  lemma {:induction false} RestoresPending(g: Cells, col: nat, r: nat, s: nat)
    requires HasColumn(g, col)
    ensures Pending(Restores(g, col), r, s) == if s == col && r < |g| && g[r][col] then 1 else 0
  {
    if g != [] {
      var n := |g| - 1;
      RestoresPending(g[..n], col, r, s);
      assert multiset(Restores(g, col))
          == multiset(Restores(g[..n], col)) + multiset{RestoreTimer(n, col, g[n][col])};
    }
  }

  /** One button, for the lemma below. */
  lemma ClickBackUndoesTickAt(g: Cells, col: nat, ts: seq<Timer>, r: nat, s: nat)
    requires HasColumn(g, col) && InRange(g, r, s)
    requires Pending(ts, r, s) == Pending(Restores(g, col), r, s)
    ensures InRange(FireColumn(g, col), r, s)
    ensures ClickBacks(FireColumn(g, col), ts)[r][s] == g[r][s]
  {
    var f := FireColumn(g, col);
    ClickBacksAt(f, ts, r, s);
    RestoresPending(g, col, r, s);
    var n := Pending(ts, r, s);
    OddStep(0);
    assert !Odd(0);
    if s == col && g[r][col] {
      assert !f[r][s] && n == 1;
    } else {
      assert f[r][s] == g[r][s] && n == 0;
    }
  }

  /**
   * The click / click-back of a tick is an involution: once its highlight-offs
   * have all run, in any order, every button is as it was before the tick.
   */
  lemma ClickBackUndoesTick(g: Cells, col: nat, ts: seq<Timer>)
    requires HasColumn(g, col)
    requires multiset(ts) == multiset(Restores(g, col))
    ensures ClickBacks(FireColumn(g, col), ts) == g
  {
    var a := ClickBacks(FireColumn(g, col), ts);
    forall r, s | InRange(g, r, s) ensures a[r][s] == g[r][s] {
      ClickBackUndoesTickAt(g, col, ts, r, s);
    }
    SameGrid(a, g);
  }

  /** One button, for the lemma below. */
  lemma FireThenClickBacksAt(g: Cells, col: nat, ts: seq<Timer>, x: Timer, r: nat, s: nat)
    requires HasColumn(g, col) && InRange(g, r, s) && x.StepTimer?
    ensures InRange(FireColumn(g, col), r, s)
    ensures ClickBacks(FireColumn(g, col), ts + Restores(g, col) + [x])[r][s] == ClickBacks(g, ts)[r][s]
  {
    var f := FireColumn(g, col);
    var us := ts + Restores(g, col) + [x];
    ClickBacksAt(f, us, r, s);
    ClickBacksAt(g, ts, r, s);
    RestoresPending(g, col, r, s);
    assert multiset(us) == multiset(ts) + multiset(Restores(g, col)) + multiset{x};
    var n := Pending(ts, r, s);
    if s == col && g[r][col] {
      assert !f[r][s] && Pending(us, r, s) == n + 1;
      OddStep(n);
    } else {
      assert f[r][s] == g[r][s] && Pending(us, r, s) == n;
    }
  }

  /**
   * Clicking the active buttons of a column while scheduling their click-backs
   * (and one more tick) leaves the pattern as it was.
   */
  lemma FireKeepsClickBacks(g: Cells, col: nat, ts: seq<Timer>, x: Timer)
    requires HasColumn(g, col) && x.StepTimer?
    ensures ClickBacks(FireColumn(g, col), ts + Restores(g, col) + [x]) == ClickBacks(g, ts)
  {
    var a := ClickBacks(FireColumn(g, col), ts + Restores(g, col) + [x]);
    forall r, s | InRange(g, r, s) ensures a[r][s] == ClickBacks(g, ts)[r][s] {
      FireThenClickBacksAt(g, col, ts, x, r, s);
    }
    SameGrid(a, ClickBacks(g, ts));
  }

  lemma TickKeepsPattern(st: State)
    requires Shaped(st)
    ensures Pattern(Tick(st)) == Pattern(st)
  {
    if st.isPlaying {
      FireKeepsClickBacks(st.cells, st.beatIndex, st.timers, StepTimer(st.bpm));
    }
  }

  /** Dropping a pending tick leaves every pending click-back in place. */
  lemma DropStepKeepsClickBacks(g: Cells, ts: seq<Timer>, k: nat)
    requires k < |ts| && ts[k].StepTimer?
    ensures ClickBacks(g, RemoveAt(ts, k)) == ClickBacks(g, ts)
  {
    var a := ClickBacks(g, RemoveAt(ts, k));
    RemoveAtMultiset(ts, k);
    forall r, s | InRange(g, r, s) ensures a[r][s] == ClickBacks(g, ts)[r][s] {
      ClickBacksAt(g, RemoveAt(ts, k), r, s);
      ClickBacksAt(g, ts, r, s);
      assert Pending(RemoveAt(ts, k), r, s) == Pending(ts, r, s);
    }
    SameGrid(a, ClickBacks(g, ts));
  }

  /** One button, for the lemma below. */
  lemma ClickBackFirstAt(g: Cells, ts: seq<Timer>, k: nat, r: nat, s: nat)
    requires k < |ts| && InRange(g, r, s)
    ensures InRange(ClickBack(g, ts[k]), r, s)
    ensures ClickBacks(ClickBack(g, ts[k]), RemoveAt(ts, k))[r][s] == ClickBacks(g, ts)[r][s]
  {
    var h := ClickBack(g, ts[k]);
    var rest := RemoveAt(ts, k);
    ClickBacksAt(h, rest, r, s);
    ClickBacksAt(g, ts, r, s);
    RemoveAtMultiset(ts, k);
    var n := Pending(rest, r, s);
    if ts[k] == RestoreTimer(r, s, true) {
      assert h[r][s] == !g[r][s] && Pending(ts, r, s) == n + 1;
      OddStep(n);
    } else {
      assert h[r][s] == g[r][s] && Pending(ts, r, s) == n;
    }
  }

  /** Running a pending click-back first does not change where all of them lead. */
  lemma RunClickBackFirst(g: Cells, ts: seq<Timer>, k: nat)
    requires k < |ts|
    ensures ClickBacks(ClickBack(g, ts[k]), RemoveAt(ts, k)) == ClickBacks(g, ts)
  {
    var a := ClickBacks(ClickBack(g, ts[k]), RemoveAt(ts, k));
    forall r, s | InRange(g, r, s) ensures a[r][s] == ClickBacks(g, ts)[r][s] {
      ClickBackFirstAt(g, ts, k, r, s);
    }
    SameGrid(a, ClickBacks(g, ts));
  }

  lemma RunTimerKeepsPattern(st: State, k: nat)
    requires Shaped(st) && k < |st.timers|
    ensures Pattern(RunTimer(st, k)) == Pattern(st)
  {
    var rest := st.(timers := RemoveAt(st.timers, k));
    if st.timers[k].StepTimer? {
      DropStepKeepsClickBacks(st.cells, st.timers, k);
      TickKeepsPattern(rest);
    } else {
      assert st.timers[k] in st.timers;
      assert RunTimer(st, k).cells == ClickBack(st.cells, st.timers[k]);
      RunClickBackFirst(st.cells, st.timers, k);
    }
  }

  /** A user click changes the pattern at exactly that button, even mid-highlight. */
  lemma ClickTogglesPattern(st: State, r: nat, s: nat)
    requires InRange(st.cells, r, s)
    ensures InRange(Pattern(st), r, s)
    ensures Pattern(Click(st, r, s)) == Toggle(Pattern(st), r, s)
  {
    var t := Click(st, r, s);
    forall i, j | InRange(st.cells, i, j) ensures Pattern(t)[i][j] == Toggle(Pattern(st), r, s)[i][j] {
      ClickBacksAt(t.cells, t.timers, i, j);
      ClickBacksAt(st.cells, st.timers, i, j);
    }
    SameGrid(Pattern(t), Toggle(Pattern(st), r, s));
  }

  lemma TogglePlayKeepsPattern(st: State)
    requires Shaped(st)
    ensures Pattern(TogglePlay(st)) == Pattern(st)
  {
    if st.isPlaying {
      var t := TogglePlay(st);
      forall r, s | InRange(st.cells, r, s) ensures Pattern(t)[r][s] == Pattern(st)[r][s] {
        ClickBacksAt(t.cells, t.timers, r, s);
        ClickBacksAt(st.cells, st.timers, r, s);
      }
      SameGrid(Pattern(t), Pattern(st));
    } else {
      TickKeepsPattern(st.(isPlaying := true));
    }
  }

  /** No click-back pending: the grid shows the pattern. */
  predicate NoClickBackPending(ts: seq<Timer>)
  {
    forall t :: t in ts && t.RestoreTimer? ==> !t.needClick
  }

  lemma SettledGridIsPattern(st: State)
    requires NoClickBackPending(st.timers)
    ensures Pattern(st) == st.cells
  {
    forall r, s | InRange(st.cells, r, s) ensures Pattern(st)[r][s] == st.cells[r][s] {
      ClickBacksAt(st.cells, st.timers, r, s);
      assert RestoreTimer(r, s, true) !in st.timers;
    }
    SameGrid(Pattern(st), st.cells);
  }

  /** The callbacks at indices `ks` can run one after another. */
  ghost predicate Runnable(st: State, ks: seq<nat>)
    requires Shaped(st)
    decreases |ks|
  {
    ks == [] || (ks[0] < |st.timers| && Runnable(RunTimer(st, ks[0]), ks[1..]))
  }

  /** The state after the callbacks at indices `ks` ran one after another. */
  function RunAll(st: State, ks: seq<nat>): (t: State)
    requires Shaped(st) && Runnable(st, ks)
    ensures Shaped(t)
    decreases |ks|
  {
    if ks == [] then st else RunAll(RunTimer(st, ks[0]), ks[1..])
  }

  lemma {:induction false} RunAllKeepsPattern(st: State, ks: seq<nat>)
    requires Shaped(st) && Runnable(st, ks)
    ensures Pattern(RunAll(st, ks)) == Pattern(st)
    decreases |ks|
  {
    if ks != [] {
      RunTimerKeepsPattern(st, ks[0]);
      RunAllKeepsPattern(RunTimer(st, ks[0]), ks[1..]);
    }
  }

  /**
   * From a settled grid, a tick followed by any run of callbacks (further
   * ticks included) and no user click leaves, once no click-back is pending,
   * every button as it was before the tick.
   */
  lemma TimeoutsUndoTheTicksClicks(st: State, ks: seq<nat>)
    requires Shaped(st) && NoClickBackPending(st.timers)
    requires Runnable(Tick(st), ks)
    requires NoClickBackPending(RunAll(Tick(st), ks).timers)
    ensures RunAll(Tick(st), ks).cells == st.cells
  {
    SettledGridIsPattern(st);
    TickKeepsPattern(st);
    RunAllKeepsPattern(Tick(st), ks);
    SettledGridIsPattern(RunAll(Tick(st), ks));
  }
}
