/**
 * The sequencer as the program keeps it: module-level variables that the
 * event handlers update in place. Every handler is proved to move the state
 * exactly as the matching function of `Transport` does; the top-level
 * handlers also keep the transport invariant.
 */
module Machine {
  import opened Grid
  import opened Layout
  import opened Tempo
  import opened Instruments
  import opened Transport
  import TransportProperties

  /**
   * The row loop of the tick at step `col`, after rows `0 .. i - 1`, handles
   * row `i`: the grid, the highlight-offs and the triggered rows each grow by
   * that row's share.
   */
  lemma RowLoopStep(g: Cells, col: nat, i: nat, c: Cells, ts: seq<Timer>, ps: seq<nat>)
    requires HasColumn(g, col) && i < |g|
    requires c == FireColumn(g[..i], col) + g[i..]
    ensures HasColumn(g[..i + 1], col)
    ensures i < |c| && c[i] == g[i]
    ensures c[i := FireRow(g[i], col)] == FireColumn(g[..i + 1], col) + g[i + 1..]
    ensures ts + Restores(g[..i], col) + [RestoreTimer(i, col, g[i][col])] == ts + Restores(g[..i + 1], col)
    ensures ps + ActiveRows(g[..i], col) + (if g[i][col] then [i] else []) == ps + ActiveRows(g[..i + 1], col)
  {
    assert g[..i + 1][..i] == g[..i];
    AppendAssoc(ts, Restores(g[..i], col), [RestoreTimer(i, col, g[i][col])]);
    AppendAssoc(ps, ActiveRows(g[..i], col), if g[i][col] then [i] else []);
    var fired := FireColumn(g[..i], col);
    assert g[i..] == [g[i]] + g[i + 1..];
    assert c[i := FireRow(g[i], col)] == fired + [FireRow(g[i], col)] + g[i + 1..];
  }

  /** Sequence concatenation is associative (a helper of `RowLoopStep`). */
  lemma AppendAssoc<T>(a: seq<T>, b: seq<T>, c: seq<T>)
    ensures a + b + c == a + (b + c)
  {
  }

  class Sequencer {
    /** The rows, in page order, without their buttons. */
    var rows: seq<RowInfo>
    var isPlaying: bool
    var beatIndex: nat
    /** The tempo in beats per minute. */
    var bpm: int
    var isMobile: bool
    /** `cells[r][s]` is the `isActive` flag of button `s` of row `r`. */
    var cells: Cells
    /** The pending `setTimeout` callbacks. */
    var timers: seq<Timer>
    /** The rows whose sample was triggered, in order. */
    var played: seq<nat>

    /** The state the handlers act on. */
    function Snapshot(): (st: State)
      reads this
    {
      State(isPlaying, beatIndex, bpm, isMobile, cells, timers, played)
    }

    ghost predicate Valid()
      reads this
    {
      Transport.Valid(Snapshot()) && |rows| == |cells|
    }

    /**
     * Start-up and `initializeSequencer`: one row per label, each with
     * `buttonsPerRow` inactive buttons, up to the first unknown label, at
     * which the set-up stops.
     */
    constructor(names: seq<string>, buttonsPerRow: nat, innerWidth: int)
      requires buttonsPerRow >= MaxBeatsPerRow
      ensures Valid()
      ensures Snapshot() == Init(LoadedRowCount(names), buttonsPerRow, innerWidth)
      ensures |rows| == LoadedRowCount(names)
      ensures forall i :: 0 <= i < |rows| ==> rows[i] == NewRow(names[i]) && IsKnownInstrument(names[i])
    {
      var rs: seq<RowInfo> := [];
      var cs: Cells := [];
      var i := 0;
      while i < |names| && IsKnownInstrument(names[i])
        invariant 0 <= i <= LoadedRowCount(names)
        invariant |rs| == |cs| == i
        invariant forall j :: 0 <= j < i ==> rs[j] == NewRow(names[j])
        invariant forall j :: 0 <= j < i ==> cs[j] == seq(buttonsPerRow, _ => false)
      {
        rs := rs + [NewRow(names[i])];
        cs := cs + [seq(buttonsPerRow, _ => false)];
        i := i + 1;
      }
      assert cs == seq(i, _ => seq(buttonsPerRow, _ => false));
      rows := rs;
      cells := cs;
      isPlaying := false;
      beatIndex := 0;
      bpm := DefaultBpm;
      isMobile := innerWidth <= MobileMaxWidth;
      timers := [];
      played := [];
    }

    /** The click listener of button `(r, s)`. */
    method Click(r: nat, s: nat)
      requires InRange(cells, r, s)
      modifies this
      ensures Snapshot() == Transport.Click(old(Snapshot()), r, s)
      ensures rows == old(rows)
      ensures old(Valid()) ==> Valid()
    {
      cells := cells[r := cells[r][s := !cells[r][s]]];
    }

    /**
     * One pass of the row loop of `playLoop` at step `col`: an active button
     * triggers the row's sample and is clicked, and a highlight-off that
     * clicks it back is scheduled either way.
     */
    method FireButton(i: nat, col: nat)
      requires i < |cells| && col < |cells[i]|
      modifies this
      ensures cells == old(cells)[i := FireRow(old(cells)[i], col)]
      ensures timers == old(timers) + [RestoreTimer(i, col, old(cells)[i][col])]
      ensures played == old(played) + if old(cells)[i][col] then [i] else []
      ensures isPlaying == old(isPlaying) && beatIndex == old(beatIndex)
      ensures bpm == old(bpm) && isMobile == old(isMobile) && rows == old(rows)
    {
      var needClick := false;
      if cells[i][col] {
        played := played + [i];
        Click(i, col);
        needClick := true;
      }
      timers := timers + [RestoreTimer(i, col, needClick)];
    }

    /** The row loop of `playLoop` at step `col`. */
    method FireStep(col: nat)
      requires HasColumn(cells, col)
      modifies this
      ensures cells == FireColumn(old(cells), col)
      ensures timers == old(timers) + Restores(old(cells), col)
      ensures played == old(played) + ActiveRows(old(cells), col)
      ensures isPlaying == old(isPlaying) && beatIndex == old(beatIndex)
      ensures bpm == old(bpm) && isMobile == old(isMobile) && rows == old(rows)
    {
      ghost var g, ts, ps := cells, timers, played;
      var i := 0;
      while i < |cells|
        invariant 0 <= i <= |g| == |cells|
        invariant HasColumn(g, col)
        invariant cells == FireColumn(g[..i], col) + g[i..]
        invariant timers == ts + Restores(g[..i], col)
        invariant played == ps + ActiveRows(g[..i], col)
        invariant isPlaying == old(isPlaying) && beatIndex == old(beatIndex)
        invariant bpm == old(bpm) && isMobile == old(isMobile) && rows == old(rows)
      {
        RowLoopStep(g, col, i, cells, ts, ps);
        FireButton(i, col);
        i := i + 1;
      }
      assert g[..i] == g;
    }

    /** `playLoop`. */
    method PlayLoop()
      requires Shaped(Snapshot())
      modifies this
      ensures Snapshot() == Tick(old(Snapshot()))
      ensures rows == old(rows)
    {
      if isPlaying {
        var beatsPerRow := BeatsPerRow(isMobile);
        FireStep(beatIndex);
        beatIndex := (beatIndex + 1) % beatsPerRow;
        timers := timers + [StepTimer(bpm)];
      }
    }

    /** `togglePlay`, cancelling the pending tick on stop. */
    method TogglePlay()
      requires Valid()
      modifies this
      ensures Snapshot() == Transport.TogglePlay(old(Snapshot()))
      ensures rows == old(rows)
      ensures Valid()
    {
      TransportProperties.TogglePlayKeepsOneLoop(Snapshot());
      isPlaying := !isPlaying;
      if isPlaying {
        PlayLoop();
      } else {
        beatIndex := 0;
        timers := CancelSteps(timers);
      }
    }

    /** The event loop runs pending callback `k`. */
    method RunTimer(k: nat)
      requires Valid() && k < |timers|
      modifies this
      ensures Snapshot() == Transport.RunTimer(old(Snapshot()), k)
      ensures rows == old(rows)
      ensures Valid()
    {
      TransportProperties.RunTimerKeepsOneLoop(Snapshot(), k);
      var t := timers[k];
      assert t in timers;
      timers := RemoveAt(timers, k);
      match t
      case StepTimer(_) =>
        PlayLoop();
      case RestoreTimer(r, s, needClick) =>
        if needClick {
          Click(r, s);
        }
    }

    /** `handleBPMChange`; `shown` is the value written back to the input. */
    method HandleBpmChange(value: int) returns (shown: int)
      requires Valid()
      modifies this
      ensures shown == bpm
      ensures Snapshot() == ChangeBpm(old(Snapshot()), value)
      ensures rows == old(rows)
      ensures Valid()
    {
      var newBpm := value;
      if newBpm < MinBpm {
        newBpm := MinBpm;
      } else if newBpm > MaxBpm {
        newBpm := MaxBpm;
      }
      shown := newBpm;
      bpm := shown;
    }

    /** `handleResize`. */
    method HandleResize(innerWidth: int)
      requires Valid()
      modifies this
      ensures Snapshot() == Resize(old(Snapshot()), innerWidth)
      ensures rows == old(rows)
      ensures Valid()
    {
      isMobile := innerWidth <= MobileMaxWidth;
    }

    /** `handleSpacebar`; `prevented` says whether the default action was suppressed. */
    method HandleKeyDown(key: string) returns (prevented: bool)
      requires Valid()
      modifies this
      ensures prevented == IsPlayKey(key)
      ensures Snapshot() == KeyDown(old(Snapshot()), key)
      ensures rows == old(rows)
      ensures Valid()
    {
      if key == " " || key == "Spacebar" {
        TogglePlay();
        prevented := true;
      } else {
        prevented := false;
      }
    }
  }
}
