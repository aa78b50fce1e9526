/**
 * Responsive step width: how many of a row's buttons the transport walks
 * through, decided by the viewport width.
 */
module Layout {

  /** Widest viewport (in CSS pixels) that still counts as mobile. */
  const MobileMaxWidth: int := 768

  /** Steps per row on a desktop viewport; no layout walks more. */
  const MaxBeatsPerRow: nat := 8

  /** Steps per row on a mobile viewport. */
  const MobileBeatsPerRow: nat := 4

  /** The `isMobile` flag, as the initialiser and the resize handler compute it. */
  function IsMobileWidth(innerWidth: int): (mobile: bool)
    ensures mobile <==> innerWidth <= MobileMaxWidth
  {
    innerWidth <= MobileMaxWidth
  }

  /** The steps per row of a layout mode: 4 on mobile, 8 otherwise. */
  function BeatsPerRow(isMobile: bool): (n: nat)
    ensures 0 < n <= MaxBeatsPerRow
    ensures MaxBeatsPerRow % n == 0
    ensures isMobile <==> n < MaxBeatsPerRow
    ensures isMobile ==> n == MobileBeatsPerRow
  {
    if isMobile then MobileBeatsPerRow else MaxBeatsPerRow
  }

  /** The step after `beatIndex`, wrapping at the current steps per row. */
  function NextBeat(beatIndex: nat, isMobile: bool): (next: nat)
    ensures next < BeatsPerRow(isMobile)
    ensures beatIndex + 1 < BeatsPerRow(isMobile) ==> next == beatIndex + 1
    ensures beatIndex + 1 == BeatsPerRow(isMobile) ==> next == 0
    ensures isMobile ==> (beatIndex + 1 - next) % 4 == 0
    ensures !isMobile ==> (beatIndex + 1 - next) % 8 == 0
  {
    // `(beatIndex + 1) % beatsPerRow`, with the divisor spelled out per layout
    if isMobile then (beatIndex + 1) % MobileBeatsPerRow else (beatIndex + 1) % MaxBeatsPerRow
  }

  /** A wider viewport never shows fewer steps than a narrower one. */
  lemma WiderViewportNeverFewerSteps(narrow: int, wide: int)
    requires narrow <= wide
    ensures BeatsPerRow(IsMobileWidth(narrow)) <= BeatsPerRow(IsMobileWidth(wide))
  {
  }

  /** The step reached from `beatIndex` after `n` advances. */
  function Walk(beatIndex: nat, isMobile: bool, n: nat): (b: nat)
    decreases n
  {
    if n == 0 then beatIndex else Walk(NextBeat(beatIndex, isMobile), isMobile, n - 1)
  }

  /**
   * From a step inside the bar, `n` advances move the step `n` places round
   * the bar.
   */
  lemma {:induction false} WalkGoesRoundTheBar(beatIndex: nat, isMobile: bool, n: nat)
    requires beatIndex < BeatsPerRow(isMobile)
    ensures Walk(beatIndex, isMobile, n) == (beatIndex + n) % BeatsPerRow(isMobile)
    decreases n
  {
    if n > 0 {
      var next := NextBeat(beatIndex, isMobile);
      WalkGoesRoundTheBar(next, isMobile, n - 1);
      if isMobile && beatIndex == 3 {
        // wrapped round: n - 1 more steps from 0 land where n steps from 3 do
        assert (n - 1 + 4) % 4 == (n - 1) % 4;
      } else if !isMobile && beatIndex == 7 {
        assert (n - 1 + 8) % 8 == (n - 1) % 8;
      }
    }
  }
}
