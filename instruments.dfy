/** The instrument rows: what `initializeSequencer` derives from a row's label. */
module Instruments {

  /** A row record without its buttons and its decoded audio. */
  datatype RowInfo = RowInfo(name: string, audioType: string, colorPalette: string)

  /** The labels the row-name switch recognises. */
  predicate IsKnownInstrument(name: string)
  {
    name == "Kick" || name == "Snare" || name == "High-hat"
  }

  function LowerChar(c: char): char
  {
    if 'A' <= c <= 'Z' then (c as int - 'A' as int + 'a' as int) as char else c
  }

  /** ASCII lower case. */
  function Lower(s: string): (t: string)
    ensures |t| == |s|
    ensures forall i :: 0 <= i < |s| ==> t[i] == LowerChar(s[i])
  {
    if s == [] then [] else [LowerChar(s[0])] + Lower(s[1..])
  }

  /**
   * The row record for a label: a known instrument gets its colour tag and the
   * path of its first sample; any other label keeps both empty.
   */
  function NewRow(name: string): (row: RowInfo)
    ensures row.name == name
    ensures IsKnownInstrument(name) <==> row.colorPalette != ""
    ensures !IsKnownInstrument(name) ==> row.audioType == ""
  {
    var row := RowInfo(name, "", "");
    if name == "Kick" then row.(audioType := "kick/kick_1.wav", colorPalette := "kick")
    else if name == "Snare" then row.(audioType := "snare/snare_1.wav", colorPalette := "snare")
    else if name == "High-hat" then row.(audioType := "high-hat/high-hat_1.wav", colorPalette := "high-hat")
    else row
  }

  /**
   * How many rows `initializeSequencer` sets up for the labels `names`: its
   * loop stops at the first unknown label, whose empty colour tag the page
   * refuses as a class name, so only the known labels before it get a row.
   */
  function LoadedRowCount(names: seq<string>): (n: nat)
    ensures n <= |names|
    ensures forall i :: 0 <= i < n ==> IsKnownInstrument(names[i])
    ensures n < |names| ==> !IsKnownInstrument(names[n])
  {
    if names == [] || !IsKnownInstrument(names[0]) then 0
    else 1 + LoadedRowCount(names[1..])
  }

  /**
   * For every known instrument the colour tag is its label in lower case and
   * the sample path is `<tag>/<tag>_1.wav`.
   */
  lemma KnownRowNaming(name: string)
    requires IsKnownInstrument(name)
    ensures var row := NewRow(name);
      && row.colorPalette == Lower(name)
      && row.audioType == row.colorPalette + "/" + row.colorPalette + "_1.wav"
  {
    SamplePathsFollowTags();
    if name == "Kick" {
      KickRowNaming();
    } else if name == "Snare" {
      SnareRowNaming();
    } else {
      HighHatRowNaming();
    }
  }

  lemma KickRowNaming()
    ensures NewRow("Kick").colorPalette == Lower("Kick")
  {
  }

  lemma SnareRowNaming()
    ensures NewRow("Snare").colorPalette == Lower("Snare")
  {
  }

  lemma HighHatRowNaming()
    ensures NewRow("High-hat").colorPalette == Lower("High-hat")
  {
    LowerMatches("High-hat", "high-hat");
  }

  /** Each sample path spells out its colour tag twice. */
  lemma SamplePathsFollowTags()
    ensures "kick" + "/" + "kick" + "_1.wav" == "kick/kick_1.wav"
    ensures "snare" + "/" + "snare" + "_1.wav" == "snare/snare_1.wav"
    ensures "high-hat" + "/" + "high-hat" + "_1.wav" == "high-hat/high-hat_1.wav"
  {
  }

  lemma LowerMatches(s: string, t: string)
    requires |s| == |t|
    requires forall i :: 0 <= i < |s| ==> LowerChar(s[i]) == t[i]
    ensures Lower(s) == t
  {
  }

  /** Different instruments never share a sample or a colour tag. */
  lemma DistinctInstrumentsDistinctSamples(a: string, b: string)
    requires IsKnownInstrument(a) && IsKnownInstrument(b) && a != b
    ensures NewRow(a).audioType != NewRow(b).audioType
    ensures NewRow(a).colorPalette != NewRow(b).colorPalette
  {
  }
}
