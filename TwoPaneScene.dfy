/** The two-pane scene: on an expanded window, the last two entries are shown
    side by side when both allow it. */
module TwoPaneScene {
  import opened Common
  import opened NavEntries

  /** The metadata key of an entry that may be shown in a pane. */
  const TwoPaneKey: string := "TwoPane"

  /** `twoPane()`. */
  function TwoPaneMetadata(): (m: map<string, MetaValue>)
    ensures m.Keys == {TwoPaneKey} && m[TwoPaneKey] == Flag(true)
  {
    map[TwoPaneKey := Flag(true)]
  }

  datatype PaneScene = PaneScene(
    key: (string, string),
    previousEntries: seq<NavEntry>,
    firstEntry: NavEntry,
    secondEntry: NavEntry)

  function Entries(s: PaneScene): (es: seq<NavEntry>)
    ensures es == [s.firstEntry, s.secondEntry]
  {
    [s.firstEntry, s.secondEntry]
  }

  /** `takeLast(2)`. */
  function TakeLastTwo(es: seq<NavEntry>): (r: seq<NavEntry>)
    ensures |r| == if |es| < 2 then |es| else 2
    ensures r == es[|es| - |r|..]
  {
    if |es| < 2 then es else es[|es| - 2..]
  }

  /** `calculateScene` for a window at least `minWidthDp` wide, with the
      toolkit's expanded-width breakpoint. */
  function CalculateScene(entries: seq<NavEntry>, minWidthDp: int, expandedBreakpoint: int): (r: Option<PaneScene>)
    ensures r.Some? <==>
      && minWidthDp >= expandedBreakpoint && |entries| >= 2
      && TwoPaneKey in entries[|entries| - 2].metadata
      && TwoPaneKey in entries[|entries| - 1].metadata
    ensures r.Some? ==>
      && Entries(r.value) == entries[|entries| - 2..]
      && r.value.key == (entries[|entries| - 2].contentKey, entries[|entries| - 1].contentKey)
      && r.value.previousEntries == entries[..|entries| - 1]
  {
    if minWidthDp < expandedBreakpoint then None
    else
      var lastTwo := TakeLastTwo(entries);
      if |lastTwo| == 2 && (forall e | e in lastTwo :: TwoPaneKey in e.metadata) then
        var first := lastTwo[0];
        var second := lastTwo[|lastTwo| - 1];
        Some(PaneScene((first.contentKey, second.contentKey), entries[..|entries| - 1], first, second))
      else
        assert |entries| >= 2 ==> entries[|entries| - 2] in lastTwo && entries[|entries| - 1] in lastTwo;
        None
  }

  /** The first pane is still among the entries below the scene. */
  lemma FirstPaneIsPrevious(entries: seq<NavEntry>, minWidthDp: int, expandedBreakpoint: int)
    requires CalculateScene(entries, minWidthDp, expandedBreakpoint).Some?
    ensures var s := CalculateScene(entries, minWidthDp, expandedBreakpoint).value;
      |s.previousEntries| >= 1 && s.previousEntries[|s.previousEntries| - 1] == s.firstEntry
  {
  }

  /** Two entries made with `twoPane()` on top of the stack are shown side
      by side on an expanded window. */
  lemma TwoPaneEntriesPair(below: seq<NavEntry>, k1: string, k2: string, minWidthDp: int, expandedBreakpoint: int)
    requires minWidthDp >= expandedBreakpoint
    ensures var entries := below + [NavEntry(k1, TwoPaneMetadata()), NavEntry(k2, TwoPaneMetadata())];
      var r := CalculateScene(entries, minWidthDp, expandedBreakpoint);
      r.Some? && r.value.key == (k1, k2) && r.value.previousEntries == below + [NavEntry(k1, TwoPaneMetadata())]
  {
    var entries := below + [NavEntry(k1, TwoPaneMetadata()), NavEntry(k2, TwoPaneMetadata())];
    assert entries[..|entries| - 1] == below + [NavEntry(k1, TwoPaneMetadata())];
  }
}
