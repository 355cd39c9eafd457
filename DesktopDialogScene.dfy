/** The desktop dialog scene: on a wide window, an entry whose metadata asks
    for a dialog is shown as a dialog over the entries below it. */
module DesktopDialogScene {
  import opened Common
  import opened NavEntries
  import opened Global

  /** The metadata key of a dialog entry. */
  const DialogKey: string := "desktop_dialog"

  /** `dialog()`: the metadata that makes an entry a dialog. */
  function DialogMetadata(p: DialogProperties): (m: map<string, MetaValue>)
    ensures m.Keys == {DialogKey} && m[DialogKey] == Dialog(p)
  {
    map[DialogKey := Dialog(p)]
  }

  /** The dismiss action the scene is built with: it takes no part in
      comparing or hashing scenes. */
  datatype BackHandler = BackHandler(id: nat)

  datatype DialogScene = DialogScene(
    key: string,
    entry: NavEntry,
    previousEntries: seq<NavEntry>,
    overlaidEntries: seq<NavEntry>,
    properties: DialogProperties,
    onBack: BackHandler)

  /** The entries the scene shows: the dialog entry alone. */
  function Entries(s: DialogScene): (es: seq<NavEntry>)
    ensures |es| == 1 && es[0] == s.entry
  {
    [s.entry]
  }

  /** `dropLastWhile { it.metadata[DIALOG_KEY] != null }`. */
  function DropTrailingDialogs(es: seq<NavEntry>): (r: seq<NavEntry>)
    ensures |r| <= |es| && r == es[..|r|]
    ensures r == [] || DialogKey !in r[|r| - 1].metadata
    ensures forall i | |r| <= i < |es| :: DialogKey in es[i].metadata
  {
    if es == [] || DialogKey !in es[|es| - 1].metadata then es
    else
      var r := DropTrailingDialogs(es[..|es| - 1]);
      assert es[..|es| - 1][..|r|] == es[..|r|];
      r
  }

  /** The scene key: the content key's text followed by the entry count. */
  function SceneKey(contentKey: string, count: nat): string {
    contentKey + NatToDecimal(count)
  }

  /** `calculateScene` for a window at least `minWidthDp` wide. */
  function CalculateScene(entries: seq<NavEntry>, minWidthDp: int, onBack: BackHandler): (r: Option<DialogScene>)
    ensures r.Some? <==>
      && minWidthDp >= WideSize && |entries| >= 2
      && DialogKey in entries[|entries| - 1].metadata
      && entries[|entries| - 1].metadata[DialogKey].Dialog?
    ensures r.Some? ==>
      var last := entries[|entries| - 1];
      && Entries(r.value) == [last]
      && r.value.key == SceneKey(last.contentKey, |entries|)
      && r.value.properties == last.metadata[DialogKey].properties
      && r.value.previousEntries == entries[..|entries| - 1]
      && r.value.overlaidEntries == DropTrailingDialogs(entries)
  {
    if minWidthDp < WideSize || |entries| < 2 then None
    else
      var last := entries[|entries| - 1];
      if DialogKey in last.metadata && last.metadata[DialogKey].Dialog? then
        Some(DialogScene(
          SceneKey(last.contentKey, |entries|), last, entries[..|entries| - 1],
          DropTrailingDialogs(entries), last.metadata[DialogKey].properties, onBack))
      else None
  }

  /** The entries a dialog covers are a prefix of those below it, and end
      with an entry that is not a dialog. */
  lemma OverlaidBelowDialog(entries: seq<NavEntry>, minWidthDp: int, onBack: BackHandler)
    requires CalculateScene(entries, minWidthDp, onBack).Some?
    ensures var s := CalculateScene(entries, minWidthDp, onBack).value;
      && |s.overlaidEntries| < |entries|
      && s.overlaidEntries == s.previousEntries[..|s.overlaidEntries|]
      && (s.overlaidEntries == [] || DialogKey !in s.overlaidEntries[|s.overlaidEntries| - 1].metadata)
  {
    var s := CalculateScene(entries, minWidthDp, onBack).value;
    var n := |s.overlaidEntries|;
    assert s.previousEntries[..n] == entries[..n];
  }

  /** An entry made with `dialog(p)` on top of another entry opens a dialog
      with `p` on a wide window. */
  lemma DialogEntryOpensDialog(below: seq<NavEntry>, key: string, p: DialogProperties, minWidthDp: int, onBack: BackHandler)
    requires |below| >= 1 && minWidthDp >= WideSize
    ensures var entries := below + [NavEntry(key, DialogMetadata(p))];
      var r := CalculateScene(entries, minWidthDp, onBack);
      r.Some? && r.value.properties == p && r.value.previousEntries == below
  {
    var entries := below + [NavEntry(key, DialogMetadata(p))];
    assert entries[..|entries| - 1] == below;
  }

  /** `equals`: the key, the entries below and covered, the entry and the
      properties are compared, and nothing else. */
  predicate SceneEquals(a: DialogScene, b: DialogScene) {
    && a.key == b.key
    && a.previousEntries == b.previousEntries
    && a.overlaidEntries == b.overlaidEntries
    && a.entry == b.entry
    && a.properties == b.properties
  }

  lemma SceneEqualsIgnoresOnBack(a: DialogScene, b: DialogScene)
    ensures SceneEquals(a, b) <==> a.(onBack := b.onBack) == b
  {
  }

  /** `hashCode`: each of the compared fields' hashes times 31, summed, in
      32-bit arithmetic. The hashes of entries and properties are the
      toolkit's and are parameters here. */
  function SceneHash(s: DialogScene, entryHash: NavEntry -> int, propertiesHash: DialogProperties -> int): (h: int)
    ensures IsInt32(h)
  {
    Wrap32(
      StringHash(s.key) * 31
      + ListHash(s.previousEntries, entryHash) * 31
      + ListHash(s.overlaidEntries, entryHash) * 31
      + entryHash(s.entry) * 31
      + propertiesHash(s.properties) * 31)
  }

  /** Scenes that are equal hash equally. */
  lemma EqualScenesHashEqually(a: DialogScene, b: DialogScene, entryHash: NavEntry -> int, propertiesHash: DialogProperties -> int)
    requires SceneEquals(a, b)
    ensures SceneHash(a, entryHash, propertiesHash) == SceneHash(b, entryHash, propertiesHash)
  {
  }

  lemma DigitInSuffix(k: string, d: string, i: int)
    requires AllDigits(d) && |k| <= i < |k| + |d|
    ensures IsDigit((k + d)[i])
  {
    assert (k + d)[i] == d[i - |k|];
  }

  /** A content key that does not end in a digit, and the entry count, can
      be read back from the scene key. */
  lemma {:induction false} SceneKeyInjective(k1: string, n1: nat, k2: string, n2: nat)
    requires k1 == [] || !IsDigit(k1[|k1| - 1])
    requires k2 == [] || !IsDigit(k2[|k2| - 1])
    requires SceneKey(k1, n1) == SceneKey(k2, n2)
    ensures k1 == k2 && n1 == n2
  {
    var s := SceneKey(k1, n1);
    var d1 := NatToDecimal(n1);
    var d2 := NatToDecimal(n2);
    if |k1| < |k2| {
      DigitInSuffix(k1, d1, |k2| - 1);
      assert false;
    } else if |k2| < |k1| {
      DigitInSuffix(k2, d2, |k1| - 1);
      assert false;
    }
    assert k1 == s[..|k1|] == k2;
    assert d1 == s[|k1|..] == d2;
    DecimalInjective(n1, n2);
  }
}
