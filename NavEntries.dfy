/** The navigation library's entries as the scene strategies see them: a
    content key (through its text) and a metadata map. */
module NavEntries {
  import opened Common

  /** The dialog settings an entry can ask for; the toolkit's defaults are
      all `true`. */
  datatype DialogProperties = DialogProperties(
    dismissOnBackPress: bool,
    dismissOnClickOutside: bool,
    usePlatformDefaultWidth: bool)

  const DefaultDialogProperties: DialogProperties := DialogProperties(true, true, true)

  /** The values the app puts into entry metadata. */
  datatype MetaValue = Dialog(properties: DialogProperties) | Flag(flag: bool)

  datatype NavEntry = NavEntry(contentKey: string, metadata: map<string, MetaValue>)

  /** `String.hashCode()`: `31 * h + c` over the characters, from 0, in
      32-bit arithmetic. */
  function StringHash(s: string): (h: int)
    ensures IsInt32(h)
  {
    if s == [] then 0 else Wrap32(31 * StringHash(s[..|s| - 1]) + s[|s| - 1] as int)
  }

  /** `List.hashCode()`: `31 * h + hash(e)` over the elements, from 1. */
  function ListHash<T>(xs: seq<T>, hash: T -> int): (h: int)
    ensures IsInt32(h)
  {
    if xs == [] then 1 else Wrap32(31 * ListHash(xs[..|xs| - 1], hash) + hash(xs[|xs| - 1]))
  }
}
