/** The exceptions the collector raises, as values. */
module Errors {

  datatype Error =
      /** `RuntimeError('Invalid sentinel scene ...')` from a scene parser constructor. */
    | InvalidScene(sceneId: string)
      /** `ValueError` from `strptime` on a date fragment. */
    | BadTimestamp(field: string)
      /** `ValueError` from `int(version)` on a dotless, non-numeric version string. */
    | BadVersion(text: string)
      /** `IndexError` from `tile[2]` on a tile id shorter than three characters. */
    | ShortTile(tile: string)
      /** `KeyError` from `proc['name']` on a processor record without a name. */
    | MissingProcessorName
      /** `IndexError` from `name.split('_')[-2]` on a jp2 file name without `_`. */
    | MissingBandToken(name: string)
}
