/** The records the add-on stores and shows: bookmarks, captured values and the storage schema. */
module Types {
  import opened Wrappers

  /** A bookmark as the popup lists it; the optional fields are `undefined` when absent. */
  datatype Bookmark = Bookmark(
    id: string,
    title: string,
    url: string,
    parentId: Option<string>,
    dateAdded: Option<int>,
    folderPath: Option<seq<string>>)

  /** One remembered text value, with the page it was typed on. */
  datatype CapturedValue = CapturedValue(id: string, value: string, timestamp: int, sourceUrl: string)

  /** The two toggles kept under the `config` key. */
  datatype Config = Config(excludeSecrets: bool, autoAutocomplete: bool)

  /** Everything the extension keeps in local storage. */
  datatype StorageData = StorageData(capturedValues: seq<CapturedValue>, config: Config)
}
