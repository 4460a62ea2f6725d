# bookmark-speed (JetStorage) in Dafny

This project models the sequential core of the JetStorage browser add-on.
The add-on has two halves:

- A **content script**, injected into every page.
  - It classifies the field that takes focus as ordinary or sensitive.
  - It shows a status indicator above an ordinary field and a suggestion dropdown below it.
  - The dropdown lists the captured values that contain the field's text.
  - One second after typing pauses, it captures the field's value into the extension's local storage.
- A **popup**.
  - Its storage service reads, saves, removes and clears captured values.
  - Its bookmark service flattens the browser's bookmark tree.
  - Its search view filters the bookmarks and moves a keyboard selection over the results.

Modules:

| module | file | models |
|---|---|---|
| `Wrappers` | wrappers.dfy | `Option` |
| `Text` | text.dfy | the JavaScript string operations used: `toLowerCase`, `includes`, `trim`, `length` |
| `Types` | types.dfy | `Bookmark`, `CapturedValue`, `StorageData` from types.ts |
| `Lists` | lists.dfy | `slice(0, n)` |
| `ValueStore` | value_store.dfy | the save policy shared by `handleValueSave` and `saveValue` |
| `StorageService` | storage_service.dfy | services/storageService.ts, over an explicit store value |
| `BookmarkService` | bookmark_service.dfy | `flattenBookmarks` in services/bookmarkService.ts |
| `Popup` | popup.dfy | the search filter and selection state of App.tsx |
| `ContentScript` | content_script.dfy | content.js: the pure classifier, query and geometry, and the listeners as a class |

Modelling choices:

- **Storage** is an explicit `Store` value.
  - It is either the extension's local storage, read as two independently optional keys, or the development fallback slot.
  - Each operation returns the store after its write.
- **Time** is an explicit `now`.
  - In the content script, every event method takes the time at which it happens.
  - The class keeps a logical `clock` and every pending `setTimeout` with its deadline:
    - one save timer per element, in a map;
    - the focus-out timers, in a list.
  - An event can only be handled when no pending timer is overdue. A due timer fires first, through `FireSaveTimer` or `FireHideTimer`.
- **Fresh identifiers, the page url and the DOM** are parameters:
  - the popup's `crypto.randomUUID()` is the `uuid` parameter;
  - the content script's `Date.now()` is `now`;
  - `window.location.href` is `pageUrl`;
  - an element's bounding rectangle and the scroll offsets are arguments.

## Model

| member | source | states |
|---|---|---|
| Text.ToLower | content.js:15 | `toLowerCase` keeps the length and maps each character on its own |
| Text.ToLowerIdempotent | content.js:83 | lower-casing twice is lower-casing once, so the case-insensitive comparison is an equivalence on lowered text |
| Text.Contains | content.js:110 | definition: `includes`, trying every start position from the left; used by the contracts of the filters and the classifier, and pinned by `ContainsIffOccurs` |
| Text.ContainsIffOccurs | content.js:16 | `includes` holds exactly when the substring occurs at some position |
| Text.Utf16Length | content.js:80 | `length` counts UTF-16 code units: between one and two per character, exactly one each when all lie in the Basic Multilingual Plane |
| Text.Trim | content.js:80 | the result of `trim` has no white space at either end and is no longer than the input |
| Text.TrimSlice | content.js:80 | `trim` removes only the white space before the first and after the last other character |
| Text.TrimOfTrimmed | services/storageService.ts:39 | a value without surrounding white space is stored as it is |
| Text.TrimIdempotent | services/storageService.ts:39 | trimming a trimmed value changes nothing |
| Text.TrimEmptyIffBlank | services/storageService.ts:30 | the trim is empty exactly when the value is all white space |
| Lists.Take | App.tsx:33 | `slice(0, n)` is the prefix of length min(n, length) |
| ValueStore.TooShort | content.js:80 | definition: `!value \|\| value.trim().length < 2`, with the length counted in UTF-16 code units (also services/storageService.ts:30); used by the contracts of `Insert` and `AfterSaveCases` |
| ValueStore.SameIgnoringCase | content.js:83 | definition: the two texts are equal once both are lower-cased (also services/storageService.ts:33) |
| ValueStore.Known | content.js:83 | definition: the `.some(...)` test, true when some stored entry's value equals the input ignoring case (also services/storageService.ts:33); used by the contracts of `Insert`, `SaveValueRejects` and `AfterSaveCases` |
| ValueStore.Insert | services/storageService.ts:30-44 | a value is rejected exactly when its trim is shorter than 2 code units or a stored value equals it ignoring case; otherwise one entry holding the trimmed value, the id, the time and the url goes in front and the old list follows unchanged |
| ValueStore.OneAstralCharacterIsLongEnough | content.js:80 | one emoji passes the length test and one letter does not |
| ValueStore.InsertKeepsWellFormed | content.js:80-92 | every stored value stays trimmed and at least 2 code units long |
| ValueStore.InsertKeepsUnique | services/storageService.ts:33-44 | for trimmed input the list keeps no two entries equal ignoring case |
| ValueStore.InsertAgainRejected | services/storageService.ts:33-35 | once a trimmed value is saved, saving it again in any letter case is rejected |
| ValueStore.PaddedInsertResult | services/storageService.ts:33-44 | saving " ab" next to a stored "ab" is accepted and puts a new "ab" entry in front |
| ValueStore.InsertDuplicatesPaddedValue | services/storageService.ts:33-39 | as written, saving " ab" next to a stored "ab" is accepted and leaves "ab" twice |
| ValueStore.InsertNormalized | services/storageService.ts:30-44 | corrected policy: the existence test compares the trimmed value; rejected exactly when short or its trim is known |
| ValueStore.InsertNormalizedKeepsUnique | services/storageService.ts:33-44 | with the corrected policy the list stays free of case-insensitive duplicates for every input |
| ValueStore.InsertAgreesOnTrimmed | services/storageService.ts:33-39 | both policies coincide on input that has no surrounding white space |
| StorageService.GetStorageData | services/storageService.ts:5-27 | a present value list, config or development record reads back as stored; a missing value list reads as empty, a missing config as the default, an empty development slot as the default record |
| StorageService.DefaultsAreOn | services/storageService.ts:5-11 | the default record has no values and both `excludeSecrets` and `autoAutocomplete` on |
| StorageService.WriteValues | services/storageService.ts:46-50 | after a write the values read back as written, the config reads back unchanged, and the kind of store is kept |
| StorageService.SaveValue | services/storageService.ts:29-53 | a save that reports failure leaves the store as it was; every save keeps the kind of store and the config |
| StorageService.SaveValueRejects | services/storageService.ts:30-35 | `saveValue` returns false exactly for a short or already known value, and then writes nothing |
| StorageService.SaveValueStores | services/storageService.ts:37-52 | on success the stored list is the new trimmed entry followed by the old list; config unchanged; the trim is at least 2 code units |
| StorageService.SaveValueFollowsPolicy | services/storageService.ts:29-53 | `saveValue` reports success and writes exactly as the shared save policy decides |
| StorageService.SaveValueKeepsUnique | services/storageService.ts:33-44 | saving trimmed input keeps the stored values unique ignoring case |
| StorageService.SaveValueTwice | services/storageService.ts:29-53 | after saving a trimmed value, saving it again in any case returns false and leaves the store as it is |
| StorageService.WithoutId | services/storageService.ts:57 | the filter never lengthens the list and keeps only entries of the list with another id |
| StorageService.WithoutIdMembers | services/storageService.ts:57 | the filter keeps exactly the entries whose id differs |
| StorageService.WithoutIdAppend | services/storageService.ts:57 | the filter works on each part of the list separately, so the kept entries stay in order |
| StorageService.WithoutIdAbsent | services/storageService.ts:57 | removing an id no entry has changes nothing |
| StorageService.WithoutIdKeepsUnique | services/storageService.ts:57 | removal keeps a duplicate-free list duplicate-free |
| StorageService.RemoveValue | services/storageService.ts:55-64 | removal keeps the kind of store and the config and never lengthens the stored list |
| StorageService.RemoveValueEffect | services/storageService.ts:55-64 | after `removeValue(id)` the list is the old list filtered by id: exactly the old entries with another id, in order, no more of them; config unchanged |
| StorageService.ClearAll | services/storageService.ts:66-72 | after clearing no value reads back, and the kind of store is kept |
| StorageService.ClearAllEffect | services/storageService.ts:66-72 | after `clearAll` no value reads back; the extension store keeps its config; the development slot goes back to the defaults |
| BookmarkService.HasUrl | services/bookmarkService.ts:10 | definition: a node is emitted when its url is present and not empty, as `if (node.url)` tests; used by the contracts of `ToBookmark`, `FlattenedCount` and `FlattenedTitles` |
| BookmarkService.KeepInPath | services/bookmarkService.ts:17 | definition: a folder name is kept when it is not empty, "root" or "Roots"; used by the contracts of `FolderPath` and `FlattenedFolderPathsClean` |
| BookmarkService.FolderPath | services/bookmarkService.ts:17 | the folder path keeps exactly the ancestor names that are not empty, "root" or "Roots" |
| BookmarkService.FolderPathAppend | services/bookmarkService.ts:17 | the path filter keeps the folders' order |
| BookmarkService.FolderPathIdempotent | services/bookmarkService.ts:17 | filtering a filtered path changes nothing |
| BookmarkService.NextPath | services/bookmarkService.ts:22 | the path grows by the node's title, at the end, exactly when the title is not empty |
| BookmarkService.ToBookmark | services/bookmarkService.ts:11-18 | the bookmark keeps the node's id and url; its title is the node's title, or the url when the title is empty; its folder path is the filtered ancestor path; parent id and date added are copied |
| BookmarkService.Flattened | services/bookmarkService.ts:7-27 | reference definition of the flattened forest, without a contract of its own; `FlattenBookmarks` is proved equal to it and `FlattenedIsPreOrder`, `FlattenedCount`, `FlattenedFolderPathsClean` and `FlattenedTitles` state its properties |
| BookmarkService.NodeEntries | services/bookmarkService.ts:10-24 | reference definition of one node's entries, without a contract of its own; `NodeEntriesArePreOrder` and `NodeEntriesCount` state its properties |
| BookmarkService.FlattenedAppend | services/bookmarkService.ts:9-25 | siblings are flattened one after another in input order |
| BookmarkService.FlattenBookmarks | services/bookmarkService.ts:7-27 | the loop with its recursive calls returns exactly the flattened forest |
| BookmarkService.EmittedSoundComplete | services/bookmarkService.ts:10-19 | the bookmarks emitted for a sequence of visits are exactly those of the url-bearing visits |
| BookmarkService.FlattenedIsPreOrder | services/bookmarkService.ts:7-27 | the result is the pre-order walk of the tree with url-less nodes dropped: a node before its descendants, siblings in order |
| BookmarkService.NodeEntriesArePreOrder | services/bookmarkService.ts:9-24 | one node's entries are its own entry followed by its descendants', in pre-order |
| BookmarkService.FlattenedCount | services/bookmarkService.ts:10-19 | the output length equals the number of url-bearing nodes in the forest |
| BookmarkService.NodeEntriesCount | services/bookmarkService.ts:10-23 | one node gives as many entries as it and its descendants have urls |
| BookmarkService.FlattenedFolderPathsClean | services/bookmarkService.ts:17 | every emitted folder path is present and holds no empty, "root" or "Roots" entry |
| BookmarkService.FlattenedTitles | services/bookmarkService.ts:13 | every emitted bookmark comes from a visited url-bearing node, with that node's title, or its url when the title is empty |
| Popup.MatchesTerm | App.tsx:36-37 | definition: the lower-cased title or the lower-cased url includes the already lower-cased term; used by the contracts of `MatchingBookmarks` and `FilteredSoundAndComplete` |
| Popup.MatchingBookmarks | App.tsx:35-37 | the filter keeps exactly the bookmarks whose lowered title or url includes the term |
| Popup.MatchingAppend | App.tsx:35-37 | the filter keeps the bookmarks' order |
| Popup.MatchingEmptyTerm | App.tsx:35-37 | the empty term matches every bookmark |
| Popup.FilteredBookmarks | App.tsx:31-39 | at most 50 results, all among the loaded bookmarks |
| Popup.FilteredIsCappedMatch | App.tsx:31-39 | for every search, including the empty one, the result is the first 50 matches in original order |
| Popup.FilteredEmptySearch | App.tsx:33 | an empty search lists the first min(50, n) bookmarks unchanged |
| Popup.FilteredSoundAndComplete | App.tsx:35-38 | every listed bookmark matches; with fewer than 50 listed, every match is listed |
| Popup.ArrowDownIndex | App.tsx:48 | ArrowDown gives min(prev + 1, len - 1): inside the list when it was and the list is not empty, -1 for an empty list |
| Popup.ArrowUpIndex | App.tsx:51 | ArrowUp gives max(prev - 1, 0): never negative, at most one row up |
| Popup.PopupState.constructor | App.tsx:8-11 | no bookmarks, empty search, first row selected, loading |
| Popup.PopupState.LoadBookmarks | App.tsx:17-22 | the loaded bookmarks replace the empty list and loading ends; search and selection are kept |
| Popup.PopupState.SetSearch | App.tsx:41-43 | a changed search puts the selection back on row 0; the same search keeps it |
| Popup.PopupState.KeyDown | App.tsx:45-58 | arrows move the selection as above and keep it in range; Enter yields the selected row's url exactly when that row exists; other keys change nothing |
| ContentScript.IsSecret | content.js:13-17 | a password field is secret whatever its other attributes |
| ContentScript.AttributeText | content.js:15 | the text searched is the four attributes, each lower-cased, one after another |
| ContentScript.IsEligible | content.js:143 | only an INPUT or TEXTAREA can be eligible, and never a password field |
| ContentScript.KeywordInAttributeIsSecret | content.js:15-16 | a keyword inside any one attribute, in any case, makes the field secret ("monkey" contains "key") |
| ContentScript.SecretIgnoresCase | content.js:15 | the classifier ignores the letter case of the attributes |
| ContentScript.KeywordAcrossAttributes | content.js:15-16 | the attributes are searched as one string, so name "ca" and id "rd" make a field secret |
| ContentScript.MatchesFilter | content.js:110 | definition: the lower-cased value includes the lower-cased filter; used by the contracts of `MatchingValues`, `Suggestions` and `RenderedCases` |
| ContentScript.MatchingValues | content.js:109-110 | the filter keeps exactly the values whose lowered text includes the lowered filter, and never lengthens the list |
| ContentScript.MatchingValuesAppend | content.js:109-110 | the filter keeps the stored order |
| ContentScript.Suggestions | content.js:109-111 | at most 5 suggestions, each a matching stored value; with fewer than 5, every match is suggested |
| ContentScript.SuggestionsEmptyFilter | content.js:106-111 | an empty filter suggests the first five stored values |
| ContentScript.MatchingValuesEmptyFilter | content.js:109-110 | an empty filter matches every value |
| ContentScript.SuggestionsEmptyIffNoMatch | content.js:113 | there are no suggestions exactly when no stored value matches |
| ContentScript.ValuesOf | content.js:118-123 | one dropdown row per match, holding the match's value |
| ContentScript.ScrollLeft | content.js:49 | the horizontal offset is the window's whenever that is not 0, otherwise the root element's; it is 0 only when both are |
| ContentScript.ScrollTop | content.js:50 | the vertical offset is the window's whenever that is not 0, otherwise the root element's; it is 0 only when both are |
| ContentScript.IndicatorAnchor | content.js:53-54 | on an unscrolled page the indicator sits 25 px above the field and 80 px left of its right edge |
| ContentScript.DropdownAnchor | content.js:58-59 | on an unscrolled page the dropdown sits 5 px below the field, at its left edge |
| ContentScript.AnchorsFollowScroll | content.js:47-62 | scrolling moves the field and the offsets by opposite amounts and leaves both anchors in place on the page |
| ContentScript.AnchorsRelativePlacement | content.js:53-60 | the dropdown sits 30 px plus the field's height below the indicator; the indicator's left edge is 80 px less the field's width right of the dropdown's |
| ContentScript.PlaceIndicator | content.js:52-55 | an existing indicator moves to (top + scrollTop - 25, right + scrollLeft - 80) and keeps its visibility; a missing one stays missing |
| ContentScript.PlaceDropdown | content.js:57-61 | an existing dropdown moves to (bottom + scrollTop + 5, left + scrollLeft) and gets the field's width; visibility and rows kept |
| ContentScript.Rendered | content.js:106-125 | rendering needs an existing dropdown, creates none, and keeps its position and width |
| ContentScript.RenderedCases | content.js:106-125 | the dropdown is shown exactly when some stored value matches, then with the suggestions as rows; otherwise hidden with its old rows; position and width kept |
| ContentScript.RenderedRowsMatch | content.js:109-125 | a shown dropdown has 1 to 5 rows, each a stored value containing the filter ignoring case |
| ContentScript.HiddenIndicator | content.js:157 | the grace timer hides an existing indicator in place |
| ContentScript.HiddenDropdown | content.js:158 | the grace timer hides an existing dropdown, keeping its position and rows |
| ContentScript.DecimalString | content.js:87 | `Date.now().toString()` is a non-empty string of decimal digits |
| ContentScript.DecimalRoundTrip | content.js:87 | the digits read back as the time they were made from, so distinct times give distinct ids |
| ContentScript.AfterSave | content.js:79-101 | the stored key is either left as it was or set to exactly the script's new copy |
| ContentScript.AfterSaveCases | content.js:79-101 | a short value changes nothing; a known value only reloads the list; otherwise the trimmed value, stamped with the time and page url, is put in front and written back |
| ContentScript.ContentScript.constructor | content.js:3-6 | no active input, no overlays, no values loaded, no pending timer |
| ContentScript.ContentScript.UpdateUIPosition | content.js:47-62 | each overlay that exists is re-anchored to the field; nothing else changes |
| ContentScript.ContentScript.LoadValues | content.js:67-74 | the copy becomes the stored list, or empty when the key is missing |
| ContentScript.ContentScript.RenderDropdown | content.js:106-138 | the dropdown becomes `Rendered` for the current copy and filter |
| ContentScript.ContentScript.HandleValueSave | content.js:79-101 | the stored key and the copy become what `AfterSave` gives |
| ContentScript.ContentScript.CreateOverlays | content.js:145-146 | a missing indicator or dropdown is created once, hidden and unplaced; an existing one is kept; each has then been created exactly once |
| ContentScript.ContentScript.FocusIn | content.js:141-153 | an INPUT or TEXTAREA that is not secret becomes active; overlays are created at most once, the indicator shown, both positioned, the values reloaded and the dropdown rendered; any other element changes nothing |
| ContentScript.ContentScript.FocusInCancellingHide | content.js:141-160 | corrected listener: as `FocusIn`, and an eligible field also cancels every pending focus-out timer |
| ContentScript.ContentScript.FocusOut | content.js:155-160 | schedules one hide 200 ms later and keeps the active input |
| ContentScript.ContentScript.FireHideTimer | content.js:156-159 | the due hide timer is removed and both existing overlays are hidden |
| ContentScript.ContentScript.Input | content.js:162-172 | on the active input: overlays re-anchored, dropdown re-rendered for the new text, that element's save deadline reset to now + 1000; on any other element nothing changes |
| ContentScript.ContentScript.InputBurst | content.js:164-170 | inputs on the active field less than 1000 ms apart leave one pending save at last + 1000 and store nothing meanwhile |
| ContentScript.ContentScript.Scroll | content.js:174-176 | with an active input both overlays are re-anchored; without one nothing changes |
| ContentScript.ContentScript.FireSaveTimer | content.js:170 | the due timer is removed and `handleValueSave` runs on the element's text as it is at that moment |
| ContentScript.ContentScript.StoreWritten | services/storageService.ts:55-72 | a write by the popup's `removeValue` or `clearAll` replaces the stored key; the script's copy is untouched until its next load |
| ContentScript.ContentScript.SelectSuggestion | content.js:129-136 | the active input takes the row's text; the synthetic input event resets its save timer and re-anchors the overlays; the dropdown ends hidden |
| ContentScript.RefocusHidesNewOverlays | content.js:141-160 | as written, moving the focus straight from one plain field to another leaves the new field active with both overlays hidden 200 ms later |
| ContentScript.RefocusKeepsNewOverlays | content.js:141-160 | with the corrected listener the same move leaves no hide pending and the new field's indicator visible |

Every event method of `ContentScript.ContentScript` also keeps `Valid()`:

- each overlay has been created at most once;
- both overlays exist exactly when a field has been activated;
- no pending timer is overdue.

`Popup.PopupState` keeps the selection at least -1 and at most the index of the last listed row, or at most 0 while nothing is listed. So 0 is allowed over an empty list, and -1 (left by ArrowDown over an empty list) is kept when bookmarks load.

## Left out

- Browser APIs are left out.
  - `chrome.storage`, `chrome.bookmarks`, `chrome.tabs` and `chrome.runtime.sendMessage` are not modelled.
  - The `localStorage` mock and its JSON encoding are not modelled either.
  - Storage is an explicit value.
  - `getBookmarks` is not modelled. It is `flattenBookmarks` over the browser's tree, or a fixed mock list.
  - `openBookmark` is not modelled: `KeyDown` returns the url it would open.
- DOM construction, markup and CSS are not modelled.
  - This covers the indicator's click handler and the 1.5 s "saved" flash after a capture.
  - Only the display flags, positions, widths and row texts are kept.
- `ContentScript.ValuesOf`: each row's text is the stored value itself, both as shown and as selected.
  - The source builds each row by interpolating the value, unescaped, into a `data-value` attribute and into the row's text.
  - A value containing `"` ends the attribute early, so a selection inserts only the part before it; the row still shows the whole value.
  - A value containing `<` can open a tag in the row's text, so the row shows something else; the attribute, and so the selection, keeps the value.
  - A character reference such as `&amp;` is decoded in both places, so it changes both what is shown and what is selected.
  - HTML parsing is not modelled.
- `ContentScript.ContentScript.SelectSuggestion`: the synthetic `input` event is modelled only as it reaches the script's own listener. Host-page listeners are not modelled.
- `ContentScript.ContentScript.FocusIn` runs as one step.
  - In the source, `await loadValues()` yields, so other events can run before the dropdown is rendered.
  - Asynchronous interleaving and the cross-tab last-writer-wins race on storage are not modelled.
- `ContentScript.AfterSave` uses one `now` for both the new entry's id and its timestamp. The source reads `Date.now()` twice, and the two readings can differ by a millisecond.
- `Text.ToLower` maps only the ASCII and Latin-1 capital letters.
  - Every other character is kept, so full Unicode case mapping is not modelled.
  - Case mappings that change length are not modelled either.
- `Text.Utf16Length` counts the characters of a Dafny string, which are Unicode scalar values. A JavaScript string may also hold a lone surrogate, which the model cannot represent.
- Overlay geometry uses whole pixels. The browser's floating-point rectangles and offsets are not modelled.
- `excludeSecrets` and `autoAutocomplete` are read by the storage service only.
  - The content script never consults them: `isSecret` always excludes sensitive fields and suggestions always show.
  - The model follows the code here.
- Attributes are fixed for the lifetime of an element. Changes to a field's attributes while it is focused are not modelled.
- Not part of this model:
  - components/BookmarkItem.tsx and the JSX of App.tsx;
  - the platform test at App.tsx:15;
  - the search box focus timer at App.tsx:26-28;
  - the build scripts (zip-build.js, vite.config.ts, scripts/sync-manifest-version.js).

## Findings

| source | as written | input that shows it | evidently intended | confidence | as-written member | corrected member |
|---|---|---|---|---|---|---|
| services/storageService.ts:33-39 | the existence test lower-cases the untrimmed input, while the stored entry holds the trimmed input | stored "ab", then save " ab": accepted, and "ab" is stored twice | compare the trimmed value, so each value is stored once ignoring case | medium, not executed | ValueStore.InsertDuplicatesPaddedValue | ValueStore.InsertNormalizedKeepsUnique |
| content.js:80-92 | `handleValueSave` makes the same untrimmed comparison before storing `value.trim()` | stored "ab", then a field holding " ab" pauses: "ab" is stored twice | compare the trimmed value | medium, not executed | ValueStore.InsertDuplicatesPaddedValue | ValueStore.InsertNormalizedKeepsUnique |
| content.js:141-160 | `focusout` schedules a hide 200 ms later that no later `focusin` cancels | focus moves from field A straight to field B at time t: at t + 200 B is active but both overlays are hidden | the newly focused field keeps its overlays until it loses the focus | medium, not executed | ContentScript.RefocusHidesNewOverlays | ContentScript.RefocusKeepsNewOverlays |

The operations are modelled as written: `SaveValue` and `HandleValueSave` use `ValueStore.Insert`.

- `ValueStore.InsertNormalized` is the corrected policy.
- `ValueStore.InsertAgreesOnTrimmed` proves that the two policies coincide on every input that has no surrounding white space.
- Under that precondition, `ValueStore.InsertKeepsUnique` and `StorageService.SaveValueKeepsUnique` prove that the as-written operations keep the list unique.

The focus listeners are likewise modelled as written by `ContentScript.ContentScript.FocusIn`. `ContentScript.ContentScript.FocusInCancellingHide` is the corrected listener, and `ContentScript.RefocusKeepsNewOverlays` runs the same focus move through it.
