# Pin tracking map: a verified model of its sequential core

The application shows a map of the barangays of Malolos, Bulacan. Users drop
pins on it. Each pin has a title, assignees and target families, and is
stored in a hosted `pins` table. A visit-logging endpoint records who opened
the page. This project models the parts of the application that are
sequential logic rather than rendering or transport:

- **`PinService`** (`pin_service.dfy`). The mapping between a table row and
  the app's `UserPin` record. `PinStore` is a fake store holding the table as
  a map from id to row. It has the five calls `getAllPins`, `createPin`,
  `updatePin`, `deletePin` and `deleteAllPins`, with their error outcomes.
- **`PinManagement`** (`pin_management.dfy`). The hook that owns the pin list
  and the add-mode flag. It is a class that changes its state only after the
  store call succeeds. Its list edits are append, replace-by-id and
  filter-by-id.
- **`MarkerSync`** (`map_markers.dfy`). The map effect that diffs the marker
  registry (a mutable map from pin id to marker) against the pin list, and
  rebuilds the label data.
- **`MapScreen`** (`map_screen.dfy`). The rest of the map component's
  interaction state:
  - the click handler;
  - the long-press recogniser, with an 800 ms timer, a 5-pixel strict
    tolerance and a `longPressFired` flag;
  - the rename and delete buttons of a popup;
  - the submit and cancel handlers of the dialog it hosts.

  The timer is an explicit event: `BeginPress` arms it and `TimerFires` runs
  its callback.
- **`PinDialog`** (`pin_dialog.dfy`). The add/edit dialog's five form
  fields. They are edited by a shared tag-field key handler, by
  remove-by-index, and by submit, cancel and edit-mode initialisation.
- **`PinPopup`** (`pin_popup.dfy`). The popup markup of a pin: its summary
  texts, its element ids, and HTML escaping as the HTML serialisation
  algorithm does it in text nodes.
- **`DeviceInfo`** (`device_info.dfy`). The user-agent classifier.
- **`LogVisit`** (`log_visit.dfy`). The endpoint that chooses the client IP
  from proxy headers, builds the visit record by object spread, and answers
  with the stored row or a 500.
- **Shared modules.** `PinTypes` holds the pin record. `Wrappers` holds
  `Option`, `Result` and `Outcome`. `JsString` holds the JavaScript string
  built-ins the code uses, each with its own properties: `trim` with the
  ECMAScript white-space set, `includes`, `split(',')[0]`, ASCII
  `toLowerCase`, `join`, and template concatenation.

Coordinates and pixel positions are `real`s that are only copied and
compared. Backend answers are inputs: `failure: Option<string>` is `Some`
when the backend call throws, and `newId` is the id the store generates.
The coordinate text of the popup is produced by a `fixed5` parameter that
stands for `Number.prototype.toFixed(5)`.

## Model

| member | source | states |
|---|---|---|
| PinService.ToPin | src/services/pinService.ts:28-35 | the conversion from a row to the app record. It copies id, title and coordinates, takes `targetFamilies` from `target_families`, and reads a null array as `[]`. Its properties are the lemmas NullReadsAsEmpty, CreateRoundTrip and ToPinLosesOnlyNulls in the next rows: null and empty read alike, and that is all it loses |
| PinService.NullReadsAsEmpty | src/services/pinService.ts:33-34 | a null array column reads back the same as an empty one, for each of the two columns on its own and for both together |
| PinService.ToPinLosesOnlyNulls | src/services/pinService.ts:57-64 | a row whose arrays are present is recovered exactly from its app record and timestamps |
| PinService.CreateRoundTrip | src/services/pinService.ts:41-48 | the insert payload has no id; reading the stored row back gives the draft with the id the store assigned |
| PinService.UpdatePayload | src/services/pinService.ts:71-75 | the update body carries the title and both lists, and never the coordinates. What it does to a row is proved by UpdateKeepsCoordinates |
| PinService.Patch | src/services/pinService.ts:71-76 | writes an update body into the row with that id; a field the body leaves undefined keeps its column. Its properties are proved by UpdateKeepsCoordinates |
| PinService.UpdateKeepsCoordinates | src/services/pinService.ts:71-75 | no update changes a row's id, lng, lat or creation time; each field the payload carries is written as given, and each absent one keeps its column |
| PinService.InsertByAge | src/services/pinService.ts:21 | the ordering step keeps exactly the rows it was given plus the new one |
| PinService.InsertByAgeSorted | src/services/pinService.ts:21 | inserting by creation time keeps the list newest first |
| PinService.InsertByAgeDistinct | src/services/pinService.ts:21 | inserting a row with a new id keeps the ids distinct |
| PinService.DistinctCons | src/services/pinService.ts:21 | a list with a row in front has distinct ids exactly when the row's id is new and the rest's ids are distinct |
| PinService.NewestFirstCons | src/services/pinService.ts:21 | a list with a row in front is newest first exactly when the rest is and no row of the rest is newer than the front |
| PinService.SortedRowsListing | src/services/pinService.ts:17-36 | converting a newest-first list that holds every row of the table exactly once gives a listing of the table: the same ids, distinct, each record converted from its row, newest first |
| PinService.PinStore.GetAllPins | src/services/pinService.ts:17-36 | a backend failure is an error with no list; otherwise it returns one app record per row, newest first, each the conversion of its row, and the table is unchanged |
| PinService.PinStore.CreatePin | src/services/pinService.ts:39-65 | a backend failure or an id already in use leaves the table unchanged and is an error; otherwise exactly the new row is added, stamped with the store's clock, and the returned pin is the draft with that id |
| PinService.PinStore.UpdatePin | src/services/pinService.ts:68-93 | a backend failure, or an id with no row (`.single()` sees zero rows), leaves the table unchanged and is an error; otherwise only that row is patched, coordinates are kept, and the result is the converted new row |
| PinService.PinStore.DeletePin | src/services/pinService.ts:96-106 | on success exactly the row with that id is removed; on failure nothing changes |
| PinService.PinStore.DeleteAllPins | src/services/pinService.ts:109-119 | on success every row except the sentinel id's is removed, and the sentinel row is kept unchanged; on failure nothing changes |
| PinManagement.RemoveById | src/hooks/usePinManagement.ts:62 | `filter(pin => pin.id !== pinId)`. Its contract says only that the list does not grow; what it keeps is proved by the lemmas RemoveByIdMembers, RemoveByIdAppend, RemoveByIdAbsent, RemoveByIdUnique and RemoveByIdIds |
| PinManagement.ReplaceById | src/hooks/usePinManagement.ts:49-53 | same length; each entry whose id is `pinId` becomes the updated pin, and every other entry is unchanged in place |
| PinManagement.RemoveByIdMembers | src/hooks/usePinManagement.ts:62 | the filtered list holds exactly the pins whose id differs from the argument |
| PinManagement.RemoveByIdAppend | src/hooks/usePinManagement.ts:62 | filtering distributes over concatenation, so the kept entries stay in their original order |
| PinManagement.RemoveByIdAbsent | src/hooks/usePinManagement.ts:62 | filtering out an id that does not occur changes nothing |
| PinManagement.RemoveByIdUnique | src/hooks/usePinManagement.ts:62 | with distinct ids, deleting the id at index k is the list without index k |
| PinManagement.RemoveByIdIds | src/hooks/usePinManagement.ts:62 | with distinct ids, the id set loses exactly that id and stays distinct |
| PinManagement.ReplaceByIdIds | src/hooks/usePinManagement.ts:49-53 | replacing with a pin of that id keeps the id set and distinctness |
| PinManagement.ReplaceByIdAbsent | src/hooks/usePinManagement.ts:49-53 | replacing an absent id changes nothing |
| PinTypes.IdsSnoc | src/hooks/usePinManagement.ts:35 | a list with a pin appended has that pin's id added to the list's ids; it has distinct ids exactly when the list does and the id is new |
| PinTypes.IdsCons | src/hooks/usePinManagement.ts:62 | a list with a pin in front has that pin's id added to the rest's ids; it has distinct ids exactly when the rest does and the id is new |
| PinManagement.PinController.constructor | src/hooks/usePinManagement.ts:7-8 | the list starts empty and add mode off |
| PinManagement.PinController.LoadPins | src/hooks/usePinManagement.ts:12-24 | on success the list is replaced by the newest-first listing of the table; on failure it keeps its value |
| PinManagement.PinController.AddPin | src/hooks/usePinManagement.ts:26-40 | the draft carries the trimmed title; on success the new pin is appended after the unchanged old list and add mode goes off; on failure the list, the flag and the table are unchanged; the list stays in step with the table |
| PinManagement.PinController.UpdatePin | src/hooks/usePinManagement.ts:42-57 | the changes carry the trimmed title, both lists and no coordinates; on success every entry with that id becomes the returned pin; on failure nothing changes; the list stays in step with the table |
| PinManagement.PinController.DeletePin | src/hooks/usePinManagement.ts:59-66 | on success every entry with that id is dropped and the store loses that row; on failure nothing changes |
| PinManagement.PinController.ClearAllPins | src/hooks/usePinManagement.ts:68-75 | on success the list is empty, so clearing twice leaves it empty both times; on failure nothing changes |
| PinManagement.PinController.ToggleAddPin | src/hooks/usePinManagement.ts:77-79 | negates add mode and leaves the list alone |
| MarkerSync.PinLabels | src/components/MalolosMap.tsx:250-263 | one label per pin, in pin order, at `[lng, lat]`, with the pin's id and title |
| MarkerSync.Latest | src/components/MalolosMap.tsx:222-247 | the chosen pin exists exactly when the id occurs in the list, and it is a pin of the list with that id |
| MarkerSync.LatestOfDistinct | src/components/MalolosMap.tsx:222-247 | with distinct ids the latest pin with an id is its only pin |
| MarkerSync.LatestStep | src/components/MalolosMap.tsx:222-247 | visiting one more pin adds its id and makes it the latest for that id, leaving the other ids alone |
| MarkerSync.PlacedStep | src/components/MalolosMap.tsx:222-247 | creating or refreshing the marker of one more pin keeps the invariant of the add/update loop |
| MarkerSync.PlacedAfterRemoval | src/components/MalolosMap.tsx:213-247 | removing the entries of vanished ids and then placing every pin leaves exactly one marker per pin id, each showing its latest pin, with old marker objects reused and new ones fresh |
| MarkerSync.ReflectedPopupHasButtons | src/components/MalolosMap.tsx:186-188 | every synced marker's popup carries `id="rename-<id>"`, `id="delete-<id>"` and `id="pin-<id>"` for its registry key, which are the ids the handlers look up |
| MarkerSync.MarkerLayer.constructor | src/hooks/usePinManagement.ts:9 | the marker registry starts empty and no label data has been set |
| MarkerSync.MarkerLayer.RemoveStale | src/components/MalolosMap.tsx:213-219 | the registry keeps exactly its entries whose id is a pin id, unchanged |
| MarkerSync.MarkerLayer.Place | src/components/MalolosMap.tsx:223-246 | an unseen id gets a new marker object at the pin's position with its popup; an existing marker keeps its identity and gets the pin's position and popup |
| MarkerSync.MarkerLayer.AddOrRefresh | src/components/MalolosMap.tsx:221-247 | after the loop every pin id has the marker of its latest pin, other entries are unchanged, old markers keep their identity and new ones are fresh |
| MarkerSync.MarkerLayer.Sync | src/components/MalolosMap.tsx:207-298 | without a map nothing changes; otherwise the registry's key set is the set of pin ids, each marker shows the position and popup of its pin, existing markers are reused, and the label data is replaced by the labels of the pins |
| MapScreen.ToleranceIsStrict | src/components/MalolosMap.tsx:348 | a move of exactly 5 pixels on each axis does not cancel, and any move further on either axis does |
| MapScreen.FindById | src/components/MalolosMap.tsx:191 | a pin is found exactly when the id occurs, and it is the first pin with that id |
| MapScreen.EditData | src/components/MalolosMap.tsx:437-441 | the dialog's initial data is the edited pin's title and both lists. The lemma EditDataResubmits is its partner |
| MapScreen.EditDataResubmits | src/components/MalolosMap.tsx:437-441 | a dialog opened on a pin and submitted untouched emits exactly when the title has visible text. It then emits the pin's lists with the title trimmed, and trimming that title again changes nothing. A pin whose title is already trimmed comes back as its own edit data |
| MapScreen.Screen.constructor | src/components/MalolosMap.tsx:20-39 | the dialog starts closed with nothing pending and no pin being edited; no timer is armed, no press start is recorded and the fired flag is off |
| MapScreen.Screen.Click | src/components/MalolosMap.tsx:304-310 | in add mode the dialog opens with the clicked coordinate pending; otherwise nothing changes |
| MapScreen.Screen.BeginPress | src/components/MalolosMap.tsx:316-333 | any timer is replaced by a newly armed one, the fired flag is cleared, and the start point and start coordinate are recorded (each possibly absent) |
| MapScreen.Screen.EndPress | src/components/MalolosMap.tsx:335-340 | the timer is cancelled and nothing else changes |
| MapScreen.Screen.MoveCancel | src/components/MalolosMap.tsx:342-351 | the timer is cancelled exactly when a start point and a current point exist and the move is beyond the tolerance; nothing else changes |
| MapScreen.Screen.TimerFires | src/components/MalolosMap.tsx:325-332 | an armed timer always sets the fired flag; it opens the dialog at the recorded start coordinate only if add mode was on when it was armed and a start coordinate exists; a cancelled timer does nothing |
| MapScreen.Screen.RenameClicked | src/components/MalolosMap.tsx:190-197 | if a pin with that id exists, the dialog opens editing the first such pin; otherwise nothing changes |
| MapScreen.Screen.DeleteClicked | src/components/MalolosMap.tsx:200-202 | on success every entry with that id leaves the list and its row leaves the table; on failure neither changes; add mode is untouched, and the list stays in step with the table |
| MapScreen.Screen.SubmitDialog | src/components/MalolosMap.tsx:375-387 | with a pin being edited it updates that pin's id and never adds. Otherwise, with pending coordinates, it adds a pin there: on success the list gains the new pin and the table gains its row. With neither, nothing happens. The dialog closes whatever the backend answers, and the list stays in step with the table |
| MapScreen.Screen.SubmitEdit | src/components/MalolosMap.tsx:376-380 | the dialog closes and the editing pin is cleared; the pin with the edited id gets the trimmed title and both lists if the store has it and answers, and nothing else changes in the list or the table |
| MapScreen.Screen.SubmitNew | src/components/MalolosMap.tsx:381-385 | the dialog closes and the pending coordinates are cleared. If the store answers and the new id is unused, a pin with the trimmed title is added at those coordinates: the list gains it at the end, the table gains its row stamped with the store clock, and add mode goes off. Otherwise nothing changes |
| MapScreen.Screen.CancelDialog | src/components/MalolosMap.tsx:389-393 | the dialog is closed and both the pending coordinates and the editing pin are cleared |
| MapScreen.HeldPressOpensDialog | src/components/MalolosMap.tsx:316-351 | in add mode, a press held within the tolerance until the timer runs fires once and opens the dialog at the press coordinate |
| MapScreen.HeldPressOutsideAddMode | src/components/MalolosMap.tsx:325-327 | outside add mode a held press only sets the fired flag |
| MapScreen.DragCancelsPress | src/components/MalolosMap.tsx:342-351 | a drag that once leaves the tolerance cancels the press: the timer never fires and the dialog stays closed |
| MapScreen.TapDoesNotFire | src/components/MalolosMap.tsx:335-340 | a press released before the timer runs never fires |
| MapScreen.PressAfterLongPress | src/components/MalolosMap.tsx:317-321 | a new press after a fired one clears the flag and arms a fresh timer |
| PinDialog.KeyDown | src/components/AddPinDialog.tsx:62-73 | the shared tag-field key handler: Enter or `,` commits the trimmed input, and Backspace on an empty input drops the last tag. Its properties are the lemmas BackspaceUndoesCommit, CommitIdempotent, KeyDownKeepsValid and CommittedTagIsTrimmed |
| PinDialog.DropIndex | src/components/AddPinDialog.tsx:75-77 | an in-range index is cut out and the rest keep their order; an out-of-range index leaves the list unchanged |
| PinDialog.BackspaceUndoesCommit | src/components/AddPinDialog.tsx:63-71 | Backspace right after a successful commit restores the list |
| PinDialog.CommitIdempotent | src/components/AddPinDialog.tsx:63-69 | committing twice in a row is the same as committing once: the second commit sees an empty input and changes nothing |
| PinDialog.DropLastIsBackspace | src/components/AddPinDialog.tsx:70-77 | removing the last index is what Backspace does to the list |
| PinDialog.DropIndexRemovesOne | src/components/AddPinDialog.tsx:75-77 | an in-range removal takes out exactly one occurrence of that entry |
| PinDialog.KeyDownKeepsValid | src/components/AddPinDialog.tsx:65-67 | every key keeps a list free of empty entries and duplicates |
| PinDialog.DropIndexKeepsValid | src/components/AddPinDialog.tsx:75-77 | removing an entry keeps the list free of empty entries and duplicates |
| PinDialog.CommittedTagIsTrimmed | src/components/AddPinDialog.tsx:65-67 | a committed tag has no white space at either end |
| PinDialog.Submission | src/components/AddPinDialog.tsx:35-43 | what submit hands to `onSubmit`. Its partner is SubmissionIff |
| PinDialog.SubmissionIff | src/components/AddPinDialog.tsx:37-43 | something is emitted exactly when the title has a non-white-space character; the title emitted is the trimmed title, non-empty, with both lists as they are |
| PinDialog.PinForm.constructor | src/components/AddPinDialog.tsx:18-22 | all five fields start empty |
| PinDialog.PinForm.SetTitle | src/components/AddPinDialog.tsx:123 | the title becomes the typed text and nothing else changes |
| PinDialog.PinForm.SetAssigneeInput | src/components/AddPinDialog.tsx:159 | the assignee input becomes the typed text and nothing else changes |
| PinDialog.PinForm.SetFamilyInput | src/components/AddPinDialog.tsx:198 | the family input becomes the typed text and nothing else changes |
| PinDialog.PinForm.AssigneeKeyDown | src/components/AddPinDialog.tsx:62-73 | the assignee field follows the shared key handling and nothing else changes |
| PinDialog.PinForm.FamilyKeyDown | src/components/AddPinDialog.tsx:79-90 | the family field follows the same key handling as the assignee field |
| PinDialog.PinForm.RemoveAssignee | src/components/AddPinDialog.tsx:75-77 | the assignee list loses that index and nothing else changes |
| PinDialog.PinForm.RemoveFamily | src/components/AddPinDialog.tsx:92-94 | the family list loses that index and nothing else changes |
| PinDialog.PinForm.Submit | src/components/AddPinDialog.tsx:35-51 | with a blank title nothing is emitted and nothing changes; otherwise the submission is emitted and all five fields are reset |
| PinDialog.PinForm.Cancel | src/components/AddPinDialog.tsx:53-60 | all five fields are reset |
| PinDialog.PinForm.InitFromEdit | src/components/AddPinDialog.tsx:27-33 | in edit mode with initial data, the title and both lists are taken from it; otherwise nothing changes |
| PinPopup.EscapeHtml | src/utils/pinUtils.ts:3-7 | the escaped text contains no `<` or `>` and is at least as long as the input |
| PinPopup.EscapeRoundTrip | src/utils/pinUtils.ts:3-7 | unescaping the escaped text gives the text back, so escaping loses nothing |
| PinPopup.EscapePlain | src/utils/pinUtils.ts:3-7 | text without `&`, `<`, `>` or no-break space is written as it is |
| PinPopup.SummaryText | src/utils/pinUtils.ts:10-11 | a non-empty list joined with `", "`, else the placeholder. Its partner is SummaryTextShows |
| PinPopup.SummaryTextShows | src/utils/pinUtils.ts:10-11 | an empty list shows its placeholder (`None assigned` or `No target families`); otherwise every entry appears in the text, and a single entry is shown as it is |
| PinPopup.PopupHtml | src/utils/pinUtils.ts:13-28 | the popup template concatenated from its pieces. Its partner is PopupShows |
| PinPopup.PopupShows | src/utils/pinUtils.ts:13-28 | the popup contains `id="pin-<id>"`, `id="rename-<id>"`, `id="delete-<id>"`, and the escaped title and both escaped summaries |
| DeviceInfo.GetDeviceInfo | src/utils/deviceUtils.ts:7-51 | the device type, browser and os of the lower-cased user agent, as written. Its properties are the lemmas DependsOnLowerCase, IpadNeverTablet, EdgeNotChrome, OsPrecedence and NoKeywordDefaults, and the three findings below |
| DeviceInfo.DependsOnLowerCase | src/utils/deviceUtils.ts:8 | the result depends only on the lower-cased user agent |
| DeviceInfo.IpadNeverTablet | src/utils/deviceUtils.ts:12-14 | a user agent containing "ipad" is `mobile`, never `tablet` |
| DeviceInfo.EdgeNotChrome | src/utils/deviceUtils.ts:20 | a user agent containing "edge" is never `chrome` |
| DeviceInfo.EdgeHasEdg | src/utils/deviceUtils.ts:20-27 | a user agent containing "edge" contains "edg", which the `chrome` test excludes |
| DeviceInfo.OsPrecedence | src/utils/deviceUtils.ts:33-44 | windows before mac before the rest; "linux" is never `android` and "mac" is never `ios` |
| DeviceInfo.NoKeywordDefaults | src/utils/deviceUtils.ts:11-44 | a user agent with no keyword is `desktop` / `unknown` / `unknown` |
| DeviceInfo.IphoneReportedAsMac | src/utils/deviceUtils.ts:36-43 | an iPhone user agent, which says "like Mac OS X", is reported as `macos` |
| DeviceInfo.AndroidReportedAsLinux | src/utils/deviceUtils.ts:38-41 | an Android user agent, which says "Linux; Android", is reported as `linux` |
| DeviceInfo.ChromiumEdgeReportedUnknown | src/utils/deviceUtils.ts:20-30 | Chromium-based Edge ("Chrome/ … Safari/ … Edg/") is reported as `unknown` |
| DeviceInfo.CorrectedClassifies | src/utils/deviceUtils.ts:19-44 | the corrected classifier reports iPhone and iPad as `ios`, Android as `android` and every Edge as `edge`; it agrees with the original wherever those keywords are absent |
| LogVisit.ResolveIp | src/app/api/log-visit/route.ts:10-12 | the client IP chosen from the two headers. Its properties are the lemmas ForwardedFirstEntry and EmptyIpIff |
| LogVisit.ForwardedFirstEntry | src/app/api/log-visit/route.ts:10-12 | with a non-empty `x-forwarded-for` the IP is its untrimmed text before the first comma, and the whole header when there is no comma |
| LogVisit.EmptyIpIff | src/app/api/log-visit/route.ts:12 | the IP is empty exactly when the forwarded header starts with a comma; with no headers it is "unknown" |
| LogVisit.Decimal | src/app/api/log-visit/route.ts:16 | an index key is a non-empty numeral, with at least two digits from 10 on |
| LogVisit.DecimalInjective | src/app/api/log-visit/route.ts:16 | distinct indexes spread under distinct keys |
| LogVisit.SpreadEntries | src/app/api/log-visit/route.ts:16 | spreading an object copies its fields; `undefined`, `null`, booleans and numbers contribute nothing |
| LogVisit.SpreadIndexed | src/app/api/log-visit/route.ts:16 | an array or string spreads each element under its decimal index and nothing else |
| LogVisit.LocationData | src/app/api/log-visit/route.ts:15-18 | the client location spread, with `ip_address` set last. Its partner is LocationDataKeeps |
| LogVisit.LocationDataKeeps | src/app/api/log-visit/route.ts:15-18 | `ip_address` is the resolved IP, overriding any client value; every other client key is kept with its value, and no other key is added |
| LogVisit.BuildVisit | src/app/api/log-visit/route.ts:20-29 | the visit record built from the body and the headers. Its partners are IpFromHeadersOnly and LocationDataKeeps |
| LogVisit.IpFromHeadersOnly | src/app/api/log-visit/route.ts:10-29 | the record's IP depends on the headers only: it is the resolved IP whatever the body says, and the location data carries the same IP |
| LogVisit.Post | src/app/api/log-visit/route.ts:4-41 | the route's reply and the record it sends for insertion. Its partner is PostOutcome |
| LogVisit.PostOutcome | src/app/api/log-visit/route.ts:4-41 | the reply is 200 exactly when the body was read and the insert succeeded; a 200 body has exactly the keys `success` (true) and `data`, which is the stored row; otherwise the reply is the 500 with `success: false`; a record is sent exactly when the body was read, and it is the one built from the body and headers |
| JsString.Trim | src/hooks/usePinManagement.ts:29 | `trim` removes white space only from the two ends, and leaves none at either end |
| JsString.TrimIdempotent | src/components/AddPinDialog.tsx:37-40 | trimming an already trimmed title changes nothing, so the dialog's trim and the hook's trim agree |
| JsString.TrimEmptyIff | src/components/AddPinDialog.tsx:37 | a text trims to empty exactly when it is all white space |
| JsString.IncludesIff | src/utils/deviceUtils.ts:20 | `includes` finds a text exactly when it occurs at some index |
| JsString.ToLower | src/utils/deviceUtils.ts:8 | lower-casing maps each character and keeps the length |
| JsString.BeforeFirst | src/app/api/log-visit/route.ts:12 | the first segment is a prefix with no separator, followed by the separator unless it is everything |
| JsString.JoinIncludes | src/utils/pinUtils.ts:10-11 | every element appears in the joined text |
| JsString.ConcatIncludes | src/utils/pinUtils.ts:13-28 | every piece of a template appears in the whole |

## Left out

- Map initialisation, GeoJSON boundary loading, layer styling and hover state. These are Mapbox calls and network I/O. Markers are the values `(handle, position, popupHtml)`, and the label layer is the label data it shows.
- The hosted database transport. Only the effect of each call on an abstract table is modelled. `visitService` is modelled only as the outcome of its insert, which is passed to `LogVisit.Post`.
- Browser-side visit logging (`useVisitLogger`, `VisitLogger`), because it reads `navigator`, `window` and `screen` and calls `fetch`.
- Rendering components and JSX markup: the pin list, the barangay panel, the floating button, and the dialog's markup.
- `toFixed(5)` formatting is the `fixed5` parameter of `PinPopup.PopupHtml`. Its digits are not modelled.
- DOM wiring. `getElementById` lookups and the binding of `onclick` handlers are modelled as the rename and delete handlers plus the fact that the popup carries those ids. Not modelled: the `'open'` listeners that pile up on a popup at each sync, and the cursor reset in the click handler.
- Asynchrony and React closure semantics. Every handler runs atomically and in order. One exception is kept: the long-press timer remembers the add mode of the press that armed it.
- Real time. `setTimeout` and `clearTimeout` become an explicit fire event, and the 800 ms threshold is the constant `LongPressMs`.
- `generatePinId`, `loadPinsFromStorage` and `savePinsToStorage`, because they rely on the clock, randomness, `localStorage` and JSON parsing.
- Unicode case mapping. `toLowerCase` is modelled on ASCII letters only.
- The database's own `updated_at` maintenance. `Patch` does not advance `updated_at`.
- JSON object key order in the visit record. A map is used.
- Console logging in every `catch`.
- `MarkerSync.MarkerLayer.Sync` takes the popup renderer as a parameter, `render`. The map passes `MarkerSync.PopupRenderer(fixed5)`, which is what `MarkerSync.ReflectedPopupHasButtons` assumes.
- `MapScreen.Screen.TimerFires` runs only an armed timer. A cancelled timer's callback never runs, so it is modelled as doing nothing.
- LogVisit.SpreadEntries: a string is spread one entry per Dafny character, which is a Unicode scalar value. JavaScript spreads a string by UTF-16 code unit, so a character outside the Basic Multilingual Plane gives one entry here and two there, and later indexes shift.
- `longPressFiredRef` is written and never read by the component. The model keeps the flag and proves when it is set, but nothing depends on it. For example, a click that follows a long press in add mode still happens.

## Findings

| source | as written | input that shows it | evidently intended | confidence | as-written member | corrected member |
|---|---|---|---|---|---|---|
| src/utils/deviceUtils.ts:36-43 | "mac" is tested before the iPhone/iPad keywords | any iPhone user agent, e.g. `Mozilla/5.0 (iPhone; CPU iPhone OS 17_0 like Mac OS X) …`, is reported as `macos`, so the `ios` branch is never reached for it | `ios` | medium, not executed | DeviceInfo.IphoneReportedAsMac | DeviceInfo.CorrectedClassifies |
| src/utils/deviceUtils.ts:38-41 | "linux" is tested before "android" | any Android user agent, e.g. `Mozilla/5.0 (Linux; Android 14; Pixel 8) …`, is reported as `linux` | `android` | medium, not executed | DeviceInfo.AndroidReportedAsLinux | DeviceInfo.CorrectedClassifies |
| src/utils/deviceUtils.ts:20-30 | Edge is excluded from `chrome` by "edg" but then recognised only by "edge" | Chromium-based Edge, `… Chrome/120.0.0.0 Safari/537.36 Edg/120.0.0.0`, falls through every branch to `unknown` | `edge` | high, not executed | DeviceInfo.ChromiumEdgeReportedUnknown | DeviceInfo.CorrectedClassifies |

The corrected classifier is `DeviceInfo.GetDeviceInfoCorrected`. `DeviceInfo.GetDeviceInfo` models the code as written.
