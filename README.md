# Classroom administration: a verified model of the data layer

The application is a single administration screen for classroom records (code,
name, capacity, room type, manager). Its logic sits in three places, and this
project models each in Dafny:

- **The domain service** (`classroomService.ts`). It keeps a module-level list
  of records that mirrors one local-storage slot. `validateClassroom` reports
  the first failing field. `isDuplicateName` tests name uniqueness, optionally
  excluding one id. `addClassroom`, `updateClassroom` and `deleteClassroom`
  read the list, check it, and write the whole new list back through
  `saveClassrooms`. Module `ClassroomService` first states each step as a
  function (`AddStep`, `UpdateStep`, `DeleteStep`) from the list before to a
  result and the list after. Class `ClassroomStore` holds the cached list and
  the durable slot as fields, and its methods perform the same steps on them.
- **The state controller** (`useClassroomModel.ts`). It holds a record
  `{classrooms, loading, error}` and four effects. Class `ClassroomModel`
  keeps that record in one field, as the hook keeps it in one `useState`. Its
  methods apply the same `setState` updates in the same order. The awaited
  service result is a parameter. Module `ClassroomFlows` connects the
  controller to `ClassroomStore`: after fetch, add and delete, the controller's
  copy of the list still equals the service's list. After update this holds
  only while ids are unique, because the service replaces the first record
  with the id and the controller every one.
- **The list screen** (`ClassroomList.tsx`). It has the search/type filter and
  the add/edit modal. The filter is a function. The modal's two state
  variables are fields of class `ClassroomList`.

Shared list operations (`filter`, `findIndex`, `map` by id) are recursive
functions in `ClassroomSeqs`, each stated with what it means. `ClassroomTypes`
holds the record type and the room types.

Decisions the code forces, which differ from a first reading:

- `updateClassroom` validates the partial input exactly as it is given, not
  the record merged with it. So an update must carry every field. Once the
  input is valid, the old record adds nothing to the merge
  (`OverlayOfValidInput`, `UpdateStoresInput`). A design that validates the
  merged record would let partial updates through. This model follows the
  code.
- A capacity of 0 is reported as missing, because the falsiness test comes
  first. Only a negative capacity gets "must be greater than 0".
- An empty `excludeId` excludes nobody. So a record whose id is the empty
  string cannot keep its own name on update.
- The service replaces only the first record with the id. The controller
  replaces every record with the id. The two agree only while ids are unique.
  The id is taken as given, with no freshness check, so ids stay unique only
  if the caller passes an unused one.
- The delete guard looks only at the first record with the id, but every
  record with that id is then removed. With a repeated id, a record of 30 or
  more seats can be deleted (`DeleteGuardMissesRepeatedId`).
- The duplicate test on update skips every record with the id, but only the
  first of them is replaced. With a repeated id, an update can give the first
  record the name of the second and succeed, leaving two records with one name
  (`UpdateOnRepeatedIdDuplicatesName`). This is why `UpdateKeepsNamesUnique`
  needs unique ids.

Inputs that are parameters here: the new record's id (the source draws it at
random); whether the storage write succeeds (`writeOk`); the form values and
whether form validation passed; the awaited result of each service call as
the controller sees it; and `toLowerCase` (`lower`).

## Model

| member | source | states |
|---|---|---|
| `ClassroomTypes.RoomType.Label` | src/models/classroom.ts:1 | the three room-type labels the application stores and compares, character for character |
| `ClassroomTypes.ParseRoomType` | src/services/classroomService.ts:136 | only the three room-type labels are accepted, each read back as its own type |
| `ClassroomTypes.ParseLabel` | src/models/classroom.ts:1 | reading a room type's label gives back that room type |
| `ClassroomSeqs.FindIndex` | src/services/classroomService.ts:50 | -1 exactly when no record has the id; otherwise a position holding the id with none before it |
| `ClassroomSeqs.Filter` | src/services/classroomService.ts:95 | the result is a subsequence of the list; each accepted element occurs in it as often as in the list, and no rejected element occurs |
| `ClassroomSeqs.FilterConcat` | src/services/classroomService.ts:95 | filtering a concatenation is the concatenation of the filtered parts |
| `ClassroomSeqs.FilterKeepsAll` | src/components/ClassroomList.tsx:175 | a filter that accepts every element returns the list unchanged |
| `ClassroomService.RemoveUniqueId` | src/services/classroomService.ts:95 | with unique ids, removing by the id of one position removes only that position |
| `ClassroomSeqs.SubsequenceKeepsUnique` | src/services/classroomService.ts:95 | removing records cannot make two ids (or names) equal |
| `ClassroomSeqs.RemoveById` | src/services/classroomService.ts:95 | every record with the id is removed; every other record stays, in order and as often as it occurred; a list without the id is unchanged |
| `ClassroomSeqs.ReplaceById` | src/models/useClassroomModel.ts:55 | the same length; each position with the id holds the new record, every other position is unchanged |
| `ClassroomSeqs.ReplaceFirstIsReplaceAll` | src/models/useClassroomModel.ts:55 | with unique ids, the service's replace-first-index equals the controller's replace-every-match |
| `ClassroomSeqs.ReplaceFirstDiffersOnDuplicateIds` | src/services/classroomService.ts:74 | with two records sharing an id, replace-first and replace-every-match give different lists |
| `ClassroomService.Failure.Message` | src/services/classroomService.ts:17-138 | the exact text of every error the service throws or returns, one per failure |
| `ClassroomService.Validate` | src/services/classroomService.ts:102-141 | no failure exactly when every field rule holds; otherwise a failure that explains the input, for the first failing field in the order code, name, manager, capacity, type |
| `ClassroomService.ZeroCapacityIsMissing` | src/services/classroomService.ts:125-127 | capacity 0 gives the "missing capacity" failure |
| `ClassroomService.NegativeCapacityIsNotPositive` | src/services/classroomService.ts:128-130 | a negative capacity gives the "must be greater than 0" failure |
| `ClassroomService.MessagesIdentifyFailures` | src/services/classroomService.ts:104-138 | no two failures share a message, so the message alone identifies the failure |
| `ClassroomService.IsDuplicateName` | src/services/classroomService.ts:143-145 | true exactly when some record has exactly that name and the exclusion is absent, empty, or a different id |
| `ClassroomService.NewRecord` | src/services/classroomService.ts:34-37 | the new record carries exactly the input's fields and the given id |
| `ClassroomService.Overlay` | src/services/classroomService.ts:66-70 | the merged record has the given id; each field the input carries is the input's, each field it omits is the old record's |
| `ClassroomService.OverlayOfValidInput` | src/services/classroomService.ts:66-70 | once the input is valid, merging it over the old record gives the input's fields and the id, whatever the old record was |
| `ClassroomService.SaveStep` | src/services/classroomService.ts:12-19 | the new list is current exactly when the write succeeds; a failed write keeps the old list and reports the storage failure |
| `ClassroomService.AddStep` | src/services/classroomService.ts:21-46 | validation comes before the duplicate test; any failure keeps the list; success appends exactly the new record, which is also the result |
| `ClassroomService.UpdateStep` | src/services/classroomService.ts:48-80 | not-found, then validation of the partial input, then the duplicate test excluding the id, then a failed write reports the storage failure; any failure keeps the list; success keeps the length and changes only the first index with the id |
| `ClassroomService.DeleteStep` | src/services/classroomService.ts:82-100 | not-found, then the guard on the first matching record (30 seats or more), then a failed write reports the storage failure; any failure keeps the list; success removes every record with the id |
| `ClassroomService.AddStoresInput` | src/services/classroomService.ts:34-42 | a valid, non-duplicate add with a successful write stores the input's fields under the new id as the last record |
| `ClassroomService.AddKeepsNamesUnique` | src/services/classroomService.ts:29-32 | add keeps names unique across the list |
| `ClassroomService.AddKeepsIdsUnique` | src/services/classroomService.ts:34-40 | add with an unused id keeps ids unique |
| `ClassroomService.UpdateKeepingOwnName` | src/services/classroomService.ts:61-64 | a record with a non-empty id may keep its own name on update |
| `ClassroomService.UpdateWithEmptyIdRejectsOwnName` | src/services/classroomService.ts:144 | with the empty id, the record's own name counts as a duplicate |
| `ClassroomService.UpdateKeepsIdsUnique` | src/services/classroomService.ts:66-74 | update keeps ids unique |
| `ClassroomService.UpdateKeepsNamesUnique` | src/services/classroomService.ts:61-74 | with unique ids, update keeps names unique |
| `ClassroomService.UpdateOnRepeatedIdDuplicatesName` | src/services/classroomService.ts:61-74 | with two records sharing an id, an update giving the first the second's name succeeds and leaves the names not unique |
| `ClassroomService.UpdateStoresInput` | src/services/classroomService.ts:56-70 | a successful update stores exactly the input's fields under the given id |
| `ClassroomService.DeleteKeepsUnique` | src/services/classroomService.ts:95 | delete keeps ids unique and names unique |
| `ClassroomService.DeleteRemovesGuardedRecord` | src/services/classroomService.ts:84-95 | with unique ids, a successful delete removes exactly the guarded record, which had fewer than 30 seats |
| `ClassroomService.DeleteGuardMissesRepeatedId` | src/services/classroomService.ts:89-95 | with a repeated id, a record of 30 or more seats is removed |
| `ClassroomService.CreateDuplicateDeleteScenario` | src/services/classroomService.ts:21-100 | creating "Room A" succeeds, a second "Room A" fails as a duplicate, deleting the first leaves an empty list |
| `ClassroomService.ClassroomStore.constructor` | src/services/classroomService.ts:6 | the cache starts as the stored list |
| `ClassroomService.ClassroomStore.GetClassrooms` | src/services/classroomService.ts:8-10 | returns the current list unmodified |
| `ClassroomService.ClassroomStore.SaveClassrooms` | src/services/classroomService.ts:12-19 | the slot and the cache take the new list only when the write succeeds |
| `ClassroomService.ClassroomStore.AddClassroom` | src/services/classroomService.ts:21-46 | result and new list are those of `AddStep`; cache and slot stay consistent |
| `ClassroomService.ClassroomStore.UpdateClassroom` | src/services/classroomService.ts:48-80 | result and new list are those of `UpdateStep`; cache and slot stay consistent |
| `ClassroomService.ClassroomStore.DeleteClassroom` | src/services/classroomService.ts:82-100 | result and new list are those of `DeleteStep`; cache and slot stay consistent |
| `ClassroomController.MessageOf` | src/models/useClassroomModel.ts:22 | an `Error` is reported by its own message, any other thrown value by the effect's fallback text |
| `ClassroomController.ClassroomModel.constructor` | src/models/useClassroomModel.ts:7-11 | empty list, not loading, no error |
| `ClassroomController.ClassroomModel.Start` | src/models/useClassroomModel.ts:15 | loading, error cleared, list untouched (the first update of every effect) |
| `ClassroomController.ClassroomModel.Fail` | src/models/useClassroomModel.ts:39-43 | not loading, error is the thrown message or the fallback, list untouched |
| `ClassroomController.ClassroomModel.FetchClassrooms` | src/models/useClassroomModel.ts:13-26 | success replaces the list; failure keeps it and records the message; no rethrow |
| `ClassroomController.ClassroomModel.HandleAddClassroom` | src/models/useClassroomModel.ts:28-47 | success appends the returned record; failure keeps the list, records the message and rethrows |
| `ClassroomController.ClassroomModel.HandleUpdateClassroom` | src/models/useClassroomModel.ts:49-68 | success replaces every entry with the id; failure keeps the list, records the message and rethrows |
| `ClassroomController.ClassroomModel.HandleDeleteClassroom` | src/models/useClassroomModel.ts:70-89 | success removes every entry with the id; failure keeps the list, records the message and rethrows |
| `ClassroomController.ClassroomModel.SetClassrooms` | src/models/useClassroomModel.ts:91-93 | only the list changes |
| `ClassroomController.ClassroomModel.SetLoading` | src/models/useClassroomModel.ts:95-97 | only the loading flag changes |
| `ClassroomController.ClassroomModel.SetError` | src/models/useClassroomModel.ts:99-101 | only the error changes |
| `ClassroomFlows.OutcomeOf` | src/services/classroomService.ts:24-27 | a service failure reaches the controller as an `Error` carrying its message |
| `ClassroomFlows.RecordedErrorNamesFailure` | src/models/useClassroomModel.ts:38-43 | the error the controller records after a service failure identifies that failure |
| `ClassroomFlows.FetchFlow` | src/models/useClassroomModel.ts:13-17 | after fetch the controller's list is the service's list |
| `ClassroomFlows.AddFlow` | src/models/useClassroomModel.ts:28-36 | a controller list equal to the service's stays equal after add; the error is the failure's message |
| `ClassroomFlows.UpdateFlow` | src/models/useClassroomModel.ts:49-57 | with unique ids, a controller list equal to the service's stays equal after update |
| `ClassroomFlows.DeleteFlow` | src/models/useClassroomModel.ts:70-78 | a controller list equal to the service's stays equal after delete |
| `ClassroomListScreen.Includes` | src/components/ClassroomList.tsx:177-178 | `includes` holds exactly when the part occurs at some position of the text |
| `ClassroomListScreen.Matches` | src/components/ClassroomList.tsx:176-180 | a record matches exactly when the lowered search text occurs in its lowered code or name, and the type filter is "all" or its type |
| `ClassroomListScreen.FilteredClassrooms` | src/components/ClassroomList.tsx:175-181 | an order-keeping subsequence of the list; a matching record is kept as often as it occurs, and no other record is kept |
| `ClassroomListScreen.NoCriteriaShowsAll` | src/components/ClassroomList.tsx:175-181 | empty search text and "all" types show the whole list |
| `ClassroomListScreen.SubmissionFor` | src/components/ClassroomList.tsx:77-81 | submit updates the edited record under its id, and adds when nothing is being edited |
| `ClassroomListScreen.ClassroomList.constructor` | src/components/ClassroomList.tsx:36-37 | the modal starts closed, with nothing being edited |
| `ClassroomListScreen.ClassroomList.ShowModal` | src/components/ClassroomList.tsx:55-65 | the modal opens, editing the given record or creating when none is given |
| `ClassroomListScreen.ClassroomList.HandleAddClick` | src/components/ClassroomList.tsx:67-70 | the modal opens for a new record |
| `ClassroomListScreen.ClassroomList.HandleModalOk` | src/components/ClassroomList.tsx:72-90 | makes the call `SubmissionFor` names when the form is valid; closes only after a successful call, otherwise the modal state is unchanged |
| `ClassroomListScreen.ClassroomList.HandleModalCancel` | src/components/ClassroomList.tsx:92-96 | closed with nothing being edited, from any state |

## Left out

- Serialisation and local storage itself: the slot is the field `persisted`. A
  failed write is the parameter `writeOk`. JSON encoding and the import-time
  parse are not modelled.
- Id generation with `Math.random().toString(36)`: the id is a parameter.
  Uniqueness of ids is a precondition where a lemma needs it.
- Promises and `async`: each call runs to completion. Interleaved calls and
  stale `prev` states are out of scope. In the `ClassroomFlows` methods the
  service step runs before the whole controller effect. In the source the
  controller's first update comes first, but the service does not read or
  write the controller's state.
- React hooks, `useEffect` and its `mounted` flag, antd notifications, the
  form's own staged values (`setFieldsValue`, `resetFields`), and `console`
  output: these have no behaviour of their own to state.
- `handleDelete` and `handleSearch`/`handleTypeChange` in the list screen:
  they only forward to the delete effect, or set the filter inputs, and show
  a notification.
- Table sorters (`localeCompare`), pagination and all rendering.
- `toLowerCase` is an uninterpreted parameter. `NoCriteriaShowsAll` assumes
  only that it maps the empty string to itself.
- String lengths count Unicode characters. JavaScript counts UTF-16 code
  units, so a name with characters outside the Basic Multilingual Plane is
  measured differently.
- JavaScript numbers: capacity is an unbounded integer, so NaN and fractions
  do not arise. The falsiness test on capacity therefore fires only for an
  absent value or 0.
- `ClassroomForm.tsx`, the page, its route configuration and the locale
  strings: declarative form rules, layout and string tables.
