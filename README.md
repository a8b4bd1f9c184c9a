# Event Exchange Platform — a verified model of its core

The Event Exchange Platform lets a company publish events and let employees
sign up with guests. It also manages project membership, gates file downloads
and offers a floor-plan editor for seating. This project models the parts of
it that carry real rules, and proves properties of them:

- **Capacity-constrained participation** (`EventService`,
  `ParticipationRepository`). An event's occupancy is the sum of
  guestCount + 1 over its participations, optionally without one of them.
  Single adds, updates, deletions, all-or-nothing batch adds and capacity
  changes are methods of the class `EventServiceImpl`, which holds the events,
  employees and participations as fields. Every successful operation keeps the
  occupancy of each event within its capacity (`WithinCapacity`). A failing
  operation leaves the state as it was, since the transaction rolls back.
- **Read-side rules**:
  - the confirmed-participant count and the upcoming/completed status
    (`EventMapper`);
  - the admin-only participation listings (`ParticipationMapper`,
    `EmployeeMapper`), where the caller's admin flag is a parameter;
  - the download rule for files (`FileSecurity`).
- **Project membership** (`ProjectService`). Adding means set union and
  removing means set difference, each guarded by "every requested employee is
  found". `ProjectServiceImpl` is a class whose map of projects the methods
  update.
- **Two encoders.** The Postgres array literal `{A,B}` for dietary
  preferences, decoded the way the Java code does it: `String.split`, the
  quote-stripping regular expression and `StringUtils.isBlank` are written out.
  The other is the one-line address formatter.
- **The floor-plan editor's reducer** (`CanvasReducer`). The reducer is a
  function over the element list, the groups and the nested undo/redo history.
  Duplication is a method whose loops are proved equal to a specification of
  the copies, the id table and the new selection.

Clock readings, database-generated ids and `uuidv4` become parameters or
fields: `now`, the service's `nextId`, and the fresh id of each duplication
request. Exceptions become `Result`/`Outcome` values. Java `null` becomes
`Option`.

How the source is read where its parts disagree or are missing:

- The service calls `event.getParticipantCount(exclude)`, which `Event.java`
  in this revision does not define. The model uses the `sumGuestCounts` query
  (`ParticipationRepository.java:18-22`) for it.
- `addParticipant` looks the employee up before the event, so a missing
  employee wins over a missing event. Nothing rejects a negative guest count,
  and nothing rejects a second participation of the same employee in the same
  event. The model keeps all three points as the code has them.
- In a batch, every employee is looked up before the capacity is checked. So
  a missing employee is reported even for a batch that would not fit.
- A rejected update reports capacity − occupancy(excluding itself) −
  (old guest count + 1). That equals capacity − occupancy including the
  participation: the seats currently free in the event. It is not the seats
  the participation could take (`UpdateRejectionReportsFreeSeats`).
- A lookup by (employee, event) that matches more than one row throws in
  Spring Data. That is `NonUniqueResult` here, because no duplicate check
  prevents such rows.
- `EmployeeMapper.map(List<Participation>)` calls a seven-argument
  participation DTO constructor, but the DTO class in this revision has
  thirteen fields. The model gives that mapping its own seven-field row, which
  matches the employee participation type of the frontend
  (`frontend/src/types/employee.ts`).
- The `DietaryPreference` enum's source file is not part of this model. Its
  constant names come from the frontend type (`frontend/src/types/employee.ts`).
- `findByIdIn` returns the rows in an order the database chooses. The model
  returns them in request order, first occurrences only. The member sets of
  both membership operations do not depend on that order.

## Model

| member | source | states |
|---|---|---|
| ParticipationRepository.OfEvent | backend/src/main/java/com/itestra/eep/repositories/ParticipationRepository.java:19 | the participations kept by the WHERE filter all belong to the event, and there are no more of them than stored |
| ParticipationRepository.SumGuestCounts | backend/src/main/java/com/itestra/eep/repositories/ParticipationRepository.java:18-22 | no participations give 0, the COALESCE; with no negative guest counts the occupancy is never negative |
| ParticipationRepository.SumGuestCountsConcat | backend/src/main/java/com/itestra/eep/repositories/ParticipationRepository.java:18-22 | occupancy is additive: that of a concatenation is the sum of the parts' occupancies |
| ParticipationRepository.SumGuestCountsAppend | backend/src/main/java/com/itestra/eep/repositories/ParticipationRepository.java:18-20 | storing one more participation adds exactly its seats (guestCount + 1), if it is counted |
| ParticipationRepository.SumGuestCountsNoParticipations | backend/src/main/java/com/itestra/eep/repositories/ParticipationRepository.java:18 | an event with no participations has occupancy 0 (the COALESCE) |
| ParticipationRepository.SumGuestCountsOnlyEvent | backend/src/main/java/com/itestra/eep/repositories/ParticipationRepository.java:19 | only the event's own participations count: occupancy over all equals occupancy over the event's |
| ParticipationRepository.SumGuestCountsExcludeAbsent | backend/src/main/java/com/itestra/eep/repositories/ParticipationRepository.java:20 | excluding an id no participation has is the same as excluding nothing |
| ParticipationRepository.SumGuestCountsExcludeOne | backend/src/main/java/com/itestra/eep/repositories/ParticipationRepository.java:20 | excluding a stored participation's id removes exactly its seats and counts all others |
| ParticipationRepository.SumGuestCountsRemoveAt | backend/src/main/java/com/itestra/eep/repositories/ParticipationRepository.java:18-20 | removing one participation subtracts exactly its contribution |
| ParticipationRepository.SumGuestCountsReplaceAt | backend/src/main/java/com/itestra/eep/repositories/ParticipationRepository.java:18-20 | replacing one participation swaps its contribution for the new one's |
| ParticipationRepository.SumGuestCountsAtLeastHeadcount | backend/src/main/java/com/itestra/eep/repositories/ParticipationRepository.java:18 | with no negative guest counts, each participation of the event occupies at least one seat |
| ParticipationRepository.FindByEmployeeAndEvent | backend/src/main/java/com/itestra/eep/repositories/ParticipationRepository.java:16 | no match iff no participation links the employee to the event; a unique match is the only one; more than one match iff two rows link them |
| ParticipationRepository.DeleteById | backend/src/main/java/com/itestra/eep/services/impl/EventServiceImpl.java:115-117 | no remaining participation has the id; deleting an id nobody has changes nothing |
| ParticipationRepository.DeleteByIdIdempotent | backend/src/main/java/com/itestra/eep/services/impl/EventServiceImpl.java:115-117 | deleting the same id twice is the same as once |
| ParticipationRepository.DeleteByIdAt | backend/src/main/java/com/itestra/eep/services/impl/EventServiceImpl.java:115-117 | with unique ids, deleting a stored id removes exactly that participation and keeps the others in order |
| ParticipationRepository.DeleteByIdNeverRaisesOccupancy | backend/src/main/java/com/itestra/eep/services/impl/EventServiceImpl.java:115-117 | deleting a participation with a non-negative guest count never raises any event's occupancy |
| EventMapper.CountConfirmed | backend/src/main/java/com/itestra/eep/mappers/EventMapper.java:38-41 | the participant count is at most the list's length, 0 iff none is confirmed, the full length iff all are |
| EventMapper.CountConfirmedConcat | backend/src/main/java/com/itestra/eep/mappers/EventMapper.java:38-41 | the count of a concatenation is the sum of the counts |
| EventMapper.Status | backend/src/main/java/com/itestra/eep/mappers/EventMapper.java:43-46 | only "upcoming" or "completed"; "upcoming" iff the date is strictly after now, so a date equal to now is completed |
| EventMapper.StatusMonotone | backend/src/main/java/com/itestra/eep/mappers/EventMapper.java:43-46 | a completed event stays completed as time passes |
| EventMapper.UpdateEventFromDto | backend/src/main/java/com/itestra/eep/mappers/EventMapper.java:21-22 | every null field of the update keeps the event's value, every non-null one replaces it; the id is kept |
| EventMapper.UpdateEventFromEmptyDto | backend/src/main/java/com/itestra/eep/mappers/EventMapper.java:21-22 | an all-null update leaves the event unchanged |
| EventMapper.UpdateEventFromDtoIdempotent | backend/src/main/java/com/itestra/eep/mappers/EventMapper.java:21-22 | applying the same update twice is the same as once |
| EventService.ValidateCapacity | backend/src/main/java/com/itestra/eep/services/impl/EventServiceImpl.java:143-154 | passes iff occupancy (without the revised participation) + guestCount + 1 ≤ capacity, so filling the event exactly passes; a failure is capacity-exceeded carrying a number |
| EventService.AddAcceptedIffFits | backend/src/main/java/com/itestra/eep/services/impl/EventServiceImpl.java:143-154 | an add passes iff the event's occupancy with the new participation stored stays within capacity; a rejection reports capacity − occupancy |
| EventService.UpdateAcceptedIffFits | backend/src/main/java/com/itestra/eep/services/impl/EventServiceImpl.java:101-112 | an update passes iff the occupancy with the revised guest count stored stays within capacity |
| EventService.UpdateResubmitAccepted | backend/src/main/java/com/itestra/eep/services/impl/EventServiceImpl.java:101-112 | re-submitting the current guest count is accepted whenever the event is within capacity, even when it is full |
| EventService.UpdateRejectionReportsFreeSeats | backend/src/main/java/com/itestra/eep/services/impl/EventServiceImpl.java:150-152 | a rejected update reports capacity − occupancy including the participation, because its seats are subtracted a second time |
| EventService.RevisionKeepsInvariants | backend/src/main/java/com/itestra/eep/services/impl/EventServiceImpl.java:101-112 | revising a stored participation's guest count keeps ids, links and unique ids; when the capacity check passes, every event stays within capacity |
| EventService.NewParticipations | backend/src/main/java/com/itestra/eep/services/impl/EventServiceImpl.java:128-134 | one confirmed participation per request, in request order, with the request's employee and guest count and consecutive ids |
| EventService.NewParticipationsStep | backend/src/main/java/com/itestra/eep/services/impl/EventServiceImpl.java:128-134 | one loop step appends one participation and adds guestCount + 1 to the running total |
| EventService.CollectBatch | backend/src/main/java/com/itestra/eep/services/impl/EventServiceImpl.java:125-134 | the loop finds every employee iff all requested employees exist, and then yields exactly the batch's participations and initial + Σ(guestCount + 1) |
| EventService.NewParticipationsKeepUniqueIds | backend/src/main/java/com/itestra/eep/services/impl/EventServiceImpl.java:140 | storing a batch whose ids start above every stored id keeps all ids unique |
| EventService.NewParticipationsOccupancy | backend/src/main/java/com/itestra/eep/services/impl/EventServiceImpl.java:133 | a batch adds exactly its requested seats to its event's occupancy and nothing to any other event's |
| EventService.BatchAcceptedIffFits | backend/src/main/java/com/itestra/eep/services/impl/EventServiceImpl.java:136-138 | the batch test initial + Σ(gᵢ + 1) ≤ capacity holds iff the occupancy with the whole batch stored stays within capacity |
| EventService.EventServiceImpl.AddParticipant | backend/src/main/java/com/itestra/eep/services/impl/EventServiceImpl.java:86-98 | missing employee → EmployeeNotFound (even if the event is missing too), then missing event → EventNotFound, then the capacity check; success appends exactly the new confirmed participation; every failure stores nothing; occupancy ≤ capacity is preserved |
| EventService.EventServiceImpl.UpdateParticipant | backend/src/main/java/com/itestra/eep/services/impl/EventServiceImpl.java:101-112 | no matching participation → ParticipationNotFound, several → NonUniqueResult; success changes only that participation's guest count; failures change nothing; occupancy ≤ capacity is preserved |
| EventService.EventServiceImpl.DeleteParticipant | backend/src/main/java/com/itestra/eep/services/impl/EventServiceImpl.java:115-117 | the participations are those without the id (a missing id is a no-op); no occupancy rises unless the deleted participation had a negative guest count |
| EventService.EventServiceImpl.AddParticipantsBatch | backend/src/main/java/com/itestra/eep/services/impl/EventServiceImpl.java:120-141 | missing event → EventNotFound, then a missing employee → EmployeeNotFound, both before the capacity check; accepted iff initial + requested ≤ capacity, storing the whole batch; a rejection reports capacity − initial and stores nothing; occupancy ≤ capacity is preserved |
| EventService.EventServiceImpl.Update | backend/src/main/java/com/itestra/eep/services/impl/EventServiceImpl.java:70-78 | missing event → EventNotFound; refused iff the new capacity is non-null and below the occupancy; otherwise the event becomes the null-ignoring update of itself; occupancy ≤ capacity is preserved |
| ParticipationMapper.MapList | backend/src/main/java/com/itestra/eep/mappers/ParticipationMapper.java:36-65 | a non-admin caller or a null list gets the empty list; an admin gets one DTO per participation in the same order, each copying the participation's, event's and profile's fields |
| ParticipationMapper.MapOne | backend/src/main/java/com/itestra/eep/mappers/ParticipationMapper.java:32-34 | succeeds iff the caller is an admin (otherwise indexing the empty list fails), and then copies the participation's fields |
| ParticipationMapper.MapListConcat | backend/src/main/java/com/itestra/eep/mappers/ParticipationMapper.java:45-64 | for an admin, the mapping of a concatenation is the concatenation of the mappings |
| ParticipationMapper.MapListRecoversParticipations | backend/src/main/java/com/itestra/eep/mappers/ParticipationMapper.java:45-64 | for an admin and participations whose loaded event and profile are the ones they reference, the id, employee, event, guest count and confirmation read back from the rows are exactly the stored participations, in order |
| EmployeeMapper.MapRole | backend/src/main/java/com/itestra/eep/mappers/EmployeeMapper.java:33-35 | null iff the role is null; otherwise the enum's name, each role to its own name |
| EmployeeMapper.MapRoleInjective | backend/src/main/java/com/itestra/eep/mappers/EmployeeMapper.java:33-35 | different roles map to different names |
| EmployeeMapper.MapParticipations | backend/src/main/java/com/itestra/eep/mappers/EmployeeMapper.java:37-60 | a non-admin caller or a null list gets the empty list; an admin gets one row per participation in order, copying guest count, confirmation and the event's fields |
| EmployeeMapper.MapParticipationsConcat | backend/src/main/java/com/itestra/eep/mappers/EmployeeMapper.java:46-59 | for an admin, the mapping of a concatenation is the concatenation of the mappings |
| ProjectService.FindByIdIn | backend/src/main/java/com/itestra/eep/services/impl/ProjectServiceImpl.java:63 | the found employees are exactly the requested ids that are stored employees, each once |
| ProjectService.AllFoundIff | backend/src/main/java/com/itestra/eep/services/impl/ProjectServiceImpl.java:63-67 | as many employees are found as ids requested iff every id is a stored employee and none is requested twice |
| ProjectService.ProjectServiceImpl.FindById | backend/src/main/java/com/itestra/eep/services/impl/ProjectServiceImpl.java:35-37 | the stored project if there is one, ProjectNotFound otherwise |
| ProjectService.ProjectServiceImpl.AddMembersToProject | backend/src/main/java/com/itestra/eep/services/impl/ProjectServiceImpl.java:59-73 | missing project → ProjectNotFound; a request not wholly found → IllegalState, both changing nothing; otherwise the members become old ∪ requested and only that project changes, no member is lost, and adding only current members leaves every project as it was |
| ProjectService.ProjectServiceImpl.RemoveMembersFromProject | backend/src/main/java/com/itestra/eep/services/impl/ProjectServiceImpl.java:76-90 | the same two failures, changing nothing; otherwise the members become old \ requested and only that project changes: a member the request does not name stays, and no named employee remains a member |
| FileSecurity.CanDownloadFile | backend/src/main/java/com/itestra/eep/configs/FileSecurity.java:23-42 | a null or unauthenticated caller is denied; a principal other than a profile fails the cast; allowed iff admin, or the file exists and the caller takes part in its event; a non-admin asking for a stored file without an event fails |
| FileSecurity.AdminAuthorityAnywhere | backend/src/main/java/com/itestra/eep/configs/FileSecurity.java:31-32 | the admin test looks for the exact authority "ADMIN" anywhere in the list: it holds of a concatenation iff of one part, wherever "ADMIN" stands, and not for "ROLE_ADMIN" or "admin" |
| FileSecurity.AdminIgnoresFiles | backend/src/main/java/com/itestra/eep/configs/FileSecurity.java:31-36 | an admin is allowed whatever the stored files and participations are |
| FileSecurity.JoiningGrantsDownload | backend/src/main/java/com/itestra/eep/configs/FileSecurity.java:39-41 | once the caller takes part in the file's event, the download is allowed |
| DietaryPreferenceConverter.ValueOf | backend/src/main/java/com/itestra/eep/serializers/DietaryPreferenceArrayConverter.java:38 | `valueOf` succeeds only with a constant's exact name |
| DietaryPreferenceConverter.ValueOfName | backend/src/main/java/com/itestra/eep/serializers/DietaryPreferenceArrayConverter.java:38 | `valueOf` of a constant's name is that constant |
| DietaryPreferenceConverter.Names | backend/src/main/java/com/itestra/eep/serializers/DietaryPreferenceArrayConverter.java:19-20 | one name per preference, in order |
| DietaryPreferenceConverter.Encode | backend/src/main/java/com/itestra/eep/serializers/DietaryPreferenceArrayConverter.java:15-22 | always braced; "{}" iff the array is null or empty; otherwise the names joined by "," between the braces |
| DietaryPreferenceConverter.JoinNamesNonEmpty | backend/src/main/java/com/itestra/eep/serializers/DietaryPreferenceArrayConverter.java:19-21 | the joined names of a non-empty array start with the first name's first letter |
| DietaryPreferenceConverter.SplitAll | backend/src/main/java/com/itestra/eep/serializers/DietaryPreferenceArrayConverter.java:36 | splitting at every comma gives at least one piece, and no piece holds a comma |
| DietaryPreferenceConverter.JavaSplit | backend/src/main/java/com/itestra/eep/serializers/DietaryPreferenceArrayConverter.java:36 | no piece holds a comma; a text without a comma is its own single piece; otherwise the last piece, if any, is non-empty |
| DietaryPreferenceConverter.JoinSplitAll | backend/src/main/java/com/itestra/eep/serializers/DietaryPreferenceArrayConverter.java:36 | joining the pieces of a split with "," gives the text back |
| DietaryPreferenceConverter.DropTrailingEmpty | backend/src/main/java/com/itestra/eep/serializers/DietaryPreferenceArrayConverter.java:36 | `split` drops exactly the trailing empty pieces: a prefix, ending in a non-empty piece, with only empty pieces dropped |
| DietaryPreferenceConverter.SplitAllNoComma | backend/src/main/java/com/itestra/eep/serializers/DietaryPreferenceArrayConverter.java:36 | a text without a comma splits into itself |
| DietaryPreferenceConverter.SplitAllPrefix | backend/src/main/java/com/itestra/eep/serializers/DietaryPreferenceArrayConverter.java:36 | splitting x + "," + y with comma-free x gives x, then the pieces of y |
| DietaryPreferenceConverter.SplitAllJoin | backend/src/main/java/com/itestra/eep/serializers/DietaryPreferenceArrayConverter.java:36 | splitting comma-free pieces joined by "," gives the pieces back |
| DietaryPreferenceConverter.JavaSplitJoin | backend/src/main/java/com/itestra/eep/serializers/DietaryPreferenceArrayConverter.java:36 | Java's split undoes the join when the last piece is non-empty |
| DietaryPreferenceConverter.TrailingQuote | backend/src/main/java/com/itestra/eep/serializers/DietaryPreferenceArrayConverter.java:37 | where `"$` matches: a match exists iff the text ends in a quote, in a quote and one line terminator, or in a quote and "\r\n"; the match is that quote, at the end, before the final terminator, or before the final "\r\n" |
| DietaryPreferenceConverter.StripQuotes | backend/src/main/java/com/itestra/eep/serializers/DietaryPreferenceArrayConverter.java:37 | at most the two quotes go: the item shortens by at most two characters, and every other character keeps its number of occurrences |
| DietaryPreferenceConverter.StripTrailingQuote | backend/src/main/java/com/itestra/eep/serializers/DietaryPreferenceArrayConverter.java:37 | the `"$` half removes at most one character, and that character is a quote |
| DietaryPreferenceConverter.StripQuotesLeadingOnly | backend/src/main/java/com/itestra/eep/serializers/DietaryPreferenceArrayConverter.java:37 | an item with only a leading quote loses it |
| DietaryPreferenceConverter.StripQuotesTrailingOnly | backend/src/main/java/com/itestra/eep/serializers/DietaryPreferenceArrayConverter.java:37 | an item with only a trailing quote loses it |
| DietaryPreferenceConverter.StripQuotesBeforeLineTerminator | backend/src/main/java/com/itestra/eep/serializers/DietaryPreferenceArrayConverter.java:37 | a closing quote followed by a final line terminator is removed, and the terminator stays |
| DietaryPreferenceConverter.StripQuotesNoQuote | backend/src/main/java/com/itestra/eep/serializers/DietaryPreferenceArrayConverter.java:37 | an item without quotes is not changed (and is not trimmed) |
| DietaryPreferenceConverter.StripQuotesQuoted | backend/src/main/java/com/itestra/eep/serializers/DietaryPreferenceArrayConverter.java:37 | an item in double quotes loses exactly those two quotes |
| DietaryPreferenceConverter.DecodeItems | backend/src/main/java/com/itestra/eep/serializers/DietaryPreferenceArrayConverter.java:36-39 | succeeds iff every unquoted item is a constant's name, then with one preference per item named by it; a failure names the first item, unquoted, that is no constant's name |
| DietaryPreferenceConverter.Decode | backend/src/main/java/com/itestra/eep/serializers/DietaryPreferenceArrayConverter.java:24-40 | a null text or one shorter than two characters decodes to the empty array; otherwise the first and last characters are dropped, braces or not |
| DietaryPreferenceConverter.DecodeBody | backend/src/main/java/com/itestra/eep/serializers/DietaryPreferenceArrayConverter.java:32-34 | a blank body decodes to the empty array |
| DietaryPreferenceConverter.IsBlankConcat | backend/src/main/java/com/itestra/eep/serializers/DietaryPreferenceArrayConverter.java:32 | `isBlank` of a concatenation holds iff it holds of both parts, and a text with a non-breaking space is not blank |
| DietaryPreferenceConverter.DecodeIgnoresDelimiters | backend/src/main/java/com/itestra/eep/serializers/DietaryPreferenceArrayConverter.java:30 | two texts with the same inside decode alike, whatever their first and last characters are |
| DietaryPreferenceConverter.NamesPlain | backend/src/main/java/com/itestra/eep/serializers/DietaryPreferenceArrayConverter.java:19-21 | constant names are non-empty and contain neither a comma nor a quote |
| DietaryPreferenceConverter.SplitEncoding | backend/src/main/java/com/itestra/eep/serializers/DietaryPreferenceArrayConverter.java:36 | splitting an encoding's body at commas gives back the names |
| DietaryPreferenceConverter.DecodeNames | backend/src/main/java/com/itestra/eep/serializers/DietaryPreferenceArrayConverter.java:36-39 | decoding the list of names gives back the preferences |
| DietaryPreferenceConverter.BodyNotBlank | backend/src/main/java/com/itestra/eep/serializers/DietaryPreferenceArrayConverter.java:32 | the body of a non-empty encoding is not blank |
| DietaryPreferenceConverter.DecodeEncode | backend/src/main/java/com/itestra/eep/serializers/DietaryPreferenceArrayConverter.java:15-39 | round trip: decoding an encoded array gives the array back; a null array comes back empty |
| DietaryPreferenceConverter.DecodeQuotedEncoding | backend/src/main/java/com/itestra/eep/serializers/DietaryPreferenceArrayConverter.java:36-39 | for every array, the literal whose items are the names in double quotes, as Postgres may write them, decodes to that array |
| DietaryPreferenceConverter.QuotedNames | backend/src/main/java/com/itestra/eep/serializers/DietaryPreferenceArrayConverter.java:37 | one item per preference, in order, its name between double quotes |
| DietaryPreferenceConverter.DecodeItemsPointwise | backend/src/main/java/com/itestra/eep/serializers/DietaryPreferenceArrayConverter.java:36-39 | items that each strip and read as the matching preference decode to exactly those preferences |
| Address.FormattedAddress | backend/src/main/java/com/itestra/eep/models/Address.java:41-43 | starts with line 1 and ", ", ends with city ", " country; between them is line 2 and ", " when line 2 is not null, and nothing when it is |
| Address.MiddleSegmentIffSecondLine | backend/src/main/java/com/itestra/eep/models/Address.java:42 | the middle segment is non-empty iff line 2 is not null; without it the address is exactly line 1, city and country |
| Address.PostalCodeIgnored | backend/src/main/java/com/itestra/eep/models/Address.java:42 | the postal code does not appear in the formatted address |
| Address.NullLineReadsAsText | backend/src/main/java/com/itestra/eep/models/Address.java:42 | a null first line is rendered as the text "null" |
| CanvasReducer.ApplyPatch | frontend/src/components/canvas/reducers/CanvasReducer.tsx:87 | the spread update: the id, type, x, y, both wall end points, colour, attachment and attached chairs the patch carries replace the element's, and each it does not carry is kept |
| CanvasReducer.ApplyField | frontend/src/components/canvas/reducers/CanvasReducer.tsx:91-98 | the key's property is overwritten: a number sets the coordinate it names; a text sets the id, the type, the colour or the attachment; a list of texts sets the attached chairs; the other properties are kept, and a key outside the record leaves the element as it is |
| CanvasReducer.FirstPatch | frontend/src/components/canvas/reducers/CanvasReducer.tsx:103 | the first patch for the id, or none iff no patch has that id |
| CanvasReducer.PatchAll | frontend/src/components/canvas/reducers/CanvasReducer.tsx:102-105 | the same number of elements, each updated by its first patch if it has one and unchanged otherwise |
| CanvasReducer.RemoveIds | frontend/src/components/canvas/reducers/CanvasReducer.tsx:80 | no remaining element has a listed id, and no element is added |
| CanvasReducer.RemoveIdsMembers | frontend/src/components/canvas/reducers/CanvasReducer.tsx:77-82 | an element remains iff it was there and its id is not listed |
| CanvasReducer.RemoveIdsConcat | frontend/src/components/canvas/reducers/CanvasReducer.tsx:80 | removal filters element by element, keeping the order |
| CanvasReducer.RemoveGroupId | frontend/src/components/canvas/reducers/CanvasReducer.tsx:191-195 | a group remains iff it was there and its id is not the removed one |
| CanvasReducer.RemoveGroupIdConcat | frontend/src/components/canvas/reducers/CanvasReducer.tsx:194 | removal filters group by group, keeping the order |
| CanvasReducer.UpdateGroupOnlyMatching | frontend/src/components/canvas/reducers/CanvasReducer.tsx:184-190 | a group update keeps the number of groups, the elements and the history; a group with another id is unchanged, and one with the id keeps its own properties and takes the payload's over them |
| CanvasReducer.InitialStateHasNoHistory | frontend/src/components/canvas/reducers/CanvasReducer.tsx:39-58 | the initial state is empty and undo, redo and an empty load leave it as it is |
| CanvasReducer.Reduce | frontend/src/components/canvas/reducers/CanvasReducer.tsx:60-242 | loading a state empties the history; any action but load, undo and redo keeps the history or pushes the old state; undo and redo keep the total number of history entries |
| CanvasReducer.SetStateResetsHistory | frontend/src/components/canvas/reducers/CanvasReducer.tsx:62-70 | loading always empties both stacks; it takes the payload's content, or keeps the current content without a payload |
| CanvasReducer.AddElementAppends | frontend/src/components/canvas/reducers/CanvasReducer.tsx:71-76 | the new element comes last and the others keep their order |
| CanvasReducer.EditPushesHistory | frontend/src/components/canvas/reducers/CanvasReducer.tsx:71-107 | each editing action pushes the old state, clears the redo stack and changes nothing but the elements |
| CanvasReducer.UpdateElementOnlyMatching | frontend/src/components/canvas/reducers/CanvasReducer.tsx:83-90 | the element count stays; elements with another id are unchanged, matching ones get the patch |
| CanvasReducer.UpdateFieldOnlyMatching | frontend/src/components/canvas/reducers/CanvasReducer.tsx:91-98 | the element count stays; elements with another id are unchanged, matching ones get the field |
| CanvasReducer.UpdateMultipleOnlyMatching | frontend/src/components/canvas/reducers/CanvasReducer.tsx:99-116 | the element count stays, elements no patch names are unchanged, and the variant without undo computes the same elements |
| CanvasReducer.OtherActionsKeepHistory | frontend/src/components/canvas/reducers/CanvasReducer.tsx:182-240 | the action without undo, the group actions and the build-mode change keep the history; an unknown action changes nothing |
| CanvasReducer.UndoRedoOnEmpty | frontend/src/components/canvas/reducers/CanvasReducer.tsx:198-227 | undo with an empty undo stack and redo with an empty redo stack return the state unchanged |
| CanvasReducer.UndoRedoMoveOneEntry | frontend/src/components/canvas/reducers/CanvasReducer.tsx:198-227 | undo moves one entry from the undo stack to the redo stack and redo the reverse, so the total number of entries is preserved |
| CanvasReducer.UndoAfterEdit | frontend/src/components/canvas/reducers/CanvasReducer.tsx:198-212 | undo right after an edit restores the state before the edit, with the edited state on the redo stack |
| CanvasReducer.RedoAfterUndo | frontend/src/components/canvas/reducers/CanvasReducer.tsx:213-227 | redo right after undo restores the undone state and its redo stack; the top of the undo stack has the same content as before |
| CanvasReducer.Find | frontend/src/components/canvas/reducers/CanvasReducer.tsx:122 | the element found has the id and is on the canvas; none iff no element has it |
| CanvasReducer.FindFirst | frontend/src/components/canvas/reducers/CanvasReducer.tsx:122 | the element found is the first one with the id |
| CanvasReducer.Copy | frontend/src/components/canvas/reducers/CanvasReducer.tsx:126-147 | a chair, room or table is copied 50 right and down by x/y, a wall by both end points, under the new id; any other type is not copied |
| CanvasReducer.Sources | frontend/src/components/canvas/reducers/CanvasReducer.tsx:121-148 | the requests that produce a copy, in increasing order: exactly those that find an original of a copyable type |
| CanvasReducer.Keys | frontend/src/components/canvas/reducers/CanvasReducer.tsx:125 | the keys are exactly those of the id table, each once |
| CanvasReducer.FirstRequestFor | frontend/src/components/canvas/reducers/CanvasReducer.tsx:121-125 | the index of the first request for an id, or none iff no request names it |
| CanvasReducer.KeysInFirstRequestOrder | frontend/src/components/canvas/reducers/CanvasReducer.tsx:125 | the keys are in the order of their first requests: every key has one, and a key listed earlier was first requested earlier |
| CanvasReducer.RemapRefs | frontend/src/components/canvas/reducers/CanvasReducer.tsx:151-170 | the rewrite changes no coordinate, does not add or drop an attachment, and keeps the number of attached chairs |
| CanvasReducer.RemappedCopies | frontend/src/components/canvas/reducers/CanvasReducer.tsx:151-170 | one rewritten element per copy |
| CanvasReducer.SelectedIds | frontend/src/components/canvas/reducers/CanvasReducer.tsx:174 | one selected id per key of the id table |
| CanvasReducer.DuplicateElements | frontend/src/components/canvas/reducers/CanvasReducer.tsx:117-181 | the loops compute exactly the reducer's duplication state, and the selection handed back is the new ids in the order their originals were first found |
| CanvasReducer.DuplicateKeepsOriginals | frontend/src/components/canvas/reducers/CanvasReducer.tsx:176-180 | the originals stay first and unchanged, followed by exactly one copy per copying request |
| CanvasReducer.CopiesSources | frontend/src/components/canvas/reducers/CanvasReducer.tsx:121-148 | the j-th copy is the copy of the j-th copying request's original |
| CanvasReducer.UnknownIdsIgnored | frontend/src/components/canvas/reducers/CanvasReducer.tsx:121-148 | a request that finds no original, or one whose type is not copied, produces no copy |
| CanvasReducer.CollectCopies | frontend/src/components/canvas/reducers/CanvasReducer.tsx:121-149 | the first loop builds exactly the id table, its keys in insertion order and the copies |
| CanvasReducer.RewriteCopies | frontend/src/components/canvas/reducers/CanvasReducer.tsx:151-170 | the second loop gives exactly the copies with their references rewritten |
| CanvasReducer.ValuesInOrder | frontend/src/components/canvas/reducers/CanvasReducer.tsx:174 | the loop gives the table's values for the keys, in key order |
| CanvasReducer.IdMapDomain | frontend/src/components/canvas/reducers/CanvasReducer.tsx:121-125 | the id table has a key exactly for the requested ids some element has, even for a type that is not copied |
| CanvasReducer.LastRequestFor | frontend/src/components/canvas/reducers/CanvasReducer.tsx:121-125 | the last request for an id, or none iff no request names it |
| CanvasReducer.IdMapValue | frontend/src/components/canvas/reducers/CanvasReducer.tsx:125 | a key maps to the fresh id of the last request for it: a later duplicate request overwrites an earlier one |
| CanvasReducer.DuplicateCopyShape | frontend/src/components/canvas/reducers/CanvasReducer.tsx:117-170 | with non-empty fresh ids that no element has, each copy keeps its fresh id and is moved by 50, and its references to duplicated originals (`attachedTo`, `attachedChairs`) name their copies while others are kept |
| CanvasReducer.SelectedIdsPerOriginal | frontend/src/components/canvas/reducers/CanvasReducer.tsx:174 | the selection is the id table's value for each key, in key order |

## Left out

- Concurrency and transaction isolation. Operations run one after another, and a thrown exception is a rollback that leaves the state unchanged. The read-then-write race between the occupancy query and the save is not captured.
- Java's 32-bit `int` arithmetic in the occupancy sums and the capacity checks. Integers here are unbounded, because realistic seat counts never reach the limit.
- ConstraintSolverDTO's seat conversion and the seat assignment solver (`backend/algo.py`, `EventController.assignTables`). The solver runs in a foreign library and a separate process.
- Controllers, security filters, JWT and OAuth handling, CSV and JSON helpers, the date (de)serializers and the pass-through CRUD services. They hold no rule beyond calls into frameworks.
- The security context that `ParticipationMapper` and `EmployeeMapper` read. It becomes the `isAdmin` parameter.
- The ORM side of project membership. `Project.employees` is the inverse side of the relation, so whether `save` persists the changed member set is up to the mapping and is not modelled. The model takes the in-memory set as the result.
- FileSecurity: only the answer is modelled. `fileService.getFile` and `isParticipant` are the file map and the stored participations, and a file's event is taken to be a stored event.
- The generated `createEventFromDto` and the other MapStruct mappings. They hold no rule.
- The reducer's `JSON.parse` of a string payload in SET_STATE. The model takes the already-parsed state, because JSON parsing is library code.
- The reducer's null payloads. An `addElement(null)` would append null, and a null entry in a batch of patches makes `update.id` throw. Payloads here are always present.
- DietaryPreferenceConverter.Decode: Java's `length()` and `substring` count UTF-16 code units while the model counts characters. A text holding a character outside the Basic Multilingual Plane is cut elsewhere: for "\U{1F600}x" Java takes a lone surrogate as the body and `valueOf` throws, while the model decodes it to the empty array. Only texts of constant names and delimiters, all ASCII, are modelled faithfully.
- CanvasReducer.ApplyPatch: a patch carries the record's properties only. Properties outside the record (name, width, height, radius, rotation, offset, …) that a payload may set are not modelled.
- CanvasReducer.ApplyField: setting a property outside the modelled record (name, width, radius, rotation, offset, …) leaves the record unchanged, because the record does not carry those properties. A value of another kind than the property's (a number for the id, a null attachment) leaves the record unchanged too, because the typed record cannot hold it.
- CanvasReducer.RemapRefs: the `for…in` rewrite covers the record's string properties (id, type, colour, attachedTo) and attachedChairs. Other string properties of an element are not modelled.
- JavaScript details of the id table: `idMap` as a plain object would also report inherited names such as "constructor" as present, and `Object.values` puts integer-like keys first. The model uses an id table without inherited keys, kept in insertion order.
- `history` being optional in the state type. Every state here has one, as every state the reducer builds does.
- Floating-point coordinates: coordinates are whole numbers here.
- The canvas components, the pages, the services of the frontend, and the chair snapping and neighbour geometry (floating point).
