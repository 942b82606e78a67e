# Tutoring marketplace core, modelled in Dafny

This project models the pure logic of an online tutoring marketplace and proves
properties of it. The marketplace is a Next.js web app backed by a relational
database. The logic comes in six pieces:

- **Weekly availability editor** (`src/sections/two/view.js`), in the modules
  `TimeLabels` and `AvailabilityForm`. It covers:
  - the 12-hour "hh:mm AM/PM" labels and their conversion to a time of day (minutes since midnight);
  - the menu of selectable times;
  - the rule that a slot must end strictly after it starts;
  - the per-day operations: add a slot, remove a slot, tick or untick a day;
  - the transform that groups fetched availability rows into the seven-day form.
- **Notification store slice** (`src/app/store/slices/notificationSlice.js`), in
  `Notifications`. This is a reducer over `{notifications, loading, error}`. It
  handles the four plain actions and the settled outcomes of the "fetch" and
  "mark all as read" requests.
- **Teacher data service** (`src/lib/teacherService.js`), in `TeacherService`.
  Each query becomes a pure transformer of in-memory tables, each table a
  sequence of rows in storage order. It covers:
  - the profile insert and update;
  - the two lookups by user id;
  - availability clear, save, read, update and delete;
  - the clear-then-reinsert updates of the language, grade-level and subject join tables.
- **Teacher profile form** (`src/sections/user/user-edit-form.js`), in
  `ProfileForm`. It covers:
  - the validation schema as a predicate;
  - the language name-to-id mapping done before submitting;
  - the test that chooses between creating and updating a profile;
  - the teaching-mode menu.
- **Teacher card** (`src/sections/user/user-card.js`), in `UserCard`: the bio
  excerpt and the default-empty chip lists.
- **Role gate** of a dashboard page (`src/app/dashboard/group/six/page.js`), in
  `RoleGate`.

Shared modules:

- `Wrappers`: `Option` and `Result`.
- `Seqs`: filter, first index, drop by index.
- `Text`: JavaScript `split`/`join` on one character, the white space JavaScript skips, `parseInt`, `length` in UTF-16 code units, and two-digit numerals.
- `JsValues`: JavaScript values, truthiness and `Object.values`.

Modelling choices:

- **Time labels.** `convertToDate` builds a `Date` on one fixed day. Its results are only compared, so a label is modelled by `hours * 60 + minutes`, and an Invalid Date is `None`. Any comparison with an Invalid Date is false.
- **Rendering fetched times.** The load transform renders fetched times with the browser's `toLocaleTimeString`. This is a `format` parameter of `AvailabilityForm.LoadForm`. `TimeLabels.Format12` is a concrete en-US 12-hour rendering, used to prove facts about the time menu. `convertToDate` splits the modifier off only at an ASCII space (view.js line 64). Some engines put a narrow no-break space (U+202F) before AM/PM; such a rendering loses its modifier in the source and in the model alike, so "05:00 PM" reads as five in the morning (`TimeLabels.NarrowSpaceLosesModifier`).
- **Generated ids.** Serial columns hand out an id larger than every id in the table (`TeacherService.NextId`).
- **Row order.** Queries without `ORDER BY` return rows in table order. The availability read is compared as a multiset wherever only its contents are promised.
- **Concurrent inserts.** An association update issues its inserts concurrently; they are modelled as sequential appends.
- **The clock.** The database clock (`NOW()`) is a parameter of `TeacherService.UpdateTeacherProfile`.

Where the code differs from what its callers or its own messages suggest, the model follows the code:

- **Profile update.** A caller that changes only `experience_years` may expect `hourly_rate` to survive. The update query sets all six profile columns from its arguments, so an omitted argument is written as NULL. `TeacherService.UpdateTeacherProfile` overwrites all six.
- **Zero years of experience.** The `experience_years` lower-bound message says "1 or more". The bound itself is 0, and `ProfileForm.ExperienceYearsBounds` shows that 0 is accepted.

## Model

| member | source | states |
|---|---|---|
| `Text.Split` | src/sections/two/view.js:64-65 | `split` on one character yields at least one piece, and no piece contains the separator |
| `Text.JoinSplit` | src/sections/user/user-card.js:83-84 | joining the pieces of a split with the same separator gives back the original string |
| `Text.SplitJoin` | src/sections/two/view.js:64-65 | splitting a join of separator-free pieces gives the pieces back |
| `Text.ParseIntSkipsWhiteSpace` | src/sections/two/view.js:66-67 | `parseInt` reads a string preceded by JavaScript white space as it reads the string alone |
| `Text.Utf16Length` | src/sections/user/user-edit-form.js:34-39 | JavaScript's `length` counts between one and two code units per character: exactly one each for text inside the Basic Multilingual Plane, two each outside it |
| `Text.ParsePad2` | src/sections/two/view.js:66-67 | `parseInt` reads a two-digit numeral, leading zero included, as its value |
| `TimeLabels.ConvertToMinutes` | src/sections/two/view.js:63-73 | defined by its body; characterised by `LabelConversion`, `LabelConverts`, `LeadingWhiteSpaceIgnored` and `EmptyLabelDoesNotConvert` |
| `TimeLabels.IsGreater` | src/sections/two/view.js:85-88 | defined by its body; characterised by `IsGreaterOnTimes` and `AvailabilityForm.SlotValidMeaning` |
| `TimeLabels.LabelConversion` | src/sections/two/view.js:63-73 | on an "hh:mm MOD" label: PM with an hour other than 12 adds twelve hours, 12 AM reads as hour 0, 12 PM stays 12, other AM hours are unchanged, minutes pass through |
| `TimeLabels.LabelConverts` | src/sections/two/view.js:63-73 | a well-formed label converts to its modifier-adjusted hour times 60 plus its minutes |
| `TimeLabels.FormatRoundTrip` | src/sections/two/view.js:63-73 | converting the en-US 12-hour rendering of any minute of the day gives back that minute |
| `TimeLabels.IsGreaterOnTimes` | src/sections/two/view.js:85-88 | on rendered times the is-greater test holds exactly when the end is strictly later; equal start and end fail |
| `TimeLabels.LeadingWhiteSpaceIgnored` | src/sections/two/view.js:63-67 | a white-space character other than the space, in front of a label, is skipped by `parseInt` and does not change the time the label reads as |
| `TimeLabels.OtherSeparatorDropsModifier` | src/sections/two/view.js:63-73 | a label whose modifier follows any separator other than the ASCII space reads as its unadjusted hour and minutes: the modifier is ignored |
| `TimeLabels.NarrowSpaceLosesModifier` | src/sections/two/view.js:63-73 | an afternoon time written with U+202F before "PM" reads twelve hours earlier than the same time written with an ASCII space |
| `TimeLabels.EmptyLabelDoesNotConvert` | src/sections/two/view.js:63-73 | an empty label gives an Invalid Date |
| `TimeLabels.TimesEntry` | src/sections/two/view.js:37-61 | menu entry i is the rendering of 09:00 plus i half hours |
| `TimeLabels.TimesMenuSteps` | src/sections/two/view.js:37-61 | the menu has 23 entries converting to 09:00, 09:30, ..., 20:00, each later than the one before |
| `AvailabilityForm.DaysDistinct` | src/sections/two/view.js:36 | the seven day names are pairwise distinct |
| `AvailabilityForm.InitialFormIsEmpty` | src/sections/two/view.js:117-125 | the default form has all seven days unchecked with no slots |
| `AvailabilityForm.SlotValid` | src/sections/two/view.js:80-88 | defined by its body; characterised by `SlotValidMeaning` and `DefaultSlotValid` |
| `AvailabilityForm.FormValid` | src/sections/two/view.js:75-95 | defined by its body; characterised by `OperationsKeepFormValid` |
| `AvailabilityForm.SlotValidMeaning` | src/sections/two/view.js:80-88 | a slot is accepted exactly when both labels convert and the end is strictly later; a slot ending when it starts is rejected |
| `AvailabilityForm.DefaultSlotSpelling` | src/sections/two/view.js:196 | the added slot's literals "09:00 AM" and "05:00 PM" are the two-digit labels for 9 AM and 5 PM |
| `AvailabilityForm.DefaultSlotStart` | src/sections/two/view.js:196 | the added slot starts at 09:00 |
| `AvailabilityForm.DefaultSlotEnd` | src/sections/two/view.js:196 | the added slot ends at 17:00 |
| `AvailabilityForm.DefaultSlotValid` | src/sections/two/view.js:196 | the slot `addSlot` appends passes the end-after-start check |
| `AvailabilityForm.AddSlot` | src/sections/two/view.js:187-198 | on an unchecked day nothing changes and the snackbar asks for that day's box; on a checked day exactly the default slot is appended, earlier slots and other days unchanged |
| `AvailabilityForm.RemoveSlot` | src/sections/two/view.js:200-204 | only the slot at the index goes, the rest keep their order; an out-of-range index changes nothing; other days unchanged |
| `AvailabilityForm.ToggleDay` | src/sections/two/view.js:206-214 | the box flips; slots are cleared only when the day was checked; other days unchanged |
| `AvailabilityForm.ToggleTwice` | src/sections/two/view.js:206-214 | toggling twice restores the box but not the slots |
| `AvailabilityForm.OperationsKeepFormValid` | src/sections/two/view.js:187-214 | adding, removing and toggling keep every slot of a valid form valid |
| `AvailabilityForm.LoadForm` | src/sections/two/view.js:135-151 | the loaded form has seven days, and a day is checked exactly when some fetched row names it |
| `AvailabilityForm.LoadNothing` | src/sections/two/view.js:135-151 | loading no rows gives the default form |
| `AvailabilityForm.LoadAppendKnownDay` | src/sections/two/view.js:135-151 | one more row naming a day appends its slot at the end of that day and checks it |
| `AvailabilityForm.LoadAppendOtherDays` | src/sections/two/view.js:135-151 | one more row naming a day leaves every other day as it was |
| `AvailabilityForm.LoadAppendUnknownDay` | src/sections/two/view.js:135-151 | a row whose day is none of the seven is dropped |
| `Notifications.MarkAsReadIn` | src/app/store/slices/notificationSlice.js:61-69 | only the first notification with the id becomes read; length and every other entry unchanged; an absent id changes nothing |
| `Notifications.MarkAsReadUnreadCount` | src/app/store/slices/notificationSlice.js:61-69 | the unread count drops by one exactly when the first notification with the id was unread, and is unchanged otherwise |
| `Notifications.DeleteIn` | src/app/store/slices/notificationSlice.js:74-79 | exactly the notifications with the id go; every other one keeps its multiplicity |
| `Notifications.DeleteKeepsOrder` | src/app/store/slices/notificationSlice.js:74-79 | deleting distributes over concatenation, so the rest keep their relative order |
| `Notifications.MarkAllIn` | src/app/store/slices/notificationSlice.js:102-107 | every notification becomes read; length, ids and other fields unchanged |
| `Notifications.MarkAllIdempotent` | src/app/store/slices/notificationSlice.js:102-107 | marking all read twice equals marking once |
| `Notifications.MarkAllLeavesNothingUnread` | src/app/store/slices/notificationSlice.js:102-107 | after marking all read the unread count is zero |
| `Notifications.RejectionMessage` | src/app/store/slices/notificationSlice.js:94-97 | a missing or empty payload falls back to the default message; any other payload is the message |
| `Notifications.Reduce` | src/app/store/slices/notificationSlice.js:60-112 | per action: mark the first match read, append at the end, delete by id, clear, pending sets loading and clears the error, fulfilled fetch replaces the list, fulfilled mark-all marks every entry read and ends loading, rejected cases set the error and keep the list; plain actions leave loading and error alone |
| `Notifications.InitialStateEmpty` | src/app/store/slices/notificationSlice.js:55-59 | the slice starts with no notifications, not loading, without an error, and so with nothing unread |
| `Notifications.FetchFromInitial` | src/app/store/slices/notificationSlice.js:55-93 | from the initial state, a pending fetch that then succeeds leaves exactly the fetched notifications, not loading and without an error |
| `Notifications.AddThenDelete` | src/app/store/slices/notificationSlice.js:70-79 | adding a notification then deleting its id equals deleting the id alone |
| `Notifications.PendingThenRejected` | src/app/store/slices/notificationSlice.js:86-97 | a pending fetch followed by its rejection keeps the notifications, ends loading and records an error |
| `TeacherService.CreateTeacherProfile` | src/lib/teacherService.js:5-29 | exactly one row is appended with a fresh id and the submitted attributes; the returned row is the stored one; other tables unchanged |
| `TeacherService.UpdateTeacherProfile` | src/lib/teacherService.js:30-65 | on the user's rows the six profile columns and the update time are overwritten while id, user, verification and rating stay; other users' rows and other tables are unchanged; no row is returned exactly when the user has none |
| `TeacherService.GetTeacherIdByUserId` | src/lib/teacherService.js:237-248 | fails with "No teacher found for this user ID" exactly when the user has no row; otherwise returns the id of one of the user's rows |
| `TeacherService.GetTeacherByUserId` | src/lib/teacherService.js:250-266 | null exactly when the user has no row; otherwise one of the user's rows |
| `TeacherService.LookupsAgree` | src/lib/teacherService.js:237-266 | the id lookup fails exactly when the row lookup finds nothing, and otherwise returns that row's id |
| `TeacherService.ClearTeacherAvailability` | src/lib/teacherService.js:268-275 | every row of the teacher goes; every other teacher's row keeps its multiplicity |
| `TeacherService.SaveTeacherAvailability` | src/lib/teacherService.js:278-286 | exactly one row is appended with the teacher, day, start and end and a fresh id, with no end-after-start check |
| `TeacherService.GetTeacherAvailabilityByTeacherId` | src/lib/teacherService.js:287-297 | defined by its body; characterised by `GetReadsOwnRows`, `GetAfterAppend`, `GetAfterClear` and `ReplaceThenGet` |
| `TeacherService.GetReadsOwnRows` | src/lib/teacherService.js:287-297 | the read returns a window exactly when some row of that teacher carries it |
| `TeacherService.GetAfterAppend` | src/lib/teacherService.js:278-297 | after one insert the read gains that row's window exactly when the row belongs to the reader |
| `TeacherService.UpdateTeacherAvailability` | src/lib/teacherService.js:298-307 | rows with the id get the new start and end whoever owns them; id, teacher and day are kept; every other row unchanged |
| `TeacherService.UpdateUnknownIdIsNoOp` | src/lib/teacherService.js:298-307 | an id no row carries leaves the tables unchanged |
| `TeacherService.DeleteTeacherAvailability` | src/lib/teacherService.js:308-316 | exactly the rows with the id go, whoever owns them; every other row keeps its multiplicity |
| `TeacherService.ReplaceAvailability` | src/lib/teacherService.js:268-286 | defined by its body, a clear followed by one save per window; characterised by `ReplaceThenGet` |
| `TeacherService.GetAfterSaveAll` | src/lib/teacherService.js:278-297 | saving windows one by one adds exactly those windows, in order, to that teacher's read and nothing to anyone else's |
| `TeacherService.GetAfterClear` | src/lib/teacherService.js:268-297 | after clearing, the teacher's read is empty |
| `TeacherService.ReplaceThenGet` | src/lib/teacherService.js:268-297 | clearing then saving a list of windows makes the read equal that list as a multiset (an empty list leaves nothing); another teacher's read is unchanged |
| `TeacherService.ClearKeepsOthersRead` | src/lib/teacherService.js:268-297 | clearing one teacher does not change another teacher's read |
| `TeacherService.ClearAssociations` | src/lib/teacherService.js:317-343 | the teacher's join rows in that table go; every other teacher's row keeps its multiplicity; the other tables are unchanged |
| `TeacherService.AddAssociation` | src/lib/teacherService.js:206-235 | one join row for the teacher and id is added and returned; the other tables are unchanged |
| `TeacherService.AddAll` | src/lib/teacherService.js:344-369 | the inserts of an update touch only the named join table |
| `TeacherService.AddAllIsRepeatedInsert` | src/lib/teacherService.js:344-369 | adding a list of ids is the single insert of the first id followed by adding the rest |
| `TeacherService.AddRowsAppends` | src/lib/teacherService.js:344-369 | the inserts append one join row per id, in list order |
| `TeacherService.UpdateAssociations` | src/lib/teacherService.js:344-369 | defined by its body; characterised by `UpdateAssociationsReplaces` |
| `TeacherService.UpdateAssociationsReplaces` | src/lib/teacherService.js:344-369 | afterwards the teacher's ids in that table equal the supplied list as a multiset (an empty list clears them); other teachers' rows, the other join tables, the teachers and the availability are unchanged |
| `ProfileForm.ParseDigitsNumber` | src/sections/user/user-edit-form.js:29-33 | the number cast reads a string of digits as its decimal value |
| `ProfileForm.NegativeNeedsMinus` | src/sections/user/user-edit-form.js:29-33 | only a leading minus sign casts to a negative number |
| `ProfileForm.NumberCast` | src/sections/user/user-edit-form.js:29-33 | defined by its body; characterised by `ParseDigitsNumber`, `NegativeNeedsMinus` and `ExperienceYearsBounds` |
| `ProfileForm.ExperienceYearsError` | src/sections/user/user-edit-form.js:29-33 | accepted exactly when the value casts to a number in [0, 100]; a failed cast, a value below 0 and one above 100 each give their message |
| `ProfileForm.TextError` | src/sections/user/user-edit-form.js:34-39 | accepted exactly when non-empty and its JavaScript length, in UTF-16 code units, is within the maximum; empty gives the required message and too long gives the length message |
| `ProfileForm.AstralBioTooLong` | src/sections/user/user-edit-form.js:37-39 | a bio of 300 emoji, 600 UTF-16 code units, is rejected as too long although it holds only 300 characters |
| `ProfileForm.TeachingModeError` | src/sections/user/user-edit-form.js:40-42 | accepted exactly when the mode is online, physical or hybrid |
| `ProfileForm.LanguagesError` | src/sections/user/user-edit-form.js:43-45 | accepted exactly when at least one language is given and none is empty |
| `ProfileForm.Validate` | src/sections/user/user-edit-form.js:28-46 | defined by its body; characterised by `DefaultValuesRejected` and the per-field error functions |
| `ProfileForm.Valid` | src/sections/user/user-edit-form.js:28-46 | defined by its body; characterised by `ValidMeaning` |
| `ProfileForm.ValidMeaning` | src/sections/user/user-edit-form.js:28-46 | the schema accepts exactly the values whose five fields are each within their rule, text lengths counted in UTF-16 code units |
| `ProfileForm.DefaultValuesRejected` | src/sections/user/user-edit-form.js:50-56 | the untouched form fails on education, experience, bio and languages, and passes on teaching mode |
| `ProfileForm.ExperienceYearsBounds` | src/sections/user/user-edit-form.js:29-33 | 0 and 100 are accepted, -0.5 and 100.5 are not, blanks around typed digits are ignored, and an empty field counts as missing |
| `ProfileForm.ChooseMode` | src/sections/user/user-edit-form.js:147-157 | picking a menu entry sets the teaching mode to that entry's value and changes nothing else |
| `ProfileForm.BothIsAlwaysRejected` | src/sections/user/user-edit-form.js:151-155 | picking "Both" makes the form fail the schema whatever else it holds, and no entry offers "hybrid" |
| `ProfileForm.CorrectedMenuAccepted` | src/sections/user/user-edit-form.js:151-155 | with the third entry valued "hybrid", every entry passes, the entries are exactly the accepted modes, and picking one keeps a valid form valid |
| `ProfileForm.LanguageIdOf` | src/sections/user/user-edit-form.js:96-98 | a name maps to the id of the first catalogue entry with that name, and to undefined exactly when no entry has it |
| `ProfileForm.LanguageIds` | src/sections/user/user-edit-form.js:96-98 | the mapping keeps length and order, position by position |
| `ProfileForm.OfferedNamesResolve` | src/sections/user/user-edit-form.js:96-98 | names picked from the catalogue all resolve to ids |
| `ProfileForm.NameMapsBackToId` | src/sections/user/user-edit-form.js:96-98 | with distinct catalogue names an entry's name maps back to its own id |
| `ProfileForm.Submit` | src/sections/user/user-edit-form.js:96-102 | something is submitted exactly when the schema accepts the values; the submission is the cast form data with only the languages replaced by their ids |
| `JsValues.FalsyValues` | src/sections/user/user-edit-form.js:132 | the `teacherData &&` test fails exactly on `undefined`, `null`, `false`, `0` and `''`; every array and object passes |
| `ProfileForm.SomeFilled` | src/sections/user/user-edit-form.js:132 | true exactly when some value is neither `''` nor null, `undefined` included |
| `ProfileForm.IsFormPopulated` | src/sections/user/user-edit-form.js:132 | true exactly when the loaded teacher record is present and one of its values is neither `''` nor null |
| `ProfileForm.PopulatedExamples` | src/sections/user/user-edit-form.js:132 | a record of only `''` and null is not populated; one with an `undefined` value is |
| `ProfileForm.SubmitButton` | src/sections/user/user-edit-form.js:198-205 | a populated form shows "Update" and submits an update, otherwise "Next" and a create |
| `UserCard.BioExcerpt` | src/sections/user/user-card.js:82-86 | absent, empty or non-string bio gives the placeholder; fewer than 10 pieces show whole; otherwise the first 6 pieces joined by spaces plus "..." |
| `UserCard.ExcerptIsPrefix` | src/sections/user/user-card.js:83-84 | a cut-short bio is a proper prefix of the bio, ending before a space, plus "...", and is strictly shorter than the bio |
| `UserCard.MidLengthBiosShownWhole` | src/sections/user/user-card.js:83-85 | bios of 7 to 9 pieces are shown whole |
| `UserCard.ListOrDefault` | src/sections/user/user-card.js:28-30 | an absent list defaults to empty, an array is kept, and anything else fails at render |
| `UserCard.Card` | src/sections/user/user-card.js:23-34 | the card renders exactly when all three lists are absent or arrays, and shows the bio excerpt |
| `UserCard.AbsentListsAreEmpty` | src/sections/user/user-card.js:28-30 | a user without languages, grade levels or subjects gets three empty lists |
| `UserCard.NullListFails` | src/sections/user/user-card.js:28-30 | a list given as null is not defaulted and the card cannot render |
| `RoleGate.Page` | src/app/dashboard/group/six/page.js:13-22 | the view is shown exactly when the user is present and the role is the string "student" or "teacher"; otherwise 403 |
| `RoleGate.StudentSeesView` | src/app/dashboard/group/six/page.js:17-18 | role "student" renders the view |
| `RoleGate.TeacherSeesView` | src/app/dashboard/group/six/page.js:17-18 | role "teacher" renders the view |
| `RoleGate.OtherRolesRefused` | src/app/dashboard/group/six/page.js:17-20 | any other role string renders 403 |
| `RoleGate.MissingRoleRefused` | src/app/dashboard/group/six/page.js:14-20 | a missing user, a missing role or a non-string role renders 403 |

## Left out

- Network and store wiring is not modelled: the async thunks of the notification slice (`fetch`, `localStorage`, HTTP status handling), Redux dispatch, `fetch` of the language catalogue, snackbars, router navigation and `setTimeout`. The reducer receives only the requests' settled outcomes.
- The availability editor's submit (save vs update by `isFormPopulated`) only dispatches network requests, so it is not modelled.
- The load transform renders times with the browser's `toLocaleTimeString`, which depends on the locale and time zone. It is a parameter of `AvailabilityForm.LoadForm`.
- The availability schema's `checked: boolean().required()` rule always holds for the form state the model keeps.
- The SQL aggregate reads `getAllTeachers` and `getTeacherById` are not modelled: grouping, `array_agg(DISTINCT)` and NULL join rows are database-engine semantics.
- `deleteTeacherProfile` is not modelled, because the cascade behind it is not visible. The commented-out transactional update is dead code.
- Database failures are not modelled, including the rethrown "Failed to fetch teacher details" in `getTeacherByUserId`. Partial failure of concurrent association inserts is not modelled either.
- TeacherService.UpdateTeacherProfile: its inputs are always present values, so an omitted argument being written as NULL is not represented.
- TeacherService.GetTeacherIdByUserId: the query has no ORDER BY, so which of several rows of one user comes first is engine-dependent. The model takes the first in table order, and its contract promises only "one of the user's rows".
- TimeLabels.ConvertToMinutes: the model has no Date range and no double precision. JavaScript gives an Invalid Date once the time falls outside plus or minus 8.64e15 ms, and `parseInt` loses precision past 2^53. Either can make the `is-greater` test fail on labels with absurd hours, such as "2500000000:00", where the model still compares. No menu entry comes near these values.
- ProfileForm.NumberCast: reads only the plain decimal form (optional sign, digits, optional fraction, ".5" and "5." included). Exponents, hexadecimal, binary, octal and `Infinity` read as NaN here, and the value is an exact rational rather than a double.
- ProfileForm.Validate: form values are the strings the inputs produce, plus a loaded number for experience. Yup's casting of other types (numbers to strings, `null`, arrays) is not modelled. When several rules of one field fail, the first in declaration order is reported.
- The profile form's reset from the loaded teacher record, its fetch of the current teacher, and its back button are not modelled: they are effects and navigation.
- The card's other fields (name, picture, rate, student count), the booking dialog and all JSX, MUI styling and theming are presentation only.
- The chatbot section (`src/sections/eight/view.js`) is a network client with streaming, outside the modelled core.

## Findings

| source | as written | input that shows it | evidently intended | confidence | as-written member | corrected member |
|---|---|---|---|---|---|---|
| src/sections/user/user-edit-form.js:154 | the teaching-mode menu offers the values online, physical and `both` | pick "Both" with every other field valid: the schema at line 41 rejects the form with "Teaching mode must be online, physical, or hybrid", and no entry offers `hybrid` | the third entry carries `hybrid`, a mode the schema accepts | high; not executed | `ProfileForm.BothIsAlwaysRejected` | `ProfileForm.CorrectedMenuAccepted` |
