# MediTrack dose schedule and archive, in Dafny

MediTrack tracks medication courses. A user enters a course: a name, an optional description, a dosage
frequency in hours, a duration in days, and a first day and time. The app generates the doses the course
will take, one every `dosageFrequencyHours` hours, for as many as fit in the duration. The user ticks
doses off. When the last dose is taken, the course moves from the active `medications` collection into the
`history` collection.

This project models that core and proves properties of it:

- `types.dfy` (`Types`): the records `Dose`, `Medication` and `HistoricalMedication`, and the integer
  millisecond clock with `AddHours` and `AddDays`.
- `schedule.dfy` (`ScheduleGenerator`): the dose-schedule generator. The loop is a method, proved equal to
  the function `Schedule`. Count, first time, spacing, order, untaken flags and ids are proved about that
  function.
- `start_time.dfy` (`StartTime`): the `H:MM` / `HH:MM` pattern of the time field, its reading into hours
  and minutes, and `setHours` on the chosen day.
- `validation.dfy` (`Validation`): the server's form schema.
- `creation.dfy` (`Creation`): building a new course record from a submission. Both the page and the
  server action do it this way.
- `doses.dfy` (`Doses`): setting the taken flag of one dose. The page, the server action and the
  optimistic reducer all use this one `map`.
- `tracker.dfy` (`Tracker`): the page's two collections as a class, and its two handlers. Recording a dose
  archives the course once every dose is taken. The proof tracks a ghost map from each archived course to
  its history record. The invariant `Valid` says a course is either active or archived, never both.
- `server_actions.dfy` (`ServerActions`): the server's `medications` collection. `addMedication` validates
  before writing. `updateDoseState` rewrites only the dose list and never archives.
- `dosage_schedule.dfy` (`DosageSchedule`): the full-schedule view. It covers the optimistic reducer,
  grouping the doses by day in a dictionary, sorting the day keys, and marking the complete days.
- `medication_card.dfy` (`MedicationCard`): the "next dose" panel, which shows the first untaken dose, and
  the update its checkbox requests.
- `header.dfy` (`Header`): the avatar initials. Both the code as written and a corrected version are
  modelled (see Findings).

Abstractions:

- Times are integers, in milliseconds on the local clock. ISO strings are not modelled.
- Frequencies and durations are integers. The generator requires a frequency of at least one.
- Record and dose ids are supplied fresh by the caller. This stands for `crypto.randomUUID` and the
  store's generated keys.
- The calendar day of a time is a parameter, `dayKey`.

## Model

| member | source | states |
|---|---|---|
| Doses.SetTaken | src/app/page.tsx:137-139 | the list keeps its length; every dose keeps its id and time; the flag becomes `taken` exactly for the doses whose id matches |
| Doses.SetTakenLeavesOthers | src/app/page.tsx:137-139 | doses whose id differs come out identical |
| Doses.SetTakenIdempotent | src/app/page.tsx:137-139 | applying the same update twice gives the same list as applying it once |
| Doses.SetTakenAllTaken | src/app/page.tsx:137-141 | after setting a dose taken, every dose is taken iff every dose with another id was already taken |
| ScheduleGenerator.LoopIterations | src/app/page.tsx:79-82 | the loop bound as written, for any integer frequency: for a frequency of at least one it is `DoseCount` iterations, and the loop never ends exactly when the frequency is 0 and the duration positive |
| ScheduleGenerator.ZeroFrequencyLoopsForever | src/app/page.tsx:79-82 | a frequency of 0 with a positive duration makes the loop run forever |
| ScheduleGenerator.DoseCount | src/app/page.tsx:79-82 | the number of loop iterations is the floor of `durationDays*24 / frequencyHours`; it is 0 for a non-positive duration, and 0 iff the frequency exceeds the whole course |
| ScheduleGenerator.GenerateDoseSchedule | src/app/page.tsx:73-91 | the loop (the same loop is at lines 21-38 of src/lib/actions.ts) returns exactly the schedule value `Schedule` |
| ScheduleGenerator.Schedule | src/app/page.tsx:79-88 | (no contract of its own) the schedule value the loop builds; its count, first time, spacing, order, flags and ids are stated by `ScheduleShape`, `ScheduleAscending`, `ScheduleEmptyIff` and `ScheduleIdsDistinct` |
| ScheduleGenerator.ScheduleShape | src/app/page.tsx:79-88 | the schedule has `DoseCount` doses; the first is at the start; each next dose is `frequencyHours` hours after the previous; none is taken; dose i has the i-th fresh id |
| ScheduleGenerator.ScheduleAscending | src/app/page.tsx:82-83 | dose times strictly increase along the list |
| ScheduleGenerator.ScheduleEmptyIff | src/app/page.tsx:79-82 | the schedule is empty iff `frequencyHours > durationDays*24` |
| ScheduleGenerator.ScheduleIdsDistinct | src/app/page.tsx:84-85 | distinct fresh ids give doses with distinct ids |
| ScheduleGenerator.EightHourlyForOneDay | src/app/page.tsx:79-88 | every 8 hours for one day gives three untaken doses, at the start, +8 h and +16 h |
| StartTime.TimeMatches | src/lib/actions.ts:16 | (no contract of its own) the regular expression, alternative by alternative; its meaning on values is stated by `TimeMatchesIff` |
| StartTime.TimeMatchesIff | src/lib/actions.ts:16 | the time pattern accepts a text iff it is one or two hour digits worth 0-23, a colon, and two minute digits worth 00-59 |
| StartTime.ParseTime | src/lib/actions.ts:57 | an accepted text yields the number before the colon as the hour (0-23) and the two digits after it as the minute (0-59), digit by digit for both the `H:MM` and the `HH:MM` form |
| StartTime.SetHours | src/lib/actions.ts:58-59 | the result is on the same calendar day, at the given hour and minute, with seconds and milliseconds zero |
| StartTime.StartTimestamp | src/app/page.tsx:105-107 | the start is the chosen day at the hour and minute read from the time text, on a whole minute |
| StartTime.EightOClock | src/lib/actions.ts:57-59 | "08:00" gives eight o'clock of the chosen day |
| Validation.ValidForm | src/lib/actions.ts:10-17 | (no contract of its own) `formSchema.safeParse(values).success`; its meaning on values is stated by `ValidFormIff` |
| Validation.ValidFormIff | src/lib/actions.ts:10-17 | a submission is rejected iff the name is shorter than 2, the frequency or duration is below 1, or the time is not hours 0-23 and minutes 00-59 |
| Creation.NewMedication | src/app/page.tsx:105-120 | (no contract of its own) the record as a value; its fields, default description, start and schedule are stated by `NewMedicationShape` |
| Creation.NewMedicationShape | src/app/page.tsx:105-120 | the record carries the submitted fields and owner; the description is `""` when none was given; the start is on the chosen day and time; the doses follow the schedule from the start, the first at the start, none taken |
| Creation.BuildMedication | src/lib/actions.ts:57-75 | the statements that split the time, set the hours, run the generator and assemble the record produce exactly `NewMedication` |
| Tracker.ArchiveRecord | src/app/page.tsx:145-154 | the record counts every dose of the course and spans exactly `durationDays` days from its start; the other fields are stated by `CompletionArchives` |
| Tracker.DoseUpdate | src/app/page.tsx:131-172 | a dose update never adds an active course and never loses a history record; it adds at most the one record under `historyId` |
| Tracker.UnknownMedicationUnchanged | src/app/page.tsx:131-135 | with no user, or for an id that is not active, neither collection changes |
| Tracker.PartialUpdateOnlyFlag | src/app/page.tsx:137-171 | when the update does not complete the course, history is untouched, other courses are untouched, and in the course only the matching dose's flag changes |
| Tracker.CompletionArchives | src/app/page.tsx:141-158 | when every dose is then taken, the course leaves `medications`, and `history` gains exactly one record (the others unchanged). That record has `totalDoses` = number of doses, `startDate` = the course's `initialDoseTimestamp`, `endDate` = that + `durationDays` days, name, description and frequency of the course, owner from the call and `completedAt` = now |
| Tracker.DoseUpdateIdempotent | src/app/page.tsx:131-172 | repeating the same update leaves both collections as after the first |
| Tracker.DoseUpdateKeepsActive | src/app/page.tsx:131-172 | every update keeps each active course on its generated slots and never leaves a complete, non-empty course active |
| Tracker.TakingLastDoseArchives | src/app/page.tsx:137-144 | marking a dose taken archives the course iff every other dose of it was already taken |
| Tracker.MedicationTracker.constructor | src/app/page.tsx:18-19 | both collections start empty, and the invariant holds |
| Tracker.MedicationTracker.HandleAddMedication | src/app/page.tsx:93-129 | corrected (see Findings): without a user, or for a submission the server's form schema rejects (name under two characters, frequency or duration below one, time outside the pattern), nothing changes; otherwise the built record joins `medications` under the new id; history is untouched; the invariant is kept |
| Tracker.MedicationTracker.HandleUpdateDose | src/app/page.tsx:131-172 | the new collections are `DoseUpdate` of the old ones. Writing the history record first and deleting the course after keeps the invariant: each course is active or archived, never both, and an archived course has its own record |
| ServerActions.ServerDoseUpdate | src/lib/actions.ts:87-105 | the server update keeps exactly the same course ids: it never removes or adds a course |
| ServerActions.ServerDoseUpdateOnlyFlag | src/lib/actions.ts:87-105 | a missing course changes nothing; otherwise the same ids remain, other courses are untouched, and in the course only the matching dose's flag changes |
| ServerActions.ServerUpdateKeepsCompletedCourse | src/lib/actions.ts:101-105 | even when every dose becomes taken, the course stays in the collection: the server never archives |
| ServerActions.ServerDoseUpdateIdempotent | src/lib/actions.ts:101-103 | repeating the same server update changes nothing more |
| ServerActions.MedicationCollection.constructor | src/lib/actions.ts:77 | the collection starts empty |
| ServerActions.MedicationCollection.AddMedication | src/lib/actions.ts:40-85 | invalid input returns the error and writes nothing; valid input returns success and adds exactly the built record, without an owner, under the new id |
| ServerActions.MedicationCollection.UpdateDoseState | src/lib/actions.ts:87-112 | the collection becomes `ServerDoseUpdate` of the old one |
| DosageSchedule.OptimisticDoses | src/components/dosage-schedule.tsx:33-37 | the shown list keeps its length and order; doses with another id are unchanged; the matching dose gets the new flag |
| DosageSchedule.GroupByDay | src/components/dosage-schedule.tsx:44-51 | the dictionary has one entry per day a dose falls on; each entry lists that day's doses in list order; its key order has no duplicates |
| DosageSchedule.DosesOnMembership | src/components/dosage-schedule.tsx:44-51 | a dose is in a day's group iff it is one of the doses and falls on that day |
| DosageSchedule.DosesOnKeepsOrder | src/components/dosage-schedule.tsx:49 | a day's group is a subsequence of the dose list: the relative order is kept |
| DosageSchedule.GroupSizesSum | src/components/dosage-schedule.tsx:44-51 | over distinct days covering every dose, the group sizes add up to the number of doses |
| DosageSchedule.DayCompleteIff | src/components/dosage-schedule.tsx:59 | a day's group is all taken iff every dose falling on that day is taken |
| DosageSchedule.Insert | src/components/dosage-schedule.tsx:53 | inserting a new key into a strictly sorted list keeps it strictly sorted and adds exactly that key |
| DosageSchedule.SortDays | src/components/dosage-schedule.tsx:53 | the sorted day keys are in strictly ascending string order and are a permutation of the input |
| DosageSchedule.SortDaysSameDays | src/components/dosage-schedule.tsx:53 | sorting keeps exactly the given days, each once |
| DosageSchedule.DayCards | src/components/dosage-schedule.tsx:44-66 | the cards are in ascending day order, one per day that has a dose. Each card lists exactly that day's doses and is complete iff they are all taken. Together the cards list every dose once |
| MedicationCard.NextDoseIndex | src/components/medication-card.tsx:32 | a found position holds an untaken dose and every dose before it is taken; nothing is found iff all doses are taken |
| MedicationCard.NextDose | src/components/medication-card.tsx:32-40 | the all-taken message is shown iff all doses are taken; otherwise the shown dose is untaken and every dose before it is taken |
| MedicationCard.CheckNextDose | src/components/medication-card.tsx:42-43 | no request iff all doses are taken; a request names the card's course, `taken` = the checkbox state, and the id of the first untaken dose |
| MedicationCard.NextDoseIsFirstPending | src/components/medication-card.tsx:32 | if any dose is pending, there is a next dose, and it is no later than that dose |
| Header.Split | src/components/header.tsx:32 | `split(' ')` gives at least one piece, and no piece contains a space |
| Header.JoinSplit | src/components/header.tsx:32 | joining the pieces with the separator gives back the string |
| Header.SplitMany | src/components/header.tsx:33 | there is more than one piece iff the name contains a space |
| Header.ToUpper | src/components/header.tsx:34 | upper-casing keeps the length and maps each character through `UpperChar` |
| Header.GetInitials | src/components/header.tsx:30-37 | `getInitials` as written; the result is never empty, and its cases are stated by `InitialsWithoutName`, `InitialsOneWord`, `InitialsManyWords` and `LeadingSpaceInitials` |
| Header.InitialsWithoutName | src/components/header.tsx:31 | a missing or empty name gives "U" |
| Header.InitialsOneWord | src/components/header.tsx:36 | a name without spaces gives its upper-cased first character |
| Header.InitialsManyWords | src/components/header.tsx:32-34 | with no empty word, several words give the upper-cased first characters of the first and last words |
| Header.InitialsLength | src/components/header.tsx:31-36 | whenever no word is empty, the result is 1 or 2 characters long |
| Header.LeadingSpaceInitials | src/components/header.tsx:32-34 | as written, " Ana" gives "UNDEFINEDA" |
| Header.Initials | src/components/header.tsx:30-37 | corrected: empty words are skipped, so the result is always 1 or 2 characters |
| Header.InitialsAgree | src/components/header.tsx:30-37 | whenever no word is empty, the corrected initials equal the ones as written |
| Header.LeadingSpaceInitialsCorrected | src/components/header.tsx:30-37 | the corrected initials of " Ana" are "A" |

## Left out

- Firestore I/O: the snapshot subscriptions, `addDoc`/`updateDoc`/`deleteDoc`, and the `orderBy` on `createdAt` and `completedAt`. The collections are in-memory maps keyed by id.
- The failure paths of the store writes are not modelled. These are the toasts, the console logs and the "Failed to add medication." result. Every write is taken to succeed.
- Authentication, app start-up and the user lookup are not modelled. The signed-in user is an `Option` parameter.
- `firestore` being unavailable is not modelled. It is folded into the missing-user case.
- AI description generation (`generateDescriptionForMedication`) is an opaque language-model call and is not modelled.
- `date-fns` (`addHours`, `addDays`, `format`), time zones, DST and ISO string formatting are not modelled. Time is an integer millisecond clock; a day is 24 hours. Which day a time falls on is the parameter `dayKey`.
- Non-integer frequencies and durations (`z.coerce.number()`) and float division are not modelled. Both are integers.
- `crypto.randomUUID` and the store's generated ids are not modelled. Fresh ids are inputs.
- React timing is not modelled: `useOptimistic`/`useTransition`, `revalidatePath`, and races between concurrent dose updates. The model runs one handler at a time.
- Tracker.MedicationTracker.HandleAddMedication: nothing in the repository calls the page's `handleAddMedication`. The dialog's form calls the server action `addMedication` instead (src/components/add-medication-form.tsx:59), so no caller validates the handler's input. The model adds the server's schema check (see Findings). So the model refuses input the handler as written would store: a one-character name, a duration below one (a course with no doses), and a time such as "25:99", which `setHours` rolls into the next day. A text without a colon makes the handler throw before anything is written, which the refusal matches.
- Tracker.MedicationTracker.HandleAddMedication: the page writes to `users/{uid}/medications` (src/app/page.tsx:38, 123), while `addMedication` writes to the top-level `medications` collection (src/lib/actions.ts:77), which the page never reads. The two classes are kept apart, and no link between them is modelled.
- Validation.ValidForm: the name rule is the code's, at least two characters counted without trimming. It is not "non-empty after trimming".
- Validation.ValidForm: strings are sequences of characters, so `|v.name| >= 2` counts code points. `min(2)` counts UTF-16 units, so a name made of one emoji passes the source's schema but fails `ValidForm`. The same holds for `Validation.ValidFormIff`.
- Validation.ValidFormIff: lengths are in code points, not UTF-16 units (see `ValidForm`).
- Header.GetInitials: `w[0]` is taken as a whole character. In JavaScript it is one UTF-16 unit, which for a name starting with a character outside the Basic Multilingual Plane is a lone surrogate.
- Header.ToUpper: upper-cases ASCII letters only. Full Unicode case mapping is not modelled. `toUpperCase` can lengthen a string, for example "ß" becomes "SS".
- Header.InitialsLength: the 1-2 character bound holds for the ASCII upper-casing of the model. With full Unicode mapping, "ßa ßb" gives "SSSS".
- Header.Initials: the 1-2 character bound holds for the ASCII upper-casing of the model, not for the full Unicode mapping (see `InitialsLength`).
- Tracker.DoseUpdate: a dose id that matches no dose is not an error, as in the code. The list is written back unchanged, and it may still complete and archive a course whose doses were all taken already.
- Rendering (formatted day titles, badges, checkbox markup) is not modelled. Only the values the views compute are.

## Findings

| source | as written | input that shows it | evidently intended | confidence | as-written member | corrected member |
|---|---|---|---|---|---|---|
| src/components/header.tsx:32-34 | `names[0][0]` and `names[names.length - 1][0]` are read without checking that the words are non-empty | a display name with a leading, trailing or doubled space, e.g. " Ana": the split gives `["", "Ana"]` and the initials are "UNDEFINEDA" | skip empty words; " Ana" gives "A", and the result is one or two characters, with ASCII upper-casing | not executed | Header.LeadingSpaceInitials | Header.Initials |
| src/app/page.tsx:79-82 | `handleAddMedication` runs the generator on the submitted frequency without checking it | latent, since nothing in the repository calls `handleAddMedication` (the dialog's form submits through `addMedication`): frequency 0 with duration 1 would make `24 / 0` Infinity, so `i < numberOfDoses` would hold forever and the loop would never end | check the submission against the server's form schema before generating, and change nothing when it is rejected | not executed | ScheduleGenerator.ZeroFrequencyLoopsForever | Tracker.MedicationTracker.HandleAddMedication |
