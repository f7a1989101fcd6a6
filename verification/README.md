# Workout tracker (mapty): a Dafny model of its data and state logic

This project models the data and state logic of the map-based workout tracker in `script.js`, without the browser. The model covers:

- **Workout record.** A record is a tagged union, `Running` or `Cycling`, with the fields of the common `Workout` base: id, date, coordinates, distance, duration and description. A run adds cadence and pace (`duration / distance`). A ride adds elevation gain and speed (`distance / (duration / 60)`). The constructor computes the derived fields once and never recomputes them.
- **Id and description.**
  - The id is the last (up to) ten characters of the decimal millisecond timestamp.
  - The description is `"<Type> on <Month> <day>"`.
- **Validation.** `_isValidInput` accepts a list of numbers when every one is finite and strictly positive. A run checks distance, duration and cadence. A ride checks distance and duration only.
- **The App state.** It holds the in-memory collection, the persisted collection (an optional sequence: `None` means the storage key is absent) and the last map click. A save writes the collection through `JSON.stringify`, so storage holds it in its saved form: a ride's NaN or infinite elevation gain becomes `null`. The handlers are:
  - submit: append the new record, then save;
  - delete: filter the stored sequence by id, save, then reload;
  - clear: remove the key, then reload;
  - reload: restore memory from storage.

Modules:

| module | file | contents |
|---|---|---|
| `Wrappers` | wrappers.dfy | `Option` |
| `Decimal` | decimal.dfy | decimal strings of naturals (`n + ''`), digit values, suffix lemmas |
| `Validation` | validation.dfy | JavaScript numbers (`Num`), `_isValidInput` |
| `Workouts` | workouts.dfy | the record, id, description, constructors |
| `Store` | store.dfy | the persisted collection, its saved form, filter by id, load |
| `Tracker` | tracker.dfy | App state, handlers, event sessions, scenarios |

Clock readings are parameters. `Date.now()` becomes a timestamp `now: nat`. `new Date()` becomes a `CalendarDay`: a month index from 0 to 11 and a day from 1 to 31.

Behaviour of the code that the model keeps:

- **Malformed stored text.** `JSON.parse` throws (script.js:182). The model's storage holds records, never text, so it cannot be malformed.
- **Delete.** The code filters out every record carrying the id, not only the first (script.js:193). `Store.RemoveId` does the same.
- **Delete with no stored collection.** `JSON.parse(null)` yields `null`, and `null.filter` throws. `Tracker.Delete` reports this as an uncaught error and leaves the state unchanged.
- **Submit before any map click.** Reading `#mapEvent.latlng` throws before any validation runs (script.js:69). `Tracker.Submit` reports this as an uncaught error and leaves the state unchanged.

## Model

| member | source | states |
|---|---|---|
| Validation.IsValidInput | script.js:71-73 | `every` over the inputs holds exactly when every input is finite and > 0; an accepted list holds no NaN and no +Infinity |
| Validation.RejectsBoundaryValues | script.js:71-73 | 0, any negative number, NaN, +Infinity and -Infinity are rejected at any position of the input list |
| Validation.ValidTriple | script.js:77 | the three-argument call used for runs holds exactly when distance, duration and cadence are each finite and positive |
| Validation.ValidPair | script.js:83 | the two-argument call used for rides holds exactly when distance and duration are each finite and positive |
| Tracker.Accepts | script.js:75-85 | a run is accepted exactly when distance, duration and cadence are finite and positive; a ride is accepted when distance and duration are, whatever its elevation |
| Tracker.NewWorkout | script.js:75-85 | the record built after validation has the form's kind, the id from `now`, the date, the click position, the form's distance and duration, the run's cadence or the ride's elevation, and consistent derived fields |
| Tracker.Submit | script.js:62-92 | with no map click yet, the handler throws before validating; rejected input gives the "positive numbers" prompt and leaves the state unchanged; accepted input appends exactly one record (earlier records unchanged) built from the form, the click position and the clock, with matching kind, consistent derived fields and the id from `now`, and saves the whole in-memory sequence, which a reload gives back exactly when no ride's elevation is NaN or infinite |
| Tracker.RideElevationUnchecked | script.js:81-85 | a ride with an elevation gain of -5, or any elevation (even NaN), is accepted |
| Tracker.RunCadenceChecked | script.js:75-79 | a run whose cadence is not a finite positive number gets the prompt, and the state is unchanged |
| Workouts.NewRunning | script.js:221-234 | the run keeps its inputs, takes the id from the clock and the description from the date, and has a positive pace with pace × distance = duration |
| Workouts.NewCycling | script.js:237-250 | the ride keeps its inputs, elevation included as given, and has a positive speed with speed × duration = 60 × distance |
| Workouts.PaceTimesSpeed | script.js:231-250 | for the same distance and duration, pace (min/km) times speed (km/h) equals 60 |
| Workouts.MakeId | script.js:206 | the id is a suffix of the timestamp's decimal string; its length is min(10, length of that string); it is all digits |
| Workouts.IdValue | script.js:206 | the digits of the id denote the timestamp modulo 10^10 |
| Workouts.IdsEqualIff | script.js:206 | for timestamps of at least ten digits, two ids are equal exactly when the timestamps agree modulo 10^10 |
| Workouts.IdsDistinctWithinWindow | script.js:206 | two timestamps less than 10^10 ms apart give different ids |
| Workouts.IdRepeatsAfterWindow | script.js:206 | the id is not collision-free: timestamps exactly 10^10 ms apart give the same id |
| Decimal.ToDecimal | script.js:206 | the decimal string of a natural number is non-empty, all digits, and has no leading zero |
| Decimal.ValueOfDecimal | script.js:206 | reading the decimal string back gives the number |
| Decimal.ValueOfSuffix | script.js:206 | the last k digits of a digit string denote its value modulo 10^k |
| Decimal.ValueInjective | script.js:206 | two digit strings of equal length with equal value are equal |
| Workouts.Capitalize | script.js:217 | the result has the length of the input and the same characters after the first; a lower-case ASCII first letter becomes its upper-case letter, and any other first character is kept |
| Workouts.CapitalizedNameIsTitle | script.js:217 | the type name with its first letter upper-cased is "Running" or "Cycling" |
| Workouts.MonthsTable | script.js:216 | each of the twelve month names occurs once in the table and contains no space |
| Workouts.Describe | script.js:215-218 | the description starts with the type's title ("Running" or "Cycling") followed by " on " |
| Workouts.DescribeReadsBack | script.js:215-218 | the description parses back: title, " on ", up to the next space a name from the month table that maps back to the month index, then digits with no leading zero whose value is the day |
| Workouts.DescribeInjective | script.js:215-218 | two descriptions are equal only when the type, month and day are all equal |
| Tracker.AprilThirdRun | script.js:215-218 | a run on month index 3, day 3 is described as "Running on April 3" |
| Store.RemoveId | script.js:192-193 | after the filter, no record has the id; a record is kept exactly when it was stored and has another id; the length drops by the number of records that matched |
| Store.RemoveIdAppend | script.js:193 | filtering a concatenation filters each part, so the kept records keep their relative order |
| Store.RemoveAbsentId | script.js:193 | deleting an id no record carries changes nothing |
| Store.RemoveIdIdempotent | script.js:193 | deleting the same id twice is the same as deleting it once |
| Store.RemoveIdDistinct | script.js:192-195 | when stored ids are distinct, at most one record matches; deleting a present id removes exactly one record; ids stay distinct |
| Store.DistinctSnoc | script.js:87 | appending a record whose id no earlier record carries keeps the ids pairwise distinct |
| Validation.ThroughJson | script.js:174-183 | a value written by `JSON.stringify` and read by `JSON.parse` is always finite or `null`; it comes back unchanged exactly when it was finite or `null` already, and NaN and the infinities come back `null` |
| Store.SavedRecord | script.js:174-183 | a record comes back from JSON with the same id and kind; a ride's elevation comes back finite or `null` and every other field unchanged; a NaN or infinite elevation comes back exactly as `null`; the record is unchanged exactly when it was not a ride with a NaN or infinite elevation |
| Store.SavedRecordWellFormed | script.js:174-183 | a record is well formed after the round trip through JSON exactly when it was before |
| Store.Saved | script.js:174-183 | the saved collection has the same length and order, record by record in saved form; it is always persistable, and it equals the collection exactly when no ride in it has a NaN or infinite elevation |
| Store.SavedIdempotent | script.js:174-183 | saving again what a reload gave back changes nothing |
| Store.SavedAppend | script.js:174-183 | saving a concatenation saves each part, in order |
| Store.RemoveIdSaved | script.js:192-195 | filtering by id and the JSON round trip commute |
| Store.Load | script.js:178-184 | an absent key leaves the collection empty; a stored sequence is restored as saved, derived fields included |
| Tracker.Startup | script.js:178-184 | on page load (and after a reload), memory holds the stored sequence or nothing, storage is untouched, no map click is pending; when storage holds only what a save can write, memory and storage agree and memory is in saved form |
| Tracker.ShowForm | script.js:51-55 | a map click records the position and leaves both collections unchanged |
| Tracker.Delete | script.js:186-197 | with nothing stored, the handler throws and changes nothing; otherwise memory and storage after the reload agree, hold no record with that id and are shorter by the number that matched; when the stored records were in saved form, the result is the stored sequence with that id filtered out, in the same order |
| Tracker.Clear | script.js:199-202 | after clear, the key is absent, memory is empty, and no map click is pending |
| Tracker.SubmitConsistent | script.js:62-92 | a submission keeps storage equal to the saved form of memory and every record well formed |
| Tracker.DeleteConsistent | script.js:186-197 | a deletion keeps storage equal to the saved form of memory and every record well formed |
| Tracker.Step | script.js:19-27 | each event reaches its handler: a map click only records the position; a submission before any click, a rejected submission and a deletion with nothing stored change nothing; an accepted submission appends one record with the id from the clock, keeps the earlier records in order and stores the saved form; a deletion with something stored reloads a page whose memory and storage agree, with no record of that id and shorter by the number that matched (the ordered filter when storage was in saved form); clear leaves no key and an empty page; a reload restores memory from storage, which it leaves untouched, with no click pending |
| Tracker.StepPreservesConsistent | script.js:62-202 | every handler keeps storage equal to the saved form of the in-memory sequence (or absent with memory empty) and every record's derived fields consistent |
| Tracker.RunPreservesConsistent | script.js:62-202 | from a consistent state, any sequence of clicks, submissions, deletions, clears and reloads ends consistent |
| Tracker.StartupConsistent | script.js:178-184 | a page loaded from storage that a save wrote, whose records are well formed, starts consistent |
| Tracker.DeleteFiltersMemory | script.js:186-197 | while memory and storage agree and something is shown, deleting never throws, and the result is the saved form of the in-memory collection filtered by id (the filtered collection itself when memory was in saved form) |
| Tracker.ReloadKeepsMemory | script.js:174-184 | after any session from a consistent state, a reload restores the saved form of the in-memory collection; that is exactly the collection, derived fields included, when no ride's elevation is NaN or infinite |
| Tracker.SubmitOverwritesStorage | script.js:87-91 | a submission overwrites storage with this page's memory: a record another page saved, whose id this page does not hold, is lost |
| Tracker.NaNElevationReloadsAsNull | script.js:81-91 | a ride accepted with a NaN elevation shows NaN in memory, and after a reload its elevation is `null` |
| Tracker.ClearThenReload | script.js:199-202 | after clear, a reload finds nothing, and clearing twice is the same as clearing once |
| Tracker.SessionIdsDistinct | script.js:206 | records created at pairwise different timestamps, all within less than 10^10 ms of each other, have pairwise distinct ids |
| Tracker.SubmitExtendsIds | script.js:87 | a submission after a map click with acceptable input appends a record whose id comes from the submission's timestamp, so the collection stays in step with the sequence of creation times |
| Tracker.AppendFreshId | script.js:206 | a record stamped later than every other record, within 10^10 ms of the earliest stamp, has an id no other record carries |
| Tracker.SubmitKeepsIdsDistinct | script.js:62-92 | a submission at a time later than every existing id's timestamp, within 10^10 ms of the earliest, keeps the collection's ids distinct |
| Tracker.StepKeepsIdsDistinct | script.js:178-202 | clicks, deletions, clears and reloads keep the ids in memory and in storage distinct, and bring in no id from another time |
| Tracker.ClockedStep | script.js:51-202 | one event of a session with a well-behaved clock keeps the ids in memory and in storage distinct, each from a time before the next submission |
| Tracker.RunKeepsIdsDistinct | script.js:51-202 | starting from distinct ids in memory and storage, a session whose submissions carry strictly increasing timestamps within 10^10 ms of its start keeps the collection's ids distinct, through deletions, clears and reloads |
| Tracker.FirstRunScenario | script.js:62-92 | clicking at (51.5, -0.1) and submitting a 5 km, 25 min, cadence 180 run gives one stored record with pace 5 and description "Running on April 3" |
| Tracker.DeleteOnlyRecord | script.js:186-197 | deleting the only record leaves an empty stored sequence and an empty collection |

## Left out

- Leaflet (script.js:36-49, 94-107) is left out. It covers map creation, the tile layer, markers, popups and `setView`. These are display side effects of a foreign library.
- `_moveToPopup` (script.js:161-172) is left out. It looks up the clicked record by id and pans the map to it. It changes no data. When no record matches, reading `.coordinates` of `undefined` throws (script.js:166) before `setView` runs.
- Geolocation and `prompt` dialogs (script.js:29-34) are left out because they are browser I/O. A prompt appears in the model only as a `Prompt` signal carrying its text.
- DOM rendering is left out because it is presentation only: `_renderWorkout`, `_hideForm`, `_toggleElevationField`, the `setTimeout` delay and list insertion order (script.js:57-60, 109-159).
- `toFixed(1)` display rounding (script.js:135, 148) is left out: it is floating-point formatting.
- Number parsing (`+input.value`) is left out: the form's fields reach the model already converted to `Num`.
- The JSON text and `localStorage` are left out. Storage is an `Option<seq<Workout>>` holding records in their saved form, `Store.Saved`. Only the one change JSON makes to a valid record is modelled: a ride's NaN or infinite elevation gain comes back `null`.
- Storage is written by this page only. Another page of the same site writing the `workouts` key is not an event of the model. `Synced`, `Consistent` and the session lemmas rely on that. `Tracker.SubmitOverwritesStorage` shows what such a write would lose.
- Workouts.NewRunning: requires distance > 0 and duration > 0, because division by zero has no real value. The JavaScript constructor would compute Infinity or NaN instead. The caller in `_newWorkout` validates first. The other caller, script.js:255, passes positive constants.
- Workouts.NewCycling: requires distance > 0 and duration > 0, for the same reason as Workouts.NewRunning.
- Tracker.Delete: says which records remain only when the stored records are in saved form. Every save writes that form, and storage is written by this page only.
- IEEE-754 arithmetic is not modelled. Pace and speed are exact reals. Rounding, overflow to Infinity and underflow to 0 are not modelled, so "pace > 0" holds in exact arithmetic only. One consequence lies outside the model: a ride of distance 1e308 and duration 1 passes validation and gets speed Infinity, which is saved as `null`; on the next load `null.toFixed(1)` (script.js:148) throws inside the `App` constructor (script.js:21), before the listeners are attached.
- Decimal.ToDecimal: matches JavaScript's number-to-string conversion only for integers below 10^21. Larger values are written in exponent notation, which no millisecond clock reaches.
- Of the record's `date`, only the month and the day are modelled, since they are all the description reads. The year, the time and its serialised string form are not.
- The type selector has only two options, so a form type other than running or cycling is not modelled.
- Workouts.Capitalize upper-cases ASCII letters only. It is only ever applied to "running" and "cycling".
- The texts of the `Uncaught` signals describe the exception. They are not the browser's exact wording.
- The module-level `new Running(...)` (script.js:255) is left out: its result is never used.
