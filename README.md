# Titanium Fit core, modelled in Dafny

Titanium Fit is a client-side fitness tracker. Users plan workout routines,
run them with a rest countdown, log finished sessions and record body
statistics. This project models the logic at its core and proves properties
about it.

- **The record store** (`services/storage.ts`) is the class `Storage.Store`.
  It holds three lists: routines, logs and body statistics. Its reads and
  writes are the store's methods and functions:
  - saving a routine upserts it by identifier;
  - deleting filters by identifier;
  - saving a log appends it;
  - reading body statistics sorts them by date, ascending and stably.
- **The active-workout screen** (`components/ActiveWorkout.tsx`) is the class
  `ActiveWorkout.Session`. It holds the active routine, the completed
  indices, the start time and the rest countdown. Around it are the pure
  parts:
  - the volume estimate `weight * sets * parseInt(reps.split('-')[0] || '0')`;
  - the elapsed seconds;
  - the `m:ss` clock display.
- **The routine editor** (`components/Planner.tsx`):
  - The list edits are functions on sequences: append a default exercise,
    update one field of the exercise at a position, remove a position.
  - Save-time validation is a function.
  - The handlers that change the editor state and write the store are
    methods of the class `Planner.Editor`.
- **The history screen** (`components/History.tsx`) is pure. It shows the
  logs newest first, computes three totals and shows each session's whole
  minutes.

The JavaScript built-ins these files rely on are written out in the module
`JsString`:

- `String#trim`;
- `parseInt` without a radix: white space skipped, an optional sign, a
  `0x` prefix, the longest digit run, and NaN when there is no digit;
- `Number#toString` on whole numbers;
- `String#padStart`;
- the first piece of `split`;
- the truncating `%` operator.

`Array#sort` with a numeric comparator is a stable insertion sort in
`Sorting`.

## Modelling choices

- **Time.** It enters as explicit parameters:
  - `now` is the value of `Date.now()`;
  - `Tick()` is one call of the one-second interval;
  - a `confirmed` flag is the answer of `confirm`;
  - the alert text is a returned value.
- **Storage.** `localStorage` and the JSON text behind each key are
  modelled by the lists they encode. Outside a browser (`isBrowser` false),
  every read is empty and every write does nothing.
- **Dates.** They are millisecond timestamps. The source stores ISO 8601
  strings, but only ever compares them through `getTime()`.
- **NaN.** A rep specification that `parseInt` cannot read gives NaN, and
  NaN makes the whole volume NaN. The model writes this as `None`.
  - `JSON.stringify` stores NaN as `null`.
  - History's `acc + curr.totalVolume` then adds `null` as 0, so
    `History.StoredVolume` reads `None` as 0.
  - So an unreadable rep count does not count as 0 when the workout is
    finished: the saved `totalVolume` is NaN. The 0 appears only when
    History adds the stored `null`.
- **The rest-timer effect.** The React effect that ends a rest at zero is
  the step `Settle`. The methods that start or count down a rest run it.
  `SkipRest` and `Leave` do not need it: they end in `Rest(0, false)`, where
  `Settle` changes nothing. The class invariant `Settled()` says that a rest
  never sits at zero.
- **Leaving the screen.** Finishing a workout navigates to the history
  screen, which unmounts the active-workout screen: its state is dropped
  and its interval cleared. `Session.Leave` puts the object in the state a
  later visit mounts with.
- **Sort comparators.** Each is a named key function, used by the generic
  stable sort:
  - `b.date - a.date` sorts ascending by the negated date;
  - `a.date - b.date` sorts ascending by the date.

## Model

| member | source | states |
|---|---|---|
| JsString.TrimStart | components/Planner.tsx:43 | what `trim` keeps begins at a character that is not white space, and every character dropped before it is white space |
| JsString.TrimEnd | components/Planner.tsx:43 | what `trim` keeps is a prefix that ends at a character that is not white space, and every character dropped after it is white space |
| JsString.Trim | components/Planner.tsx:43 | `trim` keeps a contiguous middle piece of the name: everything cut off before and after it is white space, and the piece neither starts nor ends with white space |
| JsString.TrimBlank | components/Planner.tsx:43 | a name trims to the empty string exactly when every character of it is white space |
| JsString.DigitPrefix | components/ActiveWorkout.tsx:63 | the digits `parseInt` reads are the longest run of digits at the start: all digits, and the next character is not one |
| JsString.ParseInt | components/ActiveWorkout.tsx:63 | `parseInt` gives a number only when a decimal digit follows the white space and the sign; a negative result needs a leading `-`, and after a `-` the result is never positive; `ParseIntShowInt` and `ParseIntRejects` pin down both outcomes |
| JsString.ShowNat | components/ActiveWorkout.tsx:57 | `toString` of a whole number is a non-empty string of decimal digits |
| JsString.ShowInt | components/ActiveWorkout.tsx:57 | `toString` of a whole number is non-empty, starts with `-` exactly when the number is negative, and is decimal digits after the sign; `ParseIntShowInt` reads it back |
| JsString.ParseIntShowInt | components/ActiveWorkout.tsx:57 | `parseInt` reads back every whole number `toString` writes, also when text follows that cannot continue the number |
| JsString.ParseIntRejects | components/ActiveWorkout.tsx:63 | `parseInt` is NaN when the first character after white space is neither a sign nor a digit |
| JsString.PadStart | components/ActiveWorkout.tsx:100 | `padStart` gives the longer of the string and the target length, ends with the string, and is filled in front with the fill character |
| JsString.BeforeFirst | components/ActiveWorkout.tsx:63 | `split('-')[0]` is a prefix without `-`, followed by `-` when it is not the whole string |
| JsString.BeforeFirstOf | components/ActiveWorkout.tsx:63 | the first piece of a string that has a separator is everything before the first separator |
| JsString.BeforeFirstAbsent | components/ActiveWorkout.tsx:63 | a string without the separator is its own first piece |
| JsString.Rem | components/ActiveWorkout.tsx:99 | `%` by a positive number is the truncating remainder: `a` equals the quotient rounded toward zero times `b` plus the result, which lies in [0, b) for non-negative `a` and in (-b, 0] for negative `a` |
| Sorting.SortBy | services/storage.ts:54 | sorting keeps the length and is a permutation of its input |
| Sorting.SortBySorted | services/storage.ts:54 | the sorted list is ascending by key |
| Sorting.SortByStable | services/storage.ts:54 | for every key, the elements with that key keep their input order |
| Sorting.SortBySortedInput | services/storage.ts:54 | sorting a list that is already ascending changes nothing |
| Sorting.SortByAppendSorted | services/storage.ts:57-61 | appending to a sorted list and sorting again is the same as sorting the original with the element appended |
| Storage.IndexOfId | services/storage.ts:21 | `findIndex` gives -1 exactly when no routine has the identifier, and otherwise the first position that has it |
| Storage.Upserted | services/storage.ts:20-26 | after a save the routine is in the list, the list either keeps its length or is the old list with the routine appended, and no record other than the routine is introduced; `UpsertReplaces`, `UpsertAppends` and `UpsertFinds` give the two branches |
| Storage.Without | services/storage.ts:32 | deleting never makes the list longer |
| Storage.Store.GetRoutines | services/storage.ts:12-16 | the stored routines in a browser, none outside one |
| Storage.Store.GetLogs | services/storage.ts:36-40 | the stored logs in a browser, none outside one |
| Storage.Store.GetBodyStats | services/storage.ts:49-55 | the stored statistics, permuted into ascending date order, in a browser; none outside one |
| Storage.Store.SaveRoutine | services/storage.ts:18-28 | in a browser the routine list becomes the upsert of the routine, otherwise it is unchanged; logs and statistics are unchanged |
| Storage.Store.DeleteRoutine | services/storage.ts:30-34 | in a browser the routine list loses every routine with the identifier; the other lists are unchanged |
| Storage.Store.SaveLog | services/storage.ts:42-47 | in a browser the log is appended after the stored logs; the other lists are unchanged |
| Storage.Store.SaveBodyStat | services/storage.ts:57-62 | in a browser the sorted statistics followed by the new one are stored, and the next read is the sort of the old statistics with the new one |
| Storage.UpsertReplaces | services/storage.ts:21-23 | saving a routine whose identifier is present replaces the first match and keeps the length and every other record |
| Storage.UpsertAppends | services/storage.ts:24-26 | saving a routine with a new identifier appends it |
| Storage.UpsertFinds | services/storage.ts:18-28 | after a save, looking up the identifier finds the saved routine |
| Storage.UpsertIdempotent | services/storage.ts:18-28 | saving the same routine twice stores the same list as saving it once |
| Storage.WithoutMembers | services/storage.ts:32 | a routine survives deletion exactly when it was stored and has another identifier |
| Storage.WithoutAbsent | services/storage.ts:32 | deleting an identifier that is not stored changes nothing |
| Storage.WithoutConcat | services/storage.ts:32 | deletion keeps order: it distributes over concatenation |
| Storage.WithoutUpserted | services/storage.ts:18-34 | deleting a saved routine's identifier gives the same list as deleting it before the save, so the save touched nothing else |
| ActiveWorkout.ExerciseVolume | components/ActiveWorkout.tsx:63 | an exercise's volume is a number exactly when its rep count can be read |
| ActiveWorkout.RepCount | components/ActiveWorkout.tsx:63 | an empty rep specification, or one starting with `-`, counts 0; the lemmas below give a plain number, a range and a word |
| ActiveWorkout.AddVolume | components/ActiveWorkout.tsx:63 | `+` on numbers in which NaN absorbs: a number exactly when both sides are, and then their sum; `AddVolumeAssociative` lets the fold regroup |
| ActiveWorkout.SumVolumes | components/ActiveWorkout.tsx:63 | the `reduce` from 0 is 0 on an empty list and is a number exactly when every term is |
| ActiveWorkout.RoutineVolume | components/ActiveWorkout.tsx:63 | the routine volume is 0 without exercises and a number exactly when every exercise's rep count can be read |
| ActiveWorkout.SumVolumesConcat | components/ActiveWorkout.tsx:63 | the volume `reduce` over a concatenation is the sum over the parts |
| ActiveWorkout.RoutineVolumeConcat | components/ActiveWorkout.tsx:63 | the routine volume is the sum of the volumes of any split of its exercises |
| ActiveWorkout.VolumeExample | components/ActiveWorkout.tsx:63 | 3 sets of "10-12" at 20 kg give a volume of 600 |
| ActiveWorkout.RepCountEmpty | components/ActiveWorkout.tsx:63 | an empty rep specification counts 0 |
| ActiveWorkout.RepCountNumber | components/ActiveWorkout.tsx:63 | a plain number such as the default "12" counts itself |
| ActiveWorkout.RepCountLeadingDash | components/ActiveWorkout.tsx:63 | a rep specification starting with `-` counts 0 |
| ActiveWorkout.RepCountRange | components/ActiveWorkout.tsx:63 | a range `n-...` counts its lower bound `n` |
| ActiveWorkout.RepCountWord | components/ActiveWorkout.tsx:63 | a word without `-` counts NaN, not 0 |
| ActiveWorkout.ElapsedSeconds | components/ActiveWorkout.tsx:55 | the duration is the elapsed milliseconds divided by 1000, rounded down |
| ActiveWorkout.DurationNonNegative | components/ActiveWorkout.tsx:55 | a session that did not end before it started has a non-negative duration |
| ActiveWorkout.FinishedLog | components/ActiveWorkout.tsx:55-64 | the saved log names the routine, is dated `now`, has an identifier that reads back as `now`, lasts the elapsed seconds rounded down, counts the completed set and carries the routine volume |
| ActiveWorkout.FinishedLogBounds | components/ActiveWorkout.tsx:52-64 | a session that did not end before it started saves a non-negative duration, and no more completed exercises than the routine has when every completion was of one of them |
| ActiveWorkout.FormatTime | components/ActiveWorkout.tsx:97-101 | for every whole number of seconds, negative ones included, the text before the colon reads back as the minutes rounded down and the text after it as the truncating remainder |
| ActiveWorkout.ParsePaddedRemainder | components/ActiveWorkout.tsx:99-100 | a remainder by 60 padded to two characters reads back as itself, a negative one with its sign |
| ActiveWorkout.FormatTimeShape | components/ActiveWorkout.tsx:97-101 | for non-negative seconds the display is the minutes, a colon and exactly two digits of the remainder |
| ActiveWorkout.FormatTimeRoundTrip | components/ActiveWorkout.tsx:97-101 | the display of a non-negative count of seconds reads back as that count |
| ActiveWorkout.RestCountsDown | components/ActiveWorkout.tsx:29-42 | a rest of t seconds counts down one per tick and ends after exactly t ticks |
| ActiveWorkout.Settle | components/ActiveWorkout.tsx:34-36 | the effect leaves no rest sitting at zero, keeps the timer, never starts a rest, and leaves a running rest with time left alone |
| ActiveWorkout.TickRest | components/ActiveWorkout.tsx:29-42 | a tick takes one second off a running rest with time left and nothing off otherwise, never starts a rest, and keeps a settled rest settled |
| ActiveWorkout.NegativeRestStays | components/ActiveWorkout.tsx:29-42 | a negative rest time never ticks and never ends by itself |
| ActiveWorkout.CompletionRest | components/ActiveWorkout.tsx:72-77 | a zero rest time never shows the rest overlay; any other starts a rest with that many seconds |
| ActiveWorkout.Session.constructor | components/ActiveWorkout.tsx:12-26 | mounting loads the stored routines with no session active and no rest running |
| ActiveWorkout.Session.RunTimerEffect | components/ActiveWorkout.tsx:29-42 | the effect ends a rest at zero and changes nothing else |
| ActiveWorkout.Session.StartRoutine | components/ActiveWorkout.tsx:44-50 | a new session starts at `now` on the first exercise with nothing completed and no tip |
| ActiveWorkout.Session.FinishWorkout | components/ActiveWorkout.tsx:52-70 | with a session, exactly one log is appended to the store and the screen is left in the state a fresh mount has; without one nothing changes |
| ActiveWorkout.Session.Leave | components/ActiveWorkout.tsx:68-69 | leaving for the history screen drops the session, the cursor, the completed set and the rest; a later visit reads the stored routines again |
| ActiveWorkout.Session.HandleExerciseComplete | components/ActiveWorkout.tsx:72-87 | the index always joins the completed set; an existing exercise starts its rest, settled at once when it is zero |
| ActiveWorkout.Session.Tick | components/ActiveWorkout.tsx:30-33 | one interval callback takes one second off a running rest and ends it at zero |
| ActiveWorkout.Session.SkipRest | components/ActiveWorkout.tsx:272 | skipping ends the rest with the timer at zero |
| ActiveWorkout.Session.Exit | components/ActiveWorkout.tsx:146 | leaving ends the session without a log and keeps everything else |
| ActiveWorkout.Session.SelectExercise | components/ActiveWorkout.tsx:170-186 | a click on a drawn card of the active routine makes that card the cursor, within the routine, and changes nothing else |
| Planner.NewRoutine | components/Planner.tsx:19-24 | a new routine is called "Novo Treino", has no exercises, and has an identifier that reads back as `now` |
| Planner.DefaultExercise | components/Planner.tsx:55-62 | the added exercise has an identifier that reads back as `now`, no name, 3 sets of "12", no weight, 60 seconds of rest and no notes |
| Planner.DefaultExerciseVolume | components/Planner.tsx:55-62 | the default exercise counts 12 repetitions and has volume 0 |
| Planner.Validate | components/Planner.tsx:43-44 | a rejection carries one of the two alerts, a name that trims to nothing gets the name alert, and an accepted routine has an exercise; `ValidateCases` gives the full condition |
| Planner.ValidateCases | components/Planner.tsx:41-44 | a routine is accepted exactly when its name is not all white space and it has an exercise; a blank name is reported first |
| Planner.NewRoutineNeedsExercise | components/Planner.tsx:41-44 | a fresh routine is refused for having no exercises, not for its name |
| Planner.AppendDefault | components/Planner.tsx:53-67 | adding keeps every exercise in place and appends the default one |
| Planner.AddedRoutineValid | components/Planner.tsx:41-67 | a routine with a non-blank name is accepted once an exercise has been added |
| Planner.Apply | components/Planner.tsx:72 | the edited field takes the new value and every other field of the exercise is kept |
| Planner.UpdateAt | components/Planner.tsx:69-74 | updating keeps the length, edits the exercise at the index and keeps every other exercise |
| Planner.RemoveAt | components/Planner.tsx:78 | removing drops exactly one exercise for a position the list has and none otherwise; `RemoveAtInside` and `RemoveAtOutside` say which |
| Planner.RemoveAtInside | components/Planner.tsx:78 | removing a position the list has cuts out exactly that exercise and keeps the rest in order |
| Planner.RemoveAtOutside | components/Planner.tsx:78 | removing a position the list does not have leaves it unchanged |
| Planner.RemoveAdded | components/Planner.tsx:53-80 | removing the exercise just added gives back the list before |
| Planner.Editor.constructor | components/Planner.tsx:11-17 | mounting loads the stored routines with nothing being edited |
| Planner.Editor.HandleCreateNew | components/Planner.tsx:19-27 | a new routine enters the editor and editing starts |
| Planner.Editor.HandleEdit | components/Planner.tsx:29-32 | the chosen routine enters the editor and editing starts |
| Planner.Editor.HandleDelete | components/Planner.tsx:34-39 | only a confirmed delete removes the routine from the store and reloads the list; otherwise nothing changes |
| Planner.Editor.SaveCurrentRoutine | components/Planner.tsx:41-51 | a refused routine gives its alert and changes nothing; an accepted one is upserted, the list is reloaded and the editor closes |
| Planner.Editor.Rename | components/Planner.tsx:96 | the name field replaces the routine's name |
| Planner.Editor.AddExercise | components/Planner.tsx:53-67 | the routine being edited gets the default exercise appended; without one nothing changes |
| Planner.Editor.UpdateExercise | components/Planner.tsx:69-74 | the routine being edited gets the field edit at the index; without one nothing changes |
| Planner.Editor.RemoveExercise | components/Planner.tsx:76-80 | the routine being edited loses the exercise at the index; without one nothing changes |
| Planner.Editor.Close | components/Planner.tsx:86 | closing leaves editing without saving and keeps the routine being edited |
| History.NewestFirst | components/History.tsx:15 | the shown logs are a permutation of the stored logs |
| History.Shown | components/History.tsx:12-16 | the screen lists a permutation of the store's logs |
| History.NewestFirstDescending | components/History.tsx:15 | the shown logs go from the latest date to the earliest |
| History.NewestFirstStable | components/History.tsx:15 | logs of the same date keep the order in which they were saved |
| History.NewestFirstOfDescending | components/History.tsx:15 | logs already ordered from the latest date to the earliest, ties included, are shown as they are |
| History.GetStats | components/History.tsx:29-34 | the workout count is the number of logs, and every total is 0 without logs |
| History.Sum | components/History.tsx:31-32 | a `reduce` sum from 0 is 0 on an empty list and is non-negative when every term is |
| History.StoredVolume | components/History.tsx:32 | a stored volume adds as its value, and a NaN one, stored as `null`, adds as 0 |
| History.SumPermutation | components/History.tsx:31-32 | a `reduce` sum does not depend on the order of the list |
| History.StatsOfNewestFirst | components/History.tsx:29-34 | the totals over the sorted logs equal the totals over the stored order |
| History.StatsAfterSave | components/History.tsx:29-34 | one more log adds one workout, its seconds and its volume to the totals |
| History.StatsConcat | components/History.tsx:29-34 | the totals over a concatenation are the totals of the parts added up |
| History.Minutes | components/History.tsx:88 | the minutes shown are the seconds divided by 60, rounded down |
| History.MinutesOf | components/History.tsx:22 | m minutes and fewer than 60 seconds show as m minutes |

## Left out

- The AI tip (`services/gemini.ts`, `getAiHelp`, `loadingTip`) is left out. It calls an external text-generation service. `aiTip` is kept only as a field that `StartRoutine` clears.
- Rendering is left out: JSX, styling, the progress-bar percentage (a floating-point division) and the `toFixed` hours and tonnes on the history cards.
- The success `alert` in `finishWorkout` is left out: it only shows a dialog. The history screen that `setView(ViewState.HISTORY)` shows next is modelled on its own, in `History`.
- The export on the history screen is left out. `services/exportService.ts` is not part of this model. Its per-log minutes are `History.Minutes`.
- Malformed JSON under a storage key is left out. `JSON.parse` is not guarded in the source and would throw; the model stores the decoded lists.
- Quota errors of `localStorage.setItem` are left out.
- Weights are whole numbers. IEEE floating point and NaN typed into a number field are not modelled; the source's `parseInt` and `parseFloat` of an empty input would store NaN in `sets`, `weight` or `restTime`. JavaScript numbers above 2^53 are not modelled either: the model's integers are unbounded.
- `parseInt` does not model the precision a very long digit string loses as a double.
- ActiveWorkout.FinishedLog reads one `now` for the duration, the identifier and the date, where the source calls `Date.now()` twice and `new Date()` once; the three readings can differ by a few milliseconds.
- ActiveWorkout.Session.Tick models the interval as one step per second. The handle in `timerRef` and `clearInterval` are not modelled, so neither is a second interval overlapping the first.
- The `disabled={isResting}` button is left out: `HandleExerciseComplete` does not require that no rest is running.
- Planner.UpdateAt requires the index to be in range. The form only updates cards it draws. Out of range, the source would write a partial exercise, or leave a hole in the array.
- Planner.Apply covers the five fields the form edits, and the notes. The source's `keyof Exercise` also admits `id`, which the form never edits.
- `Array#sort` is modelled as a function returning the sorted list, not as an update in place. The source sorts only freshly read arrays, so no alias can observe the difference.
- The body-evolution screen (`components/BodyEvolution.tsx`), the layout and the app shell are left out. They are presentation over `GetBodyStats`.
