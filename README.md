# Shopping list and task countdown: a Dafny model

This project models the logic of a small mobile app with two screens of
interest and one form:

- **The shopping list** (`app/index.tsx`). Items carry an id, a name, an
  optional completion stamp and a last-updated stamp. The handlers prepend
  a new item, filter out an id, and toggle the completion of an id. Before
  display the list is sorted in place with a comparator. Incomplete items
  come first, newest update first. Completed items follow, newest
  completion first.
- **The recurring-task countdown** (`app/counter/index.tsx`, seven-day
  cycle; `app/notifications/index.tsx`, one-day cycle with a task name and
  a reminder). A one-second tick derives the due time from the newest
  completion stamp, then an overdue flag and a distance. Completing the
  task prepends the current time to the stored history and swaps the
  stored notification handle. Setting a reminder changes only the stored
  task name. Both screens are one class, `Countdown.CountdownScreen`,
  parameterised by a `ScreenConfig`: the cycle length and whether the
  screen keeps a task name. JavaScript divides the cycle by 1000 exactly,
  while Dafny's `/` rounds. The class therefore requires the cycle to be
  whole seconds, which both real cycles are (`TriggerSeconds`).
- **The sign-up schema** (`app/signup.tsx`). Each field must pass length
  bounds and character-class tests. The email is lower-cased as it is
  typed.

Files: `js_values.dfy` (optional values, JavaScript truthiness, `trim`),
`shopping_list.dfy`, `countdown.dfy`, `signup.dfy`.

Modelling choices:

- Clock readings, the permission answer, the id the notification
  scheduler returns, the id built from the time of day, and the value read
  from storage are all parameters. Each operation takes one `now`, even
  where the source reads the clock more than once (twice per toggle, up to three times per tick).
- "Saved to storage" is an out-parameter equal to the new state.
- Truthiness follows JavaScript. A number is truthy when defined and not 0.
  A string is truthy when defined and not empty.
- Ids are not assumed unique. Delete and toggle act on every matching item.
- The sort is `Array.prototype.sort` on the state array itself. It is
  modelled as a stable in-place insertion sort on an `array<Item>`, and
  `ShoppingListScreen.Render` writes the sorted order back into the
  screen's list.

Behaviour of the code worth knowing:

- With no completion history the tick computes `due = now` and tests
  `due < now`. With one clock reading the task is therefore not overdue
  and the distance is 0 (`TickStatus`).
- `loading` starts true. It is cleared only by a tick that sees a truthy
  last completion, and never set again (`CountdownScreen.Tick`). With
  nothing stored, the screen therefore stays on its loading indicator.
- The list screen has no duplicate-name check and items have no quantity.
- The counter screen's completion record has no `taskName` field. Since
  both screens share one storage key, completing there drops a name stored
  by the other screen (`CompletionRecord`).

## Model

| member | source | states |
|---|---|---|
| `ShoppingList.IsCompleted` | app/index.tsx:103 | an item counts as completed only when it has a completion stamp, and exactly when that stamp is non-zero; a stamp of 0 is falsy, so the item counts as not completed; the comparator's tests at app/index.tsx:130-142 use the same truthiness |
| `ShoppingList.Compare` | app/index.tsx:129-147 | the comparator returns 0 only for two completed items with equal completion stamps or two incomplete items with equal update stamps; its four cases cover every pair, so the final `return 0` is unreachable |
| `ShoppingList.CompareAgreesWithRule` | app/index.tsx:130-144 | the comparator is at most 0 exactly when the display rule lets the first item come first: incomplete before completed, newest update first among incomplete items, newest completion first among completed items; it is negative exactly when that order is strict |
| `ShoppingList.CompareIsConsistent` | app/index.tsx:129-147 | cmp(x,y) = -cmp(y,x); every pair is comparable; "not after" is transitive |
| `ShoppingList.SortedLayout` | app/index.tsx:130-144 | in a sorted list no completed item comes before an incomplete one; completion stamps are non-increasing across completed items; update stamps are non-increasing across incomplete items |
| `ShoppingList.OrderShoppingList` | app/index.tsx:128-148 | sorts the array in place: afterwards no pair is in an order the comparator rejects, the contents are a permutation of the input, and an already sorted array is left exactly as it was, so ordering twice equals ordering once |
| `ShoppingList.Submit` | app/index.tsx:47-56 | empty input leaves the list unchanged; otherwise the result is one item longer, its tail is the old list, and its head has the input as name, the given id, no completion stamp and `now` as update stamp |
| `ShoppingList.Delete` | app/index.tsx:64-65 | no item of the result carries the id; the result is never longer; with no match the list is returned unchanged |
| `ShoppingList.DeleteCounts` | app/index.tsx:65 | every item with the id is removed; every item with another id stays exactly as many times as it occurred |
| `ShoppingList.DeleteAppend` | app/index.tsx:65 | filtering distributes over concatenation, so the surviving items keep their relative order |
| `ShoppingList.DeleteIdempotent` | app/index.tsx:65 | deleting an id twice is the same as deleting it once |
| `ShoppingList.DeleteAfterSubmit` | app/index.tsx:49-65 | deleting the id of a just-submitted item also removes every older item with the same id, because ids are not unique; an empty input submits nothing, so the delete is unchanged either way |
| `ShoppingList.ToggleItem` | app/index.tsx:74-86 | a completed item loses its completion stamp, any other item is stamped `now`; id and name are kept and the update stamp becomes `now`; with `now` not 0 the completion state flips |
| `ShoppingList.Toggle` | app/index.tsx:72-89 | same length; each item with the id is toggled in its position; every other item is unchanged |
| `ShoppingList.ToggleTwice` | app/index.tsx:80-86 | toggling twice at non-zero times restores each matching item's completion state; an item that started incomplete ends with no stamp at all; its update stamp is the second time; ids, names and other items are unchanged |
| `ShoppingList.DeleteAfterToggle` | app/index.tsx:64-89 | toggling never changes what a later delete of the same id removes |
| `ShoppingList.NewItemShownFirst` | app/index.tsx:49-56 | if the new item's stamp is later than every stamp in the list, then every sorted permutation of the submitted list starts with the new item |
| `ShoppingList.ShoppingListScreen.constructor` | app/index.tsx:33-34 | the input starts empty and the list starts empty |
| `ShoppingList.ShoppingListScreen.FetchInitial` | app/index.tsx:36-45 | a stored list replaces the state; when nothing is stored, the state is kept |
| `ShoppingList.ShoppingListScreen.SetItem` | app/index.tsx:119 | the typed text becomes the input; the list is unchanged |
| `ShoppingList.ShoppingListScreen.HandleSubmit` | app/index.tsx:47-62 | with an empty input nothing changes and nothing is saved; otherwise the list becomes `Submit` of the old list, exactly that list is saved, and the input is cleared |
| `ShoppingList.ShoppingListScreen.HandleDelete` | app/index.tsx:64-70 | the list becomes `Delete` of the old list and is saved; the input is unchanged |
| `ShoppingList.ShoppingListScreen.HandleToggleComplete` | app/index.tsx:72-93 | the list becomes `Toggle` of the old list and is saved; the input is unchanged |
| `ShoppingList.ShoppingListScreen.Render` | app/index.tsx:95-97 | the list shown is the list held in state after it has been sorted in place |
| `Countdown.LastCompleted` | app/counter/index.tsx:45 | the head of the stored history; undefined when there is no record or the history is empty |
| `Countdown.DueTimestamp` | app/counter/index.tsx:57-59 | with a truthy last completion the due time is exactly one frequency after it; without one, or with a stamp of 0, the task is due at `now`; the notifications screen's version at app/notifications/index.tsx:74-76 is the same |
| `Countdown.DistanceInterval` | app/counter/index.tsx:62-67 | the interval runs from the earlier of due and now to the later, so start ≤ end and its length is the absolute difference of now and due |
| `Countdown.TickStatus` | app/counter/index.tsx:56-68 | with a truthy last completion t: overdue iff t + frequency < now, and distance is the absolute difference of now and t + frequency; without one: not overdue and distance 0; the notifications screen's tick at app/notifications/index.tsx:73-85 is the same |
| `Countdown.OverdueBoundary` | app/notifications/index.tsx:73-85 | 1 ms before the due time: not overdue, 1 ms away; at the due time: not overdue, 0 ms away; 1 ms after: overdue by 1 ms |
| `Countdown.ZeroStampIsNoHistory` | app/counter/index.tsx:57-59 | a stored stamp of 0 is falsy, so the tick treats it as no history |
| `Countdown.History` | app/notifications/index.tsx:125 | the stored history, or the empty history when nothing is stored, as in `countdownState?.completedAtTimestamps ?? []`; its head is what the tick reads as the last completion |
| `Countdown.CompletionRecord` | app/notifications/index.tsx:121-128 | the history gains exactly one entry, `now`, at the front, and the old history (empty when nothing was stored) is the suffix; the new handle is stored; the task name is the input when it is non-empty, including whitespace-only input, and otherwise the previous name; the counter screen (app/counter/index.tsx:103-108) stores no name |
| `Countdown.CompletionRestartsCycle` | app/counter/index.tsx:103-108 | after a completion at a non-zero `now`, the tick sees `now` as the last completion, and at `now` the task is not overdue and is one frequency away |
| `Countdown.CompletionsKeepHistory` | app/notifications/index.tsx:123-126 | after any run of completions the original history is still the suffix, behind the new stamps, newest first |
| `Countdown.WithTaskName` | app/notifications/index.tsx:158-161 | a successful reminder sets the task name and keeps the history and notification handle of the stored record |
| `Countdown.ReminderKeepsCountdown` | app/notifications/index.tsx:158-161 | setting a reminder does not change what the tick computes, whether or not a record was stored |
| `Countdown.TriggerSeconds` | app/counter/index.tsx:86-88 | both cycles are whole seconds; the completion notification fires after frequency / 1000 seconds: 604800 on the counter screen, 86400 on the notifications screen (app/notifications/index.tsx:104-106), with no rounding |
| `Countdown.CountdownScreen.constructor` | app/counter/index.tsx:37-43 | for a cycle of whole seconds, the screen starts loading, with no record, status not overdue at distance 0, and an empty task input |
| `Countdown.CountdownScreen.Init` | app/counter/index.tsx:47-53 | runs while the screen is still loading; the value read from storage becomes the record; nothing else changes |
| `Countdown.CountdownScreen.SetTask` | app/notifications/index.tsx:222 | once loading is over (the input is only rendered then, app/notifications/index.tsx:169-175), the typed text becomes the task input (notifications screen only) |
| `Countdown.CountdownScreen.Tick` | app/counter/index.tsx:56-69 | the status becomes `TickStatus` of the stored head; `loading` is cleared exactly on a tick that sees a truthy last completion and is never set back; the record and the input are unchanged |
| `Countdown.CountdownScreen.HandleCompletion` | app/notifications/index.tsx:91-133 | runs only once loading is over, since the button is rendered only then (app/counter/index.tsx:113-119); if permission is "granted", a notification is scheduled after frequency / 1000 seconds, which is exactly one cycle, and its id is stored; otherwise an alert is shown and no id is stored; the previous handle is cancelled iff it was truthy; the record becomes `CompletionRecord`, is saved, and the input is cleared; the counter screen's version (app/counter/index.tsx:76-111) is the same configuration without a task name, and stores none |
| `Countdown.CountdownScreen.HandleSetReminder` | app/notifications/index.tsx:135-167 | runs only once loading is over (app/notifications/index.tsx:169-175), so a record is stored; a blank input (empty or whitespace only) returns early with the record and the input unchanged; a refused permission does the same; otherwise a reminder is scheduled at the chosen time with the task as its body, the stored record is kept and only its task name changes (to the untrimmed input), the record is saved and the input is cleared |
| `JsValues.TrimStart` | app/notifications/index.tsx:136 | the result is the suffix left after a maximal run of leading whitespace |
| `JsValues.TrimEnd` | app/notifications/index.tsx:136 | the result is the prefix left before a maximal run of trailing whitespace |
| `JsValues.Trim` | app/notifications/index.tsx:136 | `task.trim()` is never longer than the task and neither starts nor ends with whitespace |
| `JsValues.TrimIsMiddle` | app/notifications/index.tsx:136 | what `trim` keeps is a contiguous part of the task, and everything before it and after it is whitespace |
| `JsValues.TrimEmptyIffBlank` | app/notifications/index.tsx:136 | `task.trim()` is empty exactly when every character of the task is whitespace |
| `SignUp.MatchesClass` | app/signup.tsx:38-41 | a one-class pattern matches exactly when some character of the string is in the class |
| `SignUp.AllDigits` | app/signup.tsx:34 | true exactly when every character is an ASCII digit |
| `SignUp.NameAccepted` | app/signup.tsx:30-31 | a first or last name is accepted exactly when it has at least 2 characters, which also makes it non-empty |
| `SignUp.PhoneNumberAccepted` | app/signup.tsx:33-35 | accepted exactly when the number has 10 to 15 characters, all ASCII digits |
| `SignUp.PasswordAccepted` | app/signup.tsx:36-42 | accepted exactly when it has at least 8 characters and contains a letter a-z, a letter A-Z, a digit 0-9 and one of `@$!%*?&#`; shorter passwords are rejected |
| `SignUp.FailedRules` | app/signup.tsx:36-42 | lists exactly the rules of the chain the password breaks, and no longer than the chain; a one-rule chain reports that rule exactly when it fails |
| `SignUp.FailedRulesAppend` | app/signup.tsx:36-42 | the report for a chain split in two is the first part's report followed by the second's, so failures are listed in declaration order |
| `SignUp.PasswordAcceptedIffNoFailure` | app/signup.tsx:36-42 | a password is accepted exactly when no rule of its chain fails; one shorter than 8 characters always reports the length rule |
| `SignUp.FormAccepted` | app/signup.tsx:29-43 | a form is accepted exactly when both names have at least 2 characters, the email is non-empty and passes the format test, and the phone number and the password are accepted |
| `SignUp.LowerChar` | app/signup.tsx:113 | an ASCII capital maps to its lower-case letter; every other character is kept |
| `SignUp.ToLower` | app/signup.tsx:113 | lower-cases character by character and keeps the length |
| `SignUp.ToLowerIdempotent` | app/signup.tsx:113 | lower-casing twice equals lower-casing once |
| `SignUp.OnEmailChange` | app/signup.tsx:113 | the typed text is lower-cased before it is stored, and no other field changes; in the model the stored email is `ToLower` of the typed text, which keeps the length, replaces each ASCII capital in place by its lower-case letter (code point + 32) and keeps every other character |

## Left out

- Rendering, styles, layout animation, haptics, confetti, the alert texts, and the row component's delete confirmation and random colour: these are UI side effects with no state meaning. The one rendering rule with state meaning is kept: while `loading` is true the countdown screens show only a spinner, so `SetTask`, `HandleCompletion` and `HandleSetReminder` require `!loading`.
- Persistence: the storage read is an input to `FetchInitial` and `Init`, and every write is an out-parameter equal to the new state. Serialisation and storage failures are not modelled.
- The notification library and the permission request: these are foreign calls. The permission answer and the returned id are inputs. Scheduling and cancelling are reported as out-parameters. Notification titles and sounds are not modelled.
- `Countdown.CountdownScreen.HandleCompletion` and `Countdown.CountdownScreen.HandleSetReminder` treat scheduling (and, on completion, cancelling) as always succeeding. In the source a rejected `scheduleNotificationAsync` or `cancelScheduledNotificationAsync` aborts the handler before the record is written, since nothing catches it (app/counter/index.tsx:82-101, app/notifications/index.tsx:99-119, and the reminder's scheduling call in app/notifications/index.tsx:146-153). That abort path is not modelled.
- `Countdown.TickStatus`: the distance is a millisecond magnitude. It is not the days/hours/minutes/seconds breakdown that `intervalToDuration` computes, because that function belongs to the date-fns library, not to the app's code.
- The clock is a parameter with one reading per operation. The source reads it up to three times per tick (app/counter/index.tsx:59, 62, 65-66) and twice per toggle. `Date.now()` returns whole milliseconds, so two readings can differ by a millisecond or more. Such a gap is not modelled: in the source, a tick without history whose second reading is 1 ms later than its first reports the task as overdue by 1 ms, where the model reports it as not overdue at distance 0.
- The one-second cadence of the interval and its teardown on unmount are not modelled. Each tick is one call to `CountdownScreen.Tick`.
- Interleaving of the asynchronous steps (read-modify-write races between awaits, a late storage read) is concurrency and is not modelled. Each handler runs to completion.
- `Countdown.WithTaskName`: when no record is stored, the source builds a record with no `completedAtTimestamps` field at all. The model stores an empty history instead. The screen never reaches this case: `HandleSetReminder` runs only once `loading` is cleared, `CountdownScreen.Valid` ties that to a stored record, and `HandleSetReminder` ensures the record was there.
- The date-time picker that sets the reminder time: the chosen time is a parameter of `HandleSetReminder`.
- Numbers are unbounded integers. JavaScript's double-precision arithmetic on timestamps (exact below 2^53) and NaN are not modelled.
- `SignUp.FormAccepted`: Yup's `email()` format test is not modelled, because its regular expression lives in the Yup library, not in the app's code. Its verdict is a parameter.
- String lengths count Unicode scalar values. JavaScript counts UTF-16 code units, so a character outside the Basic Multilingual Plane counts once here and twice in the source.
- `SignUp.OnEmailChange`, `SignUp.ToLower`, `SignUp.LowerChar`: only ASCII capitals are mapped. JavaScript's `toLowerCase` also lower-cases non-ASCII letters ("É" becomes "é"), and it can change the length ("İ", U+0130, becomes two code units). The model keeps every non-ASCII character unchanged and the length fixed.
- Which failure message Formik displays for each field, and the schema's message texts: `FailedRules` gives the failed rules in declaration order only.
- `SignUp.PasswordAcceptedIffNoFailure`: the schema is applied to the raw field string. How Formik hands field values to Yup is decided inside the Formik library, not in the app's code. If it passes an empty field as `undefined`, then for an empty password only the `required` test fails, and the length rule is not reported. The model's clause that a password shorter than 8 characters reports the length rule therefore describes the form only for non-empty passwords.
- The sign-in and sign-up network calls, secure token storage, token decoding, redirects and the authentication context: these are I/O and foreign libraries.
- The history tab and the profile screen only display stored data.
