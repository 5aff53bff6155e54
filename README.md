# Todo-List-Timer: a Dafny model of the project registry and timer arithmetic

The modelled program is a browser widget for tracking time spent on projects. A
user adds a named project, starts and stops its timer, renames it in place and
deletes it. Everything lives in memory in `script.js`. This model covers the
parts of that file whose behaviour can be stated without a browser:

- **Registry** (`registry.dfy`, module `Registry`). The `dataController` keeps
  an ordered list of `{id, title}` records. The model is the class
  `ProjectStore`, whose field `allProjects` is updated in place by
  `AddProject`, `UpdateTitle` and `DeleteData`. Its invariant `Valid()` says
  that ids strictly increase along the list, so they are unique. Each method
  is proved against a value-level definition: `NextFreeId` (largest id plus
  one, or 0), `Retitled` (every record with the id gets the new title) and
  `Without` (every record with the id is dropped). Lemmas show that, on an
  increasing list, retitling changes one record in place and removing is
  cutting out one record. `FindIndex` is the linear lookup behind both `find`
  and `map(...).indexOf(...)`.
- **Decimal text** (`decimal.dfy`, module `Decimal`). `DecimalString` models
  `String(n)` for a non-negative integer. `ParseInt` models the global
  `parseInt` with no radix: skip leading white space, read an optional sign,
  then read the longest run of digits; no digit gives NaN, here `None`.
- **Elapsed-time display** (`clock.dfy`, module `Clock`). After `sec` ticks,
  each field is `("0" + value).substr(-2)`. The values are `sec % 60`,
  `(sec / 60) % 60` and `sec / 3600`. Every field is two digits. Below 100
  hours the three fields read back as `sec`. From 100 hours on, the hours
  field wraps modulo 100.
- **Start/stop button** (`stopwatch.dfy`, module `Stopwatch`). A call of
  `timer` on "Başlat" relabels the button "Durdur" and starts a new count at 0.
  A call on "Durdur" relabels it "Başlat" and stops the count. The `durdur`
  class flips on every call. Clicks reach `timer` only through the list's
  class-name test (script.js:214). As written, that test lets through only the
  first click; see "## Findings".
- **Element ids and handlers** (`element_ids.dfy` and `controller.dfy`). A list
  item's DOM id is `"project-" + id`. The handlers read the id back with
  `parseInt(elementId.slice(8))`. `SubmitProject`, `SaveTitle` and
  `DeleteProject` model the three controller handlers that change the
  registry.

Three behaviours of the code that a reader might not expect, all followed by
the model:

- Every call of `timer` that starts the timer resets its count to 0
  (script.js:135), so a later run would not resume the earlier one's time
  (`Stopwatch.StartResetsCount`). With the intended dispatch,
  `Stopwatch.SecondRunStartsFromZero` shows the effect. As written, no second
  run can start at all (see "## Findings").
- `updateTitle` with an id that no record has dereferences `undefined`
  (script.js:46-49). The model makes the id's presence a precondition of
  `UpdateTitle` and `SaveTitle`. It is not modelled as a silent no-op.
- The hours field wraps at 100 hours (script.js:140). It is not widened to
  three digits.

## Model

| member | source | states |
|---|---|---|
| `Registry.ProjectStore.constructor` | script.js:13-15 | The registry starts with an empty list, which satisfies the invariant. |
| `Registry.ProjectStore.AddProject` | script.js:21-40 | Appends exactly one record with the given title and returns it. Its id is the last id plus one, or 0 when the list is empty. That id is the next free id, and the earlier records are unchanged. Ids stay strictly increasing. |
| `Registry.ProjectStore.UpdateTitle` | script.js:43-51 | With an id that is present, the new list is the old one retitled at that id. Ids, order and the other records are unchanged. Ids stay strictly increasing. |
| `Registry.ProjectStore.DeleteData` | script.js:54-62 | The new list is the old one without the record with that id. The length drops by one exactly when the id was present. An absent id leaves the list unchanged. Ids stay strictly increasing. |
| `Registry.FindIndex` | script.js:46-57 | Returns the first index whose record has the id, or -1 exactly when no record has it. |
| `Registry.NextFreeId` | script.js:24-29 | The id a new project gets exceeds every id in the list, and one less than it is an id of the list when the list is not empty. `NextFreeIdOfIncreasing` and `LastIsMax` tie it to the script's "last id + 1, or 0". |
| `Registry.NextFreeIdOfIncreasing` | script.js:24-29 | In an increasing list the next free id is the last id plus one, or 0 for an empty list. |
| `Registry.MaxId` | script.js:24-29 | The result is an id of the list and is at least every id in it. |
| `Registry.LastIsMax` | script.js:24-29 | In an increasing list, the last id is the largest, so "last id + 1" is "largest id + 1". |
| `Registry.IdsUnique` | script.js:24-35 | In an increasing list, two records with the same id are the same record. |
| `Registry.AppendNextKeepsIncreasing` | script.js:24-35 | Appending a record with the next free id keeps ids increasing. The new id exceeds every earlier id. |
| `Registry.AddedInOrder` | script.js:21-40 | Additions alone from an empty registry build one record per title, and record k carries the k-th title. |
| `Registry.AddedInOrderIds` | script.js:24-35 | Additions alone number the projects 0, 1, 2, ... in list order. |
| `Registry.Without` | script.js:56-60 | The list minus the records with the id. Its own contract says only that removal never lengthens the list. Membership, order and the splice are in the lemmas below. |
| `Registry.WithoutMembers` | script.js:56-60 | Exactly the records with another id survive a removal. |
| `Registry.WithoutKeepsIncreasing` | script.js:56-60 | Removal keeps ids strictly increasing. |
| `Registry.WithoutAbsent` | script.js:56-60 | Removing an id that no record has leaves the list unchanged. |
| `Registry.WithoutIsSplice` | script.js:56-60 | In an increasing list, removing the id at index k equals `splice(k, 1)`. Exactly that record goes, and the others keep their order. |
| `Registry.Retitled` | script.js:46-49 | Retitling keeps the length and every id in place. It changes the title of the records with that id and no other title. |
| `Registry.RetitledIsUpdate` | script.js:46-49 | In an increasing list, retitling by the id at index k replaces only the record at k. |
| `Registry.RetitledKeepsIncreasing` | script.js:46-49 | Retitling keeps ids strictly increasing. |
| `Registry.WithoutLast` | script.js:56-60 | In an increasing list, removing the last record's id drops exactly the last record. |
| `Registry.DeleteLastThenAdd` | script.js:24-60 | Deleting the last project and then adding gives an id no larger than the deleted one. That id is the previous-to-last id plus one, or 0. |
| `Registry.DeleteLastThenAddReusesId` | script.js:24-60 | After additions alone, deleting the last project and adding again reuses its id (0, 1, 2; delete 2; add gets 2). |
| `Decimal.DecimalString` | script.js:105 | `String(n)` is a non-empty string of digits with no leading zero. Its last digit is `n % 10`. It has one character exactly when `n < 10`. |
| `Decimal.ParseInt` | script.js:296 | `parseInt` gives NaN for the empty string and for any string with no digit in it. What it reads from `String(n)` is stated by `ParseIntOfDigits` and `ParseIntOfDecimal`. |
| `Decimal.DigitPrefix` | script.js:296 | The digits `parseInt` reads form a prefix of the input. It is all digits and is followed by a non-digit or by the end. |
| `Decimal.TrimStart` | script.js:296 | `parseInt` skips exactly the leading white space. |
| `Decimal.DigitsValueOfDecimal` | script.js:296 | The digits of `String(n)` denote n. |
| `Decimal.ParseIntOfDigits` | script.js:296 | `parseInt` of a non-empty digit string, followed by nothing or by a non-digit, is the value of those digits. |
| `Decimal.ParseIntOfDecimal` | script.js:296 | `parseInt(String(n) + rest)` is n when `rest` does not start with a digit. |
| `ElementIds.ElementId` | script.js:105 | A list item's id is `project-` followed by at least one digit and nothing but digits. `DecodeElementIdRoundTrip` reads it back. |
| `ElementIds.DecodeElementId` | script.js:296-310 | An element id of at most 8 characters decodes to NaN, because `slice(8)` leaves nothing. `DecodeElementIdRoundTrip` shows that a project's own element id decodes to its id. |
| `ElementIds.SliceFrom` | script.js:296 | `slice(start)` holds the characters from `start` on, or nothing once `start` passes the end. |
| `ElementIds.DecodeElementIdRoundTrip` | script.js:310 | For every natural id, `parseInt(("project-" + id).slice(8))` is id. |
| `ElementIds.ElementIdInjective` | script.js:105 | Distinct projects get distinct element ids. |
| `Clock.LastTwo` | script.js:138-140 | `s.substr(-2)` has length `min(|s|, 2)` and is the end of s. `TwoDigitsShape` gives what it yields on "0" + a numeral. |
| `Clock.TwoDigits` | script.js:138-140 | `("0" + n).substr(-2)` is always two characters. Its second is the units digit of n, and its first is '0' below ten. `TwoDigitsShape` and `TwoDigitsValue` give the whole field. |
| `Clock.Render` | script.js:137-140 | All three fields are two characters long. `RenderFields`, `RenderRoundTrip` and `RenderWraps` give their values. |
| `Clock.TwoDigitsShape` | script.js:138-140 | Each field is the tens digit then the units digit of its value modulo 100, zero-padded. |
| `Clock.PaddedValue` | script.js:138-140 | A zero-padded pair of digits is two digits long and reads back as its value. |
| `Clock.TwoDigitsValue` | script.js:138-140 | Each field is two digits long and reads back as its value modulo 100. |
| `Clock.OneDigitField` | script.js:138 | A value below ten is shown as "0" followed by its digit. |
| `Clock.RenderFields` | script.js:137-140 | Every field has length 2 and is all digits. Seconds read `sec % 60`, minutes `(sec / 60) % 60` and hours `(sec / 3600) % 100`. |
| `Clock.RenderRoundTrip` | script.js:137-140 | For `sec < 360000`, `h * 3600 + m * 60 + s == sec`. |
| `Clock.TwoDigitsModulo` | script.js:140 | A field depends only on its value modulo 100. |
| `Clock.RenderWraps` | script.js:140 | The display after `sec + 360000` ticks equals the one after `sec`: hours wrap at 100. |
| `Clock.RenderZero` | script.js:109 | The initial markup 00:00:00 is the rendering of a count of 0. |
| `Clock.RenderFiveSeconds` | script.js:137-140 | 5 ticks show 00:00:05. |
| `Clock.RenderSixtyFiveSeconds` | script.js:137-140 | 65 ticks show 00:01:05. |
| `Clock.RenderOneHourOneMinuteOneSecond` | script.js:137-140 | 3661 ticks show 01:01:01. |
| `Stopwatch.NewButtonConsistent` | script.js:109-111 | A new project has a consistent, stopped "Başlat" button and shows 00:00:00. |
| `Stopwatch.Toggle` | script.js:265-285 | A call of `timer` always flips the `durdur` class and leaves the fields' text alone. `ToggleFlips`, `StartResetsCount` and `StopKeepsCount` state what it does to the label and the count. |
| `Stopwatch.Tick` | script.js:136-141 | A tick never changes the label, the class or the running state. It adds one to the count exactly when the button is running. |
| `Stopwatch.Ticks` | script.js:136-141 | n ticks never change the label, the class or the running state. They add n to a running count and leave a stopped one alone. |
| `Stopwatch.ToggleFlips` | script.js:270-284 | A call of `timer` turns "Başlat" into "Durdur" and back, flips whether the count runs, and keeps the button consistent. |
| `Stopwatch.ToggleTwice` | script.js:270-284 | Two calls of `timer` restore the label, the class, the running state and the fields. The count ends at 0, because whichever call starts resets it. |
| `Stopwatch.StartResetsCount` | script.js:273-276 | Starting runs a new count from 0. The fields keep their text until the first tick. |
| `Stopwatch.StopKeepsCount` | script.js:279-282 | Stopping keeps the count and the fields. |
| `Stopwatch.TickAdvances` | script.js:136-141 | A tick of a running count adds one and shows the rendering of the new count. |
| `Stopwatch.StoppedIsFrozen` | script.js:149-152 | A stopped button does not change, however many ticks pass. |
| `Stopwatch.RunningTicks` | script.js:136-141 | While running, n ticks add n to the count. The fields show the rendering of the new count. |
| `Stopwatch.Join` | script.js:214 | A class list of one name spells that name. `ReachesTimerIffUnstyled` uses it to spell the button's two class names, `btn start` and `btn start durdur`. |
| `Stopwatch.ClickAsWritten` | script.js:209-216 | As written, a click on a button carrying `durdur` leaves it unchanged, and a click on one without `durdur` is a call of `timer`. `ReachesTimerIffUnstyled`, `SecondClickIgnored` and `LaterClicksKeepCounting` give the consequences. |
| `Stopwatch.ReachesTimerIffUnstyled` | script.js:214 | As written, a click reaches `timer` exactly when the button lacks the `durdur` class. |
| `Stopwatch.SecondClickIgnored` | script.js:214-270 | As written, after the first click and any number of ticks, the button still says "Durdur" and runs, and a further click leaves it unchanged. |
| `Stopwatch.LaterClicksKeepCounting` | script.js:135-214 | As written, click, n1 ticks, click, click and n2 ticks leave the count at n1 + n2: the later clicks never reach `timer`. |
| `Stopwatch.Click` | script.js:214-285 | With the intended dispatch, every click flips the `durdur` class and leaves the fields alone. `ClickIsToggle` shows that it is a call of `timer`. |
| `Stopwatch.ClickIsToggle` | script.js:214 | With the intended dispatch, every click on the start/stop button is a call of `timer`. |
| `Stopwatch.ClickTwiceStops` | script.js:214-284 | With the intended dispatch, a second click after n ticks stops the count at n and relabels the button "Başlat". |
| `Stopwatch.StartThenTicks` | script.js:135-141 | With the intended dispatch, a click on "Başlat" followed by n ticks leaves the count at n, showing the rendering of n. |
| `Stopwatch.SecondRunStartsFromZero` | script.js:135 | With the intended dispatch, click, n1 ticks, click, click and n2 ticks leave the count at n2. Elapsed time is not carried over. |
| `Controller.SubmitProject` | script.js:240-262 | The empty sanitised string creates nothing and leaves the list unchanged. Any other input appends one project with the next free id. |
| `Controller.SaveTitle` | script.js:294-304 | The project whose id is read back from the list item's element id gets the new title. Nothing else changes. |
| `Controller.DeleteProject` | script.js:307-321 | An empty element id, or one that reads as NaN, leaves the list unchanged. Otherwise the project with the decoded id is removed. |
| `Controller.SaveTitleTargetsItsProject` | script.js:294-302 | Saving in the list item of the project at index k retitles exactly that project. |
| `Controller.DeleteTargetsItsProject` | script.js:307-318 | Deleting through the list item of the project at index k removes exactly that project. |

## Left out

- DOM templating and mutation are not modelled: `addProjectToUI`, `clearField`, `edit`, `save`, `delete`, `getDOMstrings` and `getInput` (script.js:96-188). They only build or move markup. The model keeps only the element id and the `00:00:00` initial fields.
- Event wiring is not modelled (script.js:198-237): listeners, and dispatch on tag names, key codes and the delete button's class. The start/stop button's class-name test is the one exception, and it is modelled in `Stopwatch.ClickAsWritten`.
- `setInterval`, `clearInterval` and the `timer-id` attribute are not modelled (script.js:136-151). They are host scheduling. A tick is a call of `Stopwatch.Tick`, and a stopped button receives no ticks.
- `DOMPurify.sanitize` is a foreign library (script.js:247). `Controller.SubmitProject` receives the sanitised text. Titles saved by editing are not sanitised in the script, and the model passes them through unchanged.
- `testing` and `console.log` are not modelled (script.js:65-67, 328). They are console output.
- The link from a button to its project is not modelled. The script does not stop a running interval when the project is deleted (script.js:307-321). The model keeps buttons and the registry separate, so that detached interval is not represented.
- Numbers are unbounded integers. JavaScript numbers are doubles, exact only up to 2^53. `String(n)` switches to exponent form from 1e21, and neither effect is modelled.
- `Decimal.ParseInt` does not model the hexadecimal `0x` prefix or every Unicode space separator. Element ids never contain either.
- `Controller.SaveTitle` requires the decoded id to be a number that some project has. For a NaN or absent id the script's `updateTitle` throws a `TypeError`, and that crash is not modelled.
- `Registry.ProjectStore.UpdateTitle` requires its id to be present. The script dereferences `undefined` for an absent id and throws a `TypeError`, and that crash is not modelled.

## Findings

| source | as written | input that shows it | evidently intended | confidence | as-written member | corrected member |
|---|---|---|---|---|---|---|
| script.js:214 | Clicks reach `timer` only when the class name is exactly `btn start` or `btn start stop`. `timer` adds `durdur` (script.js:270), so after the first click the class name is `btn start durdur`. | A new project's button clicked twice: the second click is ignored, the label stays "Durdur" and the count keeps running. The stop branch (script.js:279-283) is unreachable. | Every click on the start/stop button reaches `timer`, so the second click stops the count. | high; not executed | `Stopwatch.SecondClickIgnored` | `Stopwatch.ClickTwiceStops` |
