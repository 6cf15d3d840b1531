# Quiz page and online-visitors widget, modelled in Dafny

This project models the two pieces of sequential logic in the site's scripts.

- **The quiz page** (`script.js`). The page's state is the list of loaded
  questions, a cursor `currentIndex` and one `{ selected, submitted }` answer
  record per question. The submit, previous and next handlers change that
  state. Rendering a question decides which inputs are checked and disabled,
  whether the submit button shows, the "Correct!" / "Incorrect." verdict and
  the correct / incorrect highlighting. The next button on the last question
  reports the score. Judging an answer sorts the selection and the correct
  indices in place with JavaScript's default `sort()`, then compares them with
  `arraysEqual`.
- **The online-visitors widget** (`online.js`). It covers the display offset
  read from the configuration, and the visitor and tab ids kept in web
  storage. It also covers which count a server reply supplies, and the count,
  label and offline state the widget shows, including the fallback after a
  failed ping.

Modules:

- `Wrappers` holds `Option`.
- `JsOrder` gives the order of the default `sort()`. Elements are compared as
  strings, code unit by code unit. On integers this is a total order, so a
  sorted list is the unique ordered permutation (`JsSortedUnique`). `JsSort`
  computes it by insertion sort.
- `Quiz` is `script.js`. The class `QuizPage` holds the three module-level
  variables, and its methods are the handlers.
- `Online` is `online.js`. The class `Widget` holds the pill's state and the
  closure variable `lastShown`. The class `Storage` is a web storage area.

Inputs from the environment are parameters:

- the checked state of the rendered inputs (`Submit`);
- the fetched question list (`Load`);
- the outcome of a ping (`Ping`): a parsed reply or a failure;
- the random bytes of a new id (`GetOrCreateId`);
- the numeric conversion of the configured offset (`Widget.constructor`).

JavaScript numbers are `real`s, and a NaN or infinite number is `None`.

## Model

| member | source | states |
|---|---|---|
| `Quiz.ArraysEqual` | script.js:115-121 | true exactly when the lengths agree and the elements agree at every index, i.e. the lists are equal |
| `Quiz.CheckedIndices` | script.js:83 | the selection holds exactly the indices of the checked inputs, each in range, strictly increasing |
| `Quiz.Judged` | script.js:60 | an answer judged correct has exactly as many indices as the correct list, and the same ones; `JudgedIffPermutation` gives the full characterisation |
| `JsOrder.JsSort` | script.js:60 | `.sort()` leaves a permutation of the list that is ordered by the string comparison of the default sort |
| `JsOrder.JsStringInjective` | script.js:60 | different integers have different string forms, so the default sort's order is antisymmetric on integers |
| `JsOrder.JsSortedUnique` | script.js:106 | two lists ordered by the default sort's order and holding the same elements are equal: the sorted result does not depend on the sort algorithm |
| `JsOrder.SortIdempotent` | script.js:106 | sorting a list that an earlier rendering already sorted in place changes nothing |
| `JsOrder.SortEqualIffPermutation` | script.js:106 | two lists sort to the same list exactly when each is a permutation of the other |
| `JsOrder.SortKeepsMembers` | script.js:67-69 | `includes` gives the same answer on a list before and after it is sorted in place |
| `Quiz.JudgedIffPermutation` | script.js:60 | an answer is judged correct exactly when the selection is a permutation of the correct indices |
| `Quiz.Highlight` | script.js:65-72 | an option is marked correct iff the question is submitted and its index is correct; marked incorrect iff submitted, selected and not correct; otherwise unmarked |
| `Quiz.ViewOf` | script.js:19-72 | the rendering shows "Question index+1 of total", one option per option of the question, checked iff selected and disabled iff submitted, the submit button only before submission and a verdict only after it |
| `Quiz.FeedbackMeaning` | script.js:34-72 | inputs are disabled and the submit button hidden exactly when submitted; a verdict appears only then and says "Correct!" iff the selection is a permutation of the correct indices; marks as in `Highlight` |
| `Quiz.RenderInputs` | script.js:27-46 | one input per option, checked iff its index is selected, disabled iff the question is submitted |
| `Quiz.MarkOptions` | script.js:65-72 | each option gets the correct mark if its index is in `correct`, else the incorrect mark if it is selected; inputs are left unchanged |
| `Quiz.CountCorrect` | script.js:105-109 | after n iterations the score loop has counted at most n questions |
| `Quiz.Score` | script.js:104-110 | 0 ≤ score ≤ number of questions |
| `Quiz.QuizPage.ScoreOne` | script.js:106 | one iteration of the score loop: it counts the question iff it is submitted and judged correct, and sorts that question's selection and correct list in place only when it is submitted; no other question changes |
| `Quiz.QuizPage.ComputeScore` | script.js:104-109 | the counter loop ends with `Score` of the state before the loop, every submitted question's lists sorted in place, and the cursor unchanged |
| `Quiz.CountCorrectIsCorrectlyAnswered` | script.js:105-109 | after n iterations the count is the number of the first n questions that are submitted and answered with a permutation of the correct indices |
| `Quiz.ScoreIsCorrectlyAnswered` | script.js:104-110 | the score is the number of submitted questions judged correct; unsubmitted questions never count |
| `Quiz.CountCorrectIgnoresOrder` | script.js:106 | reordering stored selections or correct lists, as the in-place sorts do, never changes a later score |
| `Quiz.QuizPage.constructor` | script.js:1-3 | before loading there are no questions, no answers and the cursor is 0 |
| `Quiz.QuizPage.Load` | script.js:9-11 | one empty, unsubmitted answer per question; cursor 0; the first question is rendered, and rendering fails when the list is empty |
| `Quiz.QuizPage.Display` | script.js:19-79 | the rendering is `ViewOf` the current question and answer; a submitted question has its selection and correct list sorted in place, and nothing else changes |
| `Quiz.QuizPage.Submit` | script.js:82-87 | the checked indices become the current question's selection and it is marked submitted; every other answer is unchanged; the cursor stays; with no questions nothing changes |
| `Quiz.QuizPage.Prev` | script.js:90-95 | the cursor goes down by exactly 1 when above 0 and the new question is rendered; at 0 nothing changes; the cursor never goes below 0 |
| `Quiz.QuizPage.Next` | script.js:98-112 | the cursor goes up by exactly 1 when below the last question; on the last question it stays and the result is `Score` of the state before, with every submitted question's lists sorted in place; `0 ≤ currentIndex < questions.length` is kept |
| `Online.DisplayOffset` | online.js:5-14 | the offset is the configured number when it converts to a finite number, and 11 otherwise |
| `Online.HexByte` | online.js:26 | a byte becomes two lowercase hex digits, high digit first, with a leading zero kept |
| `Online.HexEncode` | online.js:26 | the joined digits are two lowercase hex characters per byte |
| `Online.HexRoundTrip` | online.js:26 | decoding the hex digits gives back the random bytes, so the encoding loses nothing |
| `Online.IdLookup` | online.js:19-28 | a non-empty stored id is returned and storage is untouched; otherwise the id is the prefix followed by 32 lowercase hex digits of the 16 bytes, and it is stored under the key |
| `Online.IdLookupIdempotent` | online.js:21-22 | a second call on the same key returns the first call's id and leaves storage as it was, whatever bytes it draws |
| `Online.Storage.constructor` | online.js:21-27 | a web storage area holds exactly the given key-to-string items, which `getItem` reads and `setItem` replaces |
| `Online.GetOrCreateId` | online.js:19-28 | the returned id and the new storage contents are those of `IdLookup`, and the key afterwards holds the returned id |
| `Online.CreateIds` | online.js:36-37 | the visitor id comes from local storage under `rv_vid` with prefix `v_`; the tab id comes from session storage under `rv_tid` with prefix `t_` |
| `Online.ReadingFor` | online.js:132-135 | in "page" mode the reading is `pageOnline`, falling back to `online` when that is null or undefined; in any other mode it is `siteOnline`, with the same fallback |
| `Online.ReadingIgnoresOtherMode` | online.js:132-135 | the page count never matters outside "page" mode, and the site count never matters in it |
| `Online.EtLabel` | online.js:66 | the label is "külastaja online" iff the count is exactly 1, and "külastajat online" otherwise |
| `Online.ShownCount` | online.js:80 | the shown count minus the offset is a whole, non-negative number, and it is the reading rounded down |
| `Online.ReshowRoundTrip` | online.js:142 | feeding `max(0, shown - offset)` back to `setCount` shows the same count again |
| `Online.Widget.constructor` | online.js:47-58 | a new pill is offline and shows "—" with the plural label; nothing has been shown yet |
| `Online.Widget.SetCount` | online.js:68-90 | a finite non-negative reading is shown and becomes `lastShown`, with its label and the bump; any other reading changes nothing, so the placeholder remains only while nothing has been shown |
| `Online.Widget.SetOnline` | online.js:92-95 | the widget is marked offline exactly when the argument is false; nothing else changes |
| `Online.Widget.Ping` | online.js:126-143 | after a reply, the reading for the mode is shown with the bump and the widget is online, and an invalid reading leaves count, label, `lastShown` and bump as they were; after a failure, the widget is offline, `lastShown` and the shown count and label are unchanged, an earlier count is shown again with the bump, and with nothing shown before the bump stays as it was |

## Left out

- Networking and scheduling in `online.js` are not modelled: `postJson` (fetch with an abort timeout), `beacon` (`sendBeacon`), the polling interval, and the visibility, pageshow, pagehide and beforeunload listeners in `start`. They are I/O and timers. A ping's outcome is a parameter of `Widget.Ping`.
- The request payload of `ping` (ids, path, referrer, reason, timestamp) is not modelled, because it only feeds the network call.
- The fallback id in the catch branch of `getOrCreateId` (`Math.random` and `Date.now`, online.js:29-33) is not modelled. Storage exceptions are not modelled either. The random bytes are a parameter.
- `ensureWidget` finding a pill that is already in the page is not modelled. Such a pill's initial text is whatever the page holds. The model starts from the pill the script creates.
- The bump animation is only a flag. The reflow that restarts it is not modelled.
- `String(shown)` formatting is not modelled. The count is kept as a number.
- Online.ReshowRoundTrip: holds in exact arithmetic for every offset. With IEEE doubles a fractional offset can round `lastShown - offset`. For the integer offsets the page uses, it holds as stated.
- Online.Widget.Ping: "`lastShown` unchanged after a failure" rests on exact arithmetic, and so does `Widget.Valid` ("`lastShown` minus the offset is whole"). In the source, with doubles and a fractional offset, the failure path can drift. With `displayOffset` 0.1 and a reading of 4, `shown` is 4.1. Then `4.1 - 0.1` is 3.9999999999999996, which rounds down to 3, so the re-shown count is 3.1. For integer offsets below 2^53 no rounding happens, and the model's promise holds.
- `JsString` writes every integer as plain decimal digits. JavaScript uses exponent form from 10^21 upwards and loses exactness above 2^53. Option indices never come near either bound, so the default sort's order on them is as modelled.
- The quiz's `fetch('questions.json')`, its failure alert and the score `alert` are not modelled: they are I/O. `Load` takes the fetched list, and `Next` returns the score it would alert. A reply without a `questions` array is not modelled.
- Question and option texts and the explanation paragraph are not modelled. They are DOM output that no decision depends on. A question is its option count and its correct indices.
- The radio-versus-checkbox input type is not modelled. Because of it, the model accepts more than the page can produce: a radio question can never have more than one checked index, but `Submit` accepts any checked list. `Submit`'s `checked` list is also not tied to the current question's option count, while the page always has exactly one input per option. Every contract holds for all these inputs, so the extra ones only widen what is proved.
- Quiz.QuizPage.Load: requires that no questions are loaded yet, because the script loads them once, at start.
- `model.js` (3D scene, camera, model loading) is not part of this model. `scroll.js` (the scrollbar class toggled on a timer) is not part of this model.
- The celebration (fireworks) animation is not part of this model. No code for it appears in the files modelled.
