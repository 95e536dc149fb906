# NEET mock-test runner: verified model of the session core

This project models the logic core of `neetMockTest/script.js`, a browser
runner for a timed 180-question mock exam. It covers:

- the session state: current question, the 180 recorded responses, the 180
  visited flags, and the single-entry page-render cache;
- the countdown that submits the test when time runs out;
- the scoring pass that tallies correct, wrong and unattempted answers and logs
  the wrong ones;
- `formatTime`;
- the vertical layout of the wrong-answer lines in the downloadable report.

Modules:

- `Find`: `Array.prototype.find` over a table, shared by both lookups.
- `Config`: the constants (180 questions, a 10800-second budget, +4/-1 marking, maximum 720).
- `TimeFormat`: `formatTime` as pure functions. It is proved to round-trip:
  reading the `HH:MM:SS` text back gives the seconds it came from.
- `Scoring`: answer-key lookup (first entry whose `q` is the question number),
  each slot's verdict, a specification function `TallyOf` for the loop, and
  the loop itself (`ScoreResponses`), which is proved equal to it. Lemmas cover
  the totals, the score bounds and the exact content and order of the wrong log.
- `ReportLayout`: the `y` cursor loop of the report (`LayOut`), proved equal to
  a closed-form slot formula `Slot`. Lemmas say that every line sits between
  y = 20 and y = 270, and that a new page starts exactly when the cursor would
  pass 270.
- `Countdown`: the timer as a pure state machine (`TickStep`, `CancelStep`,
  `Run`) with lemmas about runs, plus a `Timer` class whose methods are tied to it.
- `Session`: the `ExamSession` class holding the session state in arrays. It has
  the methods `loadQuestion`, `navigate`, `renderPage`, `selectOption`,
  `clearSelection`, `submitTest`, the timer callback and the report placement.

Inputs from outside the program are parameters:

- `QUESTION_LOCATIONS` and `ANSWER_KEY` are given sequences. `ANSWER_KEY` is an
  `Option`, because the source tolerates it being undefined.
- The outcome of the external page render is a boolean.
- The elapsed time in seconds is a natural number.
- A ghost counter `renderCalls` counts how often the external renderer is called.

The model follows the code on these points, where its behaviour may be unexpected:

- The answer key is searched by question number (`q == i + 1`, first match). It is not indexed by position.
- The timer submits when the counter is `<= 0`, not only when it equals 0.
  With the fixed positive budget this is the same thing.
- `loadQuestion` moves the current index before the render is awaited.
- The "N/A" shown for a missing key answer is also shown for a key answer that
  is the empty string, since `correctAns || 'N/A'` treats both as falsy.

## Model

| member | source | states |
|---|---|---|
| `TimeFormat.FormatTime` | neetMockTest/script.js:174-179 | the text is always "hours:minutes:seconds" with at least two hour digits and exactly two minute and two second digits |
| `TimeFormat.NatToString` | neetMockTest/script.js:175-177 | `toString()` of a non-negative integer: one or more decimal digits, a single digit exactly below 10, no leading zero from 10 on |
| `TimeFormat.PadStart2` | neetMockTest/script.js:175-177 | `padStart(2, '0')`: the text is kept as its suffix, only zeros are added in front, and the length becomes at least 2 |
| `TimeFormat.FormatTimeRoundTrip` | neetMockTest/script.js:174-179 | parsing the formatted text (hours : two-digit minutes : two-digit seconds) gives back exactly the input seconds |
| `TimeFormat.FormatTimeFields` | neetMockTest/script.js:174-179 | the text has at least 8 characters with colons in the right places; the three digit fields read h = s/3600, m = (s%3600)/60 < 60, sec = s%60 < 60; it is exactly 8 characters iff h < 100 |
| `TimeFormat.SplitSeconds` | neetMockTest/script.js:175-177 | minutes and seconds fields are below 60 and h*3600 + m*60 + sec equals the input |
| `TimeFormat.ParsePadded` | neetMockTest/script.js:175-177 | a field padded to two digits reads back as its number, and is exactly two characters when the number is below 100 |
| `TimeFormat.FormatTimeInjective` | neetMockTest/script.js:174-179 | two different durations never display as the same text |
| `Find.FirstIndex` | neetMockTest/script.js:77 | the position found is that of the first element satisfying the test, or the end of the table when none does |
| `Find.FindFirst` | neetMockTest/script.js:202 | nothing is found iff no element satisfies the test; a found element is the first one that does |
| `Scoring.CorrectAnswer` | neetMockTest/script.js:202-203 | there is no answer iff the key is undefined or no entry matches the question; otherwise the answer is that of the first entry for the question |
| `Scoring.Shown` | neetMockTest/script.js:211 | "N/A" is shown exactly when the key answer is missing or falsy (empty), or is literally "N/A" |
| `Scoring.Classify` | neetMockTest/script.js:205-212 | unattempted iff null; correct iff non-null and equal to the key answer; wrong iff non-null and different, including when the key has no entry |
| `Scoring.Step` | neetMockTest/script.js:200-212 | one iteration adds exactly one to the three counters together, and only appends to the wrong log, one entry per added wrong answer |
| `Scoring.TallyOf` | neetMockTest/script.js:196-213 | after the loop over the slots, correct + wrong + unattempted equals the number of slots, and the wrong log has exactly `wrong` entries |
| `Scoring.StepCount` | neetMockTest/script.js:205-212 | one iteration increments exactly the counter of the slot's verdict |
| `Scoring.CountIsClassSize` | neetMockTest/script.js:196-213 | each counter equals the number of slots with that verdict |
| `Scoring.TallyCountsClasses` | neetMockTest/script.js:196-213 | correct is the number of slots whose answer equals the key answer, unattempted the number of null slots, wrong the number of non-null slots that differ from the key |
| `Scoring.TotalScore` | neetMockTest/script.js:215 | 4*correct - wrong lies between minus the number of slots and 4 times it, and reaches the maximum exactly when nothing is wrong or unattempted |
| `Scoring.Summarize` | neetMockTest/script.js:215-224 | the result record's three counts sum to the number of slots; score = 4*correct - wrong with the bounds above; the log has `wrong` entries; the time is formatTime of the elapsed seconds |
| `Scoring.ScoreBounds` | neetMockTest/script.js:215 | 4*correct - wrong lies between minus the number of slots and 4 times it |
| `Scoring.WrongLogSound` | neetMockTest/script.js:205-211 | every log entry names a slot whose answer is non-null and differs from the key, records that answer, and records the key answer as shown (or "N/A") |
| `Scoring.WrongLogSorted` | neetMockTest/script.js:199-211 | log question numbers lie in 1..N and strictly increase |
| `Scoring.WrongLogComplete` | neetMockTest/script.js:199-211 | every wrong slot has an entry in the log |
| `Scoring.WrongLogExact` | neetMockTest/script.js:199-211 | a slot is wrong if and only if its question number is in the log |
| `Scoring.UnkeyedAnswerIsWrong` | neetMockTest/script.js:202-211 | a non-null answer to a question with no key entry is logged as wrong with correct answer "N/A" |
| `Scoring.NoKeyNothingCorrect` | neetMockTest/script.js:202-208 | with ANSWER_KEY undefined no answer counts as correct |
| `Scoring.ScoringExample` | neetMockTest/script.js:196-215 | key A,B,C and answers A,C,blank give one correct, one wrong (Q2: C vs B), one unattempted and score 3 |
| `Scoring.ScoreResponses` | neetMockTest/script.js:190-224 | the loop over the 180 slots yields the specification tally; the three counts sum to 180; score = 4*correct - wrong, which lies in -180..720; the log has `wrong` entries; the time text is formatTime of the elapsed seconds |
| `ReportLayout.SlotInBand` | neetMockTest/script.js:285-292 | every report line is placed at 20 <= y <= 270, on page 1 or later |
| `ReportLayout.SlotNext` | neetMockTest/script.js:289-292 | the next line starts a new page at y = 20 exactly when y + 7 would exceed 270; otherwise it is on the same page, 7 lower |
| `ReportLayout.SlotOrdered` | neetMockTest/script.js:289-293 | consecutive lines advance strictly down the page or onto the next page, never skipping a page |
| `ReportLayout.LayOut` | neetMockTest/script.js:285-293 | the cursor loop places one line per wrong-log entry, in log order, at the closed-form slot, inside the 20..270 band |
| `Countdown.TickStep` | neetMockTest/script.js:164-171 | a cleared interval ticks no more; a running one loses one second; a submission happens only on a running tick, and that tick stops the timer; a non-negative counter, positive while running, stays so |
| `Countdown.CancelStep` | neetMockTest/script.js:192 | clearInterval stops the timer and keeps the counter, and no tick does anything afterwards |
| `Countdown.RunStopped` | neetMockTest/script.js:168 | once the interval is cleared, further ticks change nothing and never submit |
| `Countdown.RunBeforeExpiry` | neetMockTest/script.js:161-167 | from a running counter d, after k < d ticks it reads d - k, still running, with no submission |
| `Countdown.RunAtExpiry` | neetMockTest/script.js:165-170 | the d-th tick stops the timer at 0 and submits exactly once |
| `Countdown.TicksAfterStart` | neetMockTest/script.js:164-171 | any k >= d ticks end stopped at 0 with exactly one submission |
| `Countdown.CancelPreventsSubmit` | neetMockTest/script.js:192 | after clearInterval no tick submits and the counter stays where it was |
| `Countdown.TestDurationRun` | neetMockTest/script.js:160-171 | from 10800: after k < 10800 ticks timeLeft = 10800 - k with no submission; from the 10800th tick on, stopped at 0 with one submission |
| `Countdown.Timer.Start` | neetMockTest/script.js:160-164 | the timer starts at 10800 seconds, running |
| `Countdown.Timer.Tick` | neetMockTest/script.js:164-171 | one callback is exactly one step of the state machine; the counter is never negative, so the display is always defined |
| `Countdown.Timer.Display` | neetMockTest/script.js:162-166 | the timer text shown reads back as exactly the seconds left |
| `Countdown.Timer.Cancel` | neetMockTest/script.js:192 | clearing stops the timer and keeps the counter |
| `Session.FindLocation` | neetMockTest/script.js:77-79 | there is no record iff no record has that question number; a found record has that number and is the first such record |
| `Session.RenderCache` | neetMockTest/script.js:98-114 | the renderer is called exactly when the page differs from the cached one; the cache then holds either the new page or the old one, and the new page whenever the render completes |
| `Session.RenderCacheHit` | neetMockTest/script.js:98-114 | the renderer is skipped iff the page is the cached one; a completed render caches the page; a failed render leaves the cache as it was |
| `Session.RenderTwiceRendersOnce` | neetMockTest/script.js:99-113 | after a completed render of page p, a second request for p does not call the renderer |
| `Session.ExamSession.constructor` | neetMockTest/script.js:13-19 | index 0, 180 null responses, 180 unvisited slots, page 0 cached, no renders yet |
| `Session.ExamSession.RenderPage` | neetMockTest/script.js:98-114 | the cache and the render count change exactly as the single-entry cache prescribes |
| `Session.ExamSession.LoadQuestion` | neetMockTest/script.js:66-96 | out of range: nothing changes; in range: index set, only that slot marked visited, responses untouched, the question's page (if it has a location) goes through the cache; visited flags never revert |
| `Session.ExamSession.Navigate` | neetMockTest/script.js:116-118 | same effect as loading question current + dir |
| `Session.ExamSession.SelectOption` | neetMockTest/script.js:123-127 | only the current slot changes, and it now holds the option, overwriting any earlier one |
| `Session.ExamSession.ClearSelection` | neetMockTest/script.js:129-133 | only the current slot changes, and it is null again |
| `Session.ExamSession.SubmitTest` | neetMockTest/script.js:190-224 | the timer is cleared, the result is the specification summary of the current responses, and it is published as testResultData |
| `Session.ExamSession.OnTimerTick` | neetMockTest/script.js:164-171 | the timer takes one step; a result is produced iff that step submits, and it is the summary of the responses |
| `Session.ExamSession.DownloadResultPdf` | neetMockTest/script.js:285-293 | the published wrong log is laid out one line per entry, in order, at the closed-form slots |

## Left out

- Document loading and page rendering through pdf.js (getDocument, getPage, viewport and canvas, lines 41-42 and 101-112): a foreign library. A render is one external call whose success is an input.
- `init` (lines 38-49): it only sequences document loading, palette set-up, `loadQuestion(0)` and `startTimer`, which are modelled one by one. The fatal "cannot load paper" path is I/O.
- The scroll offset `coord.y * (2.5 / 1.5) - 30` (lines 84-92) and the accuracy percentage with `toFixed(1)` (line 216): floating-point arithmetic. The y field of a location record is therefore not modelled.
- jsPDF text, fonts, colours, the header lines, the rule and `doc.save` (lines 263-284, 291 text, 295), and `downloadQuestionPaper` (lines 298-305): document generation and browser downloads. Only the integer y layout and page breaks are modelled.
- DOM work: `generatePalette`, `updatePaletteUI`, `updateOptionUI`, the question-number label and the result-screen HTML (lines 54-64, 73, 135-155, 226-250): user interface.
- `setInterval`, `setTimeout`, `Date.now()`, `confirm` and `alert` (lines 17-18, 164, 184-188, 193, 253-256): wall-clock and event plumbing. Ticks are explicit calls to `Tick`. The elapsed seconds are a parameter. The finish button's confirmation is the caller's decision to call `SubmitTest`.
- Interleaving of asynchronous handlers: a second navigation while a render is still pending is not modelled. Each operation runs to completion.
- `Countdown.Timer.Tick`: the display text is not returned. It is `Display()`, which is `formatTime(timeLeft)` and is always defined because `timeLeft` never goes negative.
