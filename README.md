# GitHub star filter, modelled in Dafny

A model of the star-count filter for GitHub topic and search pages
(`github-filter/filter.js`). The script finds the repository items on the page,
reads each item's star count through a chain of fallbacks, hides the items below a
user-set threshold `minStars` and shows (and marks `data-star-processed`) the rest,
except that an item for which no star count text is found, or only an empty one, is
left exactly as it was.
It keeps the result up to date as the page changes, through a leading-edge debounce
of 250 ms and an `isFiltering`/`filterQueued` guard, and it bootstraps with a bounded
retry loop.

Modules, one per component of the script:

- `Wrappers` — `Option`, standing for `null` and, for numbers, `NaN`.
- `JsText`, `JsNumbers` — the JavaScript primitives the script relies on: `trim`,
  `toLowerCase`, `endsWith`, `replace` with a string pattern (first occurrence only),
  `parseFloat` and `parseInt` over exact rationals.
- `StarCount` — `parseStarCount`.
- `StarPattern` — the two case-insensitive regular expressions of `findStarCount`,
  as a leftmost-match scanner over a string.
- `Dom` — the page: a class `Element` whose text, `aria-label`, matched selectors and
  `querySelectorAll` results are fixed, and whose `hidden` (`style.display == 'none'`)
  and `processed` (`data-star-processed`) fields the filter writes. CSS selectors are
  opaque names; the selector engine is replaced by the element's lookup tables.
- `Locators` — `findRepoItems` and `findRepoContainer`, first-match searches over
  ordered selector lists.
- `Extractor` — `findStarCount`, three stages in priority order.
- `FilterPass` — `filterRepositories`, a loop that writes every item in place.
- `Scheduler` — the scheduling state (`minStars`, `lastFilterTime`, the pending
  `filterTimeout`, `isFiltering`, `filterQueued`, pending re-runs) and every event
  as a function on it.
- `Control` — the same state as a class whose methods are the script's handlers;
  each is proved to move the state exactly as the `Scheduler` function does, and to
  apply a filter pass to the page exactly when that function starts one. It also holds
  the mutation observer's trigger test and `retryFilter`.

Times (`Date.now()`) are parameters; a timer firing is an explicit event.

Behaviour of the script worth knowing (the model follows the code):

- A text ending in `k` or `m` whose prefix does not parse gives `NaN`, not 0.
  `NaN < minStars` is false, so such an item is shown and marked.
- Only the first comma is removed, so `1,234,567` reads as 1234
  (`StarCount.ExampleTwoCommas`).
- The debounce window is measured from the start of the last pass, not from its end
  (`lastFilterTime` is set before the pass runs).
- A filter pass is synchronous, so no call can reach the guard while `isFiltering` is
  true. From the initial state the queue branch and the 100 ms re-run are never
  reached (`Scheduler.ReachableQuiet`). The model keeps them as written, and proves
  what they would do if a call did arrive during a pass (`Scheduler.QueuedRerunBound`).

## Model

| member | source | states |
|---|---|---|
| `JsText.Trim` | github-filter/filter.js:167 | `trim`; specified by `JsText.TrimSpec` and `JsText.TrimOfTrimmed` |
| `JsText.Lower` | github-filter/filter.js:167 | `toLowerCase`, keeping the length; specified by `JsText.LowerPointwise` |
| `JsText.RemoveFirst` | github-filter/filter.js:171-179 | `replace(c, '')`; specified by `JsText.RemoveFirstSpec` |
| `JsText.TrimSpec` | github-filter/filter.js:167 | `trim` removes exactly a whitespace prefix and suffix, and leaves no whitespace at either end |
| `JsText.TrimOfTrimmed` | github-filter/filter.js:167 | a text with no whitespace at either end is its own trim |
| `JsText.LowerPointwise` | github-filter/filter.js:167 | `toLowerCase` maps each character on its own |
| `JsText.LowerIdempotent` | github-filter/filter.js:167 | lower-casing twice is lower-casing once |
| `JsText.IndexOf` | github-filter/filter.js:171 | the position found holds the character and none comes before it; none found means it does not occur |
| `JsText.RemoveFirstSpec` | github-filter/filter.js:179 | `replace` with a string pattern cuts out exactly the first occurrence, and leaves a text without it unchanged |
| `JsText.DigitsValueAppend` | github-filter/filter.js:179 | reading two digit runs one after the other shifts the first by the length of the second |
| `JsNumbers.ScanLiteral` | github-filter/filter.js:171 | the literal `parseFloat` reads is well formed and lies within the text |
| `JsNumbers.ParseFloatNaN` | github-filter/filter.js:171-179 | `parseFloat` is `NaN` exactly when, after the whitespace and an optional sign, the text has neither a digit nor a point followed by a digit |
| `JsNumbers.ScanDecimal` | github-filter/filter.js:171 | the literal scanned from a plain decimal number, followed by what cannot extend it, is exactly that number's digits and fraction |
| `JsNumbers.ParseFloatDecimal` | github-filter/filter.js:179 | `parseFloat` reads back a plain decimal number followed by anything but a digit, `.`, `e` or `E` |
| `JsNumbers.ParseInt` | github-filter/filter.js:147 | `parseInt(·, 10)`; specified by `JsNumbers.ParseIntDecimal`, `JsNumbers.ParseIntNegative` and `JsNumbers.ParseIntFailsWithoutDigits` |
| `JsNumbers.ParseIntDecimal` | github-filter/filter.js:147 | `parseInt(·, 10)` reads back a digit run and ignores a fraction after it |
| `JsNumbers.ParseIntNegative` | github-filter/filter.js:147-148 | `parseInt` reads a leading minus, so a negative input is rejected by the `>= 0` test |
| `JsNumbers.ParseIntFailsWithoutDigits` | github-filter/filter.js:147-148 | `parseInt` is `NaN` exactly when no digit follows the whitespace and the sign |
| `StarCount.Normalize` | github-filter/filter.js:167 | `text.trim().toLowerCase()`; specified by `StarCount.NormalizeIdempotent` and `StarCount.ParseStarCountNormalized` |
| `StarCount.ParseStarCount` | github-filter/filter.js:164-180 | `null` and `""` give 0; a `NaN` result only arises from a text whose normal form ends in `k` or `m` |
| `StarCount.SuffixBranch` | github-filter/filter.js:169-177 | a text ending in `k`/`m` gives the parse of the text with its first `k`/`m` removed, times 1000/1000000, `NaN` staying `NaN` |
| `StarCount.PlainBranch` | github-filter/filter.js:179 | any other text has its first comma removed, and a `NaN` parse gives 0 |
| `StarCount.ParseStarCountSuffix` | github-filter/filter.js:169-177 | a decimal number followed by `k`, `K`, `m` or `M` reads as the number scaled by 1000 or 1000000 (`SuffixFactor`) |
| `StarCount.ScaledPrefix` | github-filter/filter.js:167-177 | any text `t` not starting with whitespace, followed by a suffix letter, reads as `parseFloat` of lower-cased `t` scaled by that letter's factor, when lower-cased `t` holds no copy of the lower-cased letter |
| `StarCount.ParseFloatOfDecimal` | github-filter/filter.js:171 | `parseFloat` reads a plain decimal number as its exact value |
| `StarCount.ParseStarCountPlain` | github-filter/filter.js:179 | a plain decimal number reads as its value |
| `StarCount.ParseStarCountThousands` | github-filter/filter.js:179 | `a,b` with digit runs `a` and `b` reads as the digits of `a` followed by `b` |
| `StarCount.ParseStarCountSecondCommaStops` | github-filter/filter.js:179 | only the first comma is removed: `a,b,c` reads as the digits `ab` |
| `StarCount.ParseStarCountNormalized` | github-filter/filter.js:167 | surrounding whitespace and letter case never change the count |
| `StarCount.NormalizeIdempotent` | github-filter/filter.js:167 | trimming and lower-casing twice changes nothing |
| `StarCount.ExampleThousands` | github-filter/filter.js:179 | `5,200` reads as 5200 |
| `StarCount.ExampleThousandSuffix` | github-filter/filter.js:170-171 | `1.2k` reads as 1200 |
| `StarCount.ExampleTwoPointOneK` | github-filter/filter.js:170-171 | `2.1k` reads as 2100 |
| `StarCount.ExampleMillionSuffix` | github-filter/filter.js:175-176 | `3m` reads as 3000000 |
| `StarCount.ExampleThree` | github-filter/filter.js:179 | `3` reads as 3 |
| `StarCount.ExampleGarbage` | github-filter/filter.js:179 | `garbage` reads as 0 |
| `StarCount.ExampleTwoCommas` | github-filter/filter.js:179 | `1,234,567` reads as 1234 |
| `StarPattern.TokenEnd` | github-filter/filter.js:310 | the greedy end of `\d+\.?\d*[km]?` lies at or after the start and within the text; `StarPattern.TokenEndPlain` and `StarPattern.TokenEndScaled` pin it down |
| `StarPattern.MatchEnd` | github-filter/filter.js:310 | a greedy match at a start position ends after it and within the text |
| `StarPattern.MatchSound` | github-filter/filter.js:310 | the greedy reading at a start position is a way for the pattern to match there |
| `StarPattern.ScriptWordsAreWords` | github-filter/filter.js:310-320 | both of the script's word lists, `star` and `star` or `user`, meet the condition under which the greedy reading is the only one |
| `StarPattern.MatchUnique` | github-filter/filter.js:310 | every way the pattern can match at a start position, backtracking included, captures what the greedy reading captures |
| `StarPattern.TokenEndPlain` | github-filter/filter.js:310 | a token of digits, optional point and digits, followed by a character that cannot extend it, ends after its digits |
| `StarPattern.TokenEndScaled` | github-filter/filter.js:310 | a token whose digits are followed by `k` or `m`, in either case, ends after that letter |
| `StarPattern.FirstSome` | github-filter/filter.js:310 | a scan from left to right stops at a position within the range where the pattern gives a reading, with that reading |
| `StarPattern.FirstSomeLeftmost` | github-filter/filter.js:310 | that position is the leftmost one, and none is found only when no position in the range gives a reading |
| `StarPattern.FirstMatch` | github-filter/filter.js:310 | the match found starts at or after the search start and is a greedy match there |
| `StarPattern.FirstMatchLeftmost` | github-filter/filter.js:310 | the match found is the leftmost one, and none is found only when no position matches |
| `StarPattern.Capture` | github-filter/filter.js:310-313 | `match(...)[1]`, or `null`; specified by `StarPattern.CaptureSpec` |
| `StarPattern.CaptureSpec` | github-filter/filter.js:310-313 | the capture is a number token taken at the leftmost matching position; nothing is captured exactly when no position matches |
| `StarPattern.ReadingToken` | github-filter/filter.js:310-313 | what the greedy reading at a matching position spans is a number token |
| `StarPattern.TokenOfReading` | github-filter/filter.js:320 | what any match captures has the shape digits, optional point and digits, optional `k`/`m` |
| `Locators.FirstHit` | github-filter/filter.js:250-256 | the selector index found has matches, every earlier selector has none; none found means every selector misses |
| `Locators.FindRepoItems` | github-filter/filter.js:238-275 | `findRepoItems()`; specified by `Locators.FindRepoItemsSpec` and `Locators.FindRepoItemsEmpty` |
| `Locators.FindRepoItemsSpec` | github-filter/filter.js:238-275 | the matches of the earliest matching selector, in document order; only when all miss, the `article`s of the first `main`, else nothing |
| `Locators.FindRepoItemsEmpty` | github-filter/filter.js:238-275 | no items exactly when every selector misses and there is no `main` or it holds no `article` |
| `Locators.FindRepoContainer` | github-filter/filter.js:182-202 | `findRepoContainer()`; specified by `Locators.FindRepoContainerSpec` |
| `Locators.FindRepoContainerSpec` | github-filter/filter.js:182-202 | the first match of the earliest matching selector; `null` exactly when every selector misses |
| `Extractor.SelectorText` | github-filter/filter.js:279-304 | the selector stage of `findStarCount`; specified by `Extractor.FindStarCountShape` |
| `Extractor.AriaHit` | github-filter/filter.js:316-326 | the label found is the first, in document order, where the `star/user` pattern matches |
| `Extractor.AriaText` | github-filter/filter.js:316-325 | the label stage of `findStarCount`; specified by `Extractor.AriaTextSpec` |
| `Extractor.AriaTextSpec` | github-filter/filter.js:316-329 | the label stage finds nothing exactly when no label matches, and otherwise captures from the first that does |
| `Extractor.FindStarCount` | github-filter/filter.js:277-330 | `findStarCount(repoItem)`; specified by `Extractor.FindStarCountStages` and `Extractor.FindStarCountShape` |
| `Extractor.FindStarCountStages` | github-filter/filter.js:277-330 | a selector hit wins even when later stages would match; the text pattern only when every selector misses; the labels only when the pattern also misses; `null` exactly when all three fail |
| `Extractor.FindStarCountShape` | github-filter/filter.js:293-323 | a selector hit gives the trimmed text of the first match of the earliest matching selector; the later stages give a number token |
| `FilterPass.Judge` | github-filter/filter.js:486-506 | what the pass does to one item; specified by `FilterPass.JudgeSpec` and `FilterPass.JudgeMonotone` |
| `FilterPass.JudgeSpec` | github-filter/filter.js:486-506 | hidden exactly when a non-empty text parses below `minStars`; shown exactly when it is `NaN` or at least `minStars`; skipped exactly when no text or `""` |
| `FilterPass.JudgeMonotone` | github-filter/filter.js:500 | raising the threshold only hides more items; which items are skipped does not depend on it |
| `FilterPass.ApplySpec` | github-filter/filter.js:500-506 | hiding keeps the mark, showing unhides and marks, skipping changes nothing; the mark is never removed |
| `FilterPass.ApplyIdempotent` | github-filter/filter.js:499-506 | applying a verdict twice is applying it once |
| `FilterPass.CountTotal` | github-filter/filter.js:481-506 | shown, hidden and skipped items add up to the items found |
| `FilterPass.Mark` | github-filter/filter.js:500-506 | the item's new `style.display` and mark are the verdict applied to the old ones |
| `FilterPass.MarkAll` | github-filter/filter.js:483-511 | every item has its verdict applied to its old state; the counters count the shown and hidden verdicts |
| `FilterPass.FilterRepositories` | github-filter/filter.js:470-516 | `false` exactly when no item is found (and then nothing changes); every item ends in the state its verdict gives; the counters are exact |
| `FilterPass.FilterTwice` | github-filter/filter.js:470-516 | two passes with the same threshold over an unchanged page leave every item as one pass does |
| `FilterPass.ExampleScenario` | github-filter/filter.js:486-506 | items with `2.1k`, `3` and no text under threshold 5: shown, hidden, skipped; one shown and one hidden |
| `Scheduler.Begin` | github-filter/filter.js:364 | `isFiltering = true`, counting the pass; used by `Scheduler.QueuedRerunBound` |
| `Scheduler.Finish` | github-filter/filter.js:367-374 | the `finally` block; specified by `Scheduler.GuardedSpec` and `Scheduler.QueuedRerunBound` |
| `Scheduler.Guarded` | github-filter/filter.js:357-375 | the guarded pass; specified by `Scheduler.GuardedSpec`, `Scheduler.CallsWhileRunning` and `Scheduler.QueuedRerunBound` |
| `Scheduler.Debounced` | github-filter/filter.js:337-355 | `debouncedFilter()`; specified by `Scheduler.LeadingEdge`, `Scheduler.BurstCoalesces` and `Scheduler.Burst` |
| `Scheduler.FireTimer` | github-filter/filter.js:350-353 | the debounce timer firing; specified by `Scheduler.Burst` and `Scheduler.StepQuiet` |
| `Scheduler.FireRerun` | github-filter/filter.js:372 | the 100 ms re-run firing; unreachable by `Scheduler.ReachableQuiet` |
| `Scheduler.LoadMoreClick` | github-filter/filter.js:382 | the load-more click's `clearTimeout`; specified by `Scheduler.StepQuiet` |
| `Scheduler.LoadMoreSubmit` | github-filter/filter.js:411-417 | the submit handler's `isFiltering = false` and `clearTimeout`; specified by `Scheduler.StepQuiet` |
| `Scheduler.ChangeThreshold` | github-filter/filter.js:146-153 | the threshold input's handler; specified by `Scheduler.ChangeThresholdSpec` |
| `Scheduler.GuardedSpec` | github-filter/filter.js:357-375 | while a pass runs a call only sets `filterQueued`; otherwise a pass runs, the queue is cleared and a re-run is scheduled only if a call was queued |
| `Scheduler.CallsWhileRunning` | github-filter/filter.js:358-362 | any number of calls during a pass only set `filterQueued` |
| `Scheduler.QueuedRerunBound` | github-filter/filter.js:357-375 | a pass during which calls arrived ends with nothing queued and exactly one re-run scheduled, however many calls; with no calls, none |
| `Scheduler.LeadingEdge` | github-filter/filter.js:341-346 | a call more than 250 ms after the last pass started runs a pass at once and records its time |
| `Scheduler.BurstCoalesces` | github-filter/filter.js:348-353 | calls within 250 ms of the last pass run nothing and leave a single timer, due 250 ms after the last of them |
| `Scheduler.Burst` | github-filter/filter.js:337-355 | a burst runs one pass at once and a second when its single timer fires, after which no timer is pending, nothing is queued and no re-run is scheduled; a lone call leaves the timer as it was |
| `Scheduler.ChangeThresholdSpec` | github-filter/filter.js:146-153 | the threshold changes exactly when the input parses to a non-negative integer, and then a debounced pass is requested; it is never made negative |
| `Scheduler.StepQuiet` | github-filter/filter.js:332-417 | every event keeps the state with no pass running, nothing queued, no re-run pending and a non-negative threshold |
| `Scheduler.ReachableQuiet` | github-filter/filter.js:332-417 | every state reachable from a quiet one is quiet |
| `Scheduler.InitQuiet` | github-filter/filter.js:15 | the initial state is quiet, with no pass run and no timer pending |
| `Control.ShouldFilter` | github-filter/filter.js:430-451 | the observer filters exactly when some record is a child-list change with added nodes, or an attribute change on a watched element |
| `Control.TriggersSpec` | github-filter/filter.js:433-448 | text changes, removals alone and attribute changes elsewhere never trigger; one triggering record is enough |
| `Control.Controller.constructor` | github-filter/filter.js:15 | threshold 5, no pass run, nothing pending, no observer |
| `Control.Controller.Begin` | github-filter/filter.js:364 | `isFiltering` is set and the pass is counted |
| `Control.Controller.RunPass` | github-filter/filter.js:470-516 | a filter pass with the current threshold; `isFiltering` is reset only when items were found |
| `Control.Controller.Finally` | github-filter/filter.js:367-374 | the pass is over; a queued call is cleared and re-run 100 ms later |
| `Control.Controller.Guarded` | github-filter/filter.js:357-375 | the state moves as `Scheduler.Guarded`; the page is filtered exactly when a pass runs |
| `Control.Controller.Debounced` | github-filter/filter.js:337-355 | the state moves as `Scheduler.Debounced`; the page is filtered exactly when a pass runs |
| `Control.Controller.FireTimer` | github-filter/filter.js:350-353 | the timer firing records the time and runs the guarded pass |
| `Control.Controller.FireRerun` | github-filter/filter.js:372 | the re-run timeout calls `debouncedFilter` |
| `Control.Controller.LoadMoreClick` | github-filter/filter.js:382 | a load-more click cancels the pending debounce timer |
| `Control.Controller.LoadMoreSubmit` | github-filter/filter.js:411-417 | a load-more submit resets `isFiltering` and cancels the timer |
| `Control.Controller.ChangeThreshold` | github-filter/filter.js:146-153 | the state moves as `Scheduler.ChangeThreshold`; the page is filtered with the new threshold exactly when a pass runs |
| `Control.Controller.OnMutations` | github-filter/filter.js:430-456 | once the observer is set up, a triggering batch calls `debouncedFilter`; otherwise nothing changes |
| `Control.Controller.Attempt` | github-filter/filter.js:524-526 | one attempt: a pass, and on success the observer set up on the page's `main` |
| `Control.Controller.RetryFilter` | github-filter/filter.js:519-538 | at most `maxAttempts` attempts (at least one); stops at the first that finds items, setting up the observer once and leaving every item of the other pages that is not on that page untouched; after `maxAttempts` failures, gives up with nothing changed |

## Left out

- The CSS injection, the control and debug panels, `debugLog` and `dumpPageInfo`
  (github-filter/filter.js:17-162, 204-236): UI and logging only.
- The CSS selector engine and the DOM: selectors are opaque names, and what they match
  is the element's lookup tables.
- `handleLoadMore`'s polling (github-filter/filter.js:385-399). It polls without bound,
  and once items exist `findRepoItems()` returns a `NodeList`, which has no `.filter`, so
  line 387 throws and the `debouncedFilter()` call at line 391 is never reached. Only its
  `clearTimeout` (line 382) and the submit handler's `isFiltering = false` (line 414)
  are modelled.
- The event registration (`MutationObserver`, `addEventListener`) and the real timers:
  time is a parameter, and a timer firing is an explicit event. The delays of
  `retryFilter` (2000 ms) and of start-up (3000 ms, lines 540-562) are not modelled.
  `Control.Controller.RetryFilter` runs its attempts back to back, each on the page as
  it is at that attempt: in the model no other handler can run between two attempts
  (not the threshold input, the load-more handlers or the mutation observer), whereas in
  the script any of them can run during the 2000 ms delay.
- The per-item `catch` (github-filter/filter.js:507-510): on the modelled page no item
  can throw.
- Floating-point rounding: `parseFloat` gives the exact decimal value. `Infinity`
  cannot reach it, because the text is lower-cased first.
- `toLowerCase` beyond ASCII. For example, the Kelvin sign lower-cases to `k` in
  JavaScript but not in the model.
- JsNumbers.ScanLiteral: its contract gives only the shape of the literal it reads
  and that it lies within the text. That the literal's digits are those of the text and
  that it is the longest `StrDecimalLiteral` prefix is proved only for unsigned plain
  decimals without an exponent (`JsNumbers.ScanDecimal`), which is what the lemmas about
  `parseStarCount` need; the NaN case is stated in full by
  `JsNumbers.ParseFloatNaN`.
- The optional `s` of `stars?` (line 310): it never changes whether or where the
  pattern matches, nor what it captures.
