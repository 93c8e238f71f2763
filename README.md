# Readwise challenge: a Dafny model of the reading-goal tracker

The program is a single page. It counts the articles a user has read this
year and compares that count with a linear pace toward an annual goal. The
read articles are the documents in the user's Readwise archive that carry a
configured tag. This project models the four pieces of logic on that page and
proves their properties:

- **Pagination** (`pagination.dfy`): the `fetchDocumentListApi` loop. It
  requests pages from the list endpoint and follows `nextPageCursor` until the
  cursor is falsy. The reading service is an abstract function
  `Server = Request -> Response`. A request carries the token and the query
  parameters that were set. A response is either a page or `Failed`.
  `FetchDocumentList` is a `while` loop with invariants. It is proved to
  perform exactly the exchange `IsRun` describes and to return `RunOutcome`.
  Lemmas show that this exchange is unique, that it carries the right
  parameters, and that a chain of pages P1..Pn yields n requests and the
  results in page order.
- **Tag-match count** (`documents.dfy`): the filter
  `Object.keys(document.tags).includes(tag.toLocaleLowerCase())` and its
  length. Only the query side is lower-cased; stored keys are compared as
  they are.
- **Calendar and pacing** (`calendar.dfy`, `pacing.dfy`): Gregorian stand-ins
  for `getDayOfYear` and `getDaysInYear`. Also the progress percentage, the
  pace target `articlesUntilToday`, and the three comparisons that pick the
  bar colour, the red pace overlay and the ahead/behind message. `Math.round`
  of a quotient is exact integer rounding (`RoundDiv`).
- **Component state** (`home.dfy`): class `Home` has the fields goal, current,
  token, tag, loading, settingsOpen and settingsFound. The field `stored` is
  the single local-storage slot. `Home` has methods for the mount-time
  restore, opening and closing the settings dialog and its three input
  handlers, the start of a
  refresh, its completion, and the whole refresh.
  The predicate `Valid` says that once settings were found or saved, the slot
  holds exactly the goal, token, tag and count on display. It holds after a
  restore and after every completed refresh, and the other methods keep it,
  except the dialog's edit handlers: an edit changes the display without
  touching the slot until the next successful save.
- `wrappers.dfy` holds `Option` and `Result`.

Three behaviours of the code are easy to miss:

- On schedule (count equal to target), the code shows a green bar and the
  message "0 articles behind schedule". It has no separate on-track state
  (`Pacing.OnScheduleShowsZeroBehind`).
- The code has no error handler on the fetch. A failed request leaves
  `loading` raised until a later refresh succeeds
  (`HomeState.Home.Refresh`, `HomeState.FailingSecondPage`).
- The loop has no cap on the number of pages.

## Model

| member | source | states |
|---|---|---|
| `Documents.LowerChar` | src/app/page.tsx:102 | upper-case ASCII letters move down by 32, all other characters stay, and the result is never an upper-case letter |
| `Documents.Lower` | src/app/page.tsx:102 | the lower-cased tag has the same length and is lower-cased character by character |
| `Documents.LowerIdempotent` | src/app/page.tsx:102 | lower-casing an already lower-cased tag changes nothing |
| `Documents.Filter` | src/app/page.tsx:101-103 | the filtered list is no longer than the input and every document in it carries the key |
| `Documents.ReadDocuments` | src/app/page.tsx:101-103 | the read documents are the input filtered on the lower-cased tag: no more of them than documents, and each carries lower(tag) among its keys |
| `Documents.ReadCount` | src/app/page.tsx:101-105 | the read count (`readwiseReads.length`) is at most the number of documents |
| `Documents.FilterMembership` | src/app/page.tsx:101-103 | a document is in the filtered list iff it is in the input and carries the key |
| `Documents.FilterCountsPositions` | src/app/page.tsx:101-105 | the filtered length equals the number of input positions whose document carries the key |
| `Documents.FilterAppend` | src/app/page.tsx:101-103 | filtering a concatenation gives the concatenation of the filtered parts, in order |
| `Documents.ReadCountAppend` | src/app/page.tsx:101-105 | the read count of two lists appended is the sum of their read counts |
| `Documents.ReadCountMeaning` | src/app/page.tsx:101-105 | the read count is the number of documents whose tag keys contain lower(tag), and at most the number of documents |
| `Documents.ReadCountCaseInsensitive` | src/app/page.tsx:101-105 | `tag` and `lower(tag)` give the same read count |
| `Documents.DefaultTagSpellings` | src/app/page.tsx:101-105 | "2024_READ" and "2024_read" give the same read count on any documents |
| `Documents.StoredKeysKeepTheirCase` | src/app/page.tsx:102 | a document whose only key is "2024_READ" is not counted for the tag "2024_READ", because stored keys are not lower-cased |
| `Pagination.BuildRequest` | src/app/page.tsx:30-39 | a request carries the token; `pageCursor`, `updatedAfter` and `location` are each present exactly when truthy, and then unchanged |
| `Pagination.KeepTruthy` | src/app/page.tsx:31-39 | a parameter is sent iff its value is truthy (not null, absent or ""), and then unchanged |
| `Pagination.ExtendPartialRun` | src/app/page.tsx:29-58 | a pass whose answer has a truthy cursor extends the exchange so far, and the loop then holds that cursor |
| `Pagination.FinishRun` | src/app/page.tsx:29-58 | a pass whose answer fails or has a falsy cursor completes the exchange |
| `Pagination.FetchDocumentList` | src/app/page.tsx:21-60 | the requests sent form the one exchange `IsRun` describes; the call throws iff the last answer failed, and otherwise returns all page results appended in page order |
| `Pagination.RunsAgree` | src/app/page.tsx:26-58 | two exchanges with the same server agree request by request |
| `Pagination.RunUnique` | src/app/page.tsx:26-58 | the exchange is determined by the server and the arguments, so the number of requests is exact |
| `Pagination.RequestsOfARun` | src/app/page.tsx:27-54 | every request carries the same token and `updatedAfter`/`location` exactly when they are truthy, with the same values; the first request has no cursor; request i+1 carries the truthy cursor of answer i |
| `Pagination.RunFollowsChain` | src/app/page.tsx:26-58 | against a page chain, the i-th request of the loop is answered with the i-th page |
| `Pagination.PagesInOrder` | src/app/page.tsx:26-59 | for pages P1..Pn where P1..P(n-1) have a truthy cursor and Pn a falsy one, the loop sends exactly n requests and returns P1.results through Pn.results in order |
| `Pagination.ChainEndsWithin` | src/app/page.tsx:26-59 | against a server serving the chain P1..Pn, the loop started at the cursor leading to page k ends within n - k requests |
| `Pagination.FetchAlongChain` | src/app/page.tsx:26-59 | fetching against the chain P1..Pn performs the run of the loop, with exactly n requests, and returns P1.results through Pn.results in order |
| `Pagination.StopsOnFalsyCursor` | src/app/page.tsx:54-57 | a first answer with a null, absent or empty cursor ends the loop after a single request and returns that page's results |
| `Pagination.ReadCountOfPages` | src/app/page.tsx:53 | the read count of the appended results is the sum of the per-page read counts |
| `Calendar.DaysInMonth` | src/app/page.tsx:257 | a month has 28 to 31 days, and February has 29 exactly in leap years |
| `Calendar.IsLeapYear` | src/app/page.tsx:258 | the Gregorian leap-year rule: divisible by 4, and not by 100 unless by 400 |
| `Calendar.DaysInYear` | src/app/page.tsx:258 | a year has 366 days iff it is a Gregorian leap year, and 365 otherwise |
| `Calendar.MonthsMakeTheYear` | src/app/page.tsx:257-258 | the twelve months add up to the days of the year |
| `Calendar.DaysBeforeGrows` | src/app/page.tsx:257 | a later month starts after an earlier month has ended |
| `Calendar.DayOfYear` | src/app/page.tsx:257 | the day of the year of a valid date lies between 1 and the days of its year |
| `Calendar.DayOfYearIncreases` | src/app/page.tsx:257 | a date that is earlier in the same year has a strictly smaller day number |
| `Calendar.YearEnds` | src/app/page.tsx:257-258 | January 1 is day 1, and December 31 is the last day of the year |
| `Calendar.LeapYearExamples` | src/app/page.tsx:258 | 2024 and 2000 have 366 days; 2023 and 1900 have 365 |
| `Pacing.RoundDiv` | src/app/page.tsx:260 | `Math.round(a / b)` for b > 0, computed as `(2a + b) / (2b)`; its meaning is stated by `RoundDivNearest` |
| `Pacing.RoundRatio` | src/app/page.tsx:294 | `Math.round(a / b)` for any non-zero b; its meaning is stated by `RoundRatioNearest` |
| `Pacing.RoundDivNearest` | src/app/page.tsx:260 | `RoundDiv(a, b)` is the integer nearest to a/b, with halves rounded up (`Math.round`) |
| `Pacing.RoundRatioNearest` | src/app/page.tsx:294 | `RoundRatio(a, b)` is the nearest-integer rounding of a/b for a divisor of either sign |
| `Pacing.RoundDivMonotone` | src/app/page.tsx:260 | a larger numerator never rounds to less |
| `Pacing.RoundDivExact` | src/app/page.tsx:260 | an exact multiple k*b rounds to k |
| `Pacing.ProgressPercent` | src/app/page.tsx:251-253 | the percentage is missing (non-finite) exactly when the goal is 0 |
| `Pacing.ProgressPercentRange` | src/app/page.tsx:294 | for 0 <= current <= goal the percentage lies in 0..100, is 0 with nothing read and 100 at the goal |
| `Pacing.ProgressPercentMonotone` | src/app/page.tsx:294 | reading more never lowers the percentage |
| `Pacing.Expected` | src/app/page.tsx:258-260 | the pace target `Math.round(goal / daysInYear * dayOfYear)` on exact values; its properties are the four lemmas that follow |
| `Pacing.ExpectedWithinGoal` | src/app/page.tsx:258-260 | for goal >= 0 and 1 <= dayOfYear <= daysInYear the target lies in [0, goal] |
| `Pacing.ExpectedMonotone` | src/app/page.tsx:258-260 | for a fixed goal >= 0 the target is non-decreasing in the day of the year |
| `Pacing.ExpectedOnLastDay` | src/app/page.tsx:258-260 | on the last day of the year the target equals the goal |
| `Pacing.ExpectedExample` | src/app/page.tsx:258-260 | a goal of 365 on day 100 of a 366-day year gives a target of 100 |
| `Pacing.ArticlesUntilToday` | src/app/page.tsx:255-260 | today's target lies in [0, goal] for goal >= 0 |
| `Pacing.ArticlesUntilTodayOverTheYear` | src/app/page.tsx:255-260 | a later date in the year never has a lower target, and December 31 has the whole goal |
| `Pacing.Judge` | src/app/page.tsx:303-339 | green bar iff current >= target; exactly one of green bar and red overlay; "ahead" only with a positive difference; overlay iff "behind" with a positive difference; the number shown is the absolute difference |
| `Pacing.OnScheduleShowsZeroBehind` | src/app/page.tsx:321-339 | when current equals the target the bar is green, there is no overlay, and the "behind" message shows 0 |
| `Pacing.JudgeExamples` | src/app/page.tsx:321-339 | against a target of 100, a count of 120 is 20 ahead and a count of 80 is 20 behind |
| `Pacing.ProgressBar` | src/app/page.tsx:251-313 | the target shown is in [0, goal], the bar is green iff current >= target, and the percentage is missing only for a zero goal |
| `Pacing.LastDayGreenIffGoalReached` | src/app/page.tsx:313 | on December 31 the bar is green exactly when the goal is reached |
| `HomeState.Home.constructor` | src/app/page.tsx:63-74 | the initial state is goal 365, count 0, empty token, tag "2024_READ", all flags false, and the slot as found |
| `HomeState.Home.RestoreFromStorage` | src/app/page.tsx:76-89 | a saved record is copied into goal, token, tag and count and sets settingsFound, after which `Valid` holds; without a record nothing the page shows changes; while `Valid` holds and settings were found, re-running it changes nothing |
| `HomeState.Home.EditGoal` | src/app/page.tsx:164 | only the goal changes, to the entered value |
| `HomeState.Home.EditToken` | src/app/page.tsx:182 | only the token changes, to the entered value |
| `HomeState.Home.EditTag` | src/app/page.tsx:194 | only the tag changes, to the entered value |
| `HomeState.Home.OpenSettings` | src/app/page.tsx:215-224 | the edit and get-started buttons open the dialog: only settingsOpen changes, to true |
| `HomeState.Home.CloseSettings` | src/app/page.tsx:137 | the dialog's `onOpenChange` closes it: only settingsOpen changes, to false |
| `HomeState.Home.StartRefresh` | src/app/page.tsx:92 | only `loading` changes, and it becomes true; the count and the slot are unchanged, and `Valid` is kept |
| `HomeState.Home.CompleteRefresh` | src/app/page.tsx:101-118 | the count becomes the read count of the documents; loading and settingsOpen become false and settingsFound true; the slot holds exactly (goal, token, tag, count) built from the present, possibly edited, values, so `Valid` holds afterwards |
| `HomeState.Home.Refresh` | src/app/page.tsx:91-124 | it pages through the archive updated since the start of the year; on success it completes as above and `Valid` holds afterwards; on a failed request loading stays true, the count, slot and other flags are unchanged, and `Valid` holds afterwards if it held before |

## Left out

- Network and JSON I/O are not modelled: `fetch`, the request URL and headers, `response.json()` and `URLSearchParams` encoding. The service is an abstract `Server` function. `Failed` stands for a rejected fetch and for a body without `results`.
- `localStorage` and `JSON.parse`/`JSON.stringify` are not modelled. The store is the single `stored` slot.
- `Pagination.FetchDocumentList`: it requires that the server's cursor chain ends within some bound `n` (`EndsWithin`). `n` is ghost and can be as large as needed. The code itself has no cap, and a server that never returns a falsy cursor makes it loop forever; that case is not modelled.
- `HomeState.Home.CompleteRefresh`: it saves the component's present goal, token and tag. The code saves the values captured by the closure of the render that started the refresh. The two differ only when the settings are edited while a fetch is in flight, or when refreshes overlap, and those interleavings are not modelled.
- The settings dialog's rendering and all other JSX are not modelled, nor the CSS width strings, such as the overlay width. The three input handlers are modelled as `EditGoal`, `EditToken` and `EditTag`, without the `parseInt` on the goal, which can yield NaN.
- `console.log` and the analytics `track` call are left out; they only have side effects.
- React state batching, re-running effects, and promise interleavings (concurrent clicks) are not modelled.
- `Pacing.Expected`: the code computes `goal / daysInYear * dayOfYear` in IEEE-754 doubles, and the model uses exact rationals. The two can disagree when the exact value is a .5 tie.
- `Pacing.ProgressPercent`: the code computes `Math.round((current / goal) * 100)` in IEEE-754 doubles, and the model rounds the exact value `100 * current / goal`. They can disagree at .5 ties: for current 29 and goal 200 the doubles give 14.499999999999998, shown as 14%, where the model gives 15.
- `Pacing.ProgressPercent`: NaN or infinite goals are not modelled. A zero goal gives `None`, which stands for the non-finite result. A negative goal is rounded via `RoundRatio`.
- The clock and time zones are parameters: `new Date()` becomes a `Calendar.Date`, and the ISO string of the start of the year becomes `yearStart`.
- `toLocaleLowerCase` is modelled as ASCII lower-casing (`Documents.Lower`). Locale-specific rules are not modelled.
- The date library itself is not modelled. `Calendar` is a proleptic Gregorian stand-in for `getDayOfYear` and `getDaysInYear`.
