# Domain metrics checker — verified model of its core logic

The application asks six third-party services about a domain name (authority
scores, appraisal, index status, redirects, DNS-drop history, WHOIS dates),
merges their answers into one result record and shows one card per metric the
user ticked. A separate hook keeps a persisted rolling-window request quota.

This Dafny project models the parts of that code that are logic rather than UI
or network plumbing, and proves properties of them:

- `DomainSyntax` — the domain-name regular expression `isValidDomain`, as a
  string predicate proved equal to the regular language.
- `DomainAge` — the whole-day age of a domain and `formatDomainAge` (365-day
  years, 30-day months, JavaScript `%`).
- `Checkboxes` — `handleCheckboxToggle` on the set of ticked parameters.
- `Merge` — folding the six provider payloads into one record and a redirect
  list.
- `Rendering` — `displayParameters`, `parameterMapping` and the rules that turn
  the ticked set and the record into (label, value) rows.
- `AppState` — the screen state, `handleSubmit` in its synchronous and settled
  halves, the effect that re-enables Submit when the domain text changes, and
  what is on screen.
- `RateLimiter` — `useRateLimiter` as pure transitions over a key/value store
  and an explicit clock value.
- `Wrappers`, `Values`, `Text` — an optional value, JavaScript values (`null`/`undefined`, truthiness, string
  conversion), decimal rendering of integers and `Array.prototype.join`.

## Notes on the code

Some behaviour of the code is easy to misread; the model follows the code:

- 400 days display as 1 year, 1 month, **10** days: the code takes the day
  count as `ageInDays % 30`, not as what is left after years and months.
- When the quota window has expired, the code writes back only the count. It
  does not move the window start to `now`. The window is measured from the last
  decrement.
- There is no per-category cache. Every valid submit asks all six services.
  A failure before the result record is stored, including a WHOIS payload
  without `result`, stores nothing. A `null` host.io body fails only after the
  record is stored, so its cards appear together with the error message and the
  previous redirect list. An unparsable creation date is not reported as an error: it renders
  as `NaN Years NaN Months NaN Days`.
- The quota hook is not connected to submitting. Its size and window are
  parameters here.
- `decrementRemainingRequests` reads the count of the render that created it,
  so two calls before a re-render lower the count once.

## Model

| member | source | states |
|---|---|---|
| DomainSyntax.IsValidDomain | src/App.tsx:40-43 | accepts a string exactly when it is in the regular language: a non-empty run of `[A-Za-z0-9-_]`, one dot, then 2 to 63 ASCII letters, with nothing before or after |
| DomainSyntax.LabelRunLength | src/App.tsx:41 | the greedy `[a-zA-Z0-9-_]+` run: every character before the returned position is in the class, and the character at it (if any) is not |
| DomainSyntax.SplitAtLabelRun | src/App.tsx:41 | a label-dot split of a string can only happen at the end of the label-character run, so an accepted name splits in one way only |
| DomainSyntax.ValidDomainSplit | src/App.tsx:41 | for any valid label L, `L + "." + t` is accepted if and only if t is 2 to 63 letters |
| DomainSyntax.ValidDomainHasOneDot | src/App.tsx:41 | every accepted name contains exactly one `.` |
| DomainSyntax.RejectsOtherDotCounts | src/App.tsx:41 | a name with no dot or with several dots is rejected |
| DomainSyntax.RejectsBadTld | src/App.tsx:41 | with a valid label, a top-level part of length 1, of length over 63, or holding a digit is rejected |
| DomainSyntax.AcceptsSerpNames | src/App.tsx:41 | `SerpNames.com` is accepted |
| DomainSyntax.RejectsSubdomain | src/App.tsx:41 | `www.example.com` is rejected |
| DomainSyntax.RejectsShortTld | src/App.tsx:41 | `example.c` is rejected |
| DomainSyntax.RejectsDigitInTld | src/App.tsx:41 | `example.c0m` is rejected |
| DomainAge.AgeInDays | src/App.tsx:134-137 | the result is the number of whole days in the elapsed milliseconds, rounded down: `days * 86400000 <= now - creation < (days + 1) * 86400000` |
| DomainAge.AgeOfWholeDays | src/App.tsx:136-137 | a domain created k days and less than one more day before `now` is exactly k days old |
| DomainAge.JsRem | src/App.tsx:62-63 | JavaScript `%`: for a non-negative dividend it is the ordinary remainder; for a negative one it lies in (-b, 0] and its magnitude is the remainder of the magnitude |
| DomainAge.FormatDomainAge | src/App.tsx:60-63 | years are whole 365-day blocks, rounded down; months are whole 30-day blocks, rounded down, of the JavaScript remainder of the age by 365; days are congruent to the age modulo 30 and lie in [0, 30) for a non-negative age and in (-30, 0] for a negative one; a non-negative age gives months in [0, 12], a negative one months in [-13, 0] |
| DomainAge.OneDayAhead | src/App.tsx:60-63 | an age of -1 days shows as -1 years, -1 months and -1 days |
| DomainAge.AgeText | src/App.tsx:64 | the text reads back, through a reader that accepts only numerals without leading zeros, as the years, months and days it was made from |
| DomainAge.PaddedAgeTextRejected | src/App.tsx:64 | a zero-padded age text such as `01 Years 0 Months 0 Days` does not read back |
| Text.IntToDecimal | src/App.tsx:64 | the decimal text of an integer, as a template literal writes it, is a numeral without leading zeros or `-0` that reads back as that integer, which is the text `String(i)` writes for any integer of magnitude below 10^21 |
| DomainAge.DomainAgeText | src/App.tsx:134-145 | the age text is `NaN Years NaN Months NaN Days` exactly when the creation date could not be parsed; a parsed date's text reads back as the years, months and days of the whole days elapsed, and the NaN text reads back as nothing |
| DomainAge.FourHundredDays | src/App.tsx:60-65 | 400 days give 1 year, 1 month and 10 days, not the 5 days left over after a year and a month |
| DomainAge.DaysMatchLeftoverIff | src/App.tsx:60-65 | for any non-negative age, the displayed days equal the days left after the years and months exactly when the year count is a multiple of 6 |
| DomainAge.YearShiftsDays | src/App.tsx:61-63 | for a non-negative age, one more 365-day year moves the displayed day count on by 5 modulo 30 |
| DomainAge.TwelveMonthsReachable | src/App.tsx:62 | 360 days give 0 years and 12 months |
| DomainAge.DaysPeriodic | src/App.tsx:63 | adding 30 days to a non-negative age leaves the displayed day count unchanged |
| Checkboxes.Toggle | src/App.tsx:67-77 | the toggled parameter is in the result exactly when it was not in the input; every other parameter keeps its membership |
| Checkboxes.ToggleTwice | src/App.tsx:67-77 | toggling the same parameter twice gives back the original set |
| Checkboxes.ToggleCommutes | src/App.tsx:67-77 | toggling two parameters gives the same set in either order |
| Merge.MergePayloads | src/App.tsx:134-148 | the merge succeeds exactly when the WHOIS payload has a `result`; the record has the DomDetailer keys plus the five overridden ones; every other DomDetailer field is kept; `govalue` and `isIndexed` come from their own providers even if DomDetailer has them; a falsy `drops` becomes 0 and any other is kept; a missing or null redirect list becomes the empty list, and a `null` host.io body, whose read throws after the record is stored, gives no list |
| Merge.MergedFieldsPresent | src/App.tsx:143-145 | after a successful merge, drops, expiration date and age are never null or undefined |
| Rendering.FieldText | src/App.tsx:302-304 | a property shows as "Not Available" exactly when it is null, undefined or the string "Not Available"; a string shows as itself, a boolean as "true"/"false", and a number as a numeral without leading zeros that reads back as that number |
| Rendering.ParameterValue | src/App.tsx:290-306 | Google Indexed: null or undefined gives "Not Available", a truthy value "Yes", a falsy one "No"; Estimated Value: null or undefined gives "Not Available", otherwise "$" before the formatted amount; a one-property card shows that property's text and a two-property card shows both joined by " & " |
| Rendering.ZeroDropsCard | src/App.tsx:290-306 | a Domain Drops property of 0 shows as "0" |
| Rendering.ShownParameters | src/App.tsx:274-277 | every shown parameter is listed and ticked, and none is "Redirected Domains" |
| Rendering.ShownParametersComplete | src/App.tsx:274-277 | every listed, ticked parameter other than "Redirected Domains" is shown |
| Rendering.ShownParametersOrdered | src/App.tsx:274-277 | shown parameters appear in the order of the parameter list |
| Rendering.MainRows | src/App.tsx:274-311 | the main cards carry exactly the shown parameters, in order, each with its parameter's value text |
| Rendering.RedirectRows | src/App.tsx:313-349 | with "Redirected Domains" unticked there are no redirect rows; with it ticked there is one row per redirect, in list order, then a total row whose digits, without leading zeros, read back as the list length |
| Rendering.DisplayParametersWellFormed | src/App.tsx:25-36 | the parameter list has no duplicates and every entry has a property mapping |
| Rendering.ResultRows | src/App.tsx:273-349 | no row is labelled "Redirected Domains"; a listed parameter other than it has a card exactly when ticked; the total row appears exactly when "Redirected Domains" is ticked; everything after the parameter cards is the redirect section |
| Rendering.ResultRowsMainFirst | src/App.tsx:273-349 | every parameter card comes before every redirect row, parameter cards follow the order of the parameter list, and each shows its parameter's value text |
| AppState.MountShowsNothing | src/App.tsx:17-38 | right after mounting, with no result and nothing loading, no card is on screen and Submit is enabled |
| AppState.EditDomain | src/App.tsx:157-159 | the domain becomes the typed text; Submit stays disabled only if it was disabled and the text is unchanged; nothing else changes |
| AppState.StartSubmit | src/App.tsx:79-114 | an invalid domain leaves the whole state unchanged, without disabling Submit; a valid one disables Submit, starts loading, clears the error and drops the old result, and leaves the domain, ticks and redirects alone |
| AppState.FinishSubmit | src/App.tsx:115-154 | loading ends; a failure before the record is stored sets the error message and keeps the old result and redirects; otherwise the merged record is stored, and then either the redirect list is stored with the error untouched, or (a `null` host.io body) the error message is set and the old redirects stay |
| AppState.DisabledUntilDomainChanges | src/App.tsx:157-159 | once Submit is disabled it stays disabled, and no click starts a lookup, over any run of events that does not change the domain text |
| AppState.SubmitThenEdit | src/App.tsx:84 | a valid click disables Submit, and typing any different text afterwards enables it |
| AppState.StaysLoading | src/App.tsx:109-154 | only a settling lookup ends loading: typing, ticking and clicking keep it on |
| AppState.LoadingShowsNothing | src/App.tsx:109-272 | after a valid submit, no card is on screen after any run of typing, ticking and clicking that does not settle the lookup, whatever was shown before |
| AppState.FailedLookupShowsNothing | src/App.tsx:112-154 | a lookup that fails before its record is stored shows no cards and shows the error message |
| AppState.NullRedirectsShowCardsAndError | src/App.tsx:139-154 | with a `null` host.io body the new record is stored, the error message is set, and the cards of the new record show with the previous redirect list |
| AppState.MergedCardValues | src/App.tsx:139-306 | in a merged record a falsy `drops` card reads "0", the Expiration Date card shows the formatted date, and the Domain Age card shows the age text of the creation date |
| AppState.SettledCardValues | src/App.tsx:139-146 | once a settled lookup has stored its record and `drops` is falsy, the Domain Drops card reads "0"; the Expiration Date card shows the formatted date; the Domain Age card shows the age text of the WHOIS creation date |
| RateLimiter.Load | src/hooks/useRateLimiter.ts:7-21 | strictly more than `duration` since the last request resets the count to `maxRequests` and stores it; otherwise the stored count is adopted and the store is untouched; only the count entry can change, so the timestamp is kept; afterwards the stored count equals the in-memory one |
| RateLimiter.Decrement | src/hooks/useRateLimiter.ts:23-31 | a call that sees the current count lowers it by one with no lower bound; the store holds the new count and `now` as the last-request time; other entries are unchanged |
| RateLimiter.DecrementFrom | src/hooks/useRateLimiter.ts:23-31 | a call whose closure saw the count c stores and sets c - 1 and `now`, whatever the count has become since; other entries are unchanged |
| RateLimiter.SameRenderDecrementsOnce | src/hooks/useRateLimiter.ts:23-31 | two calls of one render's closure lower the count once, while two calls with a re-render between them lower it twice |
| RateLimiter.LoadIdempotent | src/hooks/useRateLimiter.ts:7-21 | loading twice at the same instant gives the same count and store as loading once |
| RateLimiter.FirstLoad | src/hooks/useRateLimiter.ts:8-20 | a missing count reads as `maxRequests` and a missing timestamp as 0, so with an empty store the first load yields `maxRequests`, and when `now > duration` the store then holds just that count |
| RateLimiter.ExactDurationKeepsCount | src/hooks/useRateLimiter.ts:15 | exactly `duration` after the last request the stored count is kept, not reset |
| RateLimiter.DecrementSlidesWindow | src/hooks/useRateLimiter.ts:15-29 | after a decrement at t, a load at most `duration` later keeps the decremented count and a later load resets it |
| RateLimiter.DecrementBelowZero | src/hooks/useRateLimiter.ts:23-24 | decrementing a count of 0 gives -1 |
| RateLimiter.RunKeepsPersisted | src/hooks/useRateLimiter.ts:16-30 | once the stored and in-memory counts agree, any sequence of loads and decrements keeps them in agreement |
| RateLimiter.RunStaysAtMostMax | src/hooks/useRateLimiter.ts:15-24 | a count that starts at most `maxRequests`, in memory and in the store, stays at most `maxRequests` |
| RateLimiter.DecrementsCount | src/hooks/useRateLimiter.ts:23-31 | any run of decrements with no load between them, each seeing the count the previous one left and each at any time, lowers the count by exactly the number of decrements |

## Left out

- Network access is not modelled: the six `fetch` calls, `Promise.all`, `response.json()`, the request URLs, API keys, the CORS proxy and the lower-casing of the domain, which is only used to build URLs. A lookup's outcome is an input: the decoded payloads, or failure.
- A `null` body from GoDaddy, the index check, the DNS history or WHOIS throws before the record is stored, which is the failed outcome; a `null` DomDetailer body is the empty record; a `null` host.io body is modelled. A primitive body reads as a record without the requested properties; spreading a string DomDetailer body, which yields index keys, is not modelled.
- `formatCurrency`, `formatDate` and `new Date(...)` parsing use floating point and locale formatting. The two formatters are function parameters. A parsed creation date is an optional millisecond timestamp.
- Numbers in payloads are integers; the display of fractional values is not modelled.
- Text.IntToDecimal: integers of magnitude 10^21 or more, which JavaScript writes in exponent form such as `1e+21`, are written here in full; this reaches `Values.JoinText` and `Rendering.FieldText` for such payload numbers.
- Payload properties whose value is an array or an object are not representable; the code would show their `String(...)` conversion, such as `[object Object]`.
- DomainAge.AgeInDays: uses exact integer division, not IEEE-754 division; the two agree for realistic millisecond timestamps.
- AppState.VisibleRows: treats the `showAnimation` flag as set. The 50 ms `setTimeout` that sets it only delays the cards.
- JSX, MUI components, CSS classes and animation delays are UI, not logic.
- `console.log` and `console.error` calls produce no state.
- Overlapping lookups are modelled only as interleaved `ClickSubmit` and `LookupSettled` events. Which lookup a settlement belongs to is not tracked.
- React scheduling is not modelled: the `[domain]` effect runs together with the text change.
- `localStorage` holds strings; the store here holds the numbers those strings denote. Non-numeric stored text (read as `NaN`) is not modelled.
- `Date.now()` is an explicit `now` argument.
- RateLimiter.Decrement: assumes the component has re-rendered since the previous call, so the closure sees the current count; `RunOps`, `RunKeepsPersisted`, `RunStaysAtMostMax` and `DecrementsCount` are about such calls. `DecrementFrom` models a call with an older count.
- The quota hook is not used by the screen, so no property connects quota and submit.
