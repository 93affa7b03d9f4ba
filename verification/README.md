# Participant directory — a Dafny model of its loading and display rules

The workshop participant directory is a browser page that reads a list of
GitHub usernames from `config.json`, fetches each user's public profile in
parallel, keeps the profiles that loaded, and shows them as cards sorted by
display name together with a participant count. This project models the pure
decision rules inside that page and proves their properties:

- `wrappers.dfy` (`Wrappers`): `Option` and `Result`.
- `text.dfy` (`Text`): decimal rendering of integers with a parser that inverts
  it, ASCII lower-casing, and lexicographic string order with its order laws.
- `github.dfy` (`GitHub`): the profile record, the fetch failure reasons, the
  HTTP status classification and the settled outcome of one fetch.
- `loading.dfy` (`Loading`): the configuration guard, the split of the settled
  outcomes into loaded profiles and a failure log, and the load result.
- `ordering.dfy` (`Ordering`): the display name, the sort key and the stable
  sort of the profiles.
- `formatting.dfy` (`Formatting`): the statistic formatting with its `K`/`M`
  suffixes, the zero default for a missing statistic, and the count label.
- `theme.dfy` (`Theme`): the initial theme and the toggle.
- `directory.dfy` (`Directory`): the page pipeline from configuration to either
  the sorted grid with its count or the error panel.

The settled outcomes of `Promise.allSettled` are an input sequence, one per
configured username in list order. Everything is a pure function. The sorted
list is a new sequence, so the loaded list is never reordered.

The page has no separate empty-state panel for the case where every fetch
fails. `loadParticipants` throws, and `init` shows the same generic error panel
it shows for a broken configuration (`Directory.AllRejectedShowsGenericError`).
The grid's own "No participants found" notice is unreachable from the load.

## Model

| member | source | states |
|---|---|---|
| `GitHub.StatusError` | script.js:113-121 | a status is ok exactly when it lies in 200..299; 404 and only 404 gives not-found for that username; 403 and only 403 gives the rate-limit error; every other non-ok status gives the generic error carrying that username and status |
| `GitHub.FetchUser` | script.js:109-134 | a fetch is fulfilled exactly when the network call succeeded, the status is ok and the body parsed, and then it yields that body; a non-ok status rejects with the status error; a network failure, or an ok response whose body does not parse, rejects with a transport error carrying that failure's message |
| `GitHub.Message` | script.js:115-119 | the not-found and bad-status messages contain the username at their fixed position after the opening quote; a transport failure keeps its own message |
| `GitHub.BadStatusMessageEndsWithStatus` | script.js:119 | the generic failure message ends with the status code, which reads back as that status |
| `Text.IntToStringRoundTrip` | script.js:256 | the integer text reads back as the integer it renders, for every integer |
| `Text.IntToStringInjective` | script.js:256 | distinct integers render as distinct text |
| `Loading.SuccessesInOrder` | script.js:80-82 | the j-th loaded profile is the value of the j-th fulfilled outcome, so loaded profiles keep input order |
| `Loading.RejectionsInOrder` | script.js:85-86 | the k-th rejection reason is the reason of the k-th rejected outcome |
| `Loading.PartitionCounts` | script.js:80-90 | loaded profiles plus rejections number exactly the outcomes |
| `Loading.NoSuccessIffAllRejected` | script.js:96-98 | nothing loads exactly when every outcome is rejected |
| `Loading.SuccessesAppend` | script.js:80-82 | keeping the fulfilled values distributes over concatenation of outcome lists |
| `Loading.FailureLog` | script.js:85-90 | the logged failure list has one entry per rejected outcome |
| `Loading.FailureLogLabelsByRank` | script.js:85-90 | the k-th log entry carries the k-th configured username, with k counting rejections only, and the message of the k-th rejection |
| `Loading.AttributedFailures` | script.js:85-90 | the corrected log: each entry names the username whose fetch was rejected, with that fetch's message, one entry per rejection in order |
| `Loading.LogAttributedWhenAllRejected` | script.js:85-90 | when every fetch fails, the logged labels are the right usernames |
| `Loading.MislabelledFailure` | script.js:87-88 | with `a` loaded and `b` not found, the source logs the failure under `a`, while the attributed log names `b` |
| `Loading.LoadParticipants` | script.js:67-107 | a missing or empty username list, and only that, fails with the configuration error; the load fails with "none loaded" exactly when every fetch was rejected; a successful load is non-empty, its profiles and failures add up to the configured count, and its profiles are the fulfilled values in input order; on success and on "none loaded" alike, the failure list is the source's rank-labelled log |
| `Loading.GuardPrecedesFetch` | script.js:68-74 | without usernames the result does not depend on any fetch outcome |
| `Ordering.DisplayName` | script.js:151-152 | the display name is the name when present and non-empty, otherwise the login |
| `Ordering.Insert` | script.js:150-154 | insertion adds exactly the one profile to the multiset of profiles |
| `Ordering.SortByDisplayName` | script.js:150-154 | the sorted copy has exactly the profiles of its input, with multiplicity |
| `Ordering.InsertGroups` | script.js:150-154 | an inserted profile goes to the head of its key group and every other key group is untouched |
| `Ordering.InsertSorted` | script.js:150-154 | insertion keeps a key-sorted sequence sorted |
| `Ordering.SortCorrect` | script.js:150-154 | the sorted copy is non-decreasing by lower-cased display name, a permutation of its input, and keeps every group of equal-key profiles in input order (stability) |
| `Ordering.SortedGroupsDetermine` | script.js:150-154 | two key-sorted sequences with the same key groups are equal |
| `Ordering.SortUnique` | script.js:150-154 | any sequence that is key-sorted and stable with respect to the input is the sorted copy, so the stable order is unique |
| `Formatting.RoundedTenths` | script.js:252-254 | the scaled figure, in tenths, is within half a tenth of the value divided by the unit |
| `Formatting.TenthsRoundTrip` | script.js:252-254 | a one-decimal figure reads back as its count of tenths |
| `Formatting.FormatNumberSpec` | script.js:250-257 | values from one million end in "M", values from one thousand below one million end in "K", each with a figure within half a tenth of the value in that unit; values below one thousand are their own decimal text with no suffix; no figure carries a superfluous leading zero |
| `Formatting.FormatNumberExamples` | script.js:250-257 | 950 shows as "950", 1500 as "1.5K", 2300000 as "2.3M" |
| `Formatting.MissingStatsShowZero` | script.js:182-190 | each statistic defaults on its own: a missing repository, follower or following count shows "0", and a present one shows its formatted value |
| `Formatting.CountLabelReadsBack` | script.js:207-208 | the label reads back as the count, with the plural suffix exactly when the count is not one; the count is written as plain decimal digits without leading zeros |
| `Formatting.CountLabelSingular` | script.js:207-208 | the label is "1 participant" exactly when the count is one |
| `Formatting.CountLabelInjective` | script.js:207-208 | distinct counts give distinct labels |
| `Theme.InitialTheme` | script.js:30 | the initial theme is never empty, and a non-empty stored value is used as is |
| `Theme.Toggle` | script.js:35-36 | a click always yields "light" or "dark", and never the current value |
| `Theme.InitialThemeDefault` | script.js:30 | the page starts light exactly when nothing, an empty string or "light" is stored; any other stored value is used as is |
| `Theme.ToggleIsFlip` | script.js:36 | on the two theme names the toggle swaps light and dark |
| `Theme.ToggleTwice` | script.js:35-36 | toggling twice from "light" or "dark" returns to it; from any other stored value it lands on "light" |
| `Directory.RenderParticipants` | script.js:136-159 | an empty list shows the no-participants notice and only then; otherwise the grid holds the profiles sorted, permuted and stable |
| `Directory.Init` | script.js:8-26 | the page shows content exactly when the configuration loaded, lists usernames, and at least one fetch was fulfilled; content is a non-empty, sorted, stable permutation of the loaded profiles with the matching count label; every failure shows the one generic error message |
| `Directory.AllRejectedShowsGenericError` | script.js:96-98 | when every fetch fails the page shows the same generic error panel as a broken configuration |
| `Directory.PartialFailureExample` | script.js:76-101 | with usernames a, b, c where b is not found, the grid holds the profiles of a and c and the label reads "2 participants" |

## Left out

- Fetching `config.json`, the profile requests, `response.json()` and the concurrency of `Promise.allSettled`: the configuration arrives parsed or as `None`, and the settled outcomes arrive as a sequence.
- The payload shape: the model's profile record has fixed fields; a body that does not parse is a transport failure.
- The 100 ms pacing delay after each fetch and the 1 s delay before the content is shown: both are timing only.
- `escapeHtml` (DOM serialisation), the card and error markup, the animation delay, the avatar fallback image, the title and description writes, `localStorage` writes, console logging and the global error handlers: all are DOM or I/O.
- Formatting.RoundedTenths: rounds the exact quotient half up, while `toFixed(1)` works on the nearest double of `num / 1000` or `num / 1000000`; the two can differ on decimal ties that doubles cannot represent, and above 1e21 `toFixed` switches to exponent notation.
- Ordering.Key: `toLowerCase` is ASCII lower-casing and `localeCompare` is plain lexicographic order of character codes, so locale-specific collation and Unicode case mapping are not modelled.
- Ordering.SortByDisplayName: it is one concrete stable sort; `Ordering.SortUnique` shows it is the only sorted stable order, which is what a stable `Array.prototype.sort` returns.
- Loading.LoadParticipants: identifiers are not assumed unique, and the outcome list is assumed to have one entry per configured username, as `participants.map` guarantees.

## Findings

| source | as written | input that shows it | evidently intended | confidence | as-written member | corrected member |
|---|---|---|---|---|---|---|
| script.js:87-88 | the failure at rank k among the rejections is labelled `config.participants[k]` | usernames `["a", "b"]`, `a` loads, `b` answers 404: the failure is logged under `a` | label each failure with the username whose fetch was rejected | not executed; high, the index comes from the already filtered list | `Loading.MislabelledFailure` | `Loading.AttributedFailures` |

The failure list only reaches the console. `Loading.LoadParticipants` keeps the
list as the code builds it, so the load result matches the page's behaviour.
`Loading.AttributedFailures` is the corrected log. `Loading.LogAttributedWhenAllRejected`
shows the two agree whenever every fetch fails.
