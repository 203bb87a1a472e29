# URL shortener front end: a Dafny model

This project models the client-side logic of a single-page URL shortener.
Users log in, shorten URLs, see the list of their short links, and open a
details page for one link. That page shows the link's click counts and a chart
of its redirects over time. The model covers four parts:

- **Click chart** (`ClickChart`). `processClickData` turns redirect
  timestamps into chart labels and values. Each timestamp gets a bucket key
  for the selected detail level:
  - `"minute"` gives `H:MM`;
  - `"hour"` gives `Y-M-D H:00`;
  - `"day"` or any other value gives `Y-M-D`.

  The keys are counted in a dictionary, and the distinct keys are sorted with
  JavaScript's default string sort. The chart component holds `detailLevel`
  as state; the model makes it a class field.
- **Link details** (`LinkDetails`).
  - The rolling count of clicks in the last day.
  - Finding the link by its short code.
  - The page's `linkInfo`, `clickData` and `error` state as the two fetches
    fill it in.
  - The choice between the error message, "Loading..." and the details.
- **Dashboard** (`Dashboard`). The list of links and the handlers that change
  it: the initial fetch, shortening a URL (the new link goes in front), and
  deleting. Deleting only hides the link locally; nothing is sent to the
  backend.
- **Session and routing** (`App`).
  - The `authToken`, `isAuthenticated` and stored-token state.
  - Restoring the session at boot, `login` and `logout`.
  - The route table with its authentication guard.

Supporting modules:

- `Wrappers`: `Option`, `Result`, and JavaScript truthiness of an optional
  string. `null` and `""` are both falsy.
- `Strings`: the code-unit ordering that the default `.sort()` uses, and
  decimal rendering of numbers as template literals print them.
- `Seqs`: `Array.prototype.filter`.
- `Backend`: the `Link` record and the outcome of one `fetch`. An outcome is
  one of three cases:
  - a `Received` body;
  - a `NotOk` response, i.e. `response.ok` is false;
  - a `Rejected` promise with its error message.

Stateful components are classes whose `modifies` methods change their fields.
The chart's grouping is a method with a loop. The key formats, the sort, the
filter and the route table are functions. The lemmas beside them state what
the code promises.

Behaviour of the code that a reader might not expect, which the model keeps:

- Day and hour labels do not sort chronologically, because only the minute is
  padded. `DayLabelsNotChronological` shows that `"2024-1-10"` sorts before
  `"2024-1-9"`. `HourSeriesExample` shows that `" 10:00"` comes before
  `" 9:00"` on one day. `MinuteLabelsNotChronological` shows that `"10:15"`
  comes before `"2:15"`.
- There is no invalid-timestamp error: the timestamp goes straight into
  `new Date(...)`. The model takes timestamps that are already decoded (see
  "Left out").
- Empty input does not give an empty value list. The code returns
  `{ labels: [], data: [] }`, so the destructured `values` is `undefined`.
  `ProcessClickData` returns `values == None` in that case.
- The last-day count has no upper bound: a click stamped later than the
  current time is counted as well (src/pages/LinkDetails.js:91).
  `RecentClicks` and `ClicksLastDayCounts` keep every click later than one
  day before now.

## Model

| member | source | states |
|---|---|---|
| Wrappers.Truthy | src/App.js:15 | An optional string is truthy exactly when it is present and non-empty, as in `if (token)` and `if (error)`. |
| Strings.LexLess | src/components/ClickChart.js:35 | The order `.sort()` uses without a comparator: the first differing character decides, and a proper prefix sorts first. A string never sorts before an equal one. |
| Strings.LexLessIrreflexive | src/components/ClickChart.js:35 | No string sorts strictly before itself under the default sort's order. |
| Strings.LexLessTransitive | src/components/ClickChart.js:35 | The sort order is transitive. |
| Strings.LexLessTotal | src/components/ClickChart.js:35 | Any two distinct strings are ordered one way or the other. |
| Strings.LexLessAsymmetric | src/components/ClickChart.js:35 | Two strings are never each before the other. |
| Strings.LexLessCommonPrefix | src/components/ClickChart.js:35 | A common prefix does not change the order of two strings, so keys that share a date are ordered by their time part. |
| Strings.NotLessIsLessEq | src/components/ClickChart.js:35 | If `a` is not strictly before `b`, then `b` is before or equal to `a`. |
| Strings.LexLessEqTransitive | src/components/ClickChart.js:35 | The non-strict order is transitive. |
| Strings.NatToString | src/components/ClickChart.js:23 | A number prints as a non-empty string of decimal digits, and has two digits or more exactly when it is at least 10. |
| Strings.PadStart2 | src/components/ClickChart.js:20 | `padStart(2, "0")`: the result has length at least 2, ends with the input, and zeros fill the front. |
| Strings.ParseNatToString | src/components/ClickChart.js:23 | Reading the printed digits back gives the number (round trip). |
| Strings.NatToStringInjective | src/components/ClickChart.js:27 | Different numbers print differently, so key fields are not confused. |
| Strings.ParsePaddedMinute | src/components/ClickChart.js:20 | A padded number reads back as itself, whatever its size. It has exactly two digits precisely when it is below 100, so every minute does. |
| Strings.SplitAtSeparator | src/components/ClickChart.js:23 | Two strings `a + sep + b` and `a' + sep + b'`, with no `sep` in `a` or `a'`, are equal only when `a == a'` and `b == b'`. |
| Strings.SplitThreeFields | src/components/ClickChart.js:27 | Three digit fields joined by a non-digit separator split back into the same three fields. |
| Seqs.Filter | src/pages/LinkDetails.js:91 | The result keeps exactly the elements that pass the test, is no longer than the input, and holds nothing else. |
| Seqs.FilterAppend | src/pages/Dashboard.js:111 | Filtering a concatenation filters each piece, so the kept elements keep their relative order. |
| Seqs.FilterMultiset | src/pages/Dashboard.js:111 | Each passing element keeps all its copies, and each failing element keeps none. |
| Seqs.FilterAllPass | src/pages/Dashboard.js:111 | When every element passes, the filter returns its input unchanged. |
| Seqs.FilterIdempotent | src/pages/Dashboard.js:111 | Filtering twice with the same test is filtering once. |
| Seqs.FilterLengthCountsIndices | src/pages/LinkDetails.js:91 | The filtered length equals the number of positions whose element passes. |
| ClickChart.MinuteKey | src/components/ClickChart.js:20 | `H:MM`, built from the hour and minute only: it has a colon, and no dash or space. |
| ClickChart.DayKey | src/components/ClickChart.js:27 | `Y-M-D` with the month counted from 1: it has dashes, and no colon or space. |
| ClickChart.HourKey | src/components/ClickChart.js:23 | The day key extended by a space, the hour and `:00`, so each hour bucket lies inside one day bucket. |
| ClickChart.BucketKey | src/components/ClickChart.js:18-29 | The `switch (detailLevel)`: the minute key for `"minute"`, the hour key for `"hour"`, the day key for anything else. |
| ClickChart.BucketKeyShowsLevel | src/components/ClickChart.js:18-29 | The three formats never coincide: a bucket key equals the minute, hour or day key exactly when the level selects that case. |
| ClickChart.MapKeys | src/components/ClickChart.js:14-29 | One key per timestamp, position by position. |
| ClickChart.BucketKeys | src/components/ClickChart.js:18-29 | Each timestamp's key is the one the `switch (detailLevel)` selects for it. |
| ClickChart.DayKeyInjective | src/components/ClickChart.js:27 | Two day keys are equal exactly when year, month and day agree. |
| ClickChart.DayBucketIff | src/components/ClickChart.js:25-27 | Two timestamps share a `"day"` bucket exactly when year, month and day agree. |
| ClickChart.HourBucketIff | src/components/ClickChart.js:22-23 | Two timestamps share an `"hour"` bucket exactly when year, month, day and hour agree. |
| ClickChart.MinuteBucketIff | src/components/ClickChart.js:19-20 | Two timestamps share a `"minute"` bucket exactly when hour and minute agree, whatever their dates, for any field values. |
| ClickChart.UnknownLevelIsDay | src/components/ClickChart.js:25-27 | A detail level other than `"minute"` and `"hour"` falls through to the day key. |
| ClickChart.MinuteKeyDropsDate | src/components/ClickChart.js:20 | 14:07 on two different days gives the same key, `"14:07"`. |
| ClickChart.MinuteLabelsNotChronological | src/components/ClickChart.js:20 | `"10:15"` sorts before `"2:15"`, because the hour is not padded. |
| ClickChart.DayLabelsNotChronological | src/components/ClickChart.js:27 | `"2024-1-10"` sorts before `"2024-1-9"`, because the day is not padded. |
| ClickChart.HourLabelsNotChronological | src/components/ClickChart.js:23 | On one date, `" 10:00"` sorts before `" 9:00"`. |
| ClickChart.Insert | src/components/ClickChart.js:35 | Inserting into a list adds exactly that one element. |
| ClickChart.InsertSorted | src/components/ClickChart.js:35 | Inserting into a sorted list keeps it sorted. |
| ClickChart.Sort | src/components/ClickChart.js:35 | `.sort()` returns a sorted permutation of its input. |
| ClickChart.SingleOccurrenceDistinct | src/components/ClickChart.js:35 | An element that occurs at most once in a list differs from the element at every earlier position. |
| ClickChart.SortedSingletonsStrict | src/components/ClickChart.js:35 | A sorted list without duplicates is strictly increasing. |
| ClickChart.HeadIsLeast | src/components/ClickChart.js:35 | The first element of a strictly increasing list is at most every member. |
| ClickChart.StrictlySortedUnique | src/components/ClickChart.js:35 | Two strictly increasing lists with the same members are equal, so the sorted labels do not depend on the sort algorithm. |
| ClickChart.GroupCounts | src/components/ClickChart.js:14-33 | The dictionary holds exactly the keys that occur, each with its number of occurrences, and its key order lists each key once. |
| ClickChart.CountStep | src/components/ClickChart.js:31 | A key already present has its count raised by one. A missing key starts at 1 and joins the end of the key order. No other count changes, and the key order is extended, never reordered. |
| ClickChart.GroupedStep | src/components/ClickChart.js:31 | If the dictionary and the key order are true to the first `i` keys, then after one `CountStep` with key `i` they are true to the first `i + 1` keys. |
| ClickChart.GroupsGiveSeries | src/components/ClickChart.js:35-36 | Sorting the dictionary's keys and reading off each key's count yields the labels and values the chart promises. |
| ClickChart.ClickChartView.constructor | src/components/ClickChart.js:8 | A new chart starts at `"hour"` granularity. |
| ClickChart.ClickChartView.SetDetailLevel | src/components/ClickChart.js:110 | The buttons set the detail level. |
| ClickChart.ClickChartView.ProcessClickData | src/components/ClickChart.js:11-41 | Empty data gives no labels and an undefined `values`. Otherwise the labels are the distinct bucket keys in ascending order, and each value is the number of timestamps in its bucket. |
| ClickChart.SumIsTally | src/components/ClickChart.js:36 | The sum of the values is the total count of the labels. |
| ClickChart.TallyAdd | src/components/ClickChart.js:31 | One more occurrence of a key adds one to the tally exactly when the key is a label. |
| ClickChart.TallyOfKeys | src/components/ClickChart.js:31 | Over labels that cover every key, the tally of the keys is their number. |
| ClickChart.TallyOfEmpty | src/components/ClickChart.js:14 | In an empty multiset of keys, every list of labels tallies to zero. |
| ClickChart.SeriesSum | src/components/ClickChart.js:31-36 | The values add up to the number of timestamps, and every value is at least 1. |
| ClickChart.MapKeysAppend | src/components/ClickChart.js:14 | Keying a concatenation keys each piece. |
| ClickChart.MapKeysPermute | src/components/ClickChart.js:14 | Reordering the timestamps reorders their keys. |
| ClickChart.MapKeysPermuteStep | src/components/ClickChart.js:14 | The inductive step of `MapKeysPermute`: if `d'` has the same multiset of keys as `e` with position `idx` removed, then `d'` plus `e[idx]` has the same multiset of keys as `e`. |
| ClickChart.SeriesPermutationInvariant | src/components/ClickChart.js:14-36 | The chart does not depend on the order of the clicks: any reordering gives the same labels and values. |
| ClickChart.SeriesOfTwo | src/components/ClickChart.js:35-36 | Keys with exactly two distinct values give those two labels in order, with their counts. |
| ClickChart.DecimalExamples | src/components/ClickChart.js:27 | 1, 5, 6 and 2024 print as `"1"`, `"5"`, `"6"`, `"2024"`. |
| ClickChart.DayKeysExample | src/components/ClickChart.js:27 | Clicks at 10:00 and 23:50 on January 5, 2024, and at 0:05 on January 6, get the keys `"2024-1-5"`, `"2024-1-5"`, `"2024-1-6"`. |
| ClickChart.DaySeriesExample | src/components/ClickChart.js:25-36 | Two clicks on January 5 and one on January 6, 2024, give labels `["2024-1-5", "2024-1-6"]` and values `[2, 1]`. |
| ClickChart.HourKeysExample | src/components/ClickChart.js:23 | The hour keys of 9:15, 9:59 and 10:00 on one date are the date followed by `" 9:00"`, `" 9:00"` and `" 10:00"`. |
| ClickChart.HourKeyOnDate | src/components/ClickChart.js:23 | An hour key is the date's day key, a space, the unpadded hour and `:00`; the minute plays no part. |
| ClickChart.HourSeriesExample | src/components/ClickChart.js:22-36 | Clicks at 9:15, 9:59 and 10:00 on one date give labels with `" 10:00"` first, and values `[1, 2]`. |
| ClickChart.TwoKeySeries | src/components/ClickChart.js:31-36 | Keys `[b, b, a]` with `a` before `b` give labels `[a, b]` and values `[1, 2]`. |
| ClickChart.TwoThenOneSeries | src/components/ClickChart.js:31-36 | Keys `[a, a, b]` with `a` before `b` give labels `[a, b]` and values `[2, 1]`. |
| ClickChart.OneKeySeries | src/components/ClickChart.js:31-36 | Keys `[a, a]` give the single label `a` with value 2. |
| ClickChart.MinuteSeriesExample | src/components/ClickChart.js:19-36 | 14:07 on two different days gives the single label `"14:07"` with value 2. |
| LinkDetails.RecentClicks | src/pages/LinkDetails.js:91 | Exactly the clicks later than `now` minus one day are kept, with no upper bound. |
| LinkDetails.ClicksLastDay | src/pages/LinkDetails.js:87-92 | The last-day count never exceeds the total number of clicks. |
| LinkDetails.ClicksLastDayCounts | src/pages/LinkDetails.js:91 | The count is the number of clicks strictly later than one day before now. |
| LinkDetails.ClicksLastDayInsert | src/pages/LinkDetails.js:91 | One more click raises the count by one exactly when it is later than one day ago, and never lowers it. |
| LinkDetails.BoundaryClickNotCounted | src/pages/LinkDetails.js:91 | A click exactly one day old is not counted, because the comparison is strict. |
| LinkDetails.ClicksLastDayExample | src/pages/LinkDetails.js:87-91 | Clicks 23 hours ago, 25 hours ago and now count as 2. |
| LinkDetails.FindLink | src/pages/LinkDetails.js:44-45 | Found exactly when some link has the short code. A found link is the first such link. Otherwise the error is `"Link not found"`. |
| LinkDetails.SelectView | src/pages/LinkDetails.js:94-144 | The details show the total clicks as the length of the click data, and a last-day figure no larger than that. |
| LinkDetails.LinkDetailsPage.View | src/pages/LinkDetails.js:94-110 | The page's current view: the error view exactly when the error is set, Loading exactly when there is no error and no link, and otherwise the page's own link with all its clicks and the last-day count. |
| LinkDetails.SelectViewCases | src/pages/LinkDetails.js:94-110 | A truthy error is shown whatever else holds. Otherwise a missing link shows Loading and a known one shows its details. |
| LinkDetails.LinkDetailsPage.constructor | src/pages/LinkDetails.js:6-9 | The page starts with no link, no clicks and no error. |
| LinkDetails.LinkDetailsPage.FetchLinkInfo | src/pages/LinkDetails.js:14-50 | See below. |
| Dashboard.HideLocally | src/pages/Dashboard.js:111 | The kept links all have another short code, and every link with another code is kept. |
| Dashboard.HasOtherCode | src/pages/Dashboard.js:111 | The filter's test keeps a link exactly when its short code differs from the deleted one. |
| Dashboard.HideLocallyKeepsOthers | src/pages/Dashboard.js:111 | Links with another short code keep all their copies, and links with this code lose all of theirs. |
| Dashboard.HideLocallyAppend | src/pages/Dashboard.js:111 | The remaining links stay in their relative order. |
| Dashboard.HideAbsentIsIdentity | src/pages/Dashboard.js:111 | Deleting a short code that is not listed leaves the list unchanged. |
| Dashboard.HideLocallyIdempotent | src/pages/Dashboard.js:111 | Deleting the same short code twice is deleting it once. |
| Dashboard.DashboardPage.constructor | src/pages/Dashboard.js:10-12 | The dashboard starts with an empty URL, no links and no error. |
| Dashboard.DashboardPage.SetUrl | src/pages/Dashboard.js:139 | Typing sets the URL and changes nothing else. |
| Dashboard.DashboardPage.FetchLinks | src/pages/Dashboard.js:18-36 | A received list replaces the links. A non-ok response sets `"Failed to fetch links"`, and a rejection sets its message; in both cases the links are kept. |
| Dashboard.DashboardPage.HandleShorten | src/pages/Dashboard.js:72-96 | See below. |
| Dashboard.DashboardPage.HandleDelete | src/pages/Dashboard.js:110-113 | The list becomes the locally hidden list, and the URL and error are unchanged. |
| Dashboard.DeleteThenRefetch | src/pages/Dashboard.js:32 | A refetch after a delete replaces the local list with the fetched one, so nothing of the local deletion survives. This only illustrates the refetch; the server is not modelled. |
| App.LinkRouteParam | src/App.js:40 | A recognised path is `/link/` followed by the returned code, which is non-empty and has no slash. |
| App.Route | src/App.js:37-43 | See below. |
| App.LinkRouteParamRoundTrip | src/App.js:40 | `/link/<short>` matches exactly when the code is non-empty and has no slash, and yields that code. |
| App.RouteGuard | src/App.js:38-42 | See below. |
| App.RedirectSettles | src/App.js:38-42 | Every redirect lands on a path that renders a page, so no redirect loop exists. |
| App.Session.constructor | src/App.js:10-11 | The session starts unauthenticated with no token, whatever is stored. |
| App.Session.RestoreSession | src/App.js:13-19 | See below. |
| App.Session.Login | src/App.js:21-25 | The token is stored and adopted, and the session is authenticated. Afterwards `/login` redirects to `/dashboard`, and `/dashboard` renders. |
| App.Session.Logout | src/App.js:27-31 | The stored token and the token are removed, and the session is unauthenticated. Afterwards `/dashboard` redirects to `/login`, and `/login` renders the auth page. |
| App.Session.ElementAt | src/App.js:37-43 | What the router shows in the current session: the auth page exactly when signed out at `/login`, and any other page only when signed in. |
| App.LoginThenReload | src/App.js:13-25 | After login and a reload, the session is restored exactly when the token is non-empty, with that token. |

The rows marked *See below* state the following.

**LinkDetails.LinkDetailsPage.FetchLinkInfo** covers every outcome of the two
fetches:

- A failed click fetch sets `"Failed to fetch click data"` or the rejection
  message, and changes nothing else.
- Received clicks are stored before the second fetch.
- A failed link fetch then sets `"Failed to fetch link information"` or the
  rejection message.
- A received list either sets `linkInfo` to the first match or sets `FindLink`'s
  error.
- From the first state, the page stays on "Loading..." only when the recorded
  error message is empty.

**Dashboard.DashboardPage.HandleShorten** clears the error first, then:

- on success, puts the new link in front and empties the URL;
- on a non-ok response, sets `"Write the correct URL"`;
- on a rejection, sets its message.

In both failure cases the links and the URL are kept.

**App.Route**:

- The auth page shows exactly for `/login` when not authenticated.
- Any other page shows only when authenticated.
- Every redirect goes to `/dashboard` when authenticated and to `/login`
  otherwise.

**App.RouteGuard** gives the decision for each route:

- `/dashboard` and `/link/<short>` render their pages when authenticated and
  redirect to `/login` otherwise.
- `/login` while authenticated redirects to `/dashboard`.
- Any other path redirects to `/dashboard` or `/login`.

**App.Session.RestoreSession** adopts a truthy stored token and sets
authenticated. Otherwise nothing changes. It preserves the
authenticated-iff-token invariant.

## Left out

- Timestamp decoding: `new Date(timestamp)` and its local-time fields
  (`getFullYear`, `getMonth`, `getDate`, `getHours`, `getMinutes`) are not
  modelled. The chart takes redirect times already decomposed into
  `LocalTime` fields.
  - The spelling of an invalid date is not modelled either (`NaN` fields).
  - Nor are negative years.
- `LinkDetails.ClicksLastDay`: `oneDayAgo` is taken as exactly 24 hours before
  `now`, in milliseconds. `setDate(getDate() - 1)` differs by an hour across a
  daylight-saving change. The current time is a parameter rather than a clock
  read.
- `fetch`, HTTP headers, JSON decoding and the backend are not modelled. Each
  request is reduced to its outcome (`Received`, `NotOk`, `Rejected`), given as
  a parameter.
- `localStorage` is a field (`storedToken`) of the session.
- Asynchrony is not modelled:
  - React's batched, asynchronous state updates;
  - effects re-running on changes to `authToken` or `short`;
  - races between overlapping fetches, and late responses after unmount.

  Each handler is modelled as one atomic step.
- Left out because they do not touch the modelled state:
  - the username fetches (`fetchUserInfo` in both pages);
  - `handleCopy` and the clipboard;
  - `navigate` calls;
  - `toLocaleDateString` display of `createdAt`;
  - the chart gradient and Chart.js rendering;
  - all JSX markup.
- `AuthPage` is not part of this model; the session only sees its `login`
  call.
- React Router's matching is simplified. Paths are matched exactly, and
  `/link/:short` takes one non-empty segment. Case-insensitivity, trailing
  slashes and URL-decoding of the parameter are not modelled.
- `ClickChart.Sort`: `.sort()` compares UTF-16 code units, while the model
  compares Dafny characters. They agree on the ASCII keys the chart builds.
  The engine's sort algorithm is replaced by an insertion sort.
  `StrictlySortedUnique` shows that the result is the same for any correct
  sort, since the keys are distinct.
- `Object.keys` ordering is kept as insertion order in `GroupCounts`. Integer-like
  keys would be listed first, but no bucket key is integer-like, and the order
  is discarded by the sort anyway.
