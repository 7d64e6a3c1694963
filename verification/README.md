# Session lifecycle and chart windowing of stocksim-mobile

A Dafny model of the two pieces of the stocksim-mobile client that hold logic
of their own:

- **The session lifecycle** of `lib/AuthContext.js` (module `Session`,
  `session.dfy`). The provider keeps a token and a role in memory, persists
  them in secure storage under the keys `"token"` and `"role"`, and sends the
  navigator to `/` on logout. It has four operations: `login`, `logout`, the
  start-up `restoreAuth`, and the periodic `checkTokenExpiry`. The class
  `AuthProvider` holds that state in fields and updates it step by step. Each
  method is proved equal to a pure function of the whole state (`LoggedIn`,
  `LoggedOut`, `AfterCheck`, `Restored`). The lemmas state the properties of
  those functions, including an invariant over any sequence of events
  (`Run`).
- **The chart windowing** of `components/performanceChart.js` (module
  `PerformanceChart`, `chart.dfy`). This is the `ranges` table and the
  `filteredData` computation. It keeps the points of the selected span, and
  when more than two remain it keeps only the points at positions divisible
  by `step = ceil(L / (windowWidth - 50))`. Every kept value defaults to 0
  when it is falsy.

`wrappers.dfy` holds the `Option` type both modules use.

Modelling choices:

- Storage is a `map<string, string>`. An absent key reads as `None`. The
  source tests stored values for truthiness, so an empty string counts as
  absent too (`Truthy`).
- The JWT decoder is the provider's `decode: string -> Decoded`. It yields
  `Malformed` when decoding throws, or the claim set's `exp` (seconds, section
  4.1.4 of RFC 7519). That `exp` may be missing. The signature is never
  checked.
- The clock is an argument `nowMs` in integer milliseconds. The source
  computes `exp - Date.now() / 1000`. Over the reals, that compares with 0 and
  3600 exactly as `exp * 1000 - nowMs` compares with 0 and 3 600 000, so no
  floating point is needed.
- The two expiry tests differ at the boundary. `restoreAuth` logs out only
  when `exp < now` (lib/AuthContext.js:64). `checkTokenExpiry` logs out when
  `exp - now <= 0` (lib/AuthContext.js:41). `ExpiryBoundaryAsymmetry` shows
  that a token expiring exactly now is restored and then ended by the next
  check.
- A token whose claims have no `exp` is never ended. In the check,
  `undefined - now` is NaN, so both comparisons are false. In the restore,
  `undefined < now` is false, so the token is accepted. The model keeps this
  behaviour: see `CheckKeepsLiveToken` and `RestoreAcceptsLiveToken`.
- When a stored key is missing, restoring leaves memory as it was rather
  than clearing it (lib/AuthContext.js:59). Roles are arbitrary strings:
  nothing restricts them to `student`/`teacher`.
- Chart timestamps are integer milliseconds. A value is `Option<int>`, where
  `None` or `Some(0)` is drawn as 0. `windowWidth` is the integer window width
  from `useWindowDimensions`, not the `width` prop. It must exceed 50 only
  when more than two points survive the range filter. With two or fewer, the
  source returns before it divides.

## Model

| member | source | states |
|---|---|---|
| `Session.LoggedIn` | lib/AuthContext.js:14-19 | login sets memory to the new token and role, stores both keys with those values, leaves every other key and the route alone, and leaves memory and storage paired |
| `Session.LoggedOut` | lib/AuthContext.js:22-29 | logout nulls token and role, deletes both keys and no other, and sets the route to `/` |
| `Session.ExpiryVerdict` | lib/AuthContext.js:37-51 | the periodic check's branch: expired exactly when decoding fails or `exp*1000 <= now`; "expires soon" exactly when less than an hour but more than 0 ms remains |
| `Session.AfterCheck` | lib/AuthContext.js:32-52 | the periodic check either changes nothing or logs out, acts only when a truthy token is stored, and keeps a paired state paired; its branches are pinned down by `CheckWithoutStoredTokenIsNoOp`, `CheckLogsOutDeadToken` and `CheckKeepsLiveToken` |
| `Session.Restored` | lib/AuthContext.js:55-77 | restore either changes nothing, logs out, or sets memory to exactly the stored (truthy) pair with storage and route unchanged, and keeps a paired state paired; `RestoreNeedsBothKeys`, `RestoreAcceptsLiveToken` and `RestoreRejectsDeadToken` say which happens when |
| `Session.AuthProvider.constructor` | lib/AuthContext.js:8-11 | a new provider starts with null token and role over whatever the store already holds |
| `Session.AuthProvider.Login` | lib/AuthContext.js:14-19 | the in-place login produces exactly `LoggedIn` of the previous state and leaves the state paired |
| `Session.AuthProvider.Logout` | lib/AuthContext.js:22-29 | the in-place logout produces exactly `LoggedOut` of the previous state |
| `Session.AuthProvider.CheckTokenExpiry` | lib/AuthContext.js:32-52 | the in-place periodic check produces exactly `AfterCheck` and keeps a paired state paired |
| `Session.AuthProvider.RestoreAuth` | lib/AuthContext.js:55-77 | the in-place restore produces exactly `Restored` and keeps a paired state paired |
| `Session.LogoutIdempotent` | lib/AuthContext.js:22-29 | logging out twice gives the same state as logging out once |
| `Session.CheckWithoutStoredTokenIsNoOp` | lib/AuthContext.js:33-34 | with no truthy stored token, the check changes nothing, whatever memory holds |
| `Session.CheckLogsOutDeadToken` | lib/AuthContext.js:37-51 | a stored token that fails to decode or has `exp*1000 - now <= 0` ends logged out and redirected to `/` |
| `Session.CheckKeepsLiveToken` | lib/AuthContext.js:41-47 | a stored token with lifetime left changes nothing, including in the under-one-hour branch, and so does one with no `exp` |
| `Session.RestoreNeedsBothKeys` | lib/AuthContext.js:56-59 | with either stored value absent or empty, restore changes nothing, so a lone key is not cleared |
| `Session.RestoreAcceptsLiveToken` | lib/AuthContext.js:60-71 | with both keys present and `exp*1000 >= now` (or no `exp`), memory becomes exactly the stored pair and storage and route are unchanged |
| `Session.RestoreRejectsDeadToken` | lib/AuthContext.js:60-75 | with both keys present and a token that fails to decode or has `exp*1000 < now`, restore ends in the logged-out state |
| `Session.ExpiryBoundaryAsymmetry` | lib/AuthContext.js:38-66 | a token with `exp == now` is restored at start-up but ended by the next periodic check |
| `Session.LoginRestartRestore` | lib/AuthContext.js:14-71 | login, an app restart and restore give back the same token and role when both are non-empty and the token is unexpired |
| `Session.StepKeepsPaired` | lib/AuthContext.js:10-75 | each of login, logout, check and restore keeps `token == null <==> authRole == null`, and keeps the two keys stored together |
| `Session.RunKeepsPaired` | lib/AuthContext.js:10-77 | from a paired state, such as the initial null memory over an empty store, any sequence of operations keeps memory and storage paired |
| `PerformanceChart.RangeMs` | components/performanceChart.js:10-16 | the spans 1D/1W/1M/1Y last 86 400 000 / 604 800 000 / 2 592 000 000 / 31 536 000 000 ms, and only ALL has no bound |
| `PerformanceChart.Plot` | components/performanceChart.js:21 | a drawn point keeps the timestamp, and its value is the input value, or 0 when that is missing |
| `PerformanceChart.Since` | components/performanceChart.js:19 | the range filter keeps a point if and only if it is in the input with a timestamp at or after the cutoff, and never lengthens the series |
| `PerformanceChart.SinceCounts` | components/performanceChart.js:19 | the range filter keeps every occurrence of a point at or after the cutoff and no occurrence of any other point |
| `PerformanceChart.InRange` | components/performanceChart.js:19 | ALL returns the data unchanged; any other span keeps exactly the points with `timestamp >= now - RangeMs(span)` (with their counts and order by `SpanFilterExact`) |
| `PerformanceChart.EveryNth` | components/performanceChart.js:24 | the index-modulo filter never lengthens its input, keeps only input elements, and keeps the first one; its exact length and elements are given by `EveryNthShape` |
| `PerformanceChart.FilteredData` | components/performanceChart.js:18-27 | the drawn series is no longer than the input, empty for an empty input, point for point when two or fewer points survive the range filter, non-empty and starting with the first surviving point otherwise, and every drawn point is the drawing of an input point; `DownsampleShape`, `OutputDrawnFromInput` and `OutputKeepsOrder` give the rest |
| `PerformanceChart.SelectedFromData` | components/performanceChart.js:18-27 | every point kept by the range filter and the downsampling is an input point |
| `PerformanceChart.CeilDiv` | components/performanceChart.js:23 | `Math.ceil(a / b)`: the result `c` satisfies `b*(c-1) < a <= b*c` |
| `PerformanceChart.CeilDivUnique` | components/performanceChart.js:23 | only one number satisfies the ceiling bounds |
| `PerformanceChart.EveryNthShape` | components/performanceChart.js:24 | keeping the indices with `index % step == 0` keeps `ceil(n / step)` elements, and the k-th of them is the element at index `k*step` |
| `PerformanceChart.EveryNthIsSubsequence` | components/performanceChart.js:24 | downsampling only leaves elements out and keeps their order |
| `PerformanceChart.SinceIsSubsequence` | components/performanceChart.js:19 | the range filter only leaves points out and keeps their order |
| `PerformanceChart.AllSpanKeepsEveryPoint` | components/performanceChart.js:19 | with ALL, no point is filtered out, and a series no longer than `windowWidth - 50` is drawn whole |
| `PerformanceChart.SpanFilterExact` | components/performanceChart.js:10-19 | with any other span, the filtered series holds exactly the points with `timestamp >= now - RangeMs(span)`, each as many times as in the input, in input order |
| `PerformanceChart.ShortSeriesUnchanged` | components/performanceChart.js:21 | two or fewer filtered points are drawn point for point, with values defaulted to 0 |
| `PerformanceChart.DownsampleShape` | components/performanceChart.js:23-26 | above two points, the output is the filtered points at indices `0, step, 2*step, …` with `step = ceil(L / (windowWidth - 50))`; it has `ceil(L / step)` points, between 1 and `windowWidth - 50` of them, and starts with the first filtered point |
| `PerformanceChart.NarrowSeriesKeepsAll` | components/performanceChart.js:23-24 | when `2 < L <= windowWidth - 50`, the step is 1 and downsampling drops nothing |
| `PerformanceChart.OutputDrawnFromInput` | components/performanceChart.js:18-27 | the points kept before values are defaulted form a subsequence of the input, so the drawn series is never longer than the input, and it is empty for an empty input |
| `PerformanceChart.OutputKeepsOrder` | components/performanceChart.js:18-27 | a series given in ascending time order is drawn in ascending time order |

## Left out

- Asynchrony: each operation is atomic. The awaits inside `login`, `logout`, `checkTokenExpiry` and `restoreAuth` are not modelled, so neither is their interleaving with a timer tick.
- Scheduling: the `setInterval`/`clearInterval` five-minute timer and the mount-time `useEffect` are not modelled. `Run` lets any event come at any time.
- Storage failures: the model treats a storage write or delete as always succeeding. A rejected `SecureStore` promise is not modelled.
- Logging: the `console.log`/`console.error` lines have no observable effect in the model. The "expires soon" branch is therefore a no-op.
- Unusual `exp` values: an `exp` claim that is present but is not an integer number of seconds (a string, a fraction) is not modelled. `exp` is `Option<int>`.
- Session.AuthProvider.Login: takes strings only. A `null` or `undefined` argument, which the store would reject, is not modelled.
- `useAuth`'s error when used outside the provider (lib/AuthContext.js:98-103): this is React context plumbing.
- Chart rendering: everything after `filteredData` (components/performanceChart.js:29-128) is not modelled. That covers the line chart, the `Intl.DateTimeFormat` labels and the span buttons.
- Span selection state: the `span || "1D"` initial selection and its `useState` (components/performanceChart.js:8) are not modelled. The span is an argument of `FilteredData`.
- PerformanceChart.FilteredData: for `windowWidth <= 50` with more than two points, the source divides by zero or by a negative number. The resulting steps (`Infinity`, `-0` or a negative step) are excluded by the precondition and not modelled.
- PerformanceChart.CeilDiv: takes integer widths and exact division. A fractional window width, and floating-point rounding of `L / W`, are not modelled.
- Date parsing: `new Date(d.timestamp)` is not modelled. Timestamps are already integer milliseconds, so invalid dates cannot occur.
- Screens: the other screens (stock and student details, dashboards, the login screen) only fetch and render. They are not part of this model.
