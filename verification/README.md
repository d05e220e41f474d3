# Poker tracker store: a Dafny model

This project models `MemStorage`, the in-memory store behind the poker
tracker service. The store keeps poker sessions, a bankroll ledger and user
settings. It derives each session's profit and hourly rate, and posts a
ledger entry for every new session. It lists sessions and ledger entries
newest first, one page at a time, and searches sessions by text and by
structured filters. It keeps keyed settings with three seeded defaults, and
computes statistics over a date window, including the win/loss streak.

The store is an immutable value, `MemStorage.Store`. It holds three
sequences, each in insertion order as a JavaScript `Map` keeps them, plus a
counter that supplies fresh ids. Every mutating operation is a function from
the old store to a pair of the new store and what the source method returns.
`MemStorage.Valid` is the store invariant that every mutation keeps:

- ids are unique within each collection and below the counter;
- setting keys are unique;
- every session's profit and hourly rate agree with its buy-in, cash-out
  and hours (`Records.Consistent`).

Modules:

- `Optional`: the `Option` type; `GetOr` models JavaScript's `??`.
- `Text`: ASCII `toLowerCase` and `String.prototype.includes`.
- `Ordering`: a stable sort by an integer key, JavaScript `slice` with its
  negative-index rules, the page convention `slice(offset, offset + limit)`,
  and `filter`.
- `Records`: the session, ledger-entry and setting records, the create and
  partial-update inputs, and the profit and hourly-rate rule.
- `MemStorage`: the store and the session, ledger and settings operations.
- `Search`: `searchSessions`, one stage per `filter` call of the source.
- `Stats`: `getStats`, the streak walk as written, and a repaired walk.

The longest-streak fields follow the code's early-exit walk. The loop keeps
`tempWinStreak` and `tempLossStreak` counters, resets one whenever the other
grows, and folds them into `longestWinStreak` and `longestLossStreak` with
`Math.max` (assets/www/index.js:167-175). That bookkeeping only has a purpose
if the loop scans every session, yet the `break` at line 164 stops it at the
first change of sign. The difference is recorded under Findings.

Money and hours are exact reals. Dates are integer millisecond timestamps.
Ids come from the counter instead of `randomUUID`. The clock reads become a
`now` parameter.

## Model

| member | source | states |
|---|---|---|
| `MemStorage.Init` | assets/www/index.js:13-20 | the new store is valid, has no sessions and no ledger entries, and holds exactly three settings: bankroll 15000, stopLossLimit 500 and winGoal 1000 |
| `MemStorage.GetSetting` | assets/www/index.js:112-114 | the result is a stored setting with the requested key, and it is absent exactly when no stored setting has that key |
| `MemStorage.SetSetting` | assets/www/index.js:115-127 | after the upsert, the key reads back with the new value and every other key reads as before. An existing key keeps its id and the setting count. A new key adds exactly one setting. Sessions and ledger are untouched |
| `MemStorage.SetSettingValid` | assets/www/index.js:115-127 | the upsert keeps the store invariant; in particular setting keys stay unique |
| `MemStorage.CreateBankrollTransaction` | assets/www/index.js:102-111 | the entry carries the caller's fields and the time `now`. It is appended to the ledger under an id no existing entry has, nothing else changes, and the invariant is kept |
| `MemStorage.GetBankrollTransactions` | assets/www/index.js:98-101 | every returned entry is in the ledger, and the page is ordered by date, newest first |
| `MemStorage.GetBankrollTransactionsPage` | assets/www/index.js:98-101 | with a non-negative limit and offset (50 and 0 when absent), the page is the block of the newest-first ledger starting at the offset. Its length is max(0, min(limit, n - offset)), so an offset past the end gives an empty page |
| `MemStorage.GetSession` | assets/www/index.js:25-27 | the result is a stored session with the requested id, and it is absent exactly when no stored session has that id |
| `MemStorage.CreateSession` | assets/www/index.js:28-47 | the session keeps every caller field. Its profit is cash-out minus buy-in. Its hourly rate times the hours is the profit when the hours are positive, and 0 otherwise. Its id is fresh, it is appended and found by that id. Exactly one ledger entry is added: type "session", amount = profit, linked to the new id, described as "{gameType} session at {location}". Settings are untouched and the invariant is kept |
| `MemStorage.MergeSession` | assets/www/index.js:51-59 | the merged session keeps id and creation time, and takes every supplied field over the stored one. A consistent session stays consistent. When buy-in or cash-out is supplied, the profit is cash-out minus buy-in. When none of buy-in, cash-out or hours is supplied, profit and hourly rate are unchanged |
| `MemStorage.UpdateSession` | assets/www/index.js:48-62 | an unknown id returns nothing and leaves the store unchanged. A known id returns the merged session and stores it in the same place. Every other session, the whole ledger and the settings are unchanged |
| `MemStorage.UpdateSessionValid` | assets/www/index.js:48-62 | an update keeps the store invariant: ids stay unique and the stored session stays consistent |
| `MemStorage.DeleteSession` | assets/www/index.js:63-65 | the result is true exactly when a session with the id was stored. That id no longer resolves, and every other id resolves as before. Every other session stays, and with a valid store exactly one session is removed (none for an unknown id). The ledger, including entries whose session id now dangles, and the settings are untouched |
| `MemStorage.DeleteSessionOrder` | assets/www/index.js:63-65 | deleting keeps the remaining sessions in insertion order: an unknown id leaves the sessions exactly as they were, and in a valid store the deleted session is cut out of its position with the others unmoved. This decides the order of equal-date sessions in the listing, the search and the streak walk |
| `MemStorage.RemoveSessionCut` | assets/www/index.js:64 | with unique ids, removing the id of the session at position k yields the sessions before k followed by the sessions after k |
| `MemStorage.RemoveSessionMembers` | assets/www/index.js:64 | `RemoveSession`, the `Map.delete` on the session sequence, keeps exactly the stored sessions with another id: every kept session is stored and has another id, and every stored session with another id is kept |
| `MemStorage.RemoveSessionLookup` | assets/www/index.js:64 | removing one id leaves the lookup of every other id unchanged |
| `MemStorage.RemoveSessionUnique` | assets/www/index.js:64 | removal keeps session ids unique |
| `MemStorage.RemoveSessionCount` | assets/www/index.js:64 | with unique ids, removal drops exactly one session when the id is stored, and none otherwise |
| `MemStorage.NewestFirst` | assets/www/index.js:22 | the listing order is a permutation of the sessions, ordered by date with the newest first |
| `MemStorage.NewestFirstStable` | assets/www/index.js:22 | sessions with equal dates keep their insertion order in the listing |
| `MemStorage.GetSessions` | assets/www/index.js:21-24 | every returned session is stored, and the page is ordered newest first |
| `MemStorage.GetSessionsPage` | assets/www/index.js:21-24 | with a non-negative limit and offset (50 and 0 when absent), the page is the block of the newest-first order starting at the offset. Its length is max(0, min(limit, n - offset)), so an offset past the end gives an empty page |
| `Ordering.SortBy` | assets/www/index.js:22 | the sort returns a permutation of its input, ascending by the key |
| `Ordering.SortByStable` | assets/www/index.js:99 | the sort is stable: for every key value, the elements with that key keep their input order |
| `Ordering.JsSlice` | assets/www/index.js:23 | `slice(start, end)` returns the contiguous block that begins at the start index, after negative indices are counted from the end and both are clamped to the list. Its length is the distance from the start index to the end index, or 0 when they cross |
| `Ordering.PageShape` | assets/www/index.js:100 | with a non-negative limit and offset, a page has length max(0, min(limit, n - offset)) and holds the elements at positions offset onward |
| `Ordering.FirstIndex` | assets/www/index.js:113 | `find` returns the first element with the key: every earlier element has another key, and the search fails only when no element has it |
| `Ordering.FilterMembers` | assets/www/index.js:70-72 | an element is in the filtered list exactly when it is in the input and satisfies the predicate |
| `Ordering.FilterCount` | assets/www/index.js:131-136 | a filter keeps as many elements as satisfy its predicate |
| `Ordering.CountAll` | assets/www/index.js:141 | every element is counted exactly when every element satisfies the predicate |
| `Ordering.CountNone` | assets/www/index.js:141 | no element is counted exactly when none satisfies the predicate |
| `Text.Lower` | assets/www/index.js:69 | lower-casing keeps the length, maps each character to its lower-case form, and leaves no upper-case ASCII letter |
| `Text.IncludesIff` | assets/www/index.js:71 | `includes` is true exactly when the needle occurs at some position of the haystack |
| `Search.QueryStage` | assets/www/index.js:68-73 | with a non-empty query, a session is kept exactly when the lower-cased query occurs in its lower-cased location, game type, stakes, notes (when present) or one of its tags. An empty query keeps everything |
| `Search.LocationStage` | assets/www/index.js:75-77 | with a non-empty location filter, a session is kept exactly when the lower-cased filter occurs in its lower-cased location. Otherwise everything is kept |
| `Search.GameTypeStage` | assets/www/index.js:78-80 | with a non-empty game-type filter, a session is kept exactly when its game type equals the filter (case-sensitive). Otherwise everything is kept |
| `Search.TableTypeStage` | assets/www/index.js:81-83 | with a non-empty table-type filter, a session is kept exactly when its table type equals the filter. Otherwise everything is kept |
| `Search.DateFromStage` | assets/www/index.js:84-86 | with a lower date bound, a session is kept exactly when its date is at or after the bound |
| `Search.DateToStage` | assets/www/index.js:87-89 | with an upper date bound, a session is kept exactly when its date is at or before the bound |
| `Search.ResultStage` | assets/www/index.js:90-94 | with a non-empty result filter, a session is kept exactly when its profit is positive for "win" and at most zero for any other value |
| `Search.Narrow` | assets/www/index.js:68-95 | the stages in the source's order keep exactly the sessions that every active criterion accepts, and never add or duplicate a session |
| `Search.SearchSessions` | assets/www/index.js:66-97 | a session is in the result exactly when it is stored and every active criterion accepts it. The result is ordered newest first and repeats no stored session more often than it is stored |
| `Search.SearchWithoutCriteria` | assets/www/index.js:66-97 | with an empty query, no non-empty string filter and no date bound, the search returns every stored session newest first, which is the whole listing as one page |
| `Search.SearchIgnoresQueryCase` | assets/www/index.js:69 | a query and its lower-cased form give the same result |
| `Search.SearchByResult` | assets/www/index.js:90-94 | the result filter "win" keeps exactly the otherwise-matching sessions with positive profit. Any other non-empty value keeps exactly those with profit zero or less |
| `Stats.Window` | assets/www/index.js:129-137 | a session is in the window exactly when it lies within the given bounds (inclusive, an absent bound is open) |
| `Stats.StatsCount` | assets/www/index.js:138 | `totalSessions` is the number of stored sessions whose date lies in the window |
| `Stats.WinCount` | assets/www/index.js:141 | the win count is the number of sessions with a positive profit, counted independently by `Count`. So it is at most the number of sessions, 0 exactly when no session has a positive profit, and the number of sessions exactly when every one does |
| `Stats.SumAppend` | assets/www/index.js:139-140 | `Sum`, the `reduce` from 0 that totals hours and profit, splits over a concatenation: the total of two lists joined is the sum of their totals |
| `Stats.StatsAfterCreate` | assets/www/index.js:138-140 | after a session is created, the all-time statistics count one more session, and their total hours and net profit grow by exactly its hours and its cash-out minus buy-in |
| `Stats.WinRate` | assets/www/index.js:142 | the win rate lies between 0 and 100 and is the share of wins in percent, 0 for an empty set, 0 without wins and 100 when all won |
| `Stats.PerHour` | assets/www/index.js:143 | with positive hours the rate times the hours gives back the amount; otherwise the rate is 0 |
| `Stats.MaxProfit` | assets/www/index.js:145 | the maximum bounds every profit from above and is some session's profit |
| `Stats.MinProfit` | assets/www/index.js:146 | the minimum bounds every profit from below and is some session's profit |
| `Stats.GetStats` | assets/www/index.js:128-189 | totalSessions is the size of the window, and an empty window reports all zeros and a "win" streak of 0. totalHours and netProfit are the totals of the window's hours and profits. The win rate lies in 0..100 and is the share, in percent, of window sessions with a positive profit. The hourly rate is 0 without positive hours and otherwise net profit per hour. biggestLoss <= biggestWin. The streak fields are the walk's report over the window in date order |
| `Stats.StatsExtremes` | assets/www/index.js:144-146 | biggestWin and biggestLoss bound every profit in the window, and each is attained by a session in it when the window is not empty |
| `Stats.StatsWinRate` | assets/www/index.js:141-142 | a window with no positive profit, break-even sessions included, has win rate 0. A non-empty window where every profit is positive has win rate 100 |
| `Stats.StatsNetProfit` | assets/www/index.js:140 | in a valid store the net profit of the window is its total cash-out minus its total buy-in |
| `Stats.SumProfitIsCashOutMinusBuyIn` | assets/www/index.js:140 | summing consistent sessions' profits gives total cash-out minus total buy-in |
| `Stats.SummaryShape` | assets/www/index.js:154-176 | `StreakSummary`, what the walk as written reports on a non-empty flag list, has the last flag's kind and counts the maximal trailing run of that flag. The longest streak of that kind is the count and the other is 0 |
| `Stats.Chronological` | assets/www/index.js:147 | the streak order is a permutation of the window, ordered oldest first |
| `Stats.TrailingRun` | assets/www/index.js:154-166 | the count is the length of the maximal run at the end of the list that shares the last flag: every flag in it is the last flag, and the flag just before it differs |
| `Stats.StreakWalk` | assets/www/index.js:147-176 | the loop as written, with its `break`, reports the newest session's kind, the length of the maximal trailing run as count, that count as the longest streak of its kind, and 0 for the other kind |
| `Stats.ComputeStats` | assets/www/index.js:128-189 | running the statistics with the streak loop itself gives exactly `GetStats` |
| `Stats.StatsNewest` | assets/www/index.js:154-159 | the current streak is "win" exactly when the newest session of the window (last in date order, none later) has positive profit |
| `Stats.StatsStreak` | assets/www/index.js:154-176 | for a non-empty window, 1 <= count <= totalSessions. The newest `count` sessions share the newest one's sign, and the one before them differs. The longest streak of the current kind equals the count, and the other is 0 |
| `Stats.LongestRunIsMaximal` | assets/www/index.js:167-175 | the reference longest run is the length of the longest segment of one flag: no such segment is longer, and one that long exists |
| `Stats.StreakWalkFixed` | assets/www/index.js:154-176 | the walk without the early exit reports the same current streak and the longest win and loss runs of the whole history |
| `Stats.WalkMissesEarlierRuns` | assets/www/index.js:164 | on profits +100, +50, -30, +20 in date order, the walk as written reports a current win streak of 1 with longest streaks 1 (win) and 0 (loss), while the history's longest runs are 2 wins and 1 loss |
| `Records.ApplyPatchExtremes` | assets/www/index.js:51-53 | `ApplyPatch`, the spread `{...session, ...updateData}` on the caller fields: a patch that supplies nothing leaves every field alone, and one that supplies everything replaces every field |

## Left out

- HTTP routing, status mapping, query-string parsing and schema validation. Inputs are taken as already well typed.
- The development server, static files, logging and start-up. These are I/O.
- `randomUUID` is replaced by the store's id counter. Ids are naturals and are unique by construction.
- Clock reads become the `now` parameter. The two clock reads of `createSession` (the session's creation time and its ledger entry's date) are given the same `now`.
- `async`/`await`: every method runs to completion in sequence.
- IEEE floating point. Money and hours are exact reals, so rounding in sums and divisions is not modelled.
- Unicode case mapping. `toLowerCase` is modelled for ASCII letters only.
- Date parsing. Dates are integer timestamps, so an unparsable date (NaN) is not modelled.
- A `null` tag list and a session without a date are not modelled. Every session has a tag list and a date.
- An absent `filters` argument to `searchSessions` is modelled as a filter record whose entries are all absent, which behaves the same.
- The global singleton `storage` is not modelled. Operations take the store as a value.

## Findings

| source | as written | input that shows it | evidently intended | confidence | as-written member | corrected member |
|---|---|---|---|---|---|---|
| assets/www/index.js:164 | the streak loop leaves at the first change of sign, before the longest-streak counters are updated, so `longestWinStreak` and `longestLossStreak` only see the trailing run | profits +100, +50, -30, +20 in date order: the code reports longest streaks 1 (win) and 0 (loss) | longest streaks over the whole history: 2 (win) and 1 (loss); the current streak stays {win, 1} | not executed | `Stats.StreakWalk`, `Stats.WalkMissesEarlierRuns` | `Stats.StreakWalkFixed` |

The statistics operation `Stats.GetStats` reports what the code computes, so
it uses the as-written walk. `Stats.StreakWalkFixed` closes the current
streak at the first change of sign but walks on to the oldest session. It is
proved to report the same current streak and the full-history longest runs
(`Stats.LongestRun`, characterised by `Stats.LongestRunIsMaximal`).
