# Citizens-Link: leaderboard aggregation and report submission

Citizens-Link lets citizens report their part in a civic organisation's
activities. Staff approve the reports. Approved reports earn points, and the
points feed a leaderboard. This project is a Dafny model of the two pieces of
real logic in the application's pages. Every property below is proved about
that model.

- **The leaderboard** (`src/app/ranking/page.tsx`). The page asks the store
  for the reports whose status is exactly `approved`, each joined to its
  activity type's `base_points`. It adds up the points per reporter name in a
  dictionary. It turns the dictionary into `{name, points}` entries and sorts
  them by descending points. The entry at index i is shown with rank i + 1.
  Module `Ranking` (`ranking.dfy`) models this:
  - the store's status filter is the function `Approved`;
  - the `forEach` loop is the method `Tally`, with a loop invariant that ties
    the dictionary to the per-name sums of the rows seen so far;
  - `Object.entries(...).map(...)` is the method `EntriesOf`;
  - the sort is the stable insertion sort `SortDesc`;
  - `FetchRankings` chains the steps, and `RankRows` gives the displayed ranks.
- **The report form** (`src/app/page.tsx`). The page is in QR mode when the
  URL says `mode=qr`. Submitting checks that both fields are filled in. It
  then inserts one row, `approved` in QR mode and `pending` otherwise. It
  clears the form only when the store reports no error. Module `Submission`
  (`submission.dfy`) models the form as the class `ReportForm`, whose fields
  are the two `useState` values. The store's answer is the parameter
  `storeError` of `Submit`.
- `PrototypeKeys` (`prototype_keys.dfy`) models the dictionary step as
  written, as a JavaScript object lookup, for the finding below.
- `Options` (`options.dfy`) holds the `Option` type used for nullable columns,
  missing joins and unset parameters.

Names are compared exactly as stored. The code neither trims them nor
replaces an empty name with a placeholder. Some descriptions of this system
say that names are trimmed and that tiers and a name search exist. The code
modelled here does none of that, and the model follows the code.

## Model

| member | source | states |
|---|---|---|
| Ranking.Approved | src/app/ranking/page.tsx:11-14 | the query keeps exactly the reports whose status is `approved`, each as many times as it occurs |
| Ranking.ApprovedAppend | src/app/ranking/page.tsx:14 | filtering a concatenation is concatenating the filtered parts |
| Ranking.PendingNeverCounts | src/app/ranking/page.tsx:13-14 | inserting a report that is not approved, anywhere, leaves the rows the ranking sees unchanged |
| Ranking.Contribution | src/app/ranking/page.tsx:21 | a report adds 0 exactly when its join is missing or its `base_points` is null or 0; otherwise it adds its base points |
| Ranking.SumForAbsent | src/app/ranking/page.tsx:19-22 | a name carried by no row has total 0 |
| Ranking.Tally | src/app/ranking/page.tsx:18-23 | the totals dictionary has one key per distinct name among the rows, and each key holds the sum of that exact name's contributions |
| Ranking.EntriesOf | src/app/ranking/page.tsx:26-27 | the entries list every key of the totals exactly once, each with its own total |
| Ranking.Insert | src/app/ranking/page.tsx:28 | inserting into a list sorted by descending points keeps it sorted and adds exactly the new entry |
| Ranking.InsertKeepsNames | src/app/ranking/page.tsx:28 | inserting adds exactly the new entry's name and keeps names distinct when the name is new |
| Ranking.InsertAddsPoints | src/app/ranking/page.tsx:28 | inserting adds exactly the new entry's points to the sum |
| Ranking.SortDesc | src/app/ranking/page.tsx:28 | the sorted list is in non-increasing order of points and is a permutation of its input |
| Ranking.SortDescKeepsNames | src/app/ranking/page.tsx:26-28 | sorting keeps the set of names and keeps them distinct |
| Ranking.SortDescKeepsSum | src/app/ranking/page.tsx:26-28 | sorting keeps the sum of the points |
| Ranking.GrandTotal | src/app/ranking/page.tsx:18-27 | entries that hold each distinct name's total add up to the sum of all contributions |
| Ranking.FetchRankings | src/app/ranking/page.tsx:11-30 | the rankings are sorted, have distinct names, name exactly the reporters of approved reports, give each the sum of its approved reports, conserve the grand total, and are empty exactly when no report is approved |
| Ranking.RankRows | src/app/ranking/page.tsx:44-54 | every entry is shown once, in order, the entry at index i with rank i + 1 |
| Ranking.BetterRankNoFewerPoints | src/app/ranking/page.tsx:28-54 | in a sorted leaderboard a smaller rank never shows fewer points than a larger one |
| Submission.IsQRMode | src/app/page.tsx:10 | QR mode holds exactly when the `mode` parameter is present and equal to `qr` |
| Submission.FinalStatus | src/app/page.tsx:28 | the row status is `approved` exactly in QR mode and `pending` otherwise |
| Submission.SubmittedRowCounts | src/app/page.tsx:28-36 | once stored, a QR-mode row is counted by the ranking at once and a standard row is not counted at all |
| Submission.ReportForm.constructor | src/app/page.tsx:10-14 | a new form reads its mode from the URL and starts with both fields empty |
| Submission.ReportForm.EditName | src/app/page.tsx:72 | typing sets the name and leaves the activity |
| Submission.ReportForm.SelectActivity | src/app/page.tsx:79 | choosing sets the activity and leaves the name |
| Submission.ReportForm.Submit | src/app/page.tsx:24-47 | with an empty field nothing is sent and the fields stay; otherwise exactly one row is sent with the name as typed, the chosen activity and the mode's status; a store error keeps the fields, success clears both |
| PrototypeKeys.ToStringReporterIsGarbled | src/app/ranking/page.tsx:18-22 | as written, a reporter named `toString` with 10 points ends with a string in place of the total 10 |
| PrototypeKeys.ProtoReporterVanishes | src/app/ranking/page.tsx:18-22 | as written, a reporter named `__proto__` gets no key in the totals |
| PrototypeKeys.AsWrittenAgreesOnOrdinaryNames | src/app/ranking/page.tsx:18-23 | when no name is an inherited object member, the loop as written computes exactly the per-name sums of `Ranking.Tally` |

## Left out

- Rendering, styling, `toLocaleString` formatting, `Suspense` and the `useEffect` lifecycle are presentation only and are not modelled.
- The store client in `src/lib/supabase.ts` is not part of this model. The query is modelled by its meaning: `FetchRankings` takes the whole `activity_reports` table, each report already joined to its activity type, and applies the status filter itself.
- `FetchRankings` models the branch where the query returns data. When it returns none, the page keeps its previous (initially empty) list; this is not modelled.
- `EntriesOf`: the order of `Object.entries` (integer-like keys first, then insertion order) is not modelled, so which of two tied names comes first is not specified. Only sortedness and permutation are stated.
- `SortDesc` is one stable sort standing for the engine's `Array.prototype.sort`; only its ordering and permutation properties are claimed for the page.
- Points and activity ids are integers; JavaScript floating point and `Number()` parsing of the selected option are not modelled. The selected activity is `None` for the placeholder option and `Some(id)` otherwise.
- `user_name` is a string; a null name, which JavaScript would file under the key `"null"`, is not modelled.
- Alerts are modelled as the `Notice` returned by `Submit`; the asynchronous wait, network failures and the insert itself are left to the store, whose answer is the `storeError` parameter.
- `src/app/admin/page.tsx`, `src/app/vision/page.tsx` and `src/app/layout.tsx` are not part of this model: they are single store calls or static markup.

## Findings

| source | as written | input that shows it | evidently intended | confidence | as-written member | corrected member |
|---|---|---|---|---|---|---|
| src/app/ranking/page.tsx:18-22 | `totals` is a plain object, so `totals[name] \|\| 0` for a name not yet stored returns an inherited member, and `+` then concatenates strings | one approved 10-point report by `toString`: its total becomes a string, not 10 | every name gets its numeric sum (an object without a prototype, or a `Map`) | high, not executed | PrototypeKeys.ToStringReporterIsGarbled | Ranking.Tally |
| src/app/ranking/page.tsx:22 | assigning to `totals["__proto__"]` sets the prototype and ignores a non-object value | one approved report by `__proto__`: the name is missing from the rankings | every reporter appears once | high, not executed | PrototypeKeys.ProtoReporterVanishes | Ranking.Tally |
