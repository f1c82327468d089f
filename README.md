# toggl-sync, modelled in Dafny

This project models the two pieces of logic in toggl-sync, a script that copies Toggl time
entries into a Notion data source.

- **Entry fetching** (`TogglEntries`). `GetEntries` is the Reports API pagination loop. It
  requests page 1, 2, … and appends each page's `data`. It stops once the accumulated count
  reaches the `total_count` of the latest page. A non-ok response is an error.
  `GetCurrentEntry` turns the running entry into an enriched record. It looks up the user,
  the project and (through the project's `client_id`) the client in the workspace caches,
  taking the first match and null when anything is missing. It sets `end` to the fetch
  instant and `dur` to now − start. Every failure of that request becomes null.
- **Notion upsert** (`NotionUpsert`). `BuildPropertiesFromEntry` maps an entry to row
  properties. `FindPageByTogglId` picks the first row whose `id` property equals the Toggl id.
  `NotionTable.UpsertEntry` patches that row with the properties minus `id`, or creates a row
  under the data source when there is none. `NotionTable.SyncEntries` upserts a list one
  entry at a time. The remote table is a class with a `rows: seq<Page>` field. Every table
  operation is also stated as a function (`UpsertRows`, `SyncRows`, `SyncOutcomes`), and the
  lemmas are proved about those functions.

Modelling choices:
- The page source is a sequence of responses: `pages[p - 1]` answers the request for page `p`.
- A remote failure is an input. `Faults` says whether the query or the mutation of one upsert
  fails. `CurrentResponse` says whether the current-entry request was not ok, returned a null
  body or an entry, or threw.
- The clock is the parameter `now`. Timestamps of the running entry are integers in
  milliseconds. The Reports API's timestamps are opaque strings, copied verbatim.
- JavaScript truthiness is written out. A numeric id is falsy when null or 0 (`IsTruthyId`).
  A string is falsy when null or empty (`IsTruthyText`).
- A PATCH is a partial update. `ApplyPatch` is this assumed behaviour of the remote service,
  not logic of the script: a property the payload carries replaces the stored one, and a
  property it omits keeps its stored value. So a row never loses its `id`.
  It also means that a project or client removed in Toggl stays on an existing row
  (`StaleProjectKept`).
- A project or client select is added only when the name is truthy, so an empty name is left
  out as well as null.
- Upserting an entry into a table without its id, twice, leaves exactly one row with exactly
  the built properties (`UpsertTwice`). When a row for the id already exists, upserts only
  overwrite the properties the entry carries, so the row need not end equal to the built set.
- No time-window filter is applied: `getEntries` in `entries.ts` has none.
- A failed query, PATCH or POST is taken to leave the table as it was (`UpsertRows`). Like
  `ApplyPatch`, this is an assumption about the remote service: a request that fails on the
  client side after the server has committed it would break it.

## Model

| member | source | states |
|---|---|---|
| `Lookup.FindFirst` | src/services/toggl/entries.ts:109-117 | `find` returns the first element that matches, or none exactly when no element matches |
| `TogglEntries.GetEntries` | src/services/toggl/entries.ts:18-56 | requests pages 1, 2, … with no gap and at least one page. It stops at the unique page after which the accumulated count is at least that page's total, every earlier page having left it below. It returns the in-order concatenation of the pages' data, or on a non-ok page the error with its status and no list |
| `TogglEntries.StopsAtUnique` | src/services/toggl/entries.ts:25-52 | the loop has only one possible stopping page, so the result of `GetEntries` is determined |
| `TogglEntries.AccumulatedGrows` | src/services/toggl/entries.ts:43-44 | when every page is ok and non-empty, n pages accumulate at least n entries |
| `TogglEntries.ServedTotalStops` | src/services/toggl/entries.ts:25-52 | the loop terminates when no ok page reports a total larger than the number of entries all pages serve together (such as 50 + 12 entries with total 62) |
| `TogglEntries.NonEmptyPagesStop` | src/services/toggl/entries.ts:25-52 | the loop terminates when every page is ok and non-empty and no reported total exceeds the number of pages served |
| `TogglEntries.UserName` | src/services/toggl/entries.ts:105-111 | null for a falsy `uid` or when no cached user has that id; otherwise the `fullname` of the first user with that id |
| `TogglEntries.ProjectOf` | src/services/toggl/entries.ts:112-113 | none for a falsy `pid` or when no cached project has that id; otherwise the first project with that id |
| `TogglEntries.ProjectName` | src/services/toggl/entries.ts:106-114 | null without a found project, otherwise that project's name |
| `TogglEntries.ClientName` | src/services/toggl/entries.ts:107-119 | null without a found project, when its `client_id` is falsy, or when no cached client has that id; otherwise the name of the first client with that id |
| `TogglEntries.GetCurrentEntry` | src/services/toggl/entries.ts:87-137 | null exactly when the response is not ok, has a null body or threw. Otherwise id, pid, tid and start are copied, `end` is now, `start + dur == end`, the description defaults to "", and the names come from the cache lookups |
| `NotionUpsert.BuildPropertiesFromEntry` | src/services/notion/upsert.ts:15-24 | the description is the entry's or "". The date range is copied verbatim and `id` is the entry id. `project` and `client` are present if and only if the entry's name is truthy, and then equal it |
| `NotionUpsert.UpdatePayload` | src/services/notion/upsert.ts:65-67 | the update payload carries no `id` and every other property unchanged |
| `NotionUpsert.PatchWithUpdatePayload` | src/services/notion/upsert.ts:65-71 | a patched row keeps its `id`, takes the entry's description and dates, and takes a project or client only when the entry has a truthy one; patching again changes nothing |
| `NotionUpsert.FindPageByTogglId` | src/services/notion/upsert.ts:45-57 | the first row, in table order, whose `id` equals the entry id, or none exactly when no row has it |
| `NotionUpsert.UpsertRows` | src/services/notion/upsert.ts:60-86 | a failed query or mutation leaves the table as it was. With no match, one row with the built properties (including `id`) is appended under the data source. With a match, no row is created and every other row is unchanged; the matched row keeps its parent and `id` and takes the patched properties |
| `NotionUpsert.UpsertOutcomeOf` | src/services/notion/upsert.ts:65-85 | the result is Failed exactly when a call fails, Created exactly when no row has the id, and Updated exactly when some row has it |
| `NotionUpsert.UpsertAbsentCreates` | src/services/notion/upsert.ts:73-81 | a successful upsert of an id no row carries appends exactly the created row |
| `NotionUpsert.UpsertCounts` | src/services/notion/upsert.ts:60-82 | never a duplicate: after a successful upsert exactly one row carries the id if none did, and otherwise the count is unchanged. No other id's count moves |
| `NotionUpsert.UpsertIdempotent` | src/services/notion/upsert.ts:60-86 | upserting an entry right after upserting it leaves the table exactly as the first upsert did, unless the first attempt failed and the second succeeds |
| `NotionUpsert.StaleProjectKept` | src/services/notion/upsert.ts:21-22 | when the matched row has a project and the entry has none, repeated upserts keep the old project, so the row differs from the built properties |
| `NotionUpsert.UpsertTwice` | src/services/notion/upsert.ts:60-82 | upserting one entry twice into a table without its id leaves the old rows as they were and one new row with that id, whose properties are exactly the built ones |
| `NotionUpsert.SyncOutcomesAt` | src/services/notion/upsert.ts:95-98 | one outcome per entry; the k-th is the outcome of upserting the k-th entry into the table as synced through the entries before it |
| `NotionUpsert.CreatedPagesAt` | src/services/notion/upsert.ts:73-81 | the k-th row a first run creates is built from the k-th entry under the data source |
| `NotionUpsert.SyncCounts` | src/services/notion/upsert.ts:83-98 | whatever fails, a sync changes no id's count except from zero to one, and only for ids of synced entries |
| `NotionUpsert.SyncCountsAllSucceed` | src/services/notion/upsert.ts:95-98 | with no failures every synced id ends with exactly one row if it had none, and every other count is unchanged |
| `NotionUpsert.SyncFirstRun` | src/services/notion/upsert.ts:95-98 | a run with distinct ids, none in the table, and no failures appends one created row per entry, in list order, and leaves the old rows unchanged |
| `NotionUpsert.FirstRunOnlyCreates` | src/services/notion/upsert.ts:95-98 | in such a run every outcome is Created, so no update is issued |
| `NotionUpsert.SyncPresentOnlyUpdates` | src/services/notion/upsert.ts:95-98 | syncing entries whose ids are all present, with no failures, keeps the table's length and every id's count |
| `NotionUpsert.SyncRerunIdempotent` | src/services/notion/upsert.ts:95-98 | re-running a successful sync with the same entries creates no row and changes no id's count |
| `NotionUpsert.NotionTable.PatchPage` | src/services/notion/upsert.ts:68-71 | the PATCH is only sent with a payload that carries no `id`, and it changes only the addressed row, to its patched properties |
| `NotionUpsert.NotionTable.CreatePage` | src/services/notion/upsert.ts:74-80 | the POST appends one row under the given parent |
| `NotionUpsert.NotionTable.UpsertEntry` | src/services/notion/upsert.ts:60-86 | deletes `id` from the properties before patching, returns normally on any failure, and leaves the table equal to `UpsertRows` of the old table |
| `NotionUpsert.NotionTable.SyncEntries` | src/services/notion/upsert.ts:95-98 | upserts the entries strictly in list order, one at a time; the table becomes `SyncRows` of the old table (the loop as a function, each step an `UpsertRows`) and the outcomes are `SyncOutcomes` |

## Left out

- TogglEntries.GetEntries: requires that the server's responses reach a stopping page. The
  source does not ensure this, and with a total that is never reached it keeps requesting
  pages forever. `NonEmptyPagesStop` gives one sufficient condition.
- Loading credentials from the environment, and the startup error when they are missing
  (entries.ts:4-9, upsert.ts:7-12). This is process setup.
- The Basic-auth header and `btoa` (entries.ts:12-15), and the `notionRequest` wrapper
  (upsert.ts:27-42). This is HTTP plumbing. A request is modelled only as success with a
  body, or failure.
- `fetchWorkspaceData` (entries.ts:62-84). It is three network fetches; the caches are given
  as read-only inputs (`WorkspaceCache`). In `entries.ts` nothing calls it, so the caches stay
  empty and every enriched name is null. That is the model with an empty `WorkspaceCache`.
- The `since`, `until`, `user_agent`, `workspace_id` and `per_page=50` query parameters, and
  the `Date` formatting and ISO parsing. Only the page number of each request is modelled.
- The query's sort by date ascending (upsert.ts:48). The first match is taken in table
  order, and Notion page ids are modelled as positions in the table.
- A falsy JSON body other than null for the current entry, and malformed response bodies.
- An unparsable `start` of the running entry. `new Date` does not throw on it, so the source
  returns a record whose `dur` is NaN. The model's start is always an integer.
- `getLatestEntries` (imported at upsert.ts:3) and the time-window filter: neither `entries.ts`
  nor `upsert.ts` defines them.
- Console logging, and the async entry point beyond its sequential loop (upsert.ts:89-105),
  including the outer catch of a failed fetch.
- Retries and backoff, which the source does not have.
