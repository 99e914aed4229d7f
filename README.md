# Data-quality checker for app event streams: a Dafny model

The checker confirms that every event name and screen name on a curated
whitelist occurs at least once per platform (IOS, ANDROID) in an
analytics event table. For each category, Events and then Screens, it:

1. reads the whitelist column from a spreadsheet;
2. builds one SQL query: the base extraction, the whitelist × platform
   cross product as literal `SELECT` rows joined by `UNION ALL`, and a left
   join that counts matching sessions;
3. runs the query and splits the result rows into three parallel lists;
4. reports every (name, platform) whose count is zero.

An HTTP handler drives the two categories. It answers `warning`/404 when a
whitelist is empty, `error`/500 when anything raises, and otherwise
`success`/200 with the response built on the last pass, the Screens pass.
That response carries both scans only when the Screens scan found
something. When it found nothing, the response only says that no screen
names are missing, and any missing event names are not reported.

The model follows `main.py` module by module:

- `types.dfy` (`Types`): rows, the three-list table, the spreadsheet and
  the warehouse as inputs.
- `whitelist.dfy` (`Whitelist`): `get_whitelist` and its category → column
  mapping.
- `query_planner.dfy` (`QueryPlanner`): the fragment loop, `str.join`, and
  the exact SQL text of `query_a`, `query_b` and `query_c`.
- `results.dfy` (`Results`): row unpacking and `get_query_results`.
- `discrepancy.dfy` (`Discrepancy`): the zero-count scan as a stable filter.
- `handler.dfy` (`Handler`): the handler loop and its status classification.
- `join_semantics.dfy` (`JoinSemantics`): an abstract specification of what
  the query text asks the warehouse to compute. It is not a claim about the
  warehouse.

The external services are inputs:

- The spreadsheet is `Sheet`: either `Unreachable` or its two columns.
- The warehouse is a total function from query text to `Rows(...)` or
  `Raises`. The configured source table name is a string parameter.

The loops of the source are methods with loop invariants. Each is proved
against a specification function: `BuildQueryParts` against
`CrossFragments`, `UnpackRows` against `Unpacked`, `FindMissing` against
`Missing`, and `HandleRequest` against `Run`. Lemmas then prove what the
source promises about those functions.

Three behaviours of the code are modelled as written:

- Whitelist names are not escaped or passed as query parameters. The code
  places them verbatim between double quotes (main.py:180), and so does
  `Fragment`, which states that the name appears unchanged.
  `FragmentDeterminesCell` is about text only: two fragments are equal
  exactly when their cells are. A name holding a double quote ends the SQL
  string early (`QuoteClosesLiteralEarly`), so the fragment does not read
  back as that name. The join specification is therefore stated only for
  names without quotes, backslashes or line breaks (`LiteralNames`,
  `LiteralNameIsQuoted`).
- No alert is sent: both `send_alert` calls are commented out in the
  handler (main.py:301, 304).
- There is no summary over both categories. The code returns the response
  of the last pass (main.py:306-320). It reports both stored lists only when
  the Screens scan is non-empty; otherwise the Events scan is dropped
  (`EventsDroppedWhenScreensClean`).

## Model

| member | source | states |
|---|---|---|
| `Whitelist.SheetColumn` | main.py:115-118 | "Events" selects column 1 and "Screens" column 2 (both directions); every other string selects no column |
| `Whitelist.GetWhitelist` | main.py:102-125 | an unreachable sheet or an unknown category gives `[]`; otherwise the whitelist is column 1 for Events or column 2 for Screens |
| `Whitelist.NonEmptyWhitelistSource` | main.py:115-125 | a non-empty whitelist comes only from an opened sheet and a known category, and is that category's column |
| `QueryPlanner.Fragment` | main.py:180 | the fragment is `SELECT "`, then the name verbatim, then `" AS <element>, "<platform>" AS platform`; its length is the three inputs' lengths plus 29 characters |
| `QueryPlanner.FragmentDeterminesCell` | main.py:180 | as text, two fragments for one element are equal only if their names and platforms are; this holds even for names with quotes, which do not read back as themselves |
| `QueryPlanner.LiteralNameIsQuoted` | main.py:180 | for a name without `"`, `\` or a line break, the string literal opened before the name stays on one line, holds no quote or escape, and closes right after the name, so its value is the name |
| `QueryPlanner.QuoteClosesLiteralEarly` | main.py:180 | for a name whose first `"` is at index j with no `\` before it, the literal closes after name[..j]: the SQL value is that prefix, and the rest of the name becomes query text |
| `QueryPlanner.Join` | main.py:183 | `str.join`: no parts give `""`; otherwise the result starts with the first part, ends with the last, and is as long as the parts plus n−1 separators |
| `QueryPlanner.JoinIsInterleaving` | main.py:183 | for n ≥ 1 parts, `" UNION ALL ".join` equals the concatenation of 2n−1 pieces: the parts in order at even positions and the separator at every odd position, so n−1 separators |
| `QueryPlanner.CrossFragmentsAt` | main.py:178-180 | the cross product has 2·\|whitelist\| fragments; fragment 2i is name i on IOS and fragment 2i+1 is name i on ANDROID |
| `QueryPlanner.BuildQueryParts` | main.py:175-180 | the nested loop produces exactly 2·\|whitelist\| parts, part 2i for name i on IOS and part 2i+1 for name i on ANDROID, equal to the reference `CrossFragments` |
| `QueryPlanner.WhitelistQuery` | main.py:172-184 | query_b starts with `whitelist AS (` and ends with `)`; for n ≥ 1 parts its length is theirs plus n−1 separators plus 15; one part p gives `whitelist AS (` + p + `)` |
| `QueryPlanner.EventsBase` | main.py:139-152 | the Events query_a opens the WITH clause with `with base as(` and ends with `),` and a newline, so that query_b becomes the second table of the WITH list |
| `QueryPlanner.ScreensBase` | main.py:155-170 | the Screens query_a has the same opening and the same closing comma as the Events one |
| `QueryPlanner.BaseQuery` | main.py:138-170 | exactly `event_name` and `screen_name` select a base extraction (both directions), each its own text; any other element leaves query_a unassigned |
| `QueryPlanner.JoinQuery` | main.py:187-196 | query_c selects the whitelist name, the platform and the count in that order, the order in which rows are unpacked, and ends with `GROUP BY ALL` |
| `QueryPlanner.PlannedQuery` | main.py:138-199 | a query exists exactly for `event_name` and `screen_name`; it opens with the WITH clause and ends with the grouping |
| `QueryPlanner.QueryAssembly` | main.py:172-199 | the query is query_a, then `whitelist AS (`, the joined fragments, `)`, then query_c |
| `QueryPlanner.QueryLayout` | main.py:172-199 | for a known element and a non-empty whitelist, the whole query is query_a + `whitelist AS (` + 4n−1 alternating fragments and separators + `)` + query_c |
| `Results.UnpackRoundTrip` | main.py:216-232 | splitting rows into the three lists and zipping them back gives the same rows, and the other way round |
| `Results.UnpackRows` | main.py:216-232 | the three lists are as long as the rows; entry k of `events`, `platform` and `count` is field 0, 1 and 2 of row k |
| `Results.QueryResults` | main.py:128-239 | the empty dictionary comes back exactly when the whitelist is empty; when a dictionary with data comes back, its three lists are parallel |
| `Results.EmptyWhitelistRunsNoQuery` | main.py:131-134 | an empty whitelist yields `{}` whatever the warehouse would answer: no query is run |
| `Results.DataIsBackendRows` | main.py:199-235 | a dictionary comes from a non-empty whitelist, a known element, and the warehouse returning exactly its rows for the planned query |
| `Results.GetQueryResults` | main.py:128-239 | returns `{}` exactly for an empty whitelist; raises only for an unknown element or a raising warehouse; otherwise returns parallel lists; agrees with `QueryResults` |
| `Discrepancy.ZeroIndices` | main.py:288-289 | the zero-count indices strictly increase, and index i is listed exactly when count[i] == 0 |
| `Discrepancy.MissingSelectsZeros` | main.py:288-292 | the scan's j-th pair is (events[z], platform[z]) for the j-th zero index z, so the scan is a stable filter |
| `Discrepancy.MissingMembership` | main.py:288-292 | a pair is reported exactly when some index i holds it with count[i] == 0 |
| `Discrepancy.MissingAllZero` | main.py:288-292 | when every count is zero, every (events[i], platform[i]) is reported, in order |
| `Discrepancy.MissingNoneZero` | main.py:288-292 | when no count is zero, nothing is reported |
| `Discrepancy.FindMissing` | main.py:285-292 | the enumerate loop returns the stable filter: the pairs at the zero-count indices, in increasing index order |
| `Handler.Record` | main.py:295-318 | after a pass with data, a scan result is stored only under its own category and only when non-empty, the other list is kept, and the new response names the element: a report of both stored lists exactly when the scan is non-empty, otherwise "nothing missing" |
| `Handler.RunFrom` | main.py:271-329 | from any pass on, the code is 200, 404 or 500 and agrees with the status: success with 200, warning with 404, error with 500 |
| `Handler.HandleRequest` | main.py:265-329 | the handler loop over Events then Screens returns exactly `Run(env)`, including its early 404 and 500 returns |
| `Handler.CategoryPairing` | main.py:266-275 | category i reads sheet column i+1, and its element has a base extraction |
| `Handler.HandlerOutcome` | main.py:265-329 | case by case: Events raising gives 500, no Events data gives 404, then the same for Screens; otherwise it gives 200 with the Screens response: both scans when the Screens scan is non-empty, else only "nothing missing" for screen_name |
| `Handler.StatusMatchesCode` | main.py:276-329 | the code is 200, 404 or 500, and it matches the status: success with 200, warning with 404, error with 500 |
| `Handler.EmptyEventsWhitelist` | main.py:276-283 | an empty Events whitelist gives the event_name warning with 404, whatever the warehouse would answer |
| `Handler.EmptyScreensWhitelist` | main.py:271-283 | an empty Screens whitelist gives 404 even after the Events pass found data |
| `Handler.ErrorExactlyWhenAQueryRaises` | main.py:323-329 | the code is 500 exactly when a query raised in a pass that was reached |
| `Handler.EventsDroppedWhenScreensClean` | main.py:312-320 | when both passes have data and the Screens scan is empty, the response is "nothing missing" for screen_name with 200, whatever the Events scan found |
| `Handler.SuccessReportsLastPass` | main.py:295-320 | a 200 reports screen_name and comes after two passes with data; it reports missing names exactly when the Screens scan is non-empty, and then carries both scans |
| `JoinSemantics.ExpectedCellsAt` | main.py:178-180 | the expected cells are name-major with IOS first, and fragment k is the fragment text built for cell k |
| `JoinSemantics.ZeroCountIsUnmatched` | main.py:187-195 | in a join result, a row's count is zero exactly when no counted base row matches its cell |
| `JoinSemantics.DetectsUnmatchedCells` | main.py:187-195 | over a join result, the scan reports exactly the expected cells that no base row with a session id matches |
| `JoinSemantics.MissingIsDistinct` | main.py:187-195 | over a join result, no pair is reported twice |
| `JoinSemantics.DistinctNamesDistinctCells` | main.py:178-180 | distinct whitelist names give distinct expected cells |
| `JoinSemantics.JoinResultCardinality` | main.py:187-195 | a join result has one row per distinct expected cell; `GROUP BY ALL` merges duplicate names |
| `JoinSemantics.JoinResultSize` | main.py:187-195 | with distinct names, a join result has 2·\|whitelist\| rows |
| `JoinSemantics.AppOpenMissingOnAndroid` | main.py:187-195 | whitelist `["app_open"]` with one IOS occurrence: the report is exactly `[("app_open", "ANDROID")]`, in any row order |
| `JoinSemantics.HomeScreenRowsClean` | main.py:187-195 | a join result for `["home_screen"]` whose base rows count it on both platforms has no zero count |
| `JoinSemantics.HomeScreenSeenOnBothPlatforms` | main.py:265-320 | `home_screen` seen on both platforms, after an Events pass with data: the handler answers success, nothing missing, 200 |

## Left out

- Spreadsheet access: credentials, `gspread` and the URL (main.py:104-112) are I/O. They are reduced to `Sheet`: either unreachable or its first two columns.
- BigQuery client creation, `QueryJobConfig`, the `WRITE_TRUNCATE` destination table and the target-table variable (main.py:94-98, 201-212) are a remote service. Running a query is the `backend` function from query text to rows or an exception. The persisted snapshot is not modelled.
- The meaning of the SQL (`UNNEST`, the `screen_view`/`firebase_screen` filters, `GROUP BY ALL`) is not executed. `JoinSemantics` states only what the join and count request over abstract base rows. The row multiplication from `UNNEST(user_properties)` is assumed to be already present in those base rows.
- Names holding `"`, `\` or a line break: the fragment embeds them unescaped. The query then asks for something other than the literal (name, platform) rows, or, for a line break inside the quoted string, fails to parse. `JoinSemantics.JoinResult` requires `LiteralNames`, so the join lemmas promise nothing for such whitelists. `QuoteClosesLiteralEarly` shows where the literal ends for an unescaped quote.
- QuoteClosesLiteralEarly: a backslash before the first quote escapes it, and the literal's end then depends on the dialect's escape rules, which are not modelled; the lemma covers only names with no backslash before that quote.
- The SQL has no `ORDER BY`, so the rows may come in any order. `JoinSemantics.JoinResult` accepts any order.
- `os.getenv('BIGQUERY_SOURCE')` is a string parameter. The value `None`, which Python would format as "None", is not distinguished.
- `send_alert` (main.py:245-257) is a chat network call. The handler never calls it (both calls are commented out).
- Logging, `print(len(event))`, `load_dotenv` and Flask `jsonify` are not modelled. A response is its status, its code, the element it names, and the two missing lists where the source reports them. The human-readable message strings are not reproduced.
- Python's dynamic typing is not modelled. Rows have a string name, a string platform and an integer count, and the zero test is integer equality.
- Exception types are not distinguished. Everything that `get_query_results` raises reaches the handler's catch-all: a warehouse error re-raised at main.py:237-239, or the unassigned `query_a` for an unknown element. All of it is `Raised`, mapped to 500.
