# Case review list: a Dafny model

Two near-duplicate batch scripts build a law firm's case review list:

- `CaseReview_ListGenerationApp.py` (list generation);
- `CaseReview_NotesUploadApp.py` (notes upload).

Each script pulls open matters, outstanding client balances and billable
matters from the practice-management API. It reconciles them into one row
per matter, computes each matter's Net Trust Account Balance, sorts the rows
by it and colours each Net Trust cell red, yellow or green. The
list-generation script also adds billing-cycle hours, translates picklist ids
through the custom-field definitions, and splits the table into one file per
responsible attorney.

This project models that logic as pure functions over immutable datatypes and
proves what it promises. The network, the clock and the token endpoint become
inputs:

- a scripted sequence of pages for pagination;
- a scripted server function for the retry loop;
- a clock reading and a token reply for the token cache.

Modules, one per file:

- `Wrappers`: `Option` and `Result`.
- `PyValues`: the Python value semantics the scripts rely on: JSON values with
  an `Absent` key, truthiness, `or`, `str()`, `int()`, `float()` on decimal
  text, and `str.strip()`.
- `Collections`: the "dict filled by a loop, later keys overwrite" idiom
  (`Collect`) and list comprehensions with a filter (`Filter`).
- `Tokens`: `_save_tokens_env`, `_refresh_clio_token` and `_get_clio_token`.
- `Retry`: `_sleep_with_floor` and the `_request` retry state machine,
  including the 429 wait (with a `Retry in N` scan) and the capped
  exponential backoff.
- `Pagination`: `paginate`.
- `CustomFields`:
  - `fetch_custom_fields_meta` (the option table);
  - `_resolve_cf_value` (list generation);
  - `extract_cf_map` (notes upload);
  - the two name-to-text maps built from them.
- `Hours`: `fetch_cycle_hours`.
- `Join`: the pandas left merge, one output row per matching pair.
- `Sorting`: the stable descending sort (`kind="mergesort"`).
- `Report`: `build_report_dataframe` for both scripts. It covers:
  - the trust sum;
  - the two merges and the zero fill;
  - Net Trust;
  - the output columns;
  - the cycle-hours column;
  - the sort.
- `Tiers`: the traffic-light fill in `write_excel`.
- `Splitter`: `_clean_attorney` and the partition logic of
  `split_and_upload_by_attorney`.

Money and hours are `real`. Integers are unbounded, as Python's are.

## Model

| member | source | states |
|---|---|---|
| Tokens.ExpiresAt | CaseReview_NotesUploadApp.py:87-91 | The expiry is `now` when `expires_in` is missing, `now + float(expires_in)` when it reads as a number, and `now + 3000` when `float()` rejects it. |
| Tokens.SaveTokens | CaseReview_NotesUploadApp.py:75-93 | A reply without `access_token` keeps the cached token. The refresh token changes only to a non-empty one the reply supplies. Client credentials never change, so complete credentials stay complete. |
| Tokens.Refresh | CaseReview_NotesUploadApp.py:95-109 | Fails with missing credentials iff the client id, secret or refresh token is empty; this is decided before the reply is looked at. A non-200 reply fails with its status. Otherwise the reply is saved. |
| Tokens.GetToken | CaseReview_NotesUploadApp.py:111-116 | Refreshes iff the cached token is empty or `now >= expires_at`; otherwise returns the cache unchanged. |
| Tokens.RefreshedTokenIsCached | CaseReview_NotesUploadApp.py:87-116 | A refreshed non-empty token with a positive lifetime is served from the cache, without asking the endpoint, until the lifetime has passed. From then on it is refreshed again. |
| Tokens.CredentialsSurviveRefreshes | CaseReview_NotesUploadApp.py:83-98 | Starting with complete credentials, no chain of refreshes fails for missing credentials; only a non-200 reply can stop it. |
| Retry.SleepWithFloor | CaseReview_NotesUploadApp.py:125-130 | The wait is at least 0, at least `floor - elapsed` and at least `retry_after`, and it equals one of the three (their maximum). |
| Retry.DigitRun | CaseReview_NotesUploadApp.py:157 | The greedy `\d+` takes the longest digit prefix, and stops at the first non-digit. |
| Retry.ScanRetryIn | CaseReview_NotesUploadApp.py:157 | The scan finds a match iff `Retry in ` followed by a digit occurs at or after the start position, and it returns the number at the first such occurrence. |
| Retry.FindRetryIn | CaseReview_NotesUploadApp.py:157-158 | `re.search(r"Retry in (\d+)", msg)` matches iff the pattern occurs in the message; its group is read at the first occurrence. |
| Retry.RateLimitWait | CaseReview_NotesUploadApp.py:149-160 | On 429 the wait is the integer `Retry-After` when that header is present and parses. It is 30 when the header is present but does not parse. Without the header it is N from a `Retry in N` in the error message, else 30. |
| Retry.RetryInMessageRead | CaseReview_NotesUploadApp.py:155-158 | A message starting with `Retry in N`, followed by a non-digit or nothing, yields exactly N. |
| Retry.DigitRunStops | CaseReview_NotesUploadApp.py:157 | The digit run of digits followed by a non-digit is exactly those digits. |
| Retry.RetryAfterFiveWaitsFive | CaseReview_NotesUploadApp.py:149-162 | Example: a 429 with `Retry-After: 5` waits 5, and the sleep after it is at least 5 seconds whatever the floor. |
| Retry.SeparatorPaddedRetryAfter | CaseReview_NotesUploadApp.py:151-153 | A `Retry-After` with a separator (28 to 31) at either end makes `int()` raise, so the wait is the default 30. |
| Retry.GroupedRetryAfter | CaseReview_NotesUploadApp.py:151-153 | A `Retry-After` of two digit runs joined by an underscore (`1_0`) waits the number the digits spell (10), since `int()` reads digit groups. |
| Retry.Classify | CaseReview_NotesUploadApp.py:141-173 | Statuses fall into four exclusive classes: 401, 429, 5xx and everything else. |
| Retry.BackoffSchedule | CaseReview_NotesUploadApp.py:135-169 | Successive server-error backoffs are 1, 2, 4, 8, 16, 32, then 60 for ever. Every backoff lies between 1 and 60. |
| Retry.Attempt | CaseReview_NotesUploadApp.py:136-173 | One attempt sends the current header and reads the server's answer. Only 401, 429 and 5xx continue, and only a 401 changes the credentials. A returned response is the attempt's own and is not retryable. An error arises only from the refresh after a 401. As written, the header never changes. |
| Retry.Waits | CaseReview_NotesUploadApp.py:145-172 | There is one wait per attempt. |
| Retry.WaitsAt | CaseReview_NotesUploadApp.py:135-172 | Wait j is the floor computation with the `retry_after` of attempt j. A server error uses the backoff of the number of server errors before it. |
| Retry.RunLength | CaseReview_NotesUploadApp.py:136 | The loop makes at most the tries left, and none iff none is left. |
| Retry.Run | CaseReview_NotesUploadApp.py:136-174 | With a try left, the first attempt sends the header the run holds and is the server's answer at that try. |
| Retry.AnsweredAt | CaseReview_NotesUploadApp.py:137-138 | Attempt j of a run is the server's answer at try i + j. |
| Retry.RunAnswered | CaseReview_NotesUploadApp.py:136-138 | Every attempt of a run is the server's answer, at its try, to the header it sent. |
| Retry.RetriedAt | CaseReview_NotesUploadApp.py:141-173 | Every attempt before the last got 401, 429 or 5xx. |
| Retry.RunRetriedBeforeLast | CaseReview_NotesUploadApp.py:141-173 | Only the last attempt of a run can have a non-retryable status. |
| Retry.RunResult | CaseReview_NotesUploadApp.py:136-174 | With no try left, the previous response is returned, or nothing when there is none. Otherwise the result is the last attempt's response, or the error of the refresh after that attempt's 401. |
| Retry.RunExhausted | CaseReview_NotesUploadApp.py:174 | A retryable response is returned only after every try has been used. |
| Retry.AllSendAt | CaseReview_NotesUploadApp.py:118-120 | As written, every attempt sends the same header. |
| Retry.FollowsCacheAt | CaseReview_NotesUploadApp.py:141-146 | In the corrected loop, each attempt sends the token cached after the previous one. |
| Retry.RunBearers | CaseReview_NotesUploadApp.py:118-146 | The first attempt sends the initial header. As written, so does every later one. With the header following the refresh, each later attempt sends the token cached after the one before. |
| Retry.RequestRuns | CaseReview_NotesUploadApp.py:132-136 | With a token in hand, `_request` is the loop run from attempt 0 with that token in the header. |
| Retry.Request | CaseReview_NotesUploadApp.py:118-133 | If getting the token fails, `_request` raises before sending anything. |
| Retry.RequestAttempts | CaseReview_NotesUploadApp.py:132-174 | `_request` makes at most `max_tries` attempts. Each attempt is the server's answer to the header it sent. Every attempt but the last was retryable. |
| Retry.RequestResult | CaseReview_NotesUploadApp.py:132-174 | A returned response is the last attempt's. A retryable one is returned only after exactly `max_tries` attempts. `max_tries = 0` is the only way to end with no response at all. Any other error follows a 401. |
| Retry.RequestReturnsFirstFinal | CaseReview_NotesUploadApp.py:172-173 | The first response that is not 401, 429 or 5xx ends `_request` and is returned. |
| Retry.RequestWaits | CaseReview_NotesUploadApp.py:125-170 | Every wait is at least 0 and at least the floor less the elapsed time. After a 401 it is at least 1. After a 429 it is at least the rate-limit wait. After the n-th server error it is at least the n-th backoff, which is at most 60. |
| Retry.RequestBearers | CaseReview_NotesUploadApp.py:118-146 | As written, every attempt of `_request` sends the token obtained before the loop. With the header following the refresh, each later attempt sends the newly cached token. |
| Retry.StaleHeaderNeverRecovers | CaseReview_NotesUploadApp.py:133-146 | As written: when the server rejects the header's token on every attempt and every refresh succeeds, every remaining try sends that same token and the last 401 is returned. |
| Retry.StaleHeaderRequest | CaseReview_NotesUploadApp.py:132-146 | As written, at the level of `_request`, a fresh cached token that the server rejects is sent `max_tries` times and the last 401 is returned. |
| Retry.RefreshedHeaderRecovers | CaseReview_NotesUploadApp.py:141-146 | With the header following the refresh, a 401 followed by a successful refresh makes the second attempt send the renewed token, and its response is returned. |
| Retry.StaleHeaderExample | CaseReview_NotesUploadApp.py:132-174 | Concrete case, as written. The server rejects "stale" and accepts anything else, and the endpoint issues "renewed". All seven attempts are made and the request returns a 401. |
| Retry.RefreshedHeaderExample | CaseReview_NotesUploadApp.py:132-174 | The same concrete case with the header following the refresh: two attempts, and the request returns 200. |
| Pagination.WithDefaults | CaseReview_NotesUploadApp.py:180-182 | Every caller parameter is kept. `limit` defaults to 200 and `order` to `id(asc)`, and no other key is added. |
| Pagination.Records | CaseReview_NotesUploadApp.py:197-198 | The kept rows number at most the listed rows. |
| Pagination.RecordsKeep | CaseReview_NotesUploadApp.py:198 | A row is kept iff it is an object of the list. |
| Pagination.RecordsAppend | CaseReview_NotesUploadApp.py:198 | The kept rows keep list order. |
| Pagination.FirstStop | CaseReview_NotesUploadApp.py:191-212 | The first page from i on that ends the loop (a request that raises, a non-200, or a 200 without `next`) exists, and no page before it ends the loop. |
| Pagination.Paginate | CaseReview_NotesUploadApp.py:184-189 | The first request goes to `url` with the defaulted parameters. |
| Pagination.Loop | CaseReview_NotesUploadApp.py:188-214 | The loop's first request goes to the URL and parameters it holds, and rows it returns always extend the rows gathered before it. |
| Pagination.LoopRequests | CaseReview_NotesUploadApp.py:188-206 | With k the first page that ends the loop, the loop sends k - i + 1 requests. Each request after the first goes to the previous page's `next` link and carries no parameters. |
| Pagination.LoopResult | CaseReview_NotesUploadApp.py:188-214 | The loop's result is the outcome at the first page that ends it. |
| Pagination.LoopStops | CaseReview_NotesUploadApp.py:191-212 | A stopping page decides the outcome on its own: a request that raises is an error and loses the rows so far; a non-200 keeps them; a 200 without `next` adds its rows, or the length test raises. |
| Pagination.LoopContinues | CaseReview_NotesUploadApp.py:197-206 | A 200 page with a `next` link adds its rows and hands on to the next page. |
| Pagination.PaginateOutcome | CaseReview_NotesUploadApp.py:179-214 | Over the whole of `paginate`, k + 1 requests are sent (the first with the defaults, the later ones to `next` links with no parameters). A request that raises, in `_request` or in `resp.json()`, ends it with that error and none of the rows. A non-200 page ends the loop with the rows of the earlier pages. A 200 page without `next` ends it with its own rows added, unless `len(rows) < limit` raises. |
| Pagination.RowsBetweenFrom | CaseReview_NotesUploadApp.py:197-198 | Every returned row was an object listed by some page before the end; non-object rows never appear. |
| CustomFields.OptionTableLookup | CaseReview_ListGenerationApp.py:229-234 | The option table holds `key` iff some option with a non-None id has `str(id) == key`, and it maps the key to the text of the last such option. |
| CustomFields.OptionTable | CaseReview_ListGenerationApp.py:229-234 | The option table's keys are exactly `str(id)` of the options whose id is not None. |
| CustomFields.OptionTableIntKey | CaseReview_ListGenerationApp.py:233-234 | When every option id is an integer or None and the key `str(m)` is present, it holds the text of the last option whose id is the integer `m`: no other integer id lands on that key. |
| CustomFields.MetaByNameLookup | CaseReview_ListGenerationApp.py:224-235 | A definition is found by name iff some definition has that non-empty name, and the last of them wins. |
| CustomFields.MetaByName | CaseReview_ListGenerationApp.py:224-235 | The definitions are keyed by exactly the non-empty names that some definition carries. |
| CustomFields.Resolve | CaseReview_ListGenerationApp.py:339-358 | For a picklist field: a truthy option text wins. Otherwise a non-None value whose `str()` is an option key gives that option's text, or "" when the text is falsy. Otherwise the result is `str(value or "")`. Every other field type gives `str(value or "")`. |
| CustomFields.ResolveIgnoresMeta | CaseReview_ListGenerationApp.py:346-358 | Only a picklist field without option text consults the definitions; every other entry resolves the same under any definitions. |
| CustomFields.Extract | CaseReview_NotesUploadApp.py:395-398 | A truthy value wins as is. Otherwise the `option` of an object `picklist_option` is used if truthy. Otherwise the result is "". |
| CustomFields.ResolversAgree | CaseReview_ListGenerationApp.py:358 | The two scripts agree on a non-picklist field with a non-empty text value, and on a non-picklist field where both value and option are falsy. |
| CustomFields.ResolversDisagree | CaseReview_ListGenerationApp.py:346-350 | Example: for a picklist field carrying both option id 17 and option text "Lee, Ana", list generation shows the text and notes upload shows "17". |
| CustomFields.ResolvedMapLastWins | CaseReview_ListGenerationApp.py:383-390 | A field name is a key of the list-generation `cf_map` iff some object entry names it, and its text is the resolution of the last such entry. |
| CustomFields.ResolvedMap | CaseReview_ListGenerationApp.py:383-390 | The list-generation `cf_map` is keyed by exactly the field names that some object entry carries. |
| CustomFields.ExtractedMapLastWins | CaseReview_NotesUploadApp.py:387-399 | The same for `extract_cf_map`. |
| CustomFields.ExtractedMap | CaseReview_NotesUploadApp.py:387-399 | `extract_cf_map` is keyed by the same names. |
| CustomFields.MapsSameKeys | CaseReview_NotesUploadApp.py:389-394 | Both scripts' maps have the same keys. |
| Collections.CollectLastWins | CaseReview_ListGenerationApp.py:383-390 | A key is in a loop-filled dict iff some element assigns it, and it holds the value of the last element that does. |
| Collections.CollectKeys | CaseReview_ListGenerationApp.py:383-390 | A key is in the dict iff some element assigns it. |
| Collections.CollectLast | CaseReview_ListGenerationApp.py:390 | A key in the dict holds the value of the last element that assigns it. |
| Collections.FilterAppend | CaseReview_ListGenerationApp.py:568 | Filtering distributes over concatenation, so a filter keeps order. |
| Collections.FilterSound | CaseReview_ListGenerationApp.py:568 | Everything a filter keeps is an element that satisfies the condition. |
| Collections.FilterKeeps | CaseReview_ListGenerationApp.py:568 | Every element satisfying the condition is kept. |
| Hours.HoursOf | CaseReview_ListGenerationApp.py:285-289 | A falsy quantity gives 0. A quantity that `float()` reads gives that value / 3600. Anything else gives 0. |
| Hours.HoursForSnoc | CaseReview_ListGenerationApp.py:290 | Appending an activity adds its contribution to its own matter only. |
| Hours.CycleTotalsKeys | CaseReview_ListGenerationApp.py:278-290 | A display number is a key of the totals iff some `TimeEntry` with that non-empty display number was listed, even one contributing 0 hours. |
| Hours.CycleTotals | CaseReview_ListGenerationApp.py:276-290 | No empty display number becomes a key: time entries without one are skipped. |
| Hours.CycleTotalsSum | CaseReview_ListGenerationApp.py:276-291 | `cycle_hours.get(dn, 0.0)` is the front-to-back sum of `rounded_quantity / 3600` over the time entries of matter `dn`, and 0 for a matter with none. |
| Hours.AbsentMatterHasNoHours | CaseReview_ListGenerationApp.py:454 | A matter without a counted time entry gets 0 hours. |
| Hours.HoursNonNegative | CaseReview_ListGenerationApp.py:285-290 | Non-negative quantities give non-negative totals. |
| Join.Matches | CaseReview_ListGenerationApp.py:439-440 | The right rows matching a key all carry that key, and there are none iff no right row has it. |
| Join.MatchesComplete | CaseReview_ListGenerationApp.py:439-440 | Every right row with the key is among the matches. |
| Join.MatchesIn | CaseReview_ListGenerationApp.py:439-440 | Every match is a right row. |
| Join.Expand | CaseReview_ListGenerationApp.py:439-440 | A left row is output once unmatched when there is no match, and otherwise once per match, in right-table order. |
| Join.LeftJoin | CaseReview_ListGenerationApp.py:439-440 | A left merge outputs at least one row per left row. |
| Join.JoinRowsMatch | CaseReview_ListGenerationApp.py:437-441 | Every merged row pairs a left row with nothing, when no right row shares its key, or with a right row that does. |
| Join.JoinRowOrigin | CaseReview_ListGenerationApp.py:437-441 | Every merged row starts with one of the left rows. |
| Join.JoinRowSource | CaseReview_ListGenerationApp.py:437-441 | A matched right row is one of the right table's rows. |
| Join.JoinKeepsLeft | CaseReview_ListGenerationApp.py:437-441 | No left row is dropped. It appears unmatched when it has no match, and once with each match otherwise. |
| Join.UniqueMatches | CaseReview_ListGenerationApp.py:439-440 | With unique right keys, a key has at most one match. |
| Join.UniqueJoin | CaseReview_ListGenerationApp.py:437-441 | With unique right keys the merge yields exactly one row per left row, in order, each paired with the row of its key if there is one. |
| Report.BalanceOf | CaseReview_ListGenerationApp.py:378-381 | A non-object entry adds 0, as `(b or {})` does. A falsy balance adds 0. A balance that `float()` reads adds its value. One that raises adds nothing. |
| Report.TrustBalance | CaseReview_ListGenerationApp.py:376-381 | The loop computes the in-order sum of the entries' balances. |
| Report.TrustSum | CaseReview_ListGenerationApp.py:376-381 | Entries that cannot be read add nothing, so a matter with only such entries has trust 0. Non-negative balances give a non-negative trust. |
| Report.TrustSumAppend | CaseReview_ListGenerationApp.py:377-379 | The trust sum over concatenated entry lists is the sum of the two sums. |
| Report.TrustSumOfReadable | CaseReview_ListGenerationApp.py:378-381 | Skipping an entry whose conversion raises is the same as leaving it out: the sum equals the sum over the readable entries. |
| Report.Coerce | CaseReview_ListGenerationApp.py:444-446 | A value the numeric parser reads is kept, and anything else becomes 0.0. Text with an underscore becomes 0.0, since pandas, unlike `float()`, takes no digit groups. |
| Report.OutstandingOf | CaseReview_ListGenerationApp.py:407-446 | An unmatched row gets 0.0. A matched one gets `total_outstanding_balance or 0`, coerced. |
| Report.UnbilledOf | CaseReview_ListGenerationApp.py:416-446 | An unmatched row gets 0.0. A matched one gets `unbilled_amount or 0`, coerced. |
| Report.NoMatterDropped | CaseReview_ListGenerationApp.py:436-441 | Every matter survives both left merges: it is the matter of some combined row. |
| Report.CombinedRowSources | CaseReview_ListGenerationApp.py:374-446 | Every combined row carries its matter's trust sum. Its outstanding amount is 0 when no balance record has its Client ID, and otherwise that of a record that does. Likewise its unbilled amount by Matter ID. |
| Report.CombineAll | CaseReview_ListGenerationApp.py:437-446 | The two merges lose no matter (at least one row per matter), and each row's trust is its own matter's balance sum. |
| Report.UniqueReconcile | CaseReview_ListGenerationApp.py:436-446 | With unique Client IDs and unique Matter IDs on the right, the combined table has exactly one row per matter, in order, carrying that matter's trust sum and its own outstanding and unbilled amounts. |
| Report.UnmatchedNetIsTrust | CaseReview_ListGenerationApp.py:443-451 | A matter with no balance record and no billable record gets Net Trust equal to its trust balance. |
| Report.MatterNumber | CaseReview_ListGenerationApp.py:392 | The Matter Number is `display_number` when set, else `number` when truthy, kept as whatever JSON value it is (an integer included), else "". |
| Report.HoursAt | CaseReview_ListGenerationApp.py:454 | `cycle_hours.get(dn, 0.0)` finds the total of a text Matter Number, and gives 0 for one that is not text or has no total. |
| Report.RowNet | CaseReview_ListGenerationApp.py:448-464 | Every row's Net Trust is its matter's trust sum less its merged outstanding and unbilled amounts. |
| Report.RowHours | CaseReview_ListGenerationApp.py:453-466 | A list-generation row with a text Matter Number gets the sum of `rounded_quantity / 3600` over the cycle's time entries on that number. A row whose Matter Number is not text gets 0. |
| Report.IntegerNumberGetsNoHours | CaseReview_ListGenerationApp.py:392-454 | A matter with no display number and a non-zero integer `number` shows that integer as its Matter Number and gets 0 cycle hours, whatever time was recorded. |
| Report.RowField | CaseReview_ListGenerationApp.py:459-487 | Each custom column holds the resolution of the last entry naming that column, or "" when none does. |
| Report.RowFieldExtracted | CaseReview_NotesUploadApp.py:401-432 | The same for notes upload, with `extract_cf_map`'s text. |
| Report.ReportOrder | CaseReview_ListGenerationApp.py:493 | The report is a permutation of the built rows with Net Trust never increasing. Rows with equal Net Trust keep their built order, as in a stable sort. |
| Report.BuildReport | CaseReview_ListGenerationApp.py:360-494 | The report has at least one row per open matter and is a permutation of the built rows. |
| Sorting.DescendingAt | CaseReview_ListGenerationApp.py:493 | In a descending table, every later key is at most every earlier one. |
| Sorting.Insert | CaseReview_ListGenerationApp.py:493 | Inserting adds exactly the one row: the result is a permutation of the rows plus it. |
| Sorting.InsertDescending | CaseReview_ListGenerationApp.py:493 | Inserting into a descending table keeps it descending. |
| Sorting.Sort | CaseReview_ListGenerationApp.py:493 | The sort is a permutation of its input. |
| Sorting.SortDescending | CaseReview_ListGenerationApp.py:493 | The sorted keys never increase. |
| Sorting.InsertStableSame | CaseReview_ListGenerationApp.py:493 | An inserted row goes ahead of the rows with its own key. |
| Sorting.InsertStableOther | CaseReview_ListGenerationApp.py:493 | Inserting leaves the order of every other key's rows alone. |
| Sorting.SortStable | CaseReview_ListGenerationApp.py:493 | The rows of any one key come out in input order. |
| Sorting.SortSorted | CaseReview_ListGenerationApp.py:493 | Sorting an already descending table changes nothing. |
| Tiers.TierOf | CaseReview_ListGenerationApp.py:525-532 | Red iff value <= 0, yellow iff 0 < value < 1000, green iff value >= 1000: the bands are exclusive and cover every value. |
| Tiers.TierMonotone | CaseReview_ListGenerationApp.py:527-532 | A larger balance never gets a worse colour. |
| Tiers.Fills | CaseReview_ListGenerationApp.py:521-532 | Each row's fill is the tier of its Net Trust. |
| Tiers.ReportColourBands | CaseReview_ListGenerationApp.py:493-532 | In the sorted report the colours come in bands: green rows, then yellow, then red. |
| Splitter.CleanRows | CaseReview_ListGenerationApp.py:564-565 | Cleaning strips each row's Responsible Attorney and changes nothing else. |
| Splitter.PartitionMembers | CaseReview_ListGenerationApp.py:565-568 | A row is in an attorney's partition iff its stripped Responsible Attorney equals that attorney's name exactly. |
| Splitter.SplitFileShape | CaseReview_ListGenerationApp.py:567-580 | Every file comes from a folder-map entry, holds that attorney's partition, which is non-empty, and carries the derived file name and path. |
| Splitter.SplitCovers | CaseReview_ListGenerationApp.py:567-572 | A folder-map attorney with at least one row gets a file. |
| Splitter.SplitOver | CaseReview_ListGenerationApp.py:567-580 | At most one file per folder-map entry, and none of them empty. |
| Splitter.Split | CaseReview_ListGenerationApp.py:558-580 | No file is empty. |
| Splitter.UnmappedRowsNotSplit | CaseReview_ListGenerationApp.py:567-568 | A row whose stripped attorney is not a key of the folder map lands in no file. |
| Splitter.PaddedNameStillMatches | CaseReview_ListGenerationApp.py:555-568 | Whitespace around a mapped name does not keep a row out of its attorney's partition. |
| Splitter.StubIsSafe | CaseReview_ListGenerationApp.py:579 | The path stub has no comma and no space and is no longer than the name. |
| Splitter.DropCommasDrops | CaseReview_ListGenerationApp.py:579 | `replace(",", "")` leaves no comma and keeps every other character in order. |
| Splitter.UnderscoresReplace | CaseReview_ListGenerationApp.py:579 | `replace(" ", "_")` changes exactly the spaces. |
| Splitter.StubOfName | CaseReview_ListGenerationApp.py:579 | The stub of a "Last, First" name (with no comma or space inside either part) is "Last_First". |
| Splitter.CommasOfName | CaseReview_ListGenerationApp.py:579 | Dropping commas turns "Last, First" into "Last First". |
| Splitter.SpacesOfName | CaseReview_ListGenerationApp.py:579 | Replacing spaces turns "Last First" into "Last_First". |
| PyValues.TrimStart | CaseReview_ListGenerationApp.py:556 | Cutting leading whitespace (the ASCII characters `isspace()` accepts: code points 9 to 13 and 28 to 32) yields a suffix of the input with only whitespace removed, and the result does not start with whitespace. |
| PyValues.TrimEnd | CaseReview_ListGenerationApp.py:556 | Cutting trailing whitespace yields a prefix of the input with only whitespace removed, and the result does not end with whitespace. |
| PyValues.Strip | CaseReview_ListGenerationApp.py:556 | `strip()` yields a slice with only whitespace removed on both sides, and the result neither starts nor ends with whitespace. |
| PyValues.StripUnpadded | CaseReview_ListGenerationApp.py:556 | A string that neither starts nor ends with whitespace is its own strip. |
| PyValues.StripPadded | CaseReview_ListGenerationApp.py:556 | Stripping whitespace padding off a non-empty unpadded string gives back exactly that string. |
| PyValues.NatToString | CaseReview_ListGenerationApp.py:234 | `str(n)` of a natural number is a digit string with no leading zero that spells `n`. |
| PyValues.ParseIntRoundTrip | CaseReview_NotesUploadApp.py:152-158 | `int(str(i)) == i` for every integer. |
| PyValues.ParseNatString | CaseReview_NotesUploadApp.py:158 | `int()` of a natural number's digits is that number. |
| PyValues.IntToStringInjective | CaseReview_ListGenerationApp.py:234 | Distinct integers have distinct `str()` forms. |
| PyValues.ParseDecimalExtendsParseInt | CaseReview_ListGenerationApp.py:379 | `float(s)` accepts every string that `int(s)` accepts, with the same value. |
| PyValues.UnsignedDecimalOfDigits | CaseReview_ListGenerationApp.py:379 | A run of digits, plain or grouped by underscores, reads as a float with the value it has as an integer. |
| PyValues.UnderscoreBetweenDigits | CaseReview_NotesUploadApp.py:152 | `int()` reads `a_b` as it reads `ab` for digit runs `a` and `b`, and gives the number `ab` spells. |
| PyValues.NumStrip | CaseReview_NotesUploadApp.py:152 | The text `int()` and `float()` read is a slice of the input with only number whitespace (9 to 13 and 32) cut from either end, and it neither starts nor ends with such whitespace. |
| PyValues.NumStripUnpadded | CaseReview_NotesUploadApp.py:152 | Text with no number whitespace at either end is read as it is. |
| PyValues.NumStripKeepsEnds | CaseReview_NotesUploadApp.py:152 | An end character that is not number whitespace is still an end of what `int()` and `float()` read. |
| PyValues.StrayCharRejected | CaseReview_ListGenerationApp.py:379 | Once the whitespace is cut, text holding any character other than a digit, `_`, `.`, `+` or `-` is rejected by both `int()` and `float()`. |
| PyValues.SeparatorPaddingRejected | CaseReview_NotesUploadApp.py:151-153 | A number padded with a file, group, record or unit separator (28 to 31) on either side is rejected by `int()` and `float()`, though `str.strip()` would cut that padding. So a `Retry-After` of that form waits 30 s. |
| PyValues.ParseGrouped | CaseReview_NotesUploadApp.py:152 | `int()` of grouped digits with no surrounding whitespace is the number of the digits with the underscores dropped. |
| PyValues.JoinedGroups | CaseReview_NotesUploadApp.py:152 | Two digit runs joined by one underscore form a valid digit group that spells the two runs side by side. |
| PyValues.PlainDigits | CaseReview_NotesUploadApp.py:158 | A non-empty run of plain digits is a valid digit group and keeps every character when underscores are dropped. |

## Left out

- HTTP, SharePoint and Graph are left out: `ensure_folder`, `upload_file`,
  msal, `requests.Session`, and the printing and `/tmp` files. They are I/O
  against services outside the scripts. Responses and pages are inputs
  instead.
- Environment persistence (`os.environ`) and the real clock (`time.time`,
  `time.sleep`, `datetime.now`) are left out. Time is a parameter. The sleep
  is modelled as the wait it would take.
- The workbook is left out: openpyxl output, currency format and table
  styling. Only the fill choice is modelled.
- The output table's full column order is left out. Rows carry the fixed
  columns, then the custom columns in `OUTPUT_FIELDS` order. The
  `Unbilled Hours` column is merged by the scripts but never reaches the
  output, so it is not modelled.
- Floating point is left out. Money and hours are `real`, so there is no
  rounding. A float read from JSON carries its printed form for `str()`.
- `float()` on text is left out except for plain decimal notation with an
  optional sign. Digit groups split by single underscores (`1_000.5`) are
  accepted, as Python accepts them. Exponents, `inf` and `nan` are not.
  `int()` and `\d` accept ASCII digits only, not other Unicode digits.
- Report.Coerce: pandas' `to_numeric` also reads exponents, `inf` and `nan`,
  which the model coerces to 0.0, as it does for `float()`.
- `int()` and `float()` cut only CPython's ASCII number whitespace around a
  number: code points 9 to 13 and 32 (`PyValues.IsNumSpace`). The
  separators 28 to 31 are not cut, so a number padded with them is rejected.
- PyValues.NumStrip: `int()` and `float()` also accept padding of non-ASCII
  whitespace (`int("\xa05") == 5`), because CPython turns it into spaces
  first. The model keeps that padding and so rejects such text.
- `str.strip()` is modelled on the ASCII characters `str.isspace()` accepts:
  code points 9 to 13 and 28 to 32. The non-ASCII whitespace it also
  removes (U+0085, U+00A0, U+2000 to U+200A and others) is left out.
- PyValues.TrimStart: `lstrip()` also cuts leading non-ASCII whitespace, which the model keeps.
- PyValues.TrimEnd: `rstrip()` also cuts trailing non-ASCII whitespace, which the model keeps.
- PyValues.Strip: `strip()` also cuts non-ASCII whitespace at either end, which the model keeps.
- PyValues.StripUnpadded: a string starting or ending with non-ASCII whitespace counts as unpadded here, though `strip()` would shorten it.
- Report.MatterNumber: `display_number` is modelled as text, which is what the API gives.
- Report.HoursAt: a `number` that is a list or an object makes `cycle_hours.get` raise (the key is unhashable); the model gives 0 hours instead.
- The fetcher field-selection strings are left out.
- The `cycle_iso` window is left out. The activities are given already
  filtered to the cycle.
- `Pagination.Paginate`: requires a page script that ends the loop. The
  source loops for ever on a server that always links a next page, and that
  divergence is not modelled.
- `Pagination.Paginate`: the `len(rows) < limit` test only decides whether
  the result or `TypeError` is produced. Both of its branches stop the loop.
- `Report.CombineAll`: models pandas `merge` on `Option<int>` ids, where a
  missing id matches a missing id as pandas matches NaN keys. Dtype
  coercion of mixed id types is not modelled.
- `Report.CombineAll`: the defensive-columns block (lines 427-434) is left
  out. It only matters when a fetch returns no rows at all, which the
  sequence model covers directly.
- Splitter: the `"Responsible Attorney" not in df.columns` early return is
  left out. The column always exists in the built report.
- `Retry.Request`: the header is modelled as set once per call, and the
  floor (`CLIO_GLOBAL_MIN_SLEEP_SEC`) as a parameter of the environment.
- `Tokens.Refresh`: the token endpoint is one scripted reply per refresh.
  A reply body that is not a JSON object (`resp.json()` raising) is not
  modelled.
- `CustomFields.Resolve`: requires an object entry. The scripts skip
  non-object entries before resolving, and `ResolvedMap` models that skip.
- CustomFields.Resolve: a `picklist_option` that is truthy but not an
  object (a string, say) makes `_resolve_cf_value` raise `AttributeError`
  at `.get("option")`, which aborts the whole report. The model reads such
  a value as `NoObject` and resolves on. `extract_cf_map` checks for an
  object and ignores anything else, which is what `CustomFields.Extract`
  does.
- Nested records are modelled as objects or falsy values. The scripts read
  them as `(x or {}).get(...)` outside any `try`, so a truthy non-object
  raises `AttributeError` and aborts the run. This covers the matter's
  `client`, `matter_stage` and `responsible_attorney`, the outstanding
  balance's `contact`, the billable matter's `client`, an activity's
  `matter`, and each of a field definition's `picklist_options`. The client
  name, stage name and attorney name are modelled as text, so the
  `.strip()` in `_clean_attorney` cannot raise on a non-text name either.

## Findings

| source | as written | input that shows it | evidently intended | confidence | as-written member | corrected member |
|---|---|---|---|---|---|---|
| CaseReview_NotesUploadApp.py:133-146 | On 401 the loop refreshes the token, but the `Authorization` header was set once before the loop by `_ensure_auth_header` and is never set again. Every retry therefore sends the rejected token. | A cached token "stale" inside its expiry. The server answers 401 to "stale" and 200 to anything else, and the refresh succeeds with "renewed". All 7 attempts send "stale" and `_request` returns the 401. | After a successful refresh, the next attempt sends the new token, so the request recovers on the second attempt. | not executed | Retry.StaleHeaderExample | Retry.RefreshedHeaderExample |

The same defect is in `CaseReview_ListGenerationApp.py:145-156`. The
as-written behaviour is `Retry.Request` with `InitialHeader`, proved in
general by `Retry.StaleHeaderNeverRecovers`. The corrected behaviour is
`Retry.Request` with `FollowRefresh`, proved in general by
`Retry.RefreshedHeaderRecovers`.
