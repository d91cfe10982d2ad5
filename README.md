# Nutrition Food Analyzer — a verified model of its rules

The Nutrition Food Analyzer is a PHP and JavaScript web application. It
checks the nutrient content of foods (energy, protein, fat, vitamins, …)
against recommended daily ranges for children aged 1 to 5.

Each nutrient of a food gets one of four statuses:

- `normal`: the value lies within the recommended range;
- `excess`: the value is above the maximum;
- `deficiency`: the value is below the minimum;
- `no-standard`: the nutrient has no recommended bounds.

The application also shows:

- a safety percentage (the share of nutrients with status `normal`);
- a paginated food catalogue;
- a side-by-side comparison of up to five foods.

Logged-in students register with a numeric NIM. Their sessions time out after
30 minutes without activity.

This project models the application's rules in Dafny and proves properties
about them. The modules follow the application's parts:

| module | models |
|---|---|
| `Classify` | the nutrient-status rule: the server form (a bound is present when not null) and the browser form (`parseFloat(x) \|\| null`, so a bound of 0 counts as absent) |
| `Analysis` | one comparison record per standard and the statistics. It covers the API (`get_nutrition_analysis`), the server page (nutrition.php) and the browser (`generateComparisonData`, `updateSummaryCards`) |
| `Api` | the JSON controller: action dispatch, the seven handlers, and their refusals with status 400 or 404 |
| `FoodModel` | `formatFoodData`, the lookups by name (including the placeholders of the `IN` list), and the expiring cache in front of `getFoodByName`, as a class whose cache map the methods update |
| `NutritionPage` | the nutrition page: page flow, recommended-range text, value cell, info cards and their icons, and the browser's error messages |
| `ComparisonPage` | the comparison page: the `foods` parameter, the selection built from the API answer, the comparison table with its status classes, and the highest-value insights |
| `FoodName` | `formatFoodName` and the fuzzy `findFood` of the browser pages |
| `Csv` | the browser's quote-aware CSV line splitter and the two variants of `parseCSV` |
| `Pagination` | page clamp, offset, page count, "showing x to y", the five-wide page-number window, and the browser's current-page state (class `Pager`) |
| `Selection` | the catalogue's bounded selection list of foods to compare (class `SelectionList`) |
| `IndexSelection` | the checkbox selection of the server-rendered catalogue (class `FoodCheckboxes`) |
| `Registration` | the registration page's ordered field checks |
| `Session` | the `$_SESSION` login state and its 30-minute inactivity rule (class `PhpSession`) |
| `Users` | the `users` and `user_sessions` tables as in-memory rows (class `UserStore`) |
| `Header` | the login gate, `escapeHtml`, and the idle label of the active-users panel |
| `Text`, `Lists`, `Wrappers`, `Config` | PHP/JavaScript trimming, ASCII case, split/join, filters, `Option`/`ApiResult`, and the constants |

Modelling conventions:

- The database tables are sequences of rows in table order.
- The clock (`time()`, `NOW()`) is a parameter `now`.
- The rows that the LIKE queries return, and the standards table, are parameters.
- Password hashing is an abstract pair of functions: the stored hash is given, and verification is a parameter.
- Nutrient values and bounds are `Option<real>`, where `None` is SQL NULL.

## Model

| member | source | states |
|---|---|---|
| Classify.ValueOrZero | controllers/api.php:199 | a missing food value counts as 0; a present one is kept |
| Classify.ClassifyServer | controllers/api.php:197-231 | no-standard exactly when both bounds are null. With both bounds: normal inside [min,max], excess above max, otherwise deficiency. With min only: normal at or above min, else deficiency. With max only: normal at or below max, else excess |
| Classify.JsBound | script.js:722-723 | `parseFloat(x) \|\| null`: a null bound and a zero bound both become absent; any other bound is kept |
| Classify.ClientIsServerOnJsBounds | script.js:721-757 | the browser classification equals the server rule applied to the bounds read through `parseFloat(x) \|\| null`; its extra `value < min` guard never changes the result |
| Classify.ZeroMinimumDiffers | script.js:721-723 | a minimum of 0 with no maximum is a standard (normal) for the server and no-standard for the browser |
| Classify.RulesAgreeWithoutZeroBounds | controllers/api.php:202-231 | when no bound is 0, the browser and server rules give the same status |
| Classify.ExcessStaysExcess | controllers/api.php:202-231 | raising the value never turns an excess into another status |
| Classify.DeficiencyStaysDeficiency | controllers/api.php:202-231 | lowering the value never turns a deficiency into another status |
| Analysis.ServerComparison | controllers/api.php:184-236 | the API record for one standard: the standard's nutrient; the food's value or null; the server status; `in_range` exactly when the status is normal |
| Analysis.CompareWithStandard | controllers/api.php:184-236 | the loop body, which overwrites status fields branch by branch, yields the same record as `ServerComparison` |
| Analysis.CountInRange | controllers/api.php:240-242 | never more than the number of records (`CountInRangeIsNormalCount` pins the count) |
| Analysis.CountInRangeIsNormalCount | controllers/api.php:240-242 | counting `in_range` is counting status normal |
| Analysis.ServerComparisons | controllers/api.php:184-236 | one record per standard, in the standards' order, each equal to `ServerComparison` of that standard |
| Analysis.SafetyPercentage | controllers/api.php:243-245 | 0 when the total is 0 (`SafetyPercentageExact` pins the other cases) |
| Analysis.ClientSafetyPercentage | script.js:772 | 0 when the total is 0 (`SafetyPercentageExact` shows it agrees with the server) |
| Analysis.RoundingsAgree | script.js:772 | PHP `round` and `Math.round` agree on non-negative numbers |
| Analysis.RoundingsDifferOnNegativeHalf | script.js:772 | PHP `round` and `Math.round` differ on -0.5 |
| Analysis.FloorOfQuotient | controllers/api.php:244 | the floor of the real quotient a/b is the integer quotient, for b > 0 |
| Analysis.SafetyPercentageExact | controllers/api.php:243-245 | for 0 ≤ safe ≤ total and total > 0, the percentage equals (200·safe + total) div (2·total) |
| Analysis.SafetyPercentageBounds | controllers/api.php:243-245 | the percentage lies in [0,100] |
| Analysis.StatisticsOf | controllers/api.php:239-245 | total is the number of records; safe is the `in_range` count; the percentage is that of safe over total, round((200·safe + total) / (2·total)) for a non-empty list, within 0..100 |
| Analysis.NutritionAnswer | controllers/api.php:164-256 | an empty name (including "0") gives 400 'Food name is required'; an unknown food gives 404 'Food not found'. Otherwise: the food found; one comparison per standard, in order, each the server comparison; total = number of standards; safe = the `in_range` count |
| Analysis.GetNutritionAnalysis | controllers/api.php:164-256 | the handler with its cached lookup and its loop gives exactly `NutritionAnswer` over the table, and keeps the cache coherent. An empty name leaves the cache untouched |
| Analysis.AnalyzeStandards | nutrition.php:40-96 | the page's loop yields the same records as the API. `totalNutrients` is the number of standards; `safeNutrients` is the number of `in_range` records, and so at most the total |
| Analysis.PageAndApiStatisticsAgree | nutrition.php:98 | the page's safety percentage equals the API's for the same food and standards |
| Analysis.ClientComparison | script.js:705-763 | the browser record for one NUTRIENT_MAPPING key: the first standard whose Nutrisi equals the key; no-standard without one; `inRange` exactly when the status is normal |
| Analysis.ClientComparisons | script.js:705-763 | one record per NUTRIENT_MAPPING key (21), in declaration order |
| Analysis.NoneInRange | script.js:769-772 | records none of which is in range count zero |
| Analysis.UnfilledStandardsShowNothing | script.js:705-763 | with script.js's `standardsData` left at its initial `[]` (script.js:8), every record is `no-standard`, none is in range, and the cards show 0% |
| Analysis.ClientStatisticsAgree | script.js:769-777 | the browser's summary cards equal the server's statistics formula over the same records |
| Api.NamesList | controllers/api.php:268-269 | `explode` then `trim`: one name more than there are commas; no name holds a comma or starts or ends with white space |
| Api.FoodsAnswer | controllers/api.php:64-84 | the page is echoed unclamped; the limit defaults to ITEMS_PER_PAGE; offset = (page−1)·limit; total_pages = ceil(total/limit). A limit of 0 gives no answer |
| Api.SearchAnswer | controllers/api.php:89-104 | an empty query (including "0") gives 400 'Search query is required'; otherwise the rows found and their number |
| Api.FoodAnswer | controllers/api.php:109-125 | an empty name gives 400 'Food name is required'; an unknown name gives 404 'Food not found'; a known name gives the stored food |
| Api.MultipleFoodsAnswer | controllers/api.php:130-147 | an empty parameter gives 400 'Food names are required'; otherwise only foods matching one of the names ignoring case, with count equal to their number |
| Api.ComparisonAnswer | controllers/api.php:261-295 | 400 for empty names, for fewer than 2 names ('At least 2 foods are required for comparison') or for more than MAX_COMPARISON_ITEMS; 404 'Could not find enough foods for comparison' when fewer than 2 foods are found; otherwise the foods and every standard |
| Api.Respond | controllers/api.php:23-59 | a missing or unknown action gives 400 'Invalid action'. Every refusal has status 400 or 404, never an ok status. A success carries the payload of the action asked for. Only `get_foods` with limit 0 fails uncaught |
| Api.HandleRequest | controllers/api.php:23-59 | the controller answers exactly as `Respond` over the table. Every action except `get_food` and `get_nutrition_analysis` leaves the cache of food entries unchanged |
| Api.TrimmedPiecesCommaFree | controllers/api.php:268-269 | pieces cut at commas and then trimmed hold no comma |
| Api.JoinNotEmpty | controllers/api.php:264 | two or more names joined with commas are never PHP-empty |
| Api.ComparisonRequestAgrees | comparison.js:57-78 | the names the page sends come back from the API's split as the same number of names, each trimmed again. The API accepts the count exactly when the page's list has at most MAX_COMPARISON_ITEMS names |
| Api.ComparisonRefusalsHidden | comparison.js:80-82 | as written, every refusal `getComparison` can send shows as 'Failed to load comparison data' |
| Api.AnalysisRefusalsHidden | nutrition.js:70-72 | as written, every refusal `getNutritionAnalysis` can send shows as 'Failed to load nutrition data' |
| FoodModel.NutrientKeysDistinct | models/Food.php:14-36 | the 21 nutrient names are pairwise distinct |
| FoodModel.FilledKeys | models/Food.php:247-249 | after n loop steps, the keys are exactly the first n nutrient names |
| FoodModel.FilledValues | models/Food.php:247-249 | after n loop steps, each of those names holds its column's value |
| FoodModel.FormattedFood | models/Food.php:241-252 | 'Menu' is the row's menu; the nutrients are exactly the 21 names, each with its mapped column's value |
| FoodModel.FormatFoodData | models/Food.php:241-252 | the loop's result is `FormattedFood` |
| FoodModel.SelectByMenu | models/Food.php:135-139 | the first row in table order whose lower-cased menu equals the lower-cased name, or none |
| FoodModel.LookupFood | models/Food.php:144-153 | a food exactly when some row matches the name ignoring case; its name matches and it carries every nutrient key |
| FoodModel.Placeholders | models/Food.php:214 | the IN list has length 2n−1 |
| FoodModel.PlaceholdersList | models/Food.php:214 | the IN list is n question marks joined by commas |
| FoodModel.LowerAll | models/Food.php:220 | each name lower-cased, in order |
| FoodModel.SelectIn | models/Food.php:216-219 | the rows whose lower-cased menu is one of the lowered names, in table order |
| FoodModel.SelectInIsFilter | models/Food.php:216-220 | the selection is the table filtered by the `IN` test: every matching row once, in table order, nothing else |
| FoodModel.FoodsByNames | models/Food.php:208-238 | [] for an empty list; otherwise no more results than rows, each the page format of a table row whose lower-cased menu is among the lower-cased names |
| FoodModel.FoodsByNamesInTableOrder | models/Food.php:216-238 | for a non-empty list, the answer is position by position the formatted rows of the filtered table |
| FoodModel.FoodsByNamesComplete | models/Food.php:216-220 | every stored food whose name matches a requested one, ignoring case, is returned |
| FoodModel.CacheKeyInjective | models/Food.php:129 | different menu names get different cache keys |
| FoodModel.CacheHit | models/Food.php:264-269 | a hit exactly for an entry that expires later than now, giving its data |
| FoodModel.CacheAfterRead | models/Food.php:264-273 | after a read, an expired entry is deleted and every other entry stays |
| FoodModel.StoredThenRead | models/Food.php:281-294 | a value stored at `now` is read back at every instant before now + CACHE_DURATION |
| FoodModel.StoredThenExpired | models/Food.php:264-273 | from now + CACHE_DURATION on, that value misses and is deleted on read |
| FoodModel.FoodStore.constructor | models/Food.php:38-40 | an empty, coherent cache over the given table |
| FoodModel.FoodStore.GetCache | models/Food.php:257-276 | a miss when caching is disabled; otherwise a hit exactly on an unexpired entry; the cache becomes `CacheAfterRead` |
| FoodModel.FoodStore.SetCache | models/Food.php:281-294 | stores the data to expire at now + CACHE_DURATION; nothing changes when caching is disabled |
| FoodModel.FoodStore.ClearCache | models/Food.php:299-310 | every entry is removed |
| FoodModel.FoodStore.GetFoodByName | models/Food.php:127-158 | with a coherent cache, the answer is the database lookup, and the cache stays coherent. Disabled caching leaves the cache alone; a hit or a lookup that finds nothing leaves the cache as the read left it; a miss that finds a food stores it under its key to expire CACHE_DURATION seconds from now |
| FoodName.FormatFoodName | nutrition.js:221-238 | '' for the empty name; otherwise as many separators (/ , \ -) as the raw name (`FormatFoodNamePieces` gives the pieces) |
| FoodName.CapitalizeWordsLower | nutrition.js:233-235 | capitalising the words changes letter case only |
| FoodName.FormatPartLower | nutrition.js:226-236 | a formatted piece differs from the trimmed piece in letter case only |
| FoodName.FormatPartClean | nutrition.js:226-236 | a formatted piece holds no separator and no white space at either end |
| FoodName.CountSpacedJoin | nutrition.js:237 | joining separator-free pieces with " / " yields exactly one separator between neighbours |
| FoodName.CapitalizeWordsIdempotent | nutrition.js:233-235 | capitalising already capitalised words changes nothing |
| FoodName.FormatPartStable | nutrition.js:226-236 | formatting a formatted piece again leaves it unchanged |
| FoodName.SplitSpacedJoin | nutrition.js:225-237 | splitting a " / "-joined text at the separators gives pieces that trim back to the joined ones |
| FoodName.FormatFoodNameIdempotent | nutrition.js:221-238 | a formatted name formats to itself |
| FoodName.FormatFoodNamePieces | nutrition.js:221-238 | ignoring case, the formatted name's pieces are the raw name's trimmed pieces |
| FoodName.FindFood | nutrition.js:185-214 | the index of the first food whose lower-cased trimmed menu or formatted name equals, contains or is contained in the search term; none when no food matches |
| FoodName.BlankMenuMatchesEverything | nutrition.js:191-207 | because of the reverse containment test, a food with an empty menu matches every search |
| Csv.RemoveQuotes | script.js:168 | no double quote is left |
| Csv.RemoveQuotesIsFilter | script.js:168 | removing quotes keeps exactly the other characters, in order |
| Csv.RemoveQuotesNoQuotes | script.js:168 | a text without quotes is unchanged |
| Csv.ScanProperties | script.js:192-203 | loop invariant of the scan. The fields joined with commas are the input read so far without quotes. One field is finished per comma outside quotes. The flag is the parity of the quotes read. No field holds a quote |
| Csv.ParseCsvLine | script.js:187-207 | the character loop computes `ParseLine`, whose field count and contents `ScanProperties` states |
| Csv.DoubledQuoteIsNotEscape | script.js:195-196 | a field of four quotes (one quote character in RFC 4180) is read as the empty field |
| Csv.Record | script.js:166-174 | the keys are exactly the headers; a header that does not repeat later maps to the value at its position |
| Csv.TrimmedChars | nutrition.js:144 | every character of a trimmed text occurs in the text |
| Csv.CleaningsAgree | nutrition.js:144 | on fields of a parsed line, both orders of trimming and quote removal give plain trimming |
| Csv.CleanAll | script.js:168 | every value of the list cleaned, in order |
| Csv.KeptRowsOfFilter | script.js:163-176 | the kept rows are the objects of the filtered lines, in order |
| Csv.ScriptLines | script.js:157 | at least one line; no line holds a newline, and joining them with newlines gives the trimmed text back |
| Csv.ScriptCsvRows | script.js:156-180 | [] for fewer than 2 lines. Otherwise one object per data line whose field count equals the header count, in order, and none for any other line |
| Csv.ScriptDataRows | script.js:163-177 | the loop's rows equal `ScriptCsvRows` |
| Csv.ParseCsvScript | script.js:156-180 | script.js `parseCSV` equals `ScriptCsvRows` |
| Csv.NutritionLines | nutrition.js:133 | exactly the lines of the text that are not blank |
| Csv.NutritionCsvRows | nutrition.js:132-151 | [] for fewer than 2 non-blank lines. Otherwise one object per data line with at least as many fields as headers, and none for other lines; missing values become '' |
| Csv.NutritionDataRows | nutrition.js:139-148 | the loop's rows equal `NutritionCsvRows` |
| Csv.ParseCsvNutrition | nutrition.js:132-151 | nutrition.js `parseCSV` equals `NutritionCsvRows` |
| Csv.ReadersAgreeOnFullLines | nutrition.js:141-146 | on a line with exactly as many fields as headers, the two readers build the same object |
| Lists.FindFirst | nutrition.js:190 | the index of the first element satisfying the test, or none when no element does |
| Lists.Filter | script.js:773 | no longer than the list; holds only elements that pass the test, and every element that passes it |
| Lists.FilterConcat | script.js:773 | filtering distributes over concatenation |
| NutritionPage.NutritionPageFlow | nutrition.php:15-98 | the page is `PageFor` the trimmed `food` parameter: an empty one (or "0") redirects and leaves the cache alone; an unknown food gives the error message; otherwise the report. The cache stays coherent |
| NutritionPage.PageForName | nutrition.php:17-98 | the same for an already trimmed name: redirect, not-found message or report, with the cache kept coherent |
| NutritionPage.BuildReport | nutrition.php:33-98 | the report holds one `ServerComparison` per standard, the number of standards, the number of `in_range` records and their percentage |
| NutritionPage.RangeFormOf | nutrition.php:186-203 | both bounds truthy gives "min - max"; then min only; then max only; then the recommendation; otherwise nothing |
| NutritionPage.RangeFormsAgree | comparison.js:330-343 | for DECIMAL bounds and a recommendation other than "0", the server page and the browser pages choose the same form of range text |
| NutritionPage.PresentBoundsShow | nutrition.php:194-199 | a present DECIMAL bound always shows in the range text, even a zero one, because its text "0.00" is truthy |
| NutritionPage.ServerValueCell | nutrition.php:216 | '-' exactly for a null value |
| NutritionPage.FormatNutrientValue | nutrition.js:445-455 | '-' exactly for null, undefined and ''; numbers with two decimals; other values as text |
| NutritionPage.DashAgrees | nutrition.js:445-455 | for a value from the API, the browser shows '-' exactly when the server page does |
| NutritionPage.StatusIconByName | nutrition.js:462-469 | the icon of each status name, and 'question-circle' for a name no status has |
| NutritionPage.Detailed | nutrition.php:249-252 | exactly the comparisons whose standard has function, excess or deficiency text, in order |
| NutritionPage.DetailedConcat | nutrition.php:249-252 | that filter distributes over concatenation |
| NutritionPage.InfoCards | nutrition.php:259 | a prefix of the comparisons with details: all of them when there are at most 6, otherwise the first 6 |
| NutritionPage.IconFor | nutrition.php:254-267 | the icon of the first keyword that occurs in the nutrient name; 'atom' exactly when none occurs |
| NutritionPage.ChooseIcon | nutrition.php:261-267 | the loop with `break` yields `IconFor` |
| NutritionPage.EnergyFirst | nutrition.php:254-267 | a name containing "Energy" gets 'bolt' whatever else it contains |
| NutritionPage.InitialError | nutrition.js:45-57 | an error exactly when the `food` parameter is missing or empty |
| NutritionPage.AnalysisOutcomeAsWritten | nutrition.js:63-99 | as written, a non-ok status shows 'Failed to load nutrition data'; the API's error is read only under an ok status |
| NutritionPage.NotFoundHiddenAsWritten | nutrition.js:70-72 | as written, the 404 'Food not found' never shows the not-found message |
| NutritionPage.AnalysisOutcome | nutrition.js:76-82 | with the status not consulted first, every failure shows the message mapped from its error |
| NutritionPage.ApiErrorsShown | nutrition.js:76-82 | 404 'Food not found' shows `Food "<name>" not found in database`; 400 'Food name is required' shows verbatim |
| ComparisonPage.ParseFoodsParam | comparison.js:46-66 | a missing or empty parameter is an error. Otherwise the names are the comma-separated pieces, trimmed, and fewer than 2 is an error |
| ComparisonPage.SelectFoodsAsWritten | comparison.js:80-82 | as written, a non-ok status shows 'Failed to load comparison data' before the API's error is read |
| ComparisonPage.LimitErrorHiddenAsWritten | comparison.js:80-82 | as written, the 400 'Maximum 5 foods can be compared' shows as the generic failure |
| ComparisonPage.SelectFoods | comparison.js:86-105 | a failure shows its error (or the default message); fewer than 2 foods is an error. Otherwise one entry per food, in order, with the formatted menu name |
| ComparisonPage.FindStandard | comparison.js:300 | the first standard whose Nutrisi equals the nutrient, or none |
| ComparisonPage.CellClass | comparison.js:310-324 | a class only when the standard has a truthy bound and both bounds read through `parseFloat(x) \|\| null` are present; then the class of the comparison status |
| ComparisonPage.RenderNutrientRow | comparison.js:299-346 | 1 + number of foods + 1 cells: the nutrient, one cell per food, and the range text |
| ComparisonPage.RenderMultiComparisonTable | comparison.js:283-348 | the header is 'Nutrient', one heading per food, then 'Recommended Range'; one body row per NUTRIENT_MAPPING key, in order |
| ComparisonPage.ColouredCellsHaveBothBounds | comparison.js:310-324 | a coloured cell only appears in a row whose range text shows both bounds |
| ComparisonPage.CellClassIsAnalysisStatus | comparison.js:310-324 | a cell's colour is the status the browser analysis gives the same food and nutrient |
| ComparisonPage.MaxOf | comparison.js:466 | the maximum is one of the values and at least every value |
| ComparisonPage.IndexOf | comparison.js:468 | the first position holding the value |
| ComparisonPage.HighestIndex | comparison.js:464-468 | the first position holding the maximum |
| ComparisonPage.ValuesOf | comparison.js:464 | `parseFloat(v) \|\| 0` of each selected food, in order |
| ComparisonPage.HighestFood | comparison.js:486-489 | a selected food whose value is the maximum, and every food before it has a lower value, so it is the first such food |
| ComparisonPage.EnergyHighlightedIffSomeFood | comparison.js:471-479 | the energy card is highlighted exactly when some selected food has more than 2000 kJ |
| Pagination.ClampPage | index.php:13 | an absent parameter gives 1; a present one gives max(1, intval); always ≥ 1 |
| Pagination.CeilDivPages | index.php:22 | for a positive divisor, the least number of pages holding all rows |
| Pagination.PageInfoOf | index.php:18-26 | offset = (page−1)·ITEMS_PER_PAGE; total pages = ceil(total/ITEMS_PER_PAGE); start = offset+1 when total > 0, else 0; end = min(offset+ITEMS_PER_PAGE, total) ≤ total |
| Pagination.ShowingRangeOnExistingPage | index.php:25-26 | on an existing page, 1 ≤ start ≤ end ≤ total and the range holds end−start+1 rows: a full page unless it is the last |
| Pagination.SearchFoods | api/search_foods.php:15-58 | the clamped page, the trimmed search term echoed back, and the page fields. Any failure gives 500 with 'Failed to fetch food data' |
| Pagination.GetFoodsPage | controllers/api.php:65-73 | the unclamped page, the limit or its default, offset and page count. A limit of 0 is a division error |
| Pagination.WindowProperties | index.php:191-206 | the window lies within the pages and holds min(5, totalPages) pages. It holds the current page when that exists, centred when there is room |
| Pagination.Links | index.php:208-212 | one link per page from start to end; only the current one is active |
| Pagination.AppendLinks | index.php:208-212 | the `for` loop emits exactly `Links` |
| Pagination.PageNumbers | script.js:347-396 | nothing when totalPages ≤ 1. Otherwise a leading "1" when start > 1, an ellipsis only when start > 2, the window links, and the symmetric trailing side |
| Pagination.PageItemsEnds | index.php:191-220 | with more than one page the bar's first entry is page 1 and its last is the last page |
| Pagination.PageItemsGood | index.php:191-220 | every link of the bar is to an existing page, and an active link is the current page |
| Pagination.PageItemsReachEnds | index.php:191-220 | with more than one page, the bar begins with page 1 and ends with the last page; every link is to an existing page; only the current page is active; the current page, when it exists, is shown |
| Pagination.Pager.constructor | script.js:16-18 | page 1 of 1 |
| Pagination.Pager.PreviousDisabled | script.js:349 | Previous is disabled exactly when index.php shows no Previous link (current page ≤ 1) |
| Pagination.Pager.NextDisabled | script.js:350 | Next is disabled exactly when index.php shows no Next link (current page ≥ total pages) |
| Pagination.Pager.ApplyPagination | script.js:576-577 | the answer's page fields replace both globals |
| Pagination.Pager.GoToPage | script.js:415-424 | moves and reloads only for 1 ≤ page ≤ totalPages with page ≠ current; otherwise nothing changes |
| Pagination.Pager.GoToPreviousPage | script.js:429-433 | one page back exactly when the current page is > 1 |
| Pagination.Pager.GoToNextPage | script.js:438-442 | one page on exactly when the current page is < totalPages |
| Selection.JsSlice | script.js:1138 | JavaScript `slice`: for 0 ≤ begin ≤ end ≤ length the part between them; [] when end ≤ begin; a negative begin counts from the end |
| Selection.AddAllExtends | script.js:1141-1152 | adding a page keeps the earlier selection in front |
| Selection.AddAllKeepsValid | script.js:1142-1144 | adding a page keeps the list within maxSelections and free of duplicates |
| Selection.AddAllSelectsPage | script.js:1141-1152 | after adding a page, each of its foods is selected unless the list is full |
| Selection.OtherThanRemoves | script.js:1185 | unselecting a food leaves no entry of it |
| Selection.FilterTwice | script.js:1160-1162 | removing the page's entries and then one more food's is removing both at once |
| Selection.FilterKeepsValid | script.js:1161 | a sub-list of a valid list is valid |
| Selection.NavigateToComparison | script.js:1239-1267 | fewer than 2 entries is an error; otherwise the comparison page with the non-empty names, unless none is left |
| Selection.EntryFor | script.js:1145-1149 | the entry is identified by the food's menu; its display name is 'Unknown Food' for an empty menu (script.js:478-480) and otherwise script.js's formatter applied to the menu |
| Selection.SelectionList.constructor | script.js:12-13 | an empty selection |
| Selection.SelectionList.HandleFoodSelection | script.js:1174-1201 | no food at the index changes nothing. A selected food is removed. An unselected one is appended, unless the list holds 5, which reports an error and changes nothing. The list stays duplicate-free and within 5. The appended entry is `EntryFor` the food under script.js's formatter |
| Selection.SelectionList.SelectPage | script.js:1134-1152 | the page's unselected foods are appended in order while there is room, each as `EntryFor` it under script.js's formatter |
| Selection.SelectionList.UnselectPage | script.js:1153-1163 | only the entries of the page's foods are removed |
| Selection.SelectionList.HandleSelectAll | script.js:1131-1169 | the current page of the filtered list is added (as `EntryFor` each food under script.js's formatter) or removed |
| Selection.SelectionList.ClearAll | script.js:1230-1234 | the list is empty |
| IndexSelection.CheckedNames | index.php:269-274 | no more names than boxes, and none that jQuery's `.data()` reads as a falsy value ("", "0", "NaN", "false", "null") |
| IndexSelection.FalsyNameSkipped | index.php:270-272 | a checked box for a food named "0" is not selected |
| IndexSelection.CheckedNamesExactly | index.php:269-274 | a name is selected exactly when some checked box carries it and `if (foodName)` accepts what jQuery reads from it |
| IndexSelection.WithLimit | index.php:285-289 | at or above MAX_COMPARISON_ITEMS every unchecked box is disabled; otherwise none is |
| IndexSelection.Clicked | index.php:255-257 | a click flips the clicked box exactly when it is enabled; every other box is unchanged |
| IndexSelection.AllChecked | index.php:262-263 | select-all sets every box, disabled or not |
| IndexSelection.CompareSelected | index.php:300-307 | fewer than 2 names is refused; otherwise the names joined with commas |
| IndexSelection.CheckedNamesIgnoreDisabled | index.php:269-274 | the selected names do not depend on the disabled flags |
| IndexSelection.CheckedNamesUpdate | index.php:269-274 | changing one box changes the number of names by at most one, and checking never lowers it |
| IndexSelection.ClickStaysWithinLimit | index.php:285-289 | a click on a settled page never takes the selection past the limit |
| IndexSelection.SelectAllIgnoresLimit | index.php:262-264 | select-all on a page of six named foods selects six, past the limit |
| IndexSelection.FoodCheckboxes.constructor | index.php:255-307 | nothing checked or disabled |
| IndexSelection.FoodCheckboxes.CollectSelected | index.php:268-274 | the loop collects exactly `CheckedNames` |
| IndexSelection.FoodCheckboxes.UpdateSelection | index.php:267-290 | the selection is re-read and the limit applied to the boxes |
| IndexSelection.FoodCheckboxes.Click | index.php:255-257 | the box flips if enabled, then the selection is updated; from a selection within the limit it stays within it, and a click after select-all passed the limit is handled too; the select-all box is left as it was |
| IndexSelection.FoodCheckboxes.SelectAll | index.php:260-265 | every box takes the select-all state, then the selection is updated |
| IndexSelection.FoodCheckboxes.ClearSelection | index.php:293-297 | every box and the select-all box are unchecked, nothing is selected, and every box is enabled again: the boxes are those of `updateSelection` over the all-unchecked list |
| IndexSelection.NothingChecked | index.php:269-274 | with no box checked, nothing is selected |
| Registration.Validate | register.php:27-35 | accepted exactly when the trimmed nim and name and the password are non-empty, the passwords match, the password has ≥ 6 bytes, and the nim is all digits. Otherwise an empty field reports 'All fields are required' |
| Registration.FirstFailureWins | register.php:27-35 | each later message is reported exactly when every earlier check passes and its own check fails |
| Registration.ZeroIsMissing | register.php:27 | a nim or password of "0" reports 'All fields are required' |
| Registration.SixBytesSuffice | register.php:31 | a 6-byte password passes the length check |
| Registration.PasswordNotTrimmed | register.php:22-25 | a password with a trailing space does not match a confirmation without it |
| Registration.HandleRegistration | register.php:12-46 | a logged-in visitor is redirected; a GET shows an empty form. A rejected POST shows the first error and stores nothing. Only an accepted POST reaches `register`, whose failure message is shown unchanged; a successful insert adds exactly the row with the next id, the validated nim and name and the hashed password. The session table is never touched |
| Registration.AcceptedIsWellFormed | register.php:27-35 | an accepted form has an all-digit nim, a non-empty name, a password of ≥ 6 bytes, and a matching confirmation |
| Session.PhpSession.constructor | config/session.php:8-10 | a new session holds no key and is logged out |
| Session.PhpSession.GetCurrentUser | config/session.php:35-48 | null exactly when not logged in; otherwise the five keys |
| Session.PhpSession.SetUserSession | config/session.php:53-60 | logged in as the user, with login time = last activity = now, and not expired |
| Session.PhpSession.UpdateLastActivity | config/session.php:65-70 | only a logged-in session gets last activity = now; the other keys are unchanged |
| Session.PhpSession.DestroyUserSession | config/session.php:75-87 | every key is cleared, so the visitor is logged out |
| Session.PhpSession.OnLoad | config/session.php:109-115 | an expired login is destroyed, every session variable unset; a live one gets last activity = now; a logged-out session is unchanged |
| Session.TimeoutIsStrict | config/session.php:92-106 | idle exactly 1800 seconds is not expired; 1801 is |
| Header.EscapeChar | includes/header.php:184-193 | the five characters & < > " ' become entities; every other character stays |
| Header.EscapeHtml | includes/header.php:184-193 | no < > " ' in the output; the output is at least as long as the input; a text free of the five characters comes back unchanged |
| Header.UnescapeChar | includes/header.php:184-193 | decoding an escaped character gives it back, whatever follows |
| Header.EscapeRoundTrip | includes/header.php:184-193 | decoding the escaped text gives the text back, so escaping loses nothing |
| Header.IdleMinutes | includes/header.php:159 | the whole minutes of idle time: m·60 ≤ idle < m·60 + 60 |
| Header.IdleText | includes/header.php:160 | 'Just now' exactly in the first minute; otherwise the minutes followed by "m ago" |
| Header.StatusClass | includes/header.php:161 | status-active exactly under 60 idle seconds; otherwise status-idle |
| Header.ActiveMeansJustNow | includes/header.php:159-161 | for non-negative idle time, status-active exactly when the label is 'Just now' |
| Header.ItemFor | includes/header.php:158-176 | an entry's name and nim are free of markup and decode to the user's own; its class and label follow the idle time |
| Header.RenderActiveUsers | includes/header.php:146-182 | 'No other users online' exactly for an empty list; otherwise one entry per user, in order |
| Header.HeaderGate | includes/header.php:13-15 | a redirect to the login page with the requested address exactly when login is required and the visitor is logged out; otherwise the page renders for the current user |
| Users.Authenticate | models/User.php:93-122 | a user exactly when a row with the nim exists and the password verifies; only its id, nim and name |
| Users.RegisterThenAuthenticate | models/User.php:127-162 | a freshly registered user can log in with the password whose hash was stored |
| Users.InsertIfAbsent | models/User.php:71-86 | inserts the account exactly when its nim is absent |
| Users.WithAccountsTakesAll | models/User.php:63-88 | the old rows stay in front, and afterwards every account's nim is taken |
| Users.WithAccountsNoop | models/User.php:70-87 | once every nim is taken, inserting the accounts again changes nothing |
| Users.DemoUsersIdempotent | models/User.php:63-88 | a second `createDemoUsers` inserts nothing |
| Users.WithAccountsValid | models/User.php:63-88 | inserting keeps nims unique and ids below the counter |
| Users.MinutesBetween | models/User.php:270 | whole minutes between two instants, truncated toward zero |
| Users.InsertByRecent | models/User.php:271 | inserting a row adds exactly that row to the multiset |
| Users.InsertByRecentSorted | models/User.php:271 | insertion into a list ordered by recency keeps it ordered |
| Users.SortByRecent | models/User.php:271 | a permutation of the rows, most recent first |
| Users.ProjectAll | models/User.php:262-267 | the selected columns of each row, in order |
| Users.ActiveUsersExactly | models/User.php:259-285 | the list is most recent first, and holds exactly the active rows idle fewer than 30 whole minutes |
| Users.Deactivated | models/User.php:46 | `SET is_active = 0` on a row: an active row also takes `now` as last activity (`ON UPDATE CURRENT_TIMESTAMP`); an inactive row does not change; no other column changes |
| Users.CleanupRows | models/User.php:290-301 | exactly the active rows idle more than 30 whole minutes become inactive, with `now` as last activity; other rows do not change |
| Users.ThirtyMinutesIsNeither | models/User.php:270 | a row idle exactly 30 whole minutes is neither listed nor cleaned up |
| Users.CleanupKeepsListed | models/User.php:290-301 | cleaning up never changes the active-users list |
| Users.DestroySessionRows | models/User.php:239-254 | active rows with the session id become inactive with `now` as last activity; every other row is unchanged |
| Users.TouchSessionRows | models/User.php:219-234 | active rows with the session id get last activity = now; nothing else changes |
| Users.DeactivateUser | models/User.php:183-191 | every active row of the user becomes inactive with `now` as last activity; every other row is unchanged |
| Users.CreateSessionAsWritten | models/User.php:177-214 | as written, at most one row is added and no existing row changes its user or session id |
| Users.CreateSessionAsWrittenRecords | models/User.php:177-214 | as written, the session's row is active and the user's other rows are inactive |
| Users.CreateSessionKeepsStaleOwner | models/User.php:194-201 | when a second user logs in on a session id first used by user 1, the active row still names user 1, and no row of user 2 is active |
| Users.CreateSessionRows | models/User.php:194-201 | at most one row is added, exactly when no row has the session id; existing rows keep their session ids |
| Users.CreateSessionRecords | models/User.php:177-206 | afterwards the session's row is the user's, active and current, and no other row of the user is active |
| Users.UserStore.constructor | models/User.php:14-17 | the tables hold the demo users and no session |
| Users.UserStore.CreateDemoUsers | models/User.php:63-88 | the loop inserts each demo account unless its nim is taken, and keeps the tables valid |
| Users.UserStore.Register | models/User.php:127-172 | a taken nim gives 'NIM already registered' and adds no row. Otherwise exactly one row with the hashed password is added, unless the insert fails ('Failed to register user') |
| Users.UserStore.CreateSession | models/User.php:177-214 | as written: the session table becomes `CreateSessionAsWritten`, which keeps a reused session id's old owner; the session's row is active and current and the user's other rows are inactive |
| Users.UserStore.CreateSessionRecordingOwner | models/User.php:194-201 | the corrected method: the session table becomes `CreateSessionRows`, and the session's row belongs to the user who logged in |
| Users.UserStore.DestroySession | models/User.php:239-254 | the session table becomes `DestroySessionRows` |
| Users.UserStore.UpdateSessionActivity | models/User.php:219-234 | the session table becomes `TouchSessionRows` |
| Users.UserStore.GetActiveUsers | models/User.php:259-285 | the fetch loop returns the active-users list: most recent first, holding every listed row |
| Users.UserStore.CleanupExpiredSessions | models/User.php:290-301 | the session table becomes `CleanupRows`, and the active-users list is unchanged |
| Text.Trim | nutrition.js:227 | a slice `s[i..j]` of the input whose cut-off ends are all white space, and which neither starts nor ends with white space |
| Text.TrimKeepsTrimmed | register.php:22 | a text without white space at its ends is unchanged by trimming |
| Text.TrimIgnoresPadding | register.php:22 | white space added in front or behind does not change the trimmed text |
| Text.TrimKeepsProperty | controllers/api.php:269 | whatever holds of every character of the input holds of every character of the trimmed text |
| Text.Split | nutrition.js:225 | at least one piece; no piece holds a separator; one piece more than there are separators |
| Text.SplitNoSeparator | nutrition.js:225 | a text without separators splits into itself |
| Text.SplitAfterPrefix | nutrition.js:225 | splitting a + [c] + b, with a free of separators, gives a followed by the pieces of b |
| Text.SplitJoin | controllers/api.php:268 | joining separator-free pieces with one separator and splitting again gives the pieces back |
| Text.JoinSplit | controllers/api.php:268 | splitting at a separator and joining with it gives the text back |
| Text.LowerJoin | models/Food.php:220 | lower-casing commutes with joining |
| Text.Utf8Length | register.php:31 | `strlen` counts UTF-8 bytes: at least the number of characters |
| Text.Repeat | models/Food.php:214 | the text repeated n times, of n times its length |

## Left out

- DOM, jQuery and Chart.js rendering are left out: modals, tooltips, charts, scroll handling and `showError` banners. Only the decisions that choose what is shown are modelled.
- `fetch` transport, network failures and malformed JSON are left out. They all end in the same catch-all message as a non-ok status.
- SQL execution is left out. The rows that `getAllFoods`, `getTotalCount` and `searchFoods` return are parameters, as are the standards (`Standard::getAllStandards`).
- models/Standard.php is not part of this model: it only renames keys and adds the same file cache as models/Food.php.
- config/database.php is left out: connection, table creation and CSV import.
- The cache's files, `md5` and `serialize` are left out. The cache is a map keyed by the logical key `"food_" . $menu`.
- The list caches of `getAllFoods`, `getTotalCount` and `searchFoods` (keys `foods_all_…`, `foods_count_…` and `foods_search_…`; models/Food.php:47-78, 92-115, 166-196) are left out. Their answers come from the rows given as parameters, so the model does not show that a list or a count can be up to CACHE_DURATION seconds stale.
- `ORDER BY last_activity DESC` (models/User.php:271) leaves the order of rows with equal last activity to the database. Users.SortByRecent fixes one such order, table order among ties.
- `clearCache` on a missing cache directory (a no-op) is not distinguished from clearing an empty cache.
- Float formatting and parsing are left out: `toFixed`, `number_format`, `parseFloat` on arbitrary text, and the numeric conversion in script.js `parseCSV` (script.js:170-172). Numbers are `real`, displays are tagged values, and range texts keep the bounds' text.
- Floating-point rounding in the safety percentage is left out. Division and rounding are exact on reals.
- The averages of `generateNutritionalInsights` are left out. Only the argmax and the highlight decisions are modelled.
- Case mapping is ASCII only. PHP 8 `strtolower` is ASCII; JavaScript `toLowerCase` also maps non-ASCII letters, which the model does not.
- Character encoding is left out, including the key 'Total Folic Acid (Âµg)' of models/Food.php:27 against 'Total Folic Acid (µg)' of script.js:34.
- `decodeURIComponent` and `encodeURIComponent` are the identity on names. Api.ComparisonRequestAgrees therefore does not cover a name holding an encoded comma, which the server would split.
- script.js `formatFoodName` is modelled only in its first step, 'Unknown Food' for an empty name; its regular-expression pipeline (script.js:483-527) is the parameter `format`. The PHP `formatFoodName` called by index.php and nutrition.php is not part of this model.
- Selection.SelectionList.SelectPage: the display names of the appended entries are fixed only through the parameter `format`, which stands for script.js's regular-expression pipeline.
- Selection.SelectionList.HandleSelectAll: as for SelectPage, the display names of added entries are fixed only through the parameter `format`.
- Selection.SelectionList.HandleFoodSelection: as for SelectPage, the display name of an added entry is fixed only through the parameter `format`.
- IndexSelection.CheckedNames: a name that jQuery's `.data()` parses as JSON (text wrapped in braces or brackets) or converts to `true` or to a number is kept as its text; the browser pushes the converted value, whose text in the comparison URL can differ for an object or an array.
- IndexSelection.CheckedNamesExactly: the same JSON and number conversions are left out, as for CheckedNames.
- Database collation is left out. Every table is `utf8mb4_unicode_ci` (config/database.php:110, models/User.php:32), so `LOWER(menu) = LOWER(?)` and the `IN` list compare accent-insensitively and ignore trailing spaces; FoodModel.SelectByMenu, FoodModel.SelectIn and FoodModel.LookupFood compare the ASCII-lowered texts exactly.
- Sorting (`handleSort`, which uses `localeCompare`), `debounce` and timers are left out.
- login.php, logout.php, profile.php, about.php, comparison.php, includes/footer.php and api/active_users.php are not part of this model. They are templates or orchestration.
- Session cookies, `session_start`, `header()`/`exit` and CORS headers are left out. A redirect is a value of the page outcome.
- `password_hash` and `password_verify` are abstract: the stored hash is a parameter and verification is a function parameter.
- Registration.HandleRegistration: the clearing of `$_POST` after a successful registration (the form is shown empty) is not modelled. Only the error and success messages are part of the page value.
- Header.IdleText: for a negative idle time (a clock running behind the database) the label is stated only through `IdleMinutes`; JavaScript's text for negative numbers is the modelled `-` form.
- Users.UserStore.Register: the 'Database error' answer to an exception thrown by the database is not modelled; the insert's outcome is the parameter `insertSucceeds`.
- Concurrency is left out: every request is handled alone.

## Findings

| source | as written | input that shows it | evidently intended | confidence | as-written member | corrected member |
|---|---|---|---|---|---|---|
| models/User.php:194-201 | `ON DUPLICATE KEY UPDATE` on `session_id` refreshes the times and reactivates the row, but keeps the old `user_id`, `nim` and `name` | user 1 logs in on session id "s"; user 2 logs in later on the same PHP session id "s" (same browser) | the row for the session records the user who is logging in, so the active-users list shows user 2 | not executed; medium (a PHP session id is normally regenerated per browser, but nothing here regenerates it) | Users.CreateSessionKeepsStaleOwner | Users.CreateSessionRecords |
| nutrition.js:70-72 | `if (!response.ok) throw` runs before `result.error` is read, and the API sends every error with status 400 or 404 | `get_nutrition_analysis` for a food not in the table: 404 'Food not found' | the page shows `Food "<name>" not found in database`, as the mapping at nutrition.js:76-82 means to | not executed; high | NutritionPage.NotFoundHiddenAsWritten | NutritionPage.ApiErrorsShown |
| comparison.js:80-82 | `if (!response.ok) throw` runs before `result.error` is read, so the API's own refusal is never shown | a comparison of six foods: 400 'Maximum 5 foods can be compared' | the page shows the API's message, as comparison.js:86-89 means to | not executed; high | ComparisonPage.LimitErrorHiddenAsWritten | ComparisonPage.SelectFoods |
