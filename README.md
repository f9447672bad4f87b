# Country refresh service: a Dafny model

This project models the core of a small country-data service in Dafny.
The service has five parts:

- It fetches a country list and a USD exchange-rate table from two upstream sources.
- It enriches each country with a currency code, an exchange rate and an estimated GDP.
- It upserts every country into a `countries` table, keyed case-insensitively by name. An update smooths the GDP by a random factor in [0.9, 1.1).
- It reports a summary: the row count, the top five by GDP and the latest refresh time.
- It serves list, get-by-name, delete-by-name and status queries over the table.

The model is organised in four modules:

- `Records` holds the value types and the JavaScript semantics the core relies on: null, truthiness, `s || null`, and the lower-casing used for every name comparison.
- `Storage` replaces the MySQL table with a `CountryTable` class holding a `seq<Row>`. It also gives the relational meaning of each SQL statement the core sends:
  - case-insensitive select, update and delete;
  - `COUNT`;
  - `MAX(last_refreshed_at)`;
  - `ORDER BY estimated_gdp` with NULL lowest.
- `Helpers` models `helpers.js`:
  - `getRandomIntRange`;
  - the list-query builder (an imperative method over `conditions`, `values` and `sql`) and the rows the query selects;
  - the upsert `saveCountryToDB` (a module-level method that takes the table and changes its rows, specified by the function `SaveSpec`);
  - `getSummaryData`.
- `Server` models `server.js`:
  - the refresh handler: the upstream guard, the enrichment loop as a `while` loop, and the saves loop;
  - the get, delete and status handlers.

Every random choice the code makes comes in as a parameter. Each country gets a `Draw` with three parts:

- the `Math.random()` value behind the GDP factor;
- the value behind the smoothing factor;
- whether that country's storage write fails (the failure is swallowed).

The refresh time stamped onto rows is a supplied `now`.

## Model

| member | source | states |
|---|---|---|
| Records.OrNull | helpers.js:60-66 | `s \|\| null`: a truthy string is kept; absent or "" becomes null; the result is never "" |
| Records.LowerChar | helpers.js:33 | ASCII `toLowerCase` on one character: each of A-Z maps to its own lower-case letter (same offset from 'a' as from 'A'), every other character is unchanged |
| Records.Lower | server.js:104 | `LOWER(s)` keeps the length and lower-cases each character |
| Records.LowerIdempotent | server.js:104 | lower-casing twice equals lower-casing once |
| Records.NameMatches | helpers.js:48 | `LOWER(name) = LOWER(?)`: two names match when their lower-cased forms are equal |
| Records.JapanMatchesLowerJapan | helpers.js:48 | "Japan" matches "japan" and does not match "Jamaica" |
| Storage.MatchCount | helpers.js:48-51 | the number of rows `WHERE LOWER(name) = LOWER(?)` selects, counted with repetition (the length of Matching); at most the table length, and 0 iff no row matches |
| Storage.UniqueMatchAtMostOne | helpers.js:48-51 | when names are unique case-insensitively, a name selects at most one row |
| Storage.UniqueNamesTail | helpers.js:48-51 | dropping the first row of a table with unique names keeps them unique |
| Storage.Matching | helpers.js:48-49 | the select by name returns exactly the matching rows: each row occurs in the result as often as in the table if it matches, and not at all otherwise |
| Storage.WithoutName | server.js:124-125 | the delete keeps exactly the non-matching rows: each row occurs as often as in the table if it does not match, and not at all if it does; the length drops by MatchCount; a name with no match leaves the table as it was |
| Storage.Kept | server.js:124-125 | the recursion behind the delete: the same multiplicities and the same length as WithoutName |
| Storage.KeptMembers | server.js:124-125 | from those multiplicities: every kept row is a non-matching row of the table, and every non-matching row is kept |
| Storage.KeptAllWithoutMatch | server.js:127-128 | a name that matches no row keeps the whole table |
| Storage.UpdateMatching | helpers.js:53-57 | the UPDATE keeps the length and every name; non-matching rows are unchanged; each matching row gets the SET fields |
| Storage.MaxStamp | helpers.js:102 | `MAX(last_refreshed_at)` is null iff the table is empty; otherwise it bounds every row's stamp and is attained by one |
| Storage.InsertByGdp | helpers.js:101 | inserting into the GDP order adds exactly one row: the length grows by one and the multiset gains `x` |
| Storage.InsertByGdpSorted | helpers.js:101 | insertion keeps a GDP-sorted sequence sorted |
| Storage.SortByGdp | helpers.js:101 | `ORDER BY estimated_gdp` gives a permutation of the rows that is sorted, with NULL lowest |
| Storage.MatchingMembers | helpers.js:48-51 | from those multiplicities: every selected row matches and is in the table, and every matching row is selected |
| Storage.CountryTable.FindByName | helpers.js:48-49 | the result is non-empty iff some row matches the name, and holds only matching rows of the table |
| Storage.CountryTable.Insert | helpers.js:74-90 | an INSERT appends the row |
| Storage.CountryTable.UpdateByName | helpers.js:53-70 | an UPDATE replaces the table with UpdateMatching of it |
| Storage.CountryTable.DeleteByName | server.js:124-125 | a DELETE leaves WithoutName of the table; `affectedRows` is the match count and equals the number of rows removed |
| Helpers.Ceil | helpers.js:7 | `Math.ceil`: the least integer at or above x |
| Helpers.RandomIntRange | helpers.js:6-10 | for a draw in [0,1) the result lies in [ceil(min), floor(max)] whenever that range is non-empty |
| Helpers.RandomIntRangeCovers | helpers.js:6-10 | every integer of [ceil(min), floor(max)] is the result for some draw |
| Helpers.GdpFactorBounds | server.js:51 | `getRandomIntRange(1000, 2000)` lies in [1000, 2000] |
| Helpers.Conditions | helpers.js:15-26 | the `conditions` array has one entry per truthy filter, each a region or currency condition; region comes first and currency last |
| Helpers.Join | helpers.js:29 | `conditions.join(" AND ")` |
| Helpers.JoinEnds | helpers.js:29 | a join of a non-empty list starts with its first part and ends with its last |
| Helpers.WhereClause | helpers.js:28-30 | the WHERE suffix is empty iff there is no condition, and otherwise starts with " WHERE " |
| Helpers.SortOrderOf | helpers.js:32-35 | descending order iff the sort value lower-cases to "gdp_desc", ascending iff it lower-cases to "gdp_asc", no order otherwise |
| Helpers.WhereClauseCases | helpers.js:15-30 | the WHERE clause for each of the four combinations of truthy filters |
| Helpers.WherePlaceholders | helpers.js:15-30 | the WHERE clause has one `?` per truthy filter |
| Helpers.OrderPlaceholders | helpers.js:32-35 | the ORDER BY suffix has no `?` |
| Helpers.QueryPlaceholders | helpers.js:12-35 | the whole query text has one `?` per pushed value |
| Helpers.PlaceholdersMatchValues | helpers.js:14-35 | a query text and values list built from the same filters have equally many placeholders and values |
| Helpers.BuildListQuery | helpers.js:14-35 | `values` holds the truthy region, then the truthy currency; the text is the select, then the WHERE clause, then the ORDER BY for the lower-cased sort; the `?` count equals the length of `values` |
| Helpers.WhereClauseShape | helpers.js:28-30 | a WHERE clause is appended iff a filter is truthy; with both filters it is " WHERE region = ? AND currency_code = ?" |
| Helpers.SortIgnoresCase | helpers.js:32-35 | two sort values that agree after lower-casing select the same order |
| Helpers.UpperCaseSortDescends | helpers.js:32-35 | "GDP_DESC" orders descending, "Gdp_Asc" ascending, and "population" adds no ORDER BY |
| Helpers.PassesFilters | helpers.js:18-26 | the meaning of `region = ? AND currency_code = ?` on one row, each condition present only for a truthy filter |
| Helpers.FilterRows | helpers.js:18-30 | the WHERE clause keeps each row that passes the filters as often as the table holds it, and no other row |
| Helpers.ListCountries | helpers.js:12-38 | the list is a permutation of the filtered rows; it is GDP-descending for gdp_desc, GDP-ascending for gdp_asc, and otherwise the filtered rows in the order the model picks (storage order) |
| Helpers.SameMembers | helpers.js:37-38 | a permutation of a sub-multiset of the table contains only rows of the table |
| Helpers.RetrieveCountriesFromDB | helpers.js:12-43 | returns the query text (the select, the WHERE clause, the ORDER BY for the sort), its values list with matching `?` count, and the rows the table answers: a permutation of the filtered rows, sorted as the sort value asks |
| Helpers.SmoothingFactor | helpers.js:52 | `0.9 + Math.random() * 0.2` lies in [0.9, 1.1) |
| Helpers.Smoothed | helpers.js:52 | the smoothed GDP lies in [0.9·g, 1.1·g], strictly below 1.1·g when g>0; a null GDP becomes 0 |
| Helpers.ScaleBounds | helpers.js:52 | a value times a factor in [0.9, 1.1) lies between 0.9 and 1.1 times the value |
| Helpers.NegativeScaleBounds | helpers.js:52 | the same bound for a negative value, with the order reversed |
| Helpers.UpdateFields | helpers.js:59-68 | the SET values: capital, region and flag are `OrNull` of the country's (falsy ones become null, truthy ones are kept); the GDP is the smoothed GDP; the GDP is never null (a null GDP becomes 0); population, code and rate are copied |
| Helpers.InsertedRow | helpers.js:79-88 | the inserted row keeps the name, population, code, rate and the computed GDP unsmoothed; capital, region and flag are `OrNull` of the country's; it carries the stamp `now` |
| Helpers.SaveSpec | helpers.js:46-96 | a failed write leaves the table unchanged. With a case-insensitive match: no row is added, no name is rewritten, non-matching rows are untouched, and every matching row gets the nulled fields and the smoothed GDP. With no match: exactly one row is appended, carrying the name, the nulled capital/region/flag and the given GDP |
| Helpers.SaveCountryToDB | helpers.js:46-96 | the select-then-update-or-insert leaves the table equal to SaveSpec of the old table |
| Helpers.SaveMakesPresent | helpers.js:46-92 | after a save that did not fail, the country's name is in the table |
| Helpers.SaveKeepsPresent | helpers.js:46-96 | a save never removes a name that was in the table |
| Helpers.SavePreservesUniqueNames | helpers.js:46-92 | the upsert keeps names unique case-insensitively |
| Helpers.CaseVariantUpdatesOneRow | helpers.js:48-51 | saving "Japan" and then "japan" adds no second row |
| Helpers.UpdateStoresZeroForNullGdp | helpers.js:52 | on update a null computed GDP is stored as 0 |
| Helpers.SummaryData | helpers.js:98-110 | the count is the table length. The top list has min(5, count) entries, non-increasing by GDP, and is a sub-multiset of the projected rows; every row is in it or at or below its fifth entry, and with five entries each entry strictly above the fifth occurs in it as often as in the table. `lastRefreshedAt` is null iff the table is empty and is otherwise the maximum stamp |
| Helpers.Projections | helpers.js:101 | `SELECT name, estimated_gdp` keeps the length and projects each row |
| Helpers.ProjectionsAppend | helpers.js:101 | projecting a concatenation concatenates the projections |
| Helpers.ProjectionsPermutation | helpers.js:101 | projections of two permutations of each other are permutations of each other |
| Helpers.TopAboveFifthComplete | helpers.js:101 | with at least five rows, an entry whose GDP is strictly above the fifth of the GDP order occurs among the first five as often as in the table |
| Helpers.TopIsSubMultiset | helpers.js:101 | the projected first n rows of the GDP order are a sub-multiset of the projected table |
| Helpers.TopFiveFacts | helpers.js:101 | the first five rows in GDP order come from the table, and every other row's GDP is at or below the fifth |
| Helpers.TopEntryFromRow | helpers.js:101 | each sorted row is a row of the table |
| Helpers.RowInTopOrBelow | helpers.js:101 | a row outside the first five in GDP order has a GDP at or below the fifth |
| Server.GdpBounds | server.js:51 | with a factor in [1000, 2000] and a positive rate, population·factor/rate lies in [p·1000/r, p·2000/r] |
| Server.Enrich | server.js:36-60 | other fields are kept. No or empty currencies: code and rate null, GDP exactly 0. Otherwise: the code is the first currency's code. A missing or zero rate: rate and GDP null. A found rate: it is kept, and with r>0 the GDP lies in [p·1000/r, p·2000/r]. The GDP is null iff a code exists and the rate does not |
| Server.EnrichGdpFactor | server.js:51 | with a rate found, the GDP is population·k/rate for a whole k in [1000, 2000] |
| Server.EnrichAll | server.js:34-61 | `refinedCountryData`: one record per country, in order, with the name and population kept and a null code exactly for a country without currencies |
| Server.RefineCountries | server.js:34-61 | the refined list has the length and order of the country list, and entry i is Enrich of country i |
| Server.RefreshStatus | server.js:18-30 | an unavailable source is answered with 503, a refresh with 200 |
| Server.Refresh | server.js:13-72 | the country source is checked first. A bad response gives 503 and the table is unchanged. Otherwise the table is the sequential saves of the refined list, and the reply carries the summary's count and stamp |
| Server.SaveAll | server.js:62-64 | the saves of the refined list one after another; when every write fails the table is unchanged |
| Server.SaveCountries | server.js:62-64 | the saves loop leaves the table equal to SaveAll of the old table over the refined list |
| Server.SaveAllBounds | server.js:62-64 | the saves never shrink the table and add at most one row per country |
| Server.SaveAllKeepsNames | server.js:62-64 | the saves keep every name that was in the table |
| Server.SaveAllStoresEachCountry | server.js:62-64 | after the saves, every country whose write did not fail has a row |
| Server.SaveAllKeepsUniqueNames | server.js:62-64 | the saves keep names unique case-insensitively |
| Server.TestlandScenario | server.js:45-49 | a country whose currency has no rate, saved into an empty table, is stored with a null GDP and its code; the refresh reports 1 country and the stamp `now` |
| Server.GetCountry | server.js:104-113 | not found iff no row matches case-insensitively; otherwise a matching row (LIMIT 1), the model picking the first in storage order |
| Server.GetStatus | server.js:109-113 | 404 iff not found |
| Server.DeleteCountry | server.js:120-131 | the table becomes WithoutName of the old table; affected rows are the rows removed; a not-found reply (404) happens iff none were removed, iff no row matched |
| Server.DeleteRemovesOneRow | server.js:124-131 | with unique names, a delete that finds the name removes exactly one row and no match remains |
| Server.DeleteKeepsUniqueNames | server.js:124-125 | deleting keeps names unique |
| Server.UniqueNamesCons | server.js:124-125 | a row that matches no row of a unique table can be put in front of it |
| Server.Status | server.js:138-153 | the count is the table length; `last_refreshed_at` is null iff the table is empty, and is otherwise an upper bound of the stamps that some row attains |
| Server.RefreshAgreesWithStatus | server.js:65-72 | the count and stamp a refresh reports are the ones the status query gives for the same table |

## Left out

- `database.js` (the MySQL pool and `pool.execute`): foreign I/O. It is replaced by the in-memory `CountryTable`.
- Express routing, HTTP bodies and messages, `fetch` and `.json()` parsing: I/O. An upstream response is only `Ok(body)` or `NotOk`; the country body is a sequence of `RawCountry` and the rate body is a `map<string, real>` of rates.
- The 500 paths. The model treats every one of these as succeeding, since each lies in I/O or JSON shape that is not modelled:
  - a rejected `fetch` of either source (server.js:15-16), which reaches the catch at server.js:73-75 and answers 500, not 503;
  - an exception thrown by `.json()`, or a rate body lacking `rates`;
  - a failing summary query or image write during refresh;
  - a failing list query, which `retrieveCountriesFromDB` rethrows (helpers.js:39-41) and the list handler answers with 500 (server.js:86-88);
  - failing get, delete and status queries (server.js:114-117, server.js:132-135, server.js:155-158).
- `generateSummaryImage` and the `/countries/image` file check: canvas rendering and file-system access.
- `Math.random`: each draw is a parameter in [0, 1). The model proves bounds and reachability of values, not their distribution.
- Refresh: `saveCountryToDB` is not awaited in the source, so the saves may finish after the summary is read. The model runs the saves one after another, before the summary.
- `last_refreshed_at`: the SQL never assigns it, so the database decides its value. The model stamps a supplied `now` on every inserted or updated row. ISO date formatting of that stamp is not modelled.
- Floating point: GDP, rates and the smoothing factor are `real`, with no rounding.
- Case-insensitive matching lowers ASCII letters only. The database collation's treatment of other characters is not modelled.
- The list filters `region = ?` and `currency_code = ?` are modelled as exact string equality, since the column collation is not part of this model.
- Rows that tie under `ORDER BY estimated_gdp` keep storage order. SQL leaves their order unspecified.
- A `SELECT` without `ORDER BY` has no defined order in SQL: the unsorted list (helpers.js:14-30) and the `LIMIT 1` lookup by name (server.js:104) may return rows in any order, or any one matching row. The model picks storage order for both, so `GetCountry` returns the first matching row and `ListCountries` returns the filtered rows in table order.
- A currency entry without a `code` (JavaScript `undefined`) is not modelled: a code is always a string.
- Console logging.
