# Job Radar: matcher and job-list logic in Dafny

Job Radar collects job postings from company career boards and shows them in
a browser, grouped by company. This project models the two pieces of logic in
it that are deterministic.

**The API server's keyword matcher** (`app/api/src/index.ts`):
- `matchJob` lower-cases a job's title, team and location.
- It adds 0.1 for each of twelve positive terms found in that text and
  subtracts 0.3 for each of four negative terms.
- A job is matched when the score exceeds 0.2. The reported score is the score
  clamped to [0, 1].
- The `/api/jobs/update` handler scores every scraped job and keeps the matched
  ones.
- The Anthropic scraper turns at most 50 job-board records into jobs.

**The web client's list logic** (`app/web/src/App.tsx`):
- the saved-job and collapsed-company toggles;
- the grouping of jobs by company;
- the per-company filter chain (matched, then search box or saved-only, then
  location);
- the per-company sort state machine behind the column headers, the sort it
  drives, and the arrow shown next to each header.

## Modules

- `Text` (`text.dfy`): JavaScript string operations on `seq<char>`:
  - `toLowerCase` as `ToLower`;
  - `includes` as `Contains`, with its characterisation by an occurrence index;
  - string `<` as `LexLess`, a strict total order.
- `Seqs` (`seqs.dfy`): `filter` as `Filter`. Lemmas cover concatenation,
  successive filters and counting.
- `Jobs` (`jobs.dfy`): the shared `Job` record. Optional fields are `Option`
  values, and `x || ''` is `OrEmpty`.
- `Matcher` (`matcher.dfy`): `matchJob`, the update pipeline and the
  Anthropic record mapping.
  - `MatchJob` is the imperative loop version with a decimal accumulator.
  - `Match` is its specification in whole tenths: with `pos` positive hits and
    `neg` negative hits the raw score is `pos - 3*neg` tenths.
  - The job is matched exactly when `pos - 3*neg > 2`, and the score is
    `clamp(pos - 3*neg, 0, 10) / 10`.
- `SortControls` (`sort_controls.dfy`): `handleSort`, `getSortIndicator` and
  `sortJobs`.
  - `sortJobs` is modelled as a stable insertion sort under the same
    comparator.
  - It is proved to be a permutation that is ordered as each comparator
    demands.
- `JobList` (`job_list.dfy`):
  - the toggles, as methods that copy a set and then delete or add;
  - the `reduce` grouping, as a method with a loop over a `map`;
  - the filter chain, which is proved equal to a single filter by the
    conjunction of its steps.

The comment at app/web/src/App.tsx:32 speaks of +0.25 for each matched phrase
of two or three words. `matchJob` (app/api/src/index.ts:51-88) scores only the
twelve fixed positive terms and four fixed negative terms. It lower-cases the
preference text but never uses it. The model follows `matchJob`.

## Model

| member | source | states |
|---|---|---|
| Text.ToLower | app/api/src/index.ts:54 | lower-casing keeps the length and lowers each character on its own, so it distributes over concatenation |
| Text.ToLowerAppend | app/api/src/index.ts:54 | lower-casing the joined text equals joining the lower-cased parts |
| Text.ContainsAt | app/api/src/index.ts:72 | `includes` holds exactly when the pattern occurs at some index of the text (both directions) |
| Text.ContainsExtended | app/api/src/index.ts:57-60 | a text containing a longer term also contains each of its prefixes |
| Text.LexLessIrreflexive | app/web/src/App.tsx:220-221 | no string is `<` itself |
| Text.LexLessAsymmetric | app/web/src/App.tsx:220-221 | string `<` never holds in both directions |
| Text.LexLessTransitive | app/web/src/App.tsx:220-221 | string `<` is transitive |
| Text.LexLessTotal | app/web/src/App.tsx:220-221 | two different strings are always ordered one way or the other |
| Seqs.Filter | app/api/src/index.ts:145 | `filter` keeps elements of the input that satisfy the predicate, all of them, with multiplicities bounded by the input's |
| Seqs.FilterAppend | app/api/src/index.ts:145 | filtering a concatenation is the concatenation of the filtered parts, so relative order is kept |
| Seqs.FilterFilter | app/web/src/App.tsx:384-418 | two successive filters equal one filter by the conjunction |
| Seqs.FilterThree | app/web/src/App.tsx:384-418 | three successive filters equal one filter by a predicate that agrees with their conjunction |
| Seqs.FilterLength | app/web/src/App.tsx:420 | the filtered length is the number of elements that satisfy the predicate |
| Matcher.MatchJob | app/api/src/index.ts:51-88 | the two accumulation loops and the threshold give matched iff pos - 3*neg > 2 tenths, and the score is that value clamped to [0, 1]; the result equals `Match` |
| Matcher.Match | app/api/src/index.ts:84-87 | the score lies in [0, 1]; matched implies score > 0.2 and unmatched implies score <= 0.2 |
| Matcher.JobText | app/api/src/index.ts:54 | the searched text has the length of title, team and location plus two separating spaces, and holds no upper-case letter |
| Matcher.Hits | app/api/src/index.ts:71-82 | the hit count never exceeds the number of table terms |
| Matcher.HitsCountsFoundTerms | app/api/src/index.ts:71-82 | with distinct table entries, the hit count is the number of distinct terms contained in the text, so each term counts once however often it occurs |
| Matcher.OverlappingTermsCountIndependently | app/api/src/index.ts:57-60 | a text containing "engineering" has both "engineer" and "engineering" among its found terms, so at least two positive hits |
| Matcher.TermInsideLongerWordCounts | app/api/src/index.ts:71-75 | a positive term that starts a longer word of the text (such as "system" in "systems") is among the found terms |
| Matcher.NoPositiveTermNoMatch | app/api/src/index.ts:67-87 | with no positive term in the job text the result is unmatched with score 0 |
| Matcher.JobTextParts | app/api/src/index.ts:54 | the searched text is the lower-cased title, team and location joined by spaces |
| Matcher.MatchDependsOnlyOnLoweredFields | app/api/src/index.ts:52-54 | two jobs with equal lower-cased title, team and location match alike under any preferences; snippet, ids, url and letter case play no part |
| Matcher.Scored | app/api/src/index.ts:139-142 | a re-scored job carries `Match`'s matched flag and score, and every other field is the input's |
| Matcher.Rescore | app/api/src/index.ts:139-142 | the map keeps the length and re-scores each job in place of the same index |
| Matcher.UpdateJobs | app/api/src/index.ts:139-145 | every kept job is matched with score in (0.2, 1] and is the re-scored form of a matched input job; every matched input job is kept |
| Matcher.UpdateJobsAppend | app/api/src/index.ts:139-145 | the update distributes over concatenation, so the output keeps input order |
| Matcher.UpdateJobsSingle | app/api/src/index.ts:139-145 | a single job is kept, with its own computed score, exactly when it matches |
| Matcher.ScoredIdempotent | app/api/src/index.ts:139-142 | re-scoring a scored job under any preferences changes nothing |
| Matcher.UpdateJobsIdempotent | app/api/src/index.ts:139-145 | running the update on its own output returns that output |
| Matcher.FirstDepartment | app/api/src/index.ts:100 | the first department's name, or the empty string when there is no department or it has no name |
| Matcher.FromBoard | app/api/src/index.ts:97-106 | id is "anthropic-" followed by the board id, which can be read back; company "Anthropic"; title, url and posted date from the board; team the first department or ""; location the location name or ""; snippet ""; unmatched with score 0 |
| Matcher.AnthropicJobs | app/api/src/index.ts:96-107 | a failed response gives no jobs; otherwise min(n, 50) jobs, each with id "anthropic-" + board id, company "Anthropic", the board title, url and posted date, team the first department or "", location the location name or "", snippet "", unmatched with score 0 |
| Matcher.RefreshedJobs | app/api/src/index.ts:130-145 | the stored jobs are at most 50, all matched, all Anthropic, all with the "anthropic-" id prefix |
| SortControls.HandleSort | app/web/src/App.tsx:170-190 | only the clicked company's entries change; on the current column the direction cycles asc, desc, none, asc; any other column starts at asc; the new column is unset exactly when the new direction is |
| SortControls.NextDirection | app/web/src/App.tsx:174-186 | a click on another column gives asc, and a click on the current column always changes the direction |
| SortControls.HandleSortKeepsConsistent | app/web/src/App.tsx:188-189 | if column and direction are unset together for every company, they stay so after a click |
| SortControls.ThreeClicksRestore | app/web/src/App.tsx:174-186 | three clicks on the same header restore an unsorted company, or one sorted by that header |
| SortControls.SortIndicator | app/web/src/App.tsx:427-432 | up arrow iff the column matches and the direction is asc; down arrow iff the column matches and the direction is not asc; empty iff the column does not match |
| SortControls.IndicatorAfterClick | app/web/src/App.tsx:427-432 | after a click, other headers show no arrow, and the clicked one shows none exactly when the click cleared the sort |
| SortControls.OrderOf | app/web/src/App.tsx:193-197 | a column comparator is used exactly when both a column and a direction are set, and it is that column and direction; otherwise the default |
| SortControls.KeyOf | app/web/src/App.tsx:205-218 | the match column sorts by the score with a missing score read as 0; the title column by the lower-cased title and the location column by the lower-cased `location \|\| ''`, strings with no upper-case letter |
| SortControls.SortIgnoresCase | app/web/src/App.tsx:205-222 | jobs whose titles (or locations) agree after lower-casing compare as equal on that column in either direction |
| SortControls.Compare | app/web/src/App.tsx:198-223 | the default comparator is negative exactly when `a` has the higher score and zero on equal scores; a column comparator is negative exactly when `a`'s key is smaller (asc) or larger (desc), and zero exactly when neither key is smaller |
| SortControls.CompareWithItself | app/web/src/App.tsx:198-223 | every comparator returns zero for a job compared with itself |
| SortControls.KeysOfOneColumnAreOrdered | app/web/src/App.tsx:205-222 | comparing one column's keys is asymmetric and negatively transitive |
| SortControls.CompareFlip | app/web/src/App.tsx:201-223 | a comparator that puts `a` after `b` does not put `b` after `a` |
| SortControls.CompareTransitive | app/web/src/App.tsx:198-223 | "not after" is transitive for every comparator |
| SortControls.InsertSorted | app/web/src/App.tsx:198-223 | inserting into a sorted list keeps it sorted |
| SortControls.SortBySorted | app/web/src/App.tsx:198-223 | the sort's output is ordered by the comparator |
| SortControls.SortJobs | app/web/src/App.tsx:192-224 | a permutation of the input; with no column or no direction, scores (missing read as 0) do not increase; asc never decreases the lower-cased column key, desc never increases it |
| SortControls.DefaultIsMatchDescending | app/web/src/App.tsx:196-199 | the default comparator orders pairs as the desc match-column comparator does |
| JobList.ToggleSaveJob | app/web/src/App.tsx:111-121 | the id's membership flips and every other id's membership is unchanged (`Flipped`) |
| JobList.ToggleCompany | app/web/src/App.tsx:158-168 | the company's membership flips, the rest is unchanged, and the size moves by one |
| JobList.ToggleTwiceRestores | app/web/src/App.tsx:111-121 | toggling the same element twice gives back the original set |
| JobList.FlipIsDeterministic | app/web/src/App.tsx:158-168 | the flip of one element determines the new set |
| JobList.OfCompanyAbsent | app/web/src/App.tsx:227-233 | a company with no jobs has an empty bucket |
| JobList.PushKeepsBuckets | app/web/src/App.tsx:228-231 | one push keeps every bucket equal to its company's jobs so far, in order |
| JobList.GroupByCompany | app/web/src/App.tsx:227-233 | the keys are exactly the companies present, and each bucket is that company's jobs in their original order |
| JobList.BucketSizesSum | app/web/src/App.tsx:227-233 | listing every company once, the bucket sizes add up to the number of jobs |
| JobList.CompanyJobsOfGrouping | app/web/src/App.tsx:365 | `jobsByCompany[company] \|\| []` read from the grouping is exactly that company's jobs in order, and empty for a company with no jobs |
| JobList.SearchPasses | app/web/src/App.tsx:387-399 | an empty term keeps every job; ":saved" keeps exactly the jobs whose id is saved |
| JobList.SearchTermOccurs | app/web/src/App.tsx:393-397 | any other term keeps a job exactly when the lower-cased term occurs at some position of the lower-cased title or location |
| JobList.LocationTest | app/web/src/App.tsx:403-416 | "remote" keeps exactly the locations where "remote" occurs; "us" keeps every location holding "us" or passing the state-name test; any other value keeps all |
| JobList.UsFilterAdmitsAustralia | app/web/src/App.tsx:407 | the "us" choice tests for the letters "us" anywhere, so "sydney, australia" passes it |
| JobList.LocationPasses | app/web/src/App.tsx:402-418 | "all" keeps every job; "remote" keeps exactly the jobs whose lower-cased location contains "remote" |
| JobList.MatchedJobs | app/web/src/App.tsx:366 | the matched jobs are jobs of the company, all matched, and their number is the count of matched jobs |
| JobList.SearchStage | app/web/src/App.tsx:386-399 | the search step is one filter by the search-box predicate, including the empty-term case that keeps everything |
| JobList.LocationStage | app/web/src/App.tsx:401-418 | the location step is one filter by the location predicate, including "all", which keeps everything |
| JobList.VisibleJobs | app/web/src/App.tsx:384-420 | the chain is one order-preserving filter by the conjunction, and filtered count <= matched count <= total count |
| JobList.ShownIsOneFilter | app/web/src/App.tsx:384-418 | matched, then search, then location filtering equals filtering once by all three |
| JobList.VisibleJobsMeaning | app/web/src/App.tsx:387-418 | every listed job is a matched job of the company; every job that passes is listed; ":saved" lists only saved ids; another non-empty term lists only jobs whose lower-cased title or location contains it; "remote" lists only locations containing "remote" |
| JobList.CompanyRows | app/web/src/App.tsx:364-424 | a company's rows are a reordering of its visible jobs |
| JobList.CompanyRowsAreMatchedJobsOfTheCompany | app/web/src/App.tsx:364-424 | every row under a company is a matched job from that company's bucket |

## Left out

- HTTP and file I/O are not modelled: the Express routes, `readFile`, `writeFile`, `mkdir`, JSON parsing and the `fetch` to the job board. `AnthropicJobs` takes the parsed response as a parameter, and `None` stands for a fetch or parse failure, which the scraper turns into an empty list.
- `scrapeOtherCompanies` returns an empty list, so `RefreshedJobs` uses only the Anthropic jobs.
- The debug and OpenAI scraping scripts and the end-to-end browser tests drive third-party pages and are not part of this model.
- React state, rendering, `localStorage`, `alert`/`confirm`, date formatting and percentage display are not modelled. Each state update is a function or method from the old value to the new one.
- The fixed list of ten company names that the page iterates over is not modelled. `CompanyRows` is stated for any one company.
- `MatchJob`, `Match`: IEEE-754 doubles are not modelled. The score is an exact number of tenths. In doubles the reported score can differ from it in the last bits (0.1 added three times is 0.30000000000000004). The decision is the same: the four ways to reach exactly 0.2 (2, 5, 8 or 11 positive hits with 0, 1, 2 or 3 negative hits) give a double equal to or just below 0.2, which is not above the threshold.
- `MatchJob`: the lower-cased preference strings are computed and never used, as in the code.
- `ToLower`: lower-cases ASCII letters only. JavaScript's `toLowerCase` also maps non-ASCII letters.
- `LexLess`: compares characters, where JavaScript compares UTF-16 code units. The two orders differ only for characters outside the Basic Multilingual Plane.
- `SortJobs`: the model sorts with a stable insertion sort and proves a permutation and the order. Stability, which JavaScript's `sort` also guarantees, is not stated.
- `KeyOf`: a `NaN` score is not representable. Scores are reals.
- `Job`: `title` is always a string, so a job without a title is not modelled. `matchJob` would render a missing title as "undefined" in its template (app/api/src/index.ts:54). The web client would throw a TypeError on `job.title.toLowerCase()`, both in the search filter (app/web/src/App.tsx:395) and in the title sort (app/web/src/App.tsx:207). The board's numeric job id is modelled as its decimal string.
- `LocationTest`: the state-name regular expression used by the "us" location filter is the parameter `usStateName`. No regular-expression engine is modelled.
- `GroupByCompany`: the accumulator is a map. A plain JavaScript object would also see inherited keys such as "constructor", which no real company name produces.
