# JobGenie relevance filter and aggregation, in Dafny

JobGenie searches job boards for a fixed list of entry-level analyst titles,
keeps the postings whose title and description pass five keyword rules,
appends the survivors of every search into one frame, drops duplicate
postings, and writes the result to a CSV file that is then emailed. This
project models the part that decides what ends up in that file:

- `text.dfy` (module `Text`): case-insensitive substring search, the test that
  `str.contains(pattern, case=False, na=False)` applies for each keyword.
- `frames.dfy` (module `Frames`): listings, columns and data frames, with
  `pd.DataFrame()`, `DataFrame.empty` and `pd.concat`.
- `rules.dfy` (module `Rules`): the five keyword lists and the boolean mask of
  `fetch_jobs`, and what the filter keeps and drops.
- `fetch.dfy` (module `Fetch`): one search, `fetch_jobs`, including its three
  "nothing found" exits (no rows, no survivors, an exception).
- `aggregate.dfy` (module `Aggregate`): the loop over `job_roles` that grows
  `all_jobs_df`, as a method with an accumulator, proved equal to a recursive
  fold of the search results, with role isolation and completeness lemmas.
- `dedup.dfy` (module `Dedup`): keep-first `drop_duplicates` on `job_url` or
  `title`, as a method that scans once with a set of seen keys.
- `run.dfy` (module `Run`): the credential gate, the search loop and the save
  stage, in the order the script runs them.
- `scenarios.dfy` (module `Scenarios`): two worked cases, a "Senior" posting
  and two searches finding the same URL.
- `seqs.dfy`, `wrappers.dfy`: order-preserving subsequences (stated with an
  explicit increasing index list) and `Option`/`Result`.

The job board is a parameter, `Provider = string -> Result<Frame, string>`:
for each search term it yields rows or the exception the scrape raised. A
missing cell (NaN) is `None`. A frame records which columns it has, and a row
never holds a value in a column its frame lacks, as pandas fills such cells
with NaN when it concatenates.

Points where the code is easy to misread; the model follows the code:

- The deduplication key is chosen once for the whole frame (`Dedup.KeyByUrl`):
  `job_url` for every row whenever the accumulated frame has a `job_url`
  column, otherwise `title` for every row (jobgenie.py:99). Rows without a URL
  in a frame that has the column share the missing key, so only the first of
  them survives.
- Matching is literal substring search over ASCII lower-case, not
  Unicode-aware case folding and not regular-expression matching (see
  "## Left out").
- The email step (jobgenie.py:156) is called on every run that passes the
  credential check, even one that saved nothing; it is not modelled, and no claim is made that it is skipped.

## Model

| member | source | states |
|---|---|---|
| `Text.Contains` | jobgenie.py:70-75 | true exactly when the keyword occurs at some position of the text: substring search, the test each alternative of the joined pattern performs |
| `Text.MatchesAny` | jobgenie.py:70-75 | true exactly when the cell is present and some keyword of the list occurs in it ignoring case; a missing cell never matches (`na=False`) |
| `Text.InfixMatches` | jobgenie.py:75 | a keyword matches wherever it occurs, also inside a longer word and whatever the case: matching is by substring, not by word |
| `Text.SameUpToCase` | jobgenie.py:70-75 | two texts that agree once lower-cased match exactly the same keywords (`case=False`) |
| `Text.CaseBlind` | jobgenie.py:70 | lower-casing a text first does not change whether a keyword matches it (`case=False`) |
| `Seqs.SelectExact` | jobgenie.py:69-76 | indexing by a boolean mask keeps exactly the positions where the mask holds, in increasing order |
| `Seqs.SelectedPositionsExact` | jobgenie.py:69-76 | the listed positions embed the masked rows in the input and are exactly the positions where the mask holds |
| `Rules.Filter` | jobgenie.py:69-76 | every row the filter returns is a row of its input for which `Rules.Relevant` holds, the conjunction of the five conditions (no eligibility keyword in the description, a role in the title, an experience term in the title or description, no seniority and no non-computing keyword in the title); it never returns more rows than it got |
| `Rules.FilterSelects` | jobgenie.py:69-76 | the filter's result is the subsequence of the input made of exactly the rows passing all five conditions, in input order |
| `Rules.FilterIsSubsequence` | jobgenie.py:69-76 | the filter's result is an order-preserving subsequence of its input |
| `Rules.FilterKeepsRelevant` | jobgenie.py:69-76 | a row of the input passing all five conditions is in the result |
| `Rules.HardExclusionDrops` | jobgenie.py:70 | a row whose description contains, ignoring case, an eligibility keyword ("US citizen", "Green card", ...) is dropped, whatever its title |
| `Rules.KeptNeedsRoleAndExperience` | jobgenie.py:71-73 | a kept row has a title containing some entry of the whole role list, and some experience term in its title or its description |
| `Rules.TitleExclusionDrops` | jobgenie.py:74-75 | a row whose title contains a seniority or non-computing keyword is dropped |
| `Rules.MissingCells` | jobgenie.py:69-76 | a row without a title is dropped; a row without a description is kept exactly when its title alone passes the role, experience, seniority and field tests |
| `Rules.CompliantKept` | jobgenie.py:69-76 | a row with no eligibility keyword in its description, a role in its title, no excluded keyword in its title and an experience term in its title or description is kept |
| `Fetch.TagKeeps` | jobgenie.py:82 | `Fetch.Tag` (setting the `search_term` column) keeps the number of rows and does not change the mask's verdict on any row; rows that fit their frame fit it with `search_term` added and carry the role, and stay relevant when all the rows were |
| `Fetch.TagFrom` | jobgenie.py:76-82 | tagging rows drawn from the answer gives rows drawn from the tagged answer |
| `Fetch.FetchJobs` | jobgenie.py:50-88 | an exception, an empty answer (`Frames.IsEmpty`, `DataFrame.empty`: no rows or no columns), a frame without a `title` or `description` column, or no survivors all give `pd.DataFrame()`; otherwise the result is over the answer's columns plus `search_term`, has no more rows than the answer, and every returned row is a row of the answer tagged with the role that passes the mask |
| `Fetch.FetchJobsSelects` | jobgenie.py:64-83 | an answer with both text columns, empty or not, gives, tagged with the role, exactly the rows passing the mask, in their original order |
| `Fetch.FetchJobsKeeps` | jobgenie.py:69-83 | a relevant row of a usable answer reaches the search result, tagged with the role, and that result is not empty |
| `Aggregate.AccumulateAppend` | jobgenie.py:91-94 | `Aggregate.Accumulate` (skip an empty result, otherwise `Frames.Concat`, i.e. `pd.concat`, onto the accumulator) over two runs of search results gives the rows of the first run followed by those of the second, over the union of their columns |
| `Aggregate.AccumulateFrom` | jobgenie.py:91-94 | every accumulated row is a row of one of the search results |
| `Aggregate.CollectSound` | jobgenie.py:91-94 | every accumulated row passes the mask and is tagged with one of the roles searched |
| `Aggregate.FetchAll` | jobgenie.py:91-94 | the loop's accumulator ends equal to `Aggregate.Collect`, the recursive `Accumulate` over each role's search result, and every role is searched once, in list order |
| `Aggregate.CollectAppend` | jobgenie.py:91-94 | searching two role lists one after the other gives the first list's rows followed by the second's, over the union of their columns |
| `Aggregate.CollectOne` | jobgenie.py:91-94 | searching one role accumulates exactly that search's rows |
| `Aggregate.CollectConcatenates` | jobgenie.py:91-94 | the accumulated rows are the concatenation, in role order, of each role's filtered and tagged rows |
| `Aggregate.RoleIsolation` | jobgenie.py:85-94 | a role whose search raises or finds nothing contributes nothing: the result is the rows of the roles before it followed by those of the roles after it |
| `Aggregate.CollectComplete` | jobgenie.py:91-94 | every relevant row of every role with a usable answer is accumulated, tagged with that role, whatever the other roles' searches do |
| `Dedup.KeepFirst` | jobgenie.py:99 | the deduplicated rows come from the input, have pairwise distinct keys, and have the same set of keys as the input |
| `Dedup.FirstOccurrenceAppend` | jobgenie.py:99 | appending a row does not change which earlier rows are first of their key, and the new row is first exactly when its key is new |
| `Dedup.FirstPositionsExact` | jobgenie.py:99 | the listed positions embed the deduplicated rows in the input and are exactly the positions no earlier row shares a key with |
| `Dedup.KeepFirstSelects` | jobgenie.py:99 | deduplication keeps exactly the rows that no earlier row shares a key with, in input order (keep="first") |
| `Dedup.DropDuplicates` | jobgenie.py:99 | the single scan with a set of seen keys, keyed on `job_url` when the frame has that column and on `title` otherwise (`Dedup.KeyByUrl`), returns the keep-first rows with distinct keys and the same key set, and keeps the columns |
| `Run.Save` | jobgenie.py:97-103 | an empty accumulator (`Frames.IsEmpty`, `DataFrame.empty`) saves nothing; otherwise the saved frame is the non-empty keep-first deduplication of the accumulator |
| `Run.RunScript` | jobgenie.py:19-21 | a missing or empty sender, password or recipient (`Run.CredentialsComplete` false, Python truthiness of `all([...])`) aborts the run before any search; otherwise every role is searched in order and the outcome is the save stage applied to the accumulator |
| `Scenarios.SeniorPostingDropped` | jobgenie.py:74 | a search for "Business Analyst" whose only posting is titled "Senior Business Analyst" leaves the accumulator empty |
| `Scenarios.SharedUrlKeepsFirst` | jobgenie.py:99 | of two postings with the same URL, deduplication keeps only the first found |

## Left out

- The `scrape_jobs` call (jobgenie.py:54-62) is network access in an external
  library: it is the `Provider` parameter, and its arguments (sites, location,
  result cap, recency window, the Google query string) are not modelled. The
  provider is a function of the search term, so repeated terms get the same
  answer.
- Regular-expression semantics of the joined patterns: "Sr." there matches
  "Sr" followed by any character, and "1+ years" / "2+ years" match one or
  more '1' or '2' before " years" (so "11 years" matches, the literal
  "1+ years" does not). The model matches every keyword literally; the three
  keywords are marked in `rules.dfy`.
- Empty keyword lists: `MatchesAny` with no keywords matches nothing, whereas
  `"|".join([])` is the empty pattern, which matches every present cell. The
  lemmas about `Rules` hold for any `RuleSet`, so they describe the script
  only for non-empty lists; none of the script's five lists is empty.
- Unicode case folding: `re.IGNORECASE` folds all of Unicode; the model
  lower-cases ASCII letters only.
- Non-string cell values (numbers in a text column) and the exceptions they
  could raise inside the filter: cells are strings or missing.
- Writing the CSV file (jobgenie.py:100), building and sending the email
  (jobgenie.py:106-156), logging and traceback output: file, transport and
  diagnostic work. The saved frame is the `Saved` outcome.
- pandas internals: the row index (`ignore_index`), dtypes, and columns other
  than title, description, job_url, site and search_term.
- The concrete case of an "Associate Business Analyst" posting with "2+ years"
  in its description being kept is not proved for those strings (it needs every
  exclusion keyword shown absent); `Rules.CompliantKept` states it for all rows.
