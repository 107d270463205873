# Job matching pipeline: a Dafny model

This project models the job tools of the job-seeker crew, found in
`src/job_seeker/tools/job_search_tools.py`. The tools form a four-stage
pipeline over job postings:

1. **Search** (`job_search_tool`). Each job board is queried in turn through
   the search provider. The provider's text reply is parsed into postings by
   `_parse_serper_results`. When the provider fails, the site's mock postings
   from `_search_site` are used instead.
2. **Extraction**. Extractors read a posting's text fields: the company from
   the title, the job type from the snippet, and the skills and the required
   years from the description. Another extractor reads the average salary from
   the salary range.
3. **Evaluation** (`job_evaluation_tool`). Every posting is scored against
   the job seeker's profile by `_calculate_match_score` and stamped with the
   evaluation time. The postings are then ordered by score, highest first.
4. **Report** (`report_generation_tool`). The postings scoring at least 70
   are kept, and the first ten of them are rendered, each with at most 300
   characters of its description.

All four stages are modelled.

## Modules

| module | file | models |
|---|---|---|
| `Seqs` | `seqs.dfy` | A list comprehension with a condition (`Filter`), duplicate-freeness, sums and bounds. |
| `Text` | `text.dfy` | The Python string operations the tools use: `in`, `split`, `join`, `replace`, `strip`, `lower`. |
| `Jobs` | `jobs.dfy` | The posting and profile records. |
| `Extract` | `extract.dfy` | The four extractors over text (company, job type, skills, years of experience), plus the salary averager. |
| `Scoring` | `score.dfy` | The weighted scorer. |
| `Search` | `search.dfy` | The reply parser, the mock fallback and the per-site search loop. |
| `Evaluate` | `evaluate.dfy` | Stamping and the stable sort by descending score. |
| `Report` | `report.dfy` | The threshold filter and the selection of the top ten cards. |
| `Scenarios` | `scenarios.dfy` | Worked examples on concrete inputs. |

## How the code is modelled

**Loops.** The source's loops are `method`s with `while` loops:
- the per-site search loop;
- the section loop and the per-line tag loop of the parser;
- the skill-vocabulary loop;
- the pattern loop of the experience extractor;
- the scoring loop;
- the report's card loop.

Each loop method is proved equal to a function, and the lemmas state that function's properties.

**Pure code.** Code that only computes a value is modelled by functions.

**Regular expressions.**
- The three experience patterns and the salary pattern are written out by hand.
- Greedy matching without backtracking accepts what Python's `re` accepts for these patterns. In each pattern, what an optional or starred element consumes can never begin the element after it.
- `re.search` is the leftmost position where the pattern matches.
- `re.findall` is a scan that never lets two matches overlap.

**Effects become parameters.**
- The search provider is a function from the query and the result count to an optional reply. `None` stands for a call that raised.
- The clock is a function from the job's index to its time stamp.
- The location, date and salary snippet extractors are functions.

**The preferred location is tested before the remote bonus.** A remote posting scored against a profile that prefers "Remote" gets the preferred-location 15, not the remote bonus 10, because the test at line 281 of `src/job_seeker/tools/job_search_tools.py` comes first. For a remote posting that asks for five years of Python and AWS and pays $140,000-$160,000, and a profile that matches it, `Scenarios.ScoreExample` proves a score of 90. It proves 85 for the same posting when the preferred location is "New York".

## Model

| member | source | states |
|---|---|---|
| Text.IndexFromFirst | src/job_seeker/tools/job_search_tools.py:129-131 | The substring search for `" at " in title` reports the first occurrence at or after the start. It reports none exactly when there is no occurrence. |
| Text.StripSpec | src/job_seeker/tools/job_search_tools.py:82-98 | `strip()` keeps one contiguous slice of its input and drops only whitespace on either side. What it keeps neither starts nor ends with whitespace. |
| Text.StripEmptyIff | src/job_seeker/tools/job_search_tools.py:82-83 | `not section.strip()` holds exactly when the section is all whitespace. |
| Text.StripIdempotent | src/job_seeker/tools/job_search_tools.py:92-98 | Stripping an already stripped line changes nothing. |
| Text.SplitJoin | src/job_seeker/tools/job_search_tools.py:76-79 | Joining the pieces of `split(sep)` with `sep` gives back the text. |
| Text.SplitFirstPiece | src/job_seeker/tools/job_search_tools.py:132 | `split(sep)[0]` is the text before the first occurrence of `sep`. It is the whole text when `sep` does not occur. |
| Text.LastPieceOfSplit | src/job_seeker/tools/job_search_tools.py:130 | When `sep` occurs, `split(sep)[-1]` is the text after an occurrence of `sep`, and no occurrence of `sep` starts inside it. |
| Extract.CompanyRule | src/job_seeker/tools/job_search_tools.py:126-134 | " at " takes priority. The company is then the stripped text after an " at ", and that text holds no " at " (Extract.CompanyAfterAt fixes which " at " when occurrences overlap). Without " at " but with " - ", it is the stripped text before the first " - ". Otherwise it is "Unknown Company". |
| Extract.JobTypeRule | src/job_seeker/tools/job_search_tools.py:191-204 | The label is one of Full-time, Part-time, Contract or Remote. Each of the last three holds exactly when its keyword occurs and no higher-priority keyword does. Lowering the snippet first changes nothing. |
| Extract.ContractorIsContract | src/job_seeker/tools/job_search_tools.py:199 | The keyword "contractor" never decides anything, because it contains "contract". |
| Extract.ExtractSkills | src/job_seeker/tools/job_search_tools.py:303-321 | The loop returns the vocabulary terms occurring in the lowered description, in vocabulary order. |
| Extract.TermsOccurring | src/job_seeker/tools/job_search_tools.py:314-321 | After each step, the list built so far is the terms seen so far that occur in the text, in order. |
| Extract.VocabularyDistinct | src/job_seeker/tools/job_search_tools.py:305-312 | No vocabulary term repeats. |
| Extract.SkillsRule | src/job_seeker/tools/job_search_tools.py:303-321 | The skills found have no duplicates. A term is among them exactly when it is in the vocabulary and occurs in the lowered description. |
| Extract.SearchFromLeftmost | src/job_seeker/tools/job_search_tools.py:333-335 | `re.search` reports the number captured at the leftmost position where the pattern matches. It reports nothing exactly when the pattern matches nowhere. |
| Extract.ExtractExperience | src/job_seeker/tools/job_search_tools.py:324-337 | The pattern loop returns the years of the first pattern that matches, else 3. |
| Extract.RequiredYearsRule | src/job_seeker/tools/job_search_tools.py:324-337 | The required years are those of the first pattern that matches anywhere in the lowered description. They are the default 3 when no pattern matches. |
| Extract.SalaryRule | src/job_seeker/tools/job_search_tools.py:340-352 | An empty range or a range without numbers gives 0. Otherwise the floor average lies between the smallest and the largest number found. It is never negative. |
| Extract.AmountNext | src/job_seeker/tools/job_search_tools.py:344-347 | A well-formed amount (one to three digits, then groups of a comma and three digits), with or without its `$`, and followed by neither a digit nor a comma, is the next number `findall` reports. Its value is the amount with the commas removed. The scan resumes right after it. |
| Extract.NoDigitsNoNumbers | src/job_seeker/tools/job_search_tools.py:344-351 | A range without digits yields no number, so the salary is 0. |
| Extract.SalaryRangeRule | src/job_seeker/tools/job_search_tools.py:338-351 | A range `$a<sep>$b` of two well-formed amounts reads as exactly those two amounts, with the commas removed. The separator holds no digit and does not start with a comma. The salary is their integer average. |
| Scoring.CalculateMatchScore | src/job_seeker/tools/job_search_tools.py:257-300 | Adding the five components in turn and capping at 100 yields the match score, which lies in [0, 100]. |
| Scoring.SkillComponentRule | src/job_seeker/tools/job_search_tools.py:262-267 | The skill share lies in [0, 40]. It is 0 when the posting and the profile share no skill. |
| Scoring.SkillComponentFull | src/job_seeker/tools/job_search_tools.py:262-267 | A non-empty, duplicate-free list of posting skills that the user all holds gives the full 40. |
| Scoring.ExperienceComponentRule | src/job_seeker/tools/job_search_tools.py:269-276 | The experience component lies in [0, 25]. It is 25 exactly when the user has the required years and 0 from five missing years on. It never grows as the requirement rises or the user's years fall. |
| Scoring.LocationComponentRule | src/job_seeker/tools/job_search_tools.py:278-284 | A preferred location found in the job location gives exactly 15. Otherwise "remote" or "anywhere" gives exactly 10. An empty preferred entry always hits. A "remote" preference outranks the remote bonus. |
| Scoring.SalaryComponentRule | src/job_seeker/tools/job_search_tools.py:286-293 | An unknown (zero) salary on either side gives 0. A job salary meeting the expectation gives 10. A lower one gives `job / expected * 10`, in [0, 10). |
| Scoring.CompanyComponentRule | src/job_seeker/tools/job_search_tools.py:295-298 | The company component is 10 exactly for a non-empty preferred type found, lowered, in the lowered company name. Otherwise it is 0. |
| Scoring.MatchScoreBounds | src/job_seeker/tools/job_search_tools.py:259-300 | The components add up to at most 100, so the cap never changes the sum. The score lies in [0, 100]. |
| Search.TagsExclusive | src/job_seeker/tools/job_search_tools.py:93-98 | At most one of the three tags starts any line, so the branch order of the tag tests does not matter. |
| Search.ReadTaggedLines | src/job_seeker/tools/job_search_tools.py:87-98 | The per-line loop leaves in each variable the value of the last line carrying that tag, or "" when no line carries it. |
| Search.LastTaggedWins | src/job_seeker/tools/job_search_tools.py:91-98 | A later tagged line overrides an earlier one. The value kept is that of the last line carrying the tag. |
| Search.LastTaggedAbsent | src/job_seeker/tools/job_search_tools.py:87-98 | With no line carrying the tag, its value stays "". |
| Search.SplitSections | src/job_seeker/tools/job_search_tools.py:76-81 | The sections walked are those of the reply split at "---", cut to the first 10. |
| Search.ParseOneSection | src/job_seeker/tools/job_search_tools.py:82-117 | A blank section, and one without a title or a link, yields nothing. Any other section yields its one job. |
| Search.ParseSerperResults | src/job_seeker/tools/job_search_tools.py:68-119 | The parser returns the jobs of the first 10 sections, in section order. |
| Search.CollectJobsRule | src/job_seeker/tools/job_search_tools.py:81-117 | Each section yields at most one job. Every job comes from one section. It has a non-empty title and URL and the site. Its fields are taken from that section's tagged lines and the extractors. |
| Search.ParsedJobsRule | src/job_seeker/tools/job_search_tools.py:68-119 | A reply yields at most 10 jobs, each from one of its first 10 sections. |
| Search.CollectJobsComplete | src/job_seeker/tools/job_search_tools.py:82-117 | No record is dropped: the job any section yields is among the collected jobs. |
| Search.ParsedJobsComplete | src/job_seeker/tools/job_search_tools.py:82-117 | Every section among the first 10 of the reply that is not blank and has a title and a link has its job in the result. |
| Search.SectionsIsSplit | src/job_seeker/tools/job_search_tools.py:76-79 | The `"---" in search_results` guard changes nothing: without a separator, the split is the whole reply. |
| Search.SearchSiteRule | src/job_seeker/tools/job_search_tools.py:207-224 | The fallback yields `max(0, min(max_results, 5))` postings for the site. The `k`-th is at `https://{site}/job/{k+1}`. Their URLs are pairwise distinct. |
| Search.SearchOneSite | src/job_seeker/tools/job_search_tools.py:43-63 | One site's share is the parsed reply, or the mock postings when the provider fails. |
| Search.JobSearch | src/job_seeker/tools/job_search_tools.py:16-65 | The search loop concatenates the sites' shares, in site order. The eight default boards are used when no list of sites is given, and 20 results when no count is given. |
| Search.SiteResultsRule | src/job_seeker/tools/job_search_tools.py:43-63 | Whatever the provider does, one site's share has at most 10 jobs. Each has a non-empty title and URL and that site. |
| Search.AllSiteResultsRule | src/job_seeker/tools/job_search_tools.py:16-65 | Whatever the provider does, every result has a non-empty title and URL and one of the searched sites. Each site contributes at most 10 results, so there are at most 10 per site in all. |
| Evaluate.ScoreJob | src/job_seeker/tools/job_search_tools.py:243-245 | A job is stamped with its match score and the clock reading. |
| Evaluate.EvaluateJobs | src/job_seeker/tools/job_search_tools.py:242-249 | The evaluator returns the stamped jobs, sorted stably by descending score. |
| Evaluate.SortPermutation | src/job_seeker/tools/job_search_tools.py:249 | The sort returns a permutation of its input. |
| Evaluate.SortOrdered | src/job_seeker/tools/job_search_tools.py:249 | The sort orders jobs by non-increasing score. |
| Evaluate.SortStable | src/job_seeker/tools/job_search_tools.py:249 | The sort is stable: the jobs with any one score keep their input order. |
| Evaluate.EvaluationRule | src/job_seeker/tools/job_search_tools.py:236-251 | The ranked list is a permutation of the stamped jobs, ordered by non-increasing score, with ties in input order. Every entry is an input job stamped with its own score, which lies in [0, 100]. |
| Report.ExcerptRule | src/job_seeker/tools/job_search_tools.py:584 | `description[:300]` is the first 300 characters, or the whole description when it is shorter. It is the whole description exactly when that is no longer than 300. |
| Report.RenderReport | src/job_seeker/tools/job_search_tools.py:552-590 | The card loop renders the first ten jobs, ranked from 1, each with its excerpt, and counts all the jobs. |
| Report.ReportGeneration | src/job_seeker/tools/job_search_tools.py:529-546 | The report is rendered from the jobs scoring at least 70. |
| Report.ReportRule | src/job_seeker/tools/job_search_tools.py:542-584 | The report counts the jobs scoring at least 70. It renders the first ten of them in input order, ranked from 1. Every card's job comes from the input, scores at least 70 and carries a prefix of its description. |
| Report.TopOfSortedIsPrefix | src/job_seeker/tools/job_search_tools.py:543 | On a list ordered by score, the threshold keeps a prefix: the jobs before the first one under 70. |
| Report.EvaluateThenReport | src/job_seeker/tools/job_search_tools.py:542-572 | After evaluation, the cards are the first entries of the ranked list. A ranked job left out of the report scores no more than any rendered one. |
| Scenarios.CompanyAtExample | src/job_seeker/tools/job_search_tools.py:129-130 | "Senior Engineer at Acme Corp" gives "Acme Corp". |
| Scenarios.CompanyOverlapExample | src/job_seeker/tools/job_search_tools.py:129-130 | In "Lead at at Scale" the two " at " overlap. The split consumes the first and never sees the second, so the company is "at Scale". |
| Scenarios.CompanyDashExample | src/job_seeker/tools/job_search_tools.py:131-132 | "Acme - Backend Engineer" gives "Acme". |
| Scenarios.CompanyUnknownExample | src/job_seeker/tools/job_search_tools.py:133-134 | A title with neither separator gives "Unknown Company". |
| Scenarios.SalaryExample | src/job_seeker/tools/job_search_tools.py:340-352 | "$140,000-$160,000" reads as [140000, 160000] and averages to 150000. |
| Scenarios.ExperienceExample | src/job_seeker/tools/job_search_tools.py:324-337 | "5 years of experience with python and aws" asks for 5 years. |
| Scenarios.SkillsExample | src/job_seeker/tools/job_search_tools.py:303-321 | The same description yields exactly ["python", "aws"]. |
| Scenarios.LocationExample | src/job_seeker/tools/job_search_tools.py:278-284 | A "Remote" posting scores 15 for a "Remote" preference and 10 for a "New York" one. |
| Scenarios.ScoreExample | src/job_seeker/tools/job_search_tools.py:257-300 | The worked posting scores 90 for the profile preferring "Remote" (40 + 25 + 15 + 10). With "New York" preferred it scores 85. |

## Left out

- The location, date and salary-range snippet extractors (`_extract_location_from_snippet`, `_extract_date_from_snippet` and `_extract_salary_from_snippet`) are run by Python's regular-expression engine, and are function parameters here.
- The search provider (`SerperDevTool`) is a network service, and is a function parameter here. Its construction with `n_results` is not modelled. Any exception it raises is the parameter returning `None`.
- `time.sleep(1)` between sites and the `print` of errors are effects with no bearing on the results.
- The JSON decoding and encoding is not modelled. The tools take and return records.
  - The error strings returned for malformed JSON are not modelled.
  - The `except` branch of `_parse_serper_results` is not modelled, because nothing in the model raises.
- `datetime.now()`: the evaluation stamps come from a clock parameter, and the report's generation date is not modelled.
- The report's markdown text, the profile summary and the application-strategy text are presentation only. The model keeps the count, the ranks, the jobs shown and the 300-character excerpts.
- `database_tool` and its SQLite operations are storage I/O.
- `main.py`, `crew.py` and `docs/scripts.js` are not part of this model.
- Lowering covers ASCII `A`-`Z` only, where Python's `str.lower` lowers every cased Unicode letter.
- Regex `\d` covers ASCII digits only, where Python also matches other Unicode digits. `\s` and `strip()` use Python's whitespace code points.
- Scores are exact reals, not floating point. The `:.1f` formatting is presentation.
- Evaluation: the source sets `match_score` and `evaluation_date` on the input dictionaries in place. Here each job is a value, and the evaluator returns new records, so the aliasing between the input list and the result is not modelled.
- `list.sort` is modelled by its result, a stable sort by descending score (an insertion sort), not by Timsort's steps.
- Missing dictionary keys read as the defaults the scorer uses (`""`, `0`, `[]`). Values of other types are not modelled.
- Report.RenderReport: a job without a `description` key shows "N/A" in the source's report (line 584). The model stores the missing key as `""`, so its excerpt is empty.
- Report.ReportGeneration: a profile without `expected_salary` makes the `:,` format at line 566 raise, and `report_generation_tool` then returns its "Error generating report" text (lines 548-549). The model does not take the profile, so it always returns a report.
- Scoring.SalaryComponentRule: assumes a non-negative job salary, which is all `_extract_salary` can produce (`Extract.SalaryRule`).
