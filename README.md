# hhru_parser in Dafny

A model of the HTTP scraper of `hhru_parser`, which collects job vacancies from hh.ru. The model covers:

- the `HTTPParser` class of `src/hhru_parser/methods/http.py`: its politeness controller and the `search` loop;
- the link discovery of the `search` method;
- the text readers that fill each vacancy field;
- the `Vacancy` record of `src/hhru_parser/models.py`.

Modules, in dependency order:

- `Wrappers`: `Option` and `Result`.
- `Text`: the character classes behind `\d`, `\s` and `str.strip()`, a limited `str.lower()`, substring search, and `split("?")[0]`.
- `Seqs`: order-preserving de-duplication (`Distinct`) and Python's `[:n]` slice.
- `Numbers`: the number pattern `(\d[\d\s\u00A0]*)` as `re.search` and `re.findall` see it, separator removal, `int()`, and `extract_num`.
- `Models`: the `Vacancy` record as a datatype with the dataclass defaults.
- `Extract`: the readers of a detail page and `parse_vacancy`.
- `Listing`: the search-results page. This covers the total-found heuristic, the two link strategies, and the de-duplication loop with its `[:limit]` cut.
- `Backoff`: the rate state (`current_delay`, `_success_streak`) and its updates. The delays are exact reals, and runs of updates are given closed forms.
- `Http`: the `HTTPParser` class and the `search` loop.
  - The class owns the rate state as mutable fields.
  - `search` is specified by the function `Crawl`. The lemmas relate `Crawl` to an independent reading, `Parsed`.
- `Examples`: experience lines worked through the model.

Each BeautifulSoup lookup is replaced by the text it would give. A detail page is a `Page` value and a results page is a `SearchPage`. The server is a function from URL to `Response`, which holds a status and a `Page`. Each jitter draw of `random.uniform` is a parameter.

## Behaviour worth knowing

- **Relax step.** One relax step moves the delay a tenth of the way back to the base: `base + 0.9 * (delay - base)` (http.py:111). The comment on http.py:110 says so as well ("10% расстояния").
- **Error on a detail page.** A status from 400 to 599 other than 403/429 makes `raise_for_status` raise (http.py:157). Nothing in the loop catches it, so the whole search aborts; the item is not skipped. `Http.CrawlOutcome` states this.
- **Redirects.** `raise_for_status` does not treat a 3xx status as an error, so a 3xx page is parsed like any other.
- **Blocked items.** A blocked detail page backs off and is skipped. No count of blocked items is kept: `meta` carries only `total_found`, the count and the timings (http.py:178-184).
- **Experience ranges.** The range pattern `(\d)[–-](\d)` (http.py:316) takes single digits only. So "10-15 лет" is read as the range 0-1 and lands in bucket "0-1". `Examples.ExperienceTwoDigitRange` shows this.

## Model

| member | source | states |
|---|---|---|
| Http.HTTPParser.constructor | src/hhru_parser/methods/http.py:22-28 | a new parser starts at the base delay 2.0 with a streak of 0 |
| Backoff.InitialBounded | src/hhru_parser/methods/http.py:22-28 | the initial state lies between base and ceiling, with streak 0 |
| Backoff.AfterBlock | src/hhru_parser/methods/http.py:97-103 | a block resets the streak and sets the delay to the smaller of twice the old delay and 60.0 |
| Http.HTTPParser.OnBlock | src/hhru_parser/methods/http.py:97-103 | the object's rate state becomes `AfterBlock` of its old state |
| Backoff.AfterSuccess | src/hhru_parser/methods/http.py:105-113 | if the fifth consecutive success finds the delay above base, the streak resets and the excess over base shrinks to 0.9 of itself: strictly lower, never below base; otherwise the delay is kept and the streak grows by one |
| Http.HTTPParser.OnSuccess | src/hhru_parser/methods/http.py:105-113 | the object's rate state becomes `AfterSuccess` of its old state |
| Backoff.Relaxes | src/hhru_parser/methods/http.py:107-108 | the relax condition: the incremented streak reaches 5 and the delay is above base; `AfterSuccess` states both outcomes |
| Backoff.Relaxed | src/hhru_parser/methods/http.py:111 | the relaxed delay is never below base; from above base it is strictly lower and its excess over base is 0.9 of the old excess |
| Backoff.StepsKeepBounded | src/hhru_parser/methods/http.py:97-113 | both callbacks keep the delay within [2.0, 60.0] |
| Backoff.BlockRun | src/hhru_parser/methods/http.py:97-103 | after k blocks in a row the delay is the old one doubled k times, capped at 60.0, and, after at least one block, the streak is 0 |
| Backoff.RelaxRun | src/hhru_parser/methods/http.py:108-112 | after k relax steps the excess over base is 0.9^k of the original, and the delay never goes below base |
| Backoff.FifthSuccessRelaxes | src/hhru_parser/methods/http.py:105-113 | from streak 0 and a raised delay, successes 1-4 only count and the fifth relaxes and resets |
| Backoff.SuccessesAtBase | src/hhru_parser/methods/http.py:105-113 | at the base delay no run of successes changes the delay; the streak just grows |
| Backoff.Pause | src/hhru_parser/methods/http.py:90-95 | the pause is non-negative, at least delay + j, and equals either 0 or delay + j |
| Http.HTTPParser.SleepWithJitter | src/hhru_parser/methods/http.py:90-95 | the pause is max(0, delay + j); it is slept exactly when it is at least 0.01; the state is unchanged |
| Backoff.PauseWithinJitter | src/hhru_parser/methods/http.py:90-95 | with the delay in range, every pause is within ±0.6 of the delay, at most 60.6, and long enough to be slept |
| Http.HTTPParser.Search | src/hhru_parser/methods/http.py:117-185 | result and final rate state are those of `RunSearch`. No pause when the results page is an error. Otherwise the pauses are `Pauses` over the visited links: one per link on success; on failure the last one is the failing link's; the `k`-th is the delay after `k` links plus `jitter[k]`, floored at 0. With a bounded start every pause is slept and at most 60.6 |
| Http.HTTPParser.VisitAll | src/hhru_parser/methods/http.py:147-167 | the per-link loop ends in the outcome and rate state of `Crawl` over the links. Its pauses are `Pauses`: one per link on success; on failure the last one is before the failing request; the `k`-th is the delay after `k` links plus `jitter[k]`, floored at 0. With a bounded start every pause is slept and at most 60.6 |
| Http.IsBlock | src/hhru_parser/methods/http.py:153 | the block test: status 403 or 429 |
| Http.IsErrorStatus | src/hhru_parser/methods/http.py:122 | the statuses `raise_for_status` raises for: 400 to 599 |
| Http.Fatal | src/hhru_parser/methods/http.py:153-157 | a detail-page status that aborts the loop: an error status that is not a block |
| Http.Visit | src/hhru_parser/methods/http.py:153-166 | one link's response: a block backs off and keeps the records, an error status ends the loop with `HttpError`, anything else appends the parsed record and counts a success; `VisitLink` computes it |
| Http.Crawl | src/hhru_parser/methods/http.py:147-167 | the loop over the links, specified by `CrawlOutcome` (against `Parsed`), `FailureStays`, `CrawlKeepsBounded` and `AllBlockedCrawl` |
| Http.RunSearch | src/hhru_parser/methods/http.py:117-185 | what `search` returns and leaves behind, specified by `SearchRecords` and `AllBlockedSearch` |
| Http.Pauses | src/hhru_parser/methods/http.py:147-151 | the pauses of the loop over the links, at most one per link |
| Http.PausesStay | src/hhru_parser/methods/http.py:157 | once a link has raised, later links add no pause |
| Http.PausesOnSuccess | src/hhru_parser/methods/http.py:147-151 | a loop that does not fail pauses once before every link |
| Http.PausesOnFailure | src/hhru_parser/methods/http.py:147-157 | a loop that fails has paused at least once; the links before its last pause all succeeded and the last pause is the one before the failing request |
| Http.PausesCount | src/hhru_parser/methods/http.py:147-157 | both cases of the pause count: one per link on success, up to and including the failing link on failure |
| Http.PauseAt | src/hhru_parser/methods/http.py:90-95 | the `k`-th pause is `max(0, d + jitter[k])`, where `d` is the delay after the first `k` links |
| Http.PausesSpec | src/hhru_parser/methods/http.py:147-157 | the pause count in both cases and the value of every pause by its position |
| Http.HTTPParser.VisitLink | src/hhru_parser/methods/http.py:151-166 | the reaction to one response: the records and new rate state are `Visit` of the old ones (block backs off and skips, error status raises, anything else is parsed and counts as a success) |
| Http.CrawlSucceedsIff | src/hhru_parser/methods/http.py:147-167 | the loop finishes exactly when no link answers with a non-block error status |
| Http.CrawlSucceeds | src/hhru_parser/methods/http.py:147-167 | a loop that finishes yields one record per non-blocked link, in link order (`Parsed`) |
| Http.CrawlFails | src/hhru_parser/methods/http.py:153-157 | an aborted loop reports the first link whose status is a non-block error, with that status |
| Http.CrawlOutcome | src/hhru_parser/methods/http.py:147-167 | both directions of success-iff-no-fatal-status, the records on success and the first fatal link on failure |
| Http.FailureStays | src/hhru_parser/methods/http.py:157 | once a link has raised, later links change neither the outcome nor the state |
| Http.CrawlKeepsBounded | src/hhru_parser/methods/http.py:147-166 | the loop keeps the delay within [2.0, 60.0] |
| Http.AllBlockedCrawl | src/hhru_parser/methods/http.py:153-155 | if every link answers 403/429, the loop yields no record and the delay ends as k doublings (capped) |
| Http.AllBlockedSearch | src/hhru_parser/methods/http.py:147-185 | from any delay in [0, 60.0], a search whose every detail page is blocked still returns, with no record, count 0 and the page's total found, and leaves the delay doubled once per link (capped) and, when at least one link is visited, the streak at 0 |
| Http.SearchRecords | src/hhru_parser/methods/http.py:117-185 | a search succeeds exactly when the results page is not an error status and no visited link answers a non-block error; then it counts its records, reports `TotalFound`, yields at most `limit` records, and each record comes from a visited link and carries that link's URL and id |
| Http.ParsedFromLinks | src/hhru_parser/methods/http.py:159-161 | the reference records number at most the links, each with a link's URL and the id read from it |
| Listing.TitleLinks | src/hhru_parser/methods/http.py:129 | exactly the present, non-empty `href`s of the title anchors |
| Listing.TitleLinksAppend | src/hhru_parser/methods/http.py:129 | the title links of two runs of anchors are those of the first, then those of the second: page order is kept |
| Listing.TitleLinksOne | src/hhru_parser/methods/http.py:129 | one anchor gives its `href` when present and non-empty, else nothing |
| Listing.HasVacancyPath | src/hhru_parser/methods/http.py:133 | the `/vacancy/\d+` search on an `href`: `/vacancy/` followed by a digit somewhere |
| Listing.VacancyLinks | src/hhru_parser/methods/http.py:130-134 | exactly the anchors' `href`s with a `/vacancy/<digit>` path, query string cut |
| Listing.VacancyLinksAppend | src/hhru_parser/methods/http.py:130-134 | the fallback links of two runs of anchors are those of the first, then those of the second: page order is kept |
| Listing.VacancyLinksOne | src/hhru_parser/methods/http.py:130-134 | one anchor gives its cut `href` when it has a vacancy path, else nothing |
| Listing.CandidateLinks | src/hhru_parser/methods/http.py:129-134 | the title links, or the fallback when there are none |
| Listing.CandidateSources | src/hhru_parser/methods/http.py:129-134 | every candidate is a present title `href` or, when there are none, the cut `href` of an anchor with a vacancy path |
| Listing.StripAll | src/hhru_parser/methods/http.py:138 | each link mapped to its part before the first `?` |
| Listing.DedupLinks | src/hhru_parser/methods/http.py:136-141 | the `seen`/`uniq` loop and the cut compute `Distinct` of the cut links, sliced to `limit` |
| Listing.Links | src/hhru_parser/methods/http.py:129-141 | the links `search` visits: candidates cut, de-duplicated and sliced; specified by `LinksSpec` and computed by `DedupLinks` |
| Listing.LinksSpec | src/hhru_parser/methods/http.py:129-141 | visited links have no `?` and no repeats, at most `limit` of them, each is the cut form of a candidate, in first-seen order; all of them when the limit allows |
| Seqs.Distinct | src/hhru_parser/methods/http.py:136-140 | the de-duplicated list has exactly the input's elements, no repeats, and is no longer than the input |
| Seqs.DistinctFirstSeenOrder | src/hhru_parser/methods/http.py:136-140 | de-duplication keeps elements in the order of their first occurrence |
| Seqs.FirstIndex | src/hhru_parser/methods/http.py:136-140 | the position of the first occurrence of an element |
| Seqs.SliceTo | src/hhru_parser/methods/http.py:141 | Python's `[:n]`: a prefix of length min(n, len) for n ≥ 0, and all but the last -n elements for n < 0 |
| Text.Strip | src/hhru_parser/methods/http.py:200-203 | `str.strip()`: the result neither starts nor ends with white space; `StripAround` pins it |
| Text.StripAround | src/hhru_parser/methods/http.py:200-203 | white space, a part without white space at its ends, white space: `strip()` gives exactly that part |
| Text.LowerChar | src/hhru_parser/methods/http.py:299 | `.lower()` of one character, for ASCII and basic Cyrillic capitals |
| Text.Lower | src/hhru_parser/methods/http.py:334 | `.lower()`: same length, each character lowered in place |
| Text.Contains | src/hhru_parser/methods/http.py:336-349 | Python's `sub in s`, with `ContainsAt` and `ContainsWitness` tying it to a position where `sub` occurs |
| Text.BeforeQuery | src/hhru_parser/methods/http.py:134 | `split("?")[0]`: the longest prefix without `?` |
| Text.BeforeQueryIdempotent | src/hhru_parser/methods/http.py:134-138 | cutting twice is cutting once (the fallback links are cut again in the dedup loop) |
| Listing.HeaderText | src/hhru_parser/methods/http.py:189-194 | `vacancies-search-header` if present, else `serp__found` if present; else `h1` if it has text, else `.bloko-header-section-3` if it has text, else whatever `.bloko-header-2` gives (present or not) |
| Listing.IsLarge | src/hhru_parser/methods/http.py:210 | the fallback's test `n and n > 10` on a text node's number |
| Listing.FirstLargeIndex | src/hhru_parser/methods/http.py:208-211 | the first text node whose number exceeds 10, none before it |
| Listing.TotalFound | src/hhru_parser/methods/http.py:188-212 | the header's number if it has one, even if small; else the page's first number above 10 |
| Listing.FallbackTotalAboveTen | src/hhru_parser/methods/http.py:208-212 | without a header number the count, if any, is above 10 and read from some text node |
| Numbers.FirstDigitIndex | src/hhru_parser/methods/http.py:196 | where the search starts its match: the first digit, none before it |
| Numbers.GroupRun | src/hhru_parser/methods/http.py:196 | the greedy `[\d\s\u00A0]*`: the longest run of group characters |
| Numbers.FirstGroup | src/hhru_parser/methods/http.py:196-198 | a match exists exactly when the text has a digit, and it starts with a digit |
| Numbers.AllGroups | src/hhru_parser/methods/http.py:287 | `findall` is empty exactly when there is no digit; each match is a group; the first is the `search` match |
| Numbers.AllGroupsKeepEveryDigit | src/hhru_parser/methods/http.py:287 | the matches together hold every digit of the text, in order |
| Numbers.AllGroupsSplit | src/hhru_parser/methods/http.py:287 | a digit-free prefix, one full match and a tail: `findall` gives that match, then the tail's matches |
| Numbers.AllGroupsOfTwo | src/hhru_parser/methods/http.py:287 | two matches separated by digit-free text are the whole `findall` result |
| Numbers.RemoveSeparators | src/hhru_parser/methods/http.py:199 | no space or no-break space is left and every digit is kept |
| Numbers.RemoveSeparatorsAppend | src/hhru_parser/methods/http.py:199 | removal works piece by piece: the removal of a concatenation is the concatenation of the removals |
| Numbers.RemoveSeparatorsOne | src/hhru_parser/methods/http.py:199 | one character is dropped exactly when it is a space or a no-break space, else kept |
| Numbers.NoSeparatorsKept | src/hhru_parser/methods/http.py:199 | a text without separators is unchanged |
| Numbers.RemoveSeparatorsKeeps | src/hhru_parser/methods/http.py:199 | a stretch without separators passes through unchanged, in its place |
| Numbers.InnerSpaceFails | src/hhru_parser/methods/http.py:200-203 | `int()` fails on a text with white space anywhere between two digits ("1\t\t2" included) |
| Numbers.ParseIntAround | src/hhru_parser/methods/http.py:200-203 | `int()` ignores white space at both ends: white space, digits, white space read as the digits' value |
| Numbers.OtherSpaceBetweenDigitsFails | src/hhru_parser/methods/http.py:196-203 | white space other than a space or no-break space anywhere between two digits (a tab, a thin space) survives removal, so the group has no value |
| Numbers.KeptIn | src/hhru_parser/methods/http.py:199 | a character that is not a separator survives removal |
| Numbers.GroupValueTrailingSpace | src/hhru_parser/methods/http.py:196-203 | a group of digits and separators followed by other white space (a match ending in a line break, "100\n") converts to its digits' value |
| Numbers.GroupValue | src/hhru_parser/methods/http.py:288-292 | `to_int`: separators removed, then `int()`; specified by `GroupValueIsItsDigits`, `GroupedDigitsConvert`, `GroupValueTrailingSpace` and `OtherSpaceBetweenDigitsFails` |
| Numbers.ParseInt | src/hhru_parser/methods/http.py:200-203 | `int()` on white space and digits; digits with white space at the ends read as the digits' value (`ParseIntAround`) and white space anywhere between digits fails (`InnerSpaceFails`) |
| Numbers.GroupValueIsItsDigits | src/hhru_parser/methods/http.py:199-203 | a successful conversion is the number spelled by the match's digits |
| Numbers.GroupedDigitsConvert | src/hhru_parser/methods/http.py:288-292 | a match of digits and separators always converts, to the number its digits spell |
| Numbers.ExtractNum | src/hhru_parser/methods/http.py:195-203 | none without a digit; otherwise the first match converted by `GroupValue`, so none where `int()` fails; a result is the number spelled by the first match's digits |
| Numbers.ExtractNumOfGroupedText | src/hhru_parser/methods/http.py:195-203 | "<words> 1 234 567 <words>" reads as exactly the grouped number |
| Extract.VacancyPathIndex | src/hhru_parser/methods/http.py:266 | the leftmost position of `/vacancy/` followed by a digit |
| Extract.ExtractIdFromUrl | src/hhru_parser/methods/http.py:265-267 | the maximal non-empty digit run after the first `/vacancy/` that is followed by a digit ("/vacancy/x/vacancy/12" gives "12"), else the whole URL |
| Extract.IdIsPresent | src/hhru_parser/methods/http.py:265-267 | the id of a non-empty URL is never empty |
| Extract.ParseSalary | src/hhru_parser/methods/http.py:282-306 | no element gives all none; otherwise the text is the element's, the currency is `SalaryCurrency(text)`, `is_gross` is true exactly when "до вычета" occurs (any case) and is never false, and a digit-free text has no bounds |
| Extract.SalaryBounds | src/hhru_parser/methods/http.py:287-297 | one match sets only the lower bound; two or more set the bounds from the first two; each bound is the number its digits spell |
| Extract.SalaryRangeReading | src/hhru_parser/methods/http.py:287-297 | "<words> 100 000 <words> 150 000 <words>" gives exactly those two bounds |
| Extract.FirstFiring | src/hhru_parser/methods/http.py:298-304 | the first rule of an `if`/`elif` chain that fires, none before it; none exactly when no rule fires |
| Extract.FirstMatchOfThree | src/hhru_parser/methods/http.py:298-304 | a three-way `if`/`elif` chain is the first match over its three rules |
| Extract.SalaryCurrency | src/hhru_parser/methods/http.py:298-304 | the currency test as written, shown equal to the first-match reading by `CurrencyPrecedence` |
| Extract.CurrencyPrecedence | src/hhru_parser/methods/http.py:298-304 | the currency is RUB ("₽"/"руб") before EUR ("€"/"eur") before USD ("$"/"usd") |
| Extract.RangeIndex | src/hhru_parser/methods/http.py:316 | the leftmost digit-dash-digit position, none before it |
| Extract.Threshold | src/hhru_parser/methods/http.py:319-330 | ≤1 "0-1", ≤3 "1-3", ≤6 "3-6", else "6+", each exactly on its interval |
| Extract.FirstInt | src/hhru_parser/methods/http.py:324-326 | present exactly when the text has a digit |
| Extract.FirstIntAt | src/hhru_parser/methods/http.py:324-326 | a digit-free prefix, a run of digits and a non-digit give exactly the value of that run |
| Text.DigitRunOfDigits | src/hhru_parser/methods/http.py:324 | the greedy `\d+` of digits followed by a non-digit is exactly those digits |
| Extract.ExperienceBucket | src/hhru_parser/methods/http.py:314-330 | none for no text; by the upper digit of the first single-digit range, else by the first number; none without a digit |
| Extract.BucketIffDigit | src/hhru_parser/methods/http.py:314-330 | a non-empty text gets a bucket exactly when it has a digit |
| Extract.FirstNodeWith | src/hhru_parser/methods/http.py:312 | the first text node that contains a key case-insensitively, none before it |
| Extract.ExperienceText | src/hhru_parser/methods/http.py:309-313 | the element's text when non-empty; else the stripped first node mentioning "опыт", or none when no node does |
| Extract.ParseExperience | src/hhru_parser/methods/http.py:308-331 | the bucket is the bucket of the text returned beside it |
| Extract.Schedule | src/hhru_parser/methods/http.py:334-341 | the schedule test as written, shown equal to the first-match reading by `SchedulePriority` |
| Extract.Employment | src/hhru_parser/methods/http.py:343-349 | the employment test as written, shown equal to the first-match reading by `EmploymentPriority` |
| Extract.SchedulePriority | src/hhru_parser/methods/http.py:334-341 | schedule is remote before hybrid before office over the lower-cased page text, else none |
| Extract.EmploymentPriority | src/hhru_parser/methods/http.py:343-349 | employment is full-time before part-time before intern, else none |
| Extract.ParseTitle | src/hhru_parser/methods/http.py:269-271 | the labelled title, else the first `h1` |
| Extract.ParseCompany | src/hhru_parser/methods/http.py:273-280 | the name element's text, and nothing without it. The URL is the enclosing anchor's `href` when there is an enclosing anchor (none if it has no `href`), else the inner anchor's, else none |
| Extract.ParseLocation | src/hhru_parser/methods/http.py:353-358 | the labelled location, else the `.vacancy-view-location` element, else the stripped first node naming a country, else none |
| Extract.ParsePublishedAt | src/hhru_parser/methods/http.py:360-364 | present exactly when the creation-time element or a `<time>` exists; the creation-time element's text when it exists, else the `<time>`'s |
| Extract.ParseResponsesCount | src/hhru_parser/methods/http.py:366-371 | none without a node mentioning "тклик"; otherwise that node's first number |
| Extract.NonEmpty | src/hhru_parser/methods/http.py:383 | exactly the non-empty texts |
| Extract.NonEmptyAppend | src/hhru_parser/methods/http.py:381-383 | the non-empty texts of two runs are those of the first, then those of the second: page order is kept |
| Extract.NonEmptyOne | src/hhru_parser/methods/http.py:383 | one text is kept exactly when it is non-empty |
| Extract.Skills | src/hhru_parser/methods/http.py:379-385 | the skill list: `Distinct` of the non-empty texts; specified by `SkillsSpec` and computed by `ParseSkills` |
| Extract.SkillsSpec | src/hhru_parser/methods/http.py:379-385 | skills have no repeats and no empty string, are exactly the distinct non-empty texts, in first-seen order |
| Extract.ParseSkills | src/hhru_parser/methods/http.py:379-385 | the append loop computes `Skills` |
| Extract.ParseVacancy | src/hhru_parser/methods/http.py:215-263 | the record carries the URL, the id read from it and source "http" |
| Extract.VacancyRecord | src/hhru_parser/methods/http.py:215-263 | each field comes from its own reader: title from `ParseTitle`, company name and URL from `ParseCompany`, salary bounds, currency and gross flag from `ParseSalary`, experience text from `ExperienceText`, schedule and employment from the page text, location, publication date, response count and skills from their readers; the bucket belongs to the record's experience text; salary text and description are the page's; skills are distinct and non-empty; `raw_json` repeats the record's fields |
| Extract.BlankPageYieldsIdentityOnly | src/hhru_parser/methods/http.py:215-263 | a page where no lookup finds anything gives a record with only id, URL and `raw_json` |
| Models.Defaults | src/hhru_parser/models.py:5-33 | a record built from id and url alone has source "http", every optional field absent, no skills and no `raw_json` |
| Examples.ExperienceRange | src/hhru_parser/methods/http.py:316-322 | "опыт 3-6 лет" is bucket "3-6" |
| Examples.ExperienceSingle | src/hhru_parser/methods/http.py:324-330 | "опыт 7 лет" has no range and is bucket "6+" |
| Examples.ExperienceTwoDigitRange | src/hhru_parser/methods/http.py:316-322 | "10-15 лет" matches the range at position 1 and is bucket "0-1", as written |

## Left out

- Network. `requests.Session`, its headers, timeouts and the random User-Agent choice are left out; they are I/O. The server is a given function from URL to response. `raise_for_status` is modelled as "status from 400 to 599 raises".
- Request exceptions. In the source, a request that raises aborts `search`: a timeout, a connection error, or a URL that `requests` rejects (for example a fallback `href` without a scheme or host). The model's server is total and always answers, so such an abort cannot occur in it.
- Cookie loading (`_load_cookies_from_json`) is left out: it is file I/O and JSON decoding into a foreign cookie jar.
- `time.sleep` is left out: the model returns the pause and whether it would be slept. The `random.uniform` draws are parameters, each within [-0.6, 0.6].
- Timing statistics are left out: `perf_counter`, `mean`, `median` and `round`, and the `avg_sec`, `med_sec` and `total_time` fields of `meta`. They are wall-clock and floating-point work, so `Meta` holds only `total_found` and `count`.
- Logging and `tqdm` are left out: output only.
- BeautifulSoup is a foreign library. Its selectors, `find`, `stripped_strings` and `get_text` become the texts the lookups would give, carried by `Page` and `SearchPage`.
- `_parse_description` is not modelled as a reader. Its text is a `Page` field copied into the record.
- Text.IsDigit: `\d` is read as the ASCII digits only; Python also matches other Unicode decimal digits.
- Text.LowerChar: `str.lower()` is modelled for ASCII and the basic Cyrillic block U+0400–U+042F only. A case-insensitive regex search is modelled as containment in the lower-cased text.
- Numbers.ParseInt: `int()` is modelled on white space and ASCII digits only. Signs and underscores, which `int()` also accepts, cannot occur in a match of the number pattern. Python's `int()` also refuses strings of more than 4300 digits by default. Past that limit `extract_num` and `to_int` give None and the experience and response readers raise; the model's `Value` is unbounded.
- Delays are exact reals, not binary floating point. So `AfterSuccess`'s "strictly lower" holds of the model only: in IEEE doubles, repeated relax steps from 4.0 stop changing the delay just above 2.0 after a few hundred steps.
- The default `limit=5` of `search` is not modelled: `limit` is always a parameter.
- The `query` parameter of `search` and the URL built from it are left out (the results page is given), and so is the `asdict` conversion of each record: the model returns `Vacancy` values.
- The five rate parameters are module constants, not per-object fields. The source sets them once in `__init__` and never changes them.
- Vacancy values: the record is a value, so a fresh default skills list per instance holds trivially and aliasing is not modelled.
- The database writer (`bd/bd_vacancy.py`), `main.py`, `logging_setup.py` and the scripts are not part of this model: they are database I/O, glue and command-line code.
