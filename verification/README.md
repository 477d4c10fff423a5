# Job Hunt: relevance ranker and scraper fallbacks

A Dafny model of the deterministic core of the Job Hunt Streamlit app
(`app.py`). The app fetches LinkedIn job listings for a query, then filters
and ranks them against the user's skills. The model covers these parts:

- **`filter_jobs(jobs, skills, query)`** (module `Ranker`). It takes the
  lower-cased first word of the query as the primary skill and drops every
  listing whose lower-cased `title + " " + summary` lacks it. The rest are
  scored as 3, plus one per skill found, minus one per competing technology
  found. The competitors are `java`, `c#` for primary `python`; otherwise
  they are `python`, `c++`, `javascript`. Listings scoring above 0 are
  kept, `match_score = min(5, score)` is attached, and the result is
  stable-sorted by score, highest first.
- **The pure parts of `scrape_linkedin_jobs`** (module `Scraper`).
  - Each tier is cut to `max_results` cards, with Python slice semantics.
  - A card whose reading raises is skipped.
  - `?…` tracking parameters are removed from each link.
  - The first tier that yields a listing wins.
  - Otherwise `max_results` placeholder listings are built from the query.
- **The skills box parsing** `[s.strip() for s in skills_input.split(",")]`
  (module `Skills`).
- **The search action** that chains them (module `Pipeline`).

Supporting modules:

| module | models |
|---|---|
| `Outcomes` | `Option` and `Result`; `Result.IndexError` is the `IndexError` that `query.split()[0]` raises on a blank query. |
| `Text` | ASCII `str.lower`, `str.isspace`, `str.strip`, the first token of `str.split()`, and `needle in hay` on strings. |
| `Splitting` | `s.split(sep)` for one character, `sep.join(parts)` and `s.count(c)`. |
| `Decimal` | `f"{n}"` for a natural number. |
| `StableSort` | `sorted(xs, key=…, reverse=True)`: a stable descending insertion sort, and an independent bucket definition. |
| `Selection` | the "append `f(x)` for each `x` that passes a test" loop shape. |
| `Jobs` | the listing record. |

Inputs that the program gets from the outside world are parameters here:

- Each scraping tier's observation is a `Scraper.TierOutcome`. It is `None` when the tier raised before reaching any card. Otherwise it is one entry per card, `None` where reading that card raised.
- The numbers `random.randint(1000000, 9999999)` draws are a `suffixes` sequence.

## Model

| member | source | states |
|---|---|---|
| Ranker.FilterJobs | app.py:177-194 | Raises `IndexError` exactly when the query is blank, even with no listings. Otherwise the result is no longer than the input and sorted by `match_score`, highest first. Every entry mentions the lower-cased first word of the query and has a score in 1..5. |
| Ranker.Rank | app.py:182-194 | The result is a permutation of the retained listings and sorted by score, highest first. For each score, the listings with that score keep their relative order (stability). No result is longer than the input; every entry mentions the primary skill and scores 1..5. |
| Ranker.RankSoundComplete | app.py:182-192 | Every ranked listing is the scored copy of an input listing that passes both checks. Every input listing that passes both checks appears, scored. |
| Ranker.RankKeepsFields | app.py:191-192 | Each ranked listing has the title, company, summary and link of a kept input listing. Its `match_score` is min(5, score) of that listing: nothing else changes. |
| Ranker.RankIsBuckets | app.py:194 | The ranking is the kept listings scoring 5, then 4, 3, 2, 1, each group in input order. |
| Ranker.MissingPrimaryExcluded | app.py:183-185 | A listing whose haystack lacks the primary skill never reaches the output, whatever its skill overlap. |
| Ranker.Retained | app.py:182-192 | The kept, scored listings are no more than the input, and each mentions the primary skill with a score in 1..5. |
| Ranker.RetainedSound | app.py:182-192 | Everything retained is the scored copy of a kept input listing. |
| Ranker.RetainedComplete | app.py:182-192 | Every kept input listing is retained, scored. |
| Ranker.RetainedConcat | app.py:182-192 | The loop keeps input order: retaining from a concatenation is retaining from each part, in turn. |
| Ranker.ScoreCounts | app.py:187-191 | `match_score` = min(5, 3 + number of skill positions found − number of competitor positions found). |
| Ranker.CountFound | app.py:187-188 | The count is at most the number of needles. It is 0 exactly when no needle occurs, and equals the number of needles exactly when all occur. |
| Ranker.CountFoundIsCardinality | app.py:187-188 | The count equals the size of the set of positions whose needle occurs in the haystack. |
| Ranker.Competitors | app.py:188 | At most three competitors, and exactly two when the primary skill is `python`. |
| Ranker.PythonKeepsEveryMention | app.py:187-190 | With primary `python` every score is at least 1, so a listing is kept exactly when it mentions `python`. |
| Ranker.OtherScoreZero | app.py:187-190 | For any other primary skill the score is never negative. It is 0 exactly when no skill occurs and `python`, `c++` and `javascript` all do. |
| Ranker.EmptySkillAlwaysCounts | app.py:187 | An empty skill is found in every listing, so at least one skill always counts. |
| Ranker.JavascriptCountsAsJava | app.py:188 | A listing mentioning `javascript` also contains `java`, so with primary `python` it carries the Java penalty. |
| Text.FirstWord | app.py:180 | `None` exactly on a blank string. Otherwise a non-empty, whitespace-free token with only whitespace before it, followed by the end or whitespace. |
| Text.FirstWordInLower | app.py:180 | Any text that starts with the query holds the lower-cased first word once lower-cased. |
| Text.Lower | app.py:183 | Same length, each character mapped by ASCII case mapping, no upper-case letter left. |
| Text.LowerKeepsOccurrence | app.py:183-184 | An occurrence of a needle stays at the same position after lower-casing both. |
| Text.Strip | app.py:502 | The result has no whitespace at either end. It is an infix of the input with only whitespace around it. |
| Text.StripFixpoint | app.py:502 | Stripping leaves a string unchanged exactly when it has no whitespace at either end. |
| Text.StripIdempotent | app.py:502 | Stripping twice is stripping once. |
| Text.StripBlank | app.py:502 | Stripping gives the empty string exactly for blank strings. |
| Text.ContainsIffOccurs | app.py:184 | `needle in hay` holds exactly when the needle occurs at some position of the haystack. |
| Splitting.SplitOn | app.py:502 | One piece more than there are separators, and no piece contains the separator. |
| Splitting.JoinSplit | app.py:502 | Joining the pieces with the separator gives the original text. |
| Splitting.SplitJoin | app.py:502 | Splitting a join of separator-free pieces gives the pieces back. |
| Skills.ParseSkills | app.py:502 | One entry per comma plus one; no entry has whitespace at either end. |
| Skills.ParsedCommaFree | app.py:502 | No parsed entry contains a comma. |
| Skills.ParseJoin | app.py:502 | Parsing the comma-join of a list gives the list back exactly when every entry is stripped and comma-free. |
| Skills.ParseReparse | app.py:502 | Re-joining the parsed entries with commas and parsing again gives the same entries. |
| Skills.BlankInputIsOneEmptySkill | app.py:502 | A blank skills box gives a single empty skill, not an empty list. |
| Skills.BlankPieceIsEmptySkill | app.py:502 | A blank piece between commas (as in `"a, ,b"`) gives an empty skill in its place. |
| Scraper.Head | app.py:109 | `xs[:n]` is a prefix of `xs` of length min(n, len) for n ≥ 0, and max(0, len + n) for negative n. |
| Scraper.StripTracking | app.py:115 | The result is a prefix of the link without `?`, and when shorter it stops just before the first `?`. |
| Scraper.StripTrackingIdempotent | app.py:156 | Removing tracking parameters twice is removing them once. |
| Scraper.StripTrackingFixpoint | app.py:115 | A link is unchanged exactly when it contains no `?`. |
| Scraper.ToJob | app.py:111-115 | A listing read from a card has no `match_score` and a link without `?`. |
| Scraper.Extract | app.py:109-118 | No more listings than cards, and exactly as many when every card was read. |
| Scraper.ExtractSoundComplete | app.py:109-118 | By membership, the listings are those of the cards that were read: each listing comes from a read card, and each read card has its listing. |
| Scraper.ExtractInOrder | app.py:109-118 | Listings come in page order, one per card read and none for a card whose reading raised: a stretch of cards followed by another yields the first stretch's listings followed by the second's. |
| Scraper.TierJobs | app.py:148-163 | A tier that raised yields nothing. Otherwise, for `max_results` ≥ 0, at most `max_results` listings; none scored, no link with `?`. |
| Scraper.TierJobsSoundComplete | app.py:148-159 | By membership, a tier yields the listings of the cards read among its first `max_results`; their order is the page order (`Scraper.ExtractInOrder`). |
| Scraper.Placeholders | app.py:167-174 | For `max_results` ≤ 0, none. Otherwise `IndexError` on a blank query, else exactly `max_results` listings titled "<query> at TechCorp". Each has company "TechCorp", a bare view link ending in the drawn number, and no score. |
| Scraper.PlaceholderUrlsDistinct | app.py:172 | Two placeholder links coincide exactly when their drawn numbers do. |
| Scraper.PlaceholderUrlShape | app.py:172 | A drawn number in range gives the view prefix followed by exactly seven digits. |
| Scraper.PlaceholderUrlBare | app.py:172 | Placeholder links carry no `?`. |
| Scraper.Scrape | app.py:97-174 | The first tier that yields a listing is returned. If neither does, the placeholders are; `IndexError` only then, on a blank query. For `max_results` ≥ 0 there are at most `max_results` listings, and none only when it is 0. No link has `?` and nothing is scored. |
| Decimal.Digits | app.py:172 | The rendering is non-empty, all digits, with no leading zero for numbers ≥ 10. |
| Decimal.ValueOfDigits | app.py:172 | Reading the digits back gives the number. |
| Decimal.DigitsInjective | app.py:172 | Different numbers render differently. |
| Decimal.SevenDigits | app.py:172 | Every number in [1000000, 9999999] renders as seven digits. |
| StableSort.Sort | app.py:194 | Same length and same elements. Sorted by key, highest first. Each key's subsequence is unchanged (stability). |
| StableSort.SortedUnique | app.py:194 | Two lists sorted by key with the same per-key subsequences are equal: a stable sort has one possible answer. |
| StableSort.SortIsBuckets | app.py:194 | With keys in [lo, hi], the stable sort is the elements with key hi, then hi−1, …, lo, each in input order. |
| Pipeline.Search | app.py:500-507 | A search raises `IndexError` exactly on a blank query. Otherwise at most five listings, sorted by score, each mentioning the primary skill with a score in 1..5. |
| Pipeline.TitledByQueryMentionsPrimary | app.py:169 | A listing titled "<query> at TechCorp" always passes the primary-skill check. |
| Pipeline.PythonFallbackKeepsAll | app.py:167-194 | When both tiers come back empty and the query's first word, lower-cased, is `python`, all five placeholders survive ranking. |
| Pipeline.BlankSkillsBoxAddsOne | app.py:502 | With a blank skills box every listing's score is 4 minus its competitor count. |

Behaviours of the code that a reader might not expect, all stated by the model:

- Fetching can return an empty list: the placeholder comprehension runs over `range(max_results)`, which is empty when `max_results ≤ 0` (app.py:173). The same comprehension raises `IndexError` on a blank query, because `query.split()[0]` has no word to take (app.py:171). `Scraper.Scrape` states both.
- Placeholder link suffixes may repeat: each is an independent `random.randint(1000000, 9999999)` draw (app.py:172), and nothing rejects a repeat. `Scraper.PlaceholderUrlsDistinct` states that two links coincide exactly when their drawn numbers do.
- Scraped listings can have empty fields: title and company are the card's texts stripped, and the link is cut at its first `?` (app.py:112-115), so a card whose texts are blank, or whose link starts with `?`, yields empty strings. The model makes no non-emptiness claim for scraped listings.
- The skill list is never empty: `skills_input.split(",")` always yields at least one piece (app.py:502), so a blank skills box gives one empty skill. Since `"" in content` always holds, that skill matches every listing (app.py:187; `Pipeline.BlankSkillsBoxAddsOne`).
- Every stored `match_score` lies in 1..5: a listing is kept only when its score is above 0, and the stored value is clamped with `min(5, score)` (app.py:190-191).

## Left out

- HTTP request, BeautifulSoup parsing and the LinkedIn search URL with `urllib.parse.quote` (app.py:99-107): I/O and third-party code. A tier's observation is an input.
- Selenium browser automation: options, driver construction, waits, scrolling, clicks and `driver.quit()` (app.py:126-165). These are process plumbing. Driver construction (app.py:134) sits outside the `try`, so its failure propagates; the model leaves it out.
- A tier raising after some cards were read: impossible in the code, since every card read has its own `try`. The tier-level handlers cover only the steps before the card loop.
- `random.randint`: its draws are the `suffixes` input. The model states the link shape for draws in range but does not assume they are distinct.
- Logging, environment and API-key setup (app.py:23-45), the AutoGen, Groq and Gemini helpers (app.py:48-94, 197-281), and the Streamlit page and session state (app.py:284-579). These are foreign services and presentation.
- Text.Lower: maps only ASCII letters, because full Unicode `str.lower` needs the Unicode tables.
- Text.IsSpace: covers the ASCII whitespace of `str.isspace`, because Unicode spaces beyond ASCII need the Unicode tables.
- Ranker.Scored: returns an updated copy instead of mutating the caller's dict in place. The in-place `job["match_score"] = …` also changes the input list's dicts, and the model does not track that aliasing.
- Scraper.Scrape: for negative `max_results` only the tier-selection and error clauses are stated. The Python slice then drops cards from the end, which `Scraper.Head` describes.
- The `location` argument only feeds the URL that is left out, so it does not appear.
