# Volley Club Trieste: match ingestion and display helpers, in Dafny

This project models the data logic of the Volley Club Trieste website. Its core is the match
ingestion script (`scripts/scrape-matches.ts`), which reads two FIPAV results portals and
writes the club's fixtures to the `partite` table:

- **Provincial portal.** The script reads one list page per championship. Each fixture is an
  `a.gara` link, and the kickoff comes from the linked detail page.
- **Regional portal.** The script reads one page with a results table per championship. It
  classifies each row by its table caption, then by the club's roster names.

The script gathers every record in one accumulator (`allMatchesToSave`). At the end it sends
one upsert on the natural key `(squadra_casa, squadra_ospite, data_partita)`.

Beside the script, the model covers the pure helpers of the pages that show this data:

- `getSafeImageUrl`;
- the sponsor category labels, colours and groups;
- the calendar's upcoming/past split and its status badges;
- the home page's match, news and sponsor sections;
- `truncateText` and the featured/regular news split.

Modules, one per component:

- `Wrappers`: `Option`, which stands for `null`, `undefined` and NaN.
- `Seqs`: `filter`, `slice(0, n)` and `find`, with subsequence and order lemmas. It also has
  `Collect`, the meaning of a `for` loop that pushes onto a list.
- `Text`: the JavaScript `trim`, `toLowerCase`, `includes`, `startsWith` and one-character
  `split`.
- `JsParseInt`: `parseInt` with no radix. It skips leading white space, reads a sign and an
  optional `0x` prefix, then the longest digit run. NaN is `None`.
- `TeamIdentity`: `isMyTeam` and the alias list.
- `MatchDates`: both date formats.
  - The free-text format is the regular expression `(\d{2})\/(\d{2})\/(\d{4}).*?(\d{2}):(\d{2})`,
    written out as a leftmost, lazy search.
  - The compact format is `dd/mm/yy HH:MM`, with the two-digit year fix.
  - The result is a `Timestamp`. It holds either the arguments of `new Date(y, m0, d, h, min)`
    or `Fallback(now)`, the wall clock of the run.
- `Adapters`: the per-entry logic of both adapters. This covers status, scores, category,
  date and the record built from them.
- `Ingestion`: the `Scraper` class. Its `allMatchesToSave` sequence is appended by the two
  adapter methods. Its `partite` map, keyed by the natural key, is the store. `Run` is
  `main`.
- `Images`, `Sponsors`, `MatchLists`, `NewsLists`: the page helpers.

Inputs are parameters. Each fetched page is reduced to the strings the selectors would give:

- team names, set-count texts and the detail page's text (or `NoLink` / `FetchFailed`);
- the cells and caption of each table row;
- query results as `Option<seq<...>>`, where `None` is a query that returned no data;
- the clock, as `now`.

On the display side, dates are instants in milliseconds.

Notes on the script's behaviour:

- **Two of the four aliases decide.** `"VITALFRUTTA VolleyClub TS"` has no space in
  `VolleyClub`, so "Volley Club" does not occur in it, while the other two aliases contain
  "Volley Club". A fixture therefore belongs to the club iff one of its names contains
  "volley club" or "vitalfrutta volleyclub ts", ignoring case (`TeamIdentity.IsMyTeam`).
- **A caption "Serie D F" does not trigger the women's caption rule.** That rule needs " f "
  with a space on each side. Such a row is still filed as "Serie D Femminile" through the
  fallback on the team name (`Adapters.SerieDFCaptionFallsBack`).
- **A 5-cell regional row is not skipped.** The row guard is `cols.length < 5`, but the result
  is read from `cols[5]`. A row of exactly five cells reads an empty result and is stored as a
  scheduled 0-0 match (`Adapters.FvgRowOutcome`).
- **Regional scores can be NaN.** They are parsed without `|| 0`, so a half that does not parse
  is NaN (stored as `null`). Record scores are therefore `Option<int>`.
- **A bad regional date ends the scan of the page.** A date cell with a space whose pieces do
  not all parse (for example `dd/mm HH:MM`, with no year) makes an Invalid Date. Its
  `toISOString` throws, and the adapter's `catch` then drops that row and every row after it.
  Records pushed before it are kept (`Adapters.FvgRecordsStopAt`,
  `Adapters.FvgYearlessDateEndsScan`).
- **A batch with a repeated key writes nothing.** The upsert is one
  `INSERT ... ON CONFLICT DO UPDATE`, which the store rejects as a whole when two records of
  the batch share a key. The model applies the batch iff its keys are distinct (`Ingestion.Upsert`).
- **A missing kickoff can duplicate a fixture.** A fixture without a kickoff is keyed by the
  run's wall clock, so re-running the script adds a second row for it
  (`Ingestion.RerunWithoutDateAddsRow`).

## Model

| member | source | states |
|---|---|---|
| `TeamIdentity.SomeAlias` | scripts/scrape-matches.ts:47-50 | true iff some alias, lower-cased, occurs in the lower-cased home or away name |
| `TeamIdentity.IsMyTeam` | scripts/scrape-matches.ts:45-51 | true iff "volley club" or "vitalfrutta volleyclub ts" occurs in the lower-cased home or away name |
| `TeamIdentity.IsMyTeamSymmetric` | scripts/scrape-matches.ts:45-51 | swapping home and away does not change whether the fixture is the club's |
| `TeamIdentity.IsMyTeamIgnoresCase` | scripts/scrape-matches.ts:46-49 | the test depends on the names only through their lower-case forms |
| `TeamIdentity.IsMyTeamByName` | scripts/scrape-matches.ts:22-27 | the test spelled out as containment of each of the four lower-cased aliases, on either side |
| `JsParseInt.ParseInt` | scripts/scrape-matches.ts:105-109 | text that is only white space is NaN; a negative result needs a leading minus |
| `JsParseInt.ParseIntNoDigit` | scripts/scrape-matches.ts:211-212 | text without a decimal digit is NaN |
| `JsParseInt.ParseIntOr0` | scripts/scrape-matches.ts:122-123 | `parseInt(s) \|\| 0`: text without a decimal digit gives 0; a digit string gives its decimal value |
| `JsParseInt.ParseIntRoundTrip` | scripts/scrape-matches.ts:122-123 | parseInt reads back the decimal numeral of every natural number |
| `JsParseInt.ParseIntDecimal` | scripts/scrape-matches.ts:198-201 | after white space, parseInt reads a decimal run up to the first non-digit |
| `JsParseInt.ParseDigits` | scripts/scrape-matches.ts:104-110 | a regex-captured digit group is read as its decimal value |
| `JsParseInt.ParseIntAt` | scripts/scrape-matches.ts:195-201 | reading a piece past the end of a split (`d[2]` of a two-piece date) gives NaN |
| `JsParseInt.ParseIntAtPart` | scripts/scrape-matches.ts:198-201 | a piece without a decimal digit reads as NaN; a piece of digits reads as its decimal value |
| `MatchDates.FindTime` | scripts/scrape-matches.ts:100 | the lazy `.*?(\d{2}):(\d{2})`: the first time on the same line at or after the position, or none on that line |
| `MatchDates.FindMatch` | scripts/scrape-matches.ts:100-101 | `match` returns the leftmost date followed by a time on its line, with the first such time; none iff no position matches |
| `MatchDates.TriesteDate` | scripts/scrape-matches.ts:90-115 | the wall-clock fallback iff there is no detail text (no link, failed fetch) or the text has no match of the pattern; the fallback is the run's clock |
| `MatchDates.TriesteDateIsFirstMatch` | scripts/scrape-matches.ts:99-111 | the kickoff is the five groups of the first match: year, month - 1, day, hours, minutes |
| `MatchDates.TriesteDateNoMatch` | scripts/scrape-matches.ts:90-103 | text with no match leaves the wall-clock fallback |
| `MatchDates.TriesteDateMinimal` | scripts/scrape-matches.ts:99-110 | a bare `dd/mm/yyyy hh:mm` reads as its five groups |
| `MatchDates.TriesteDateAmidText` | scripts/scrape-matches.ts:99-101 | a date and time amid other text give the same kickoff as the bare date and time |
| `MatchDates.LocalDate` | scripts/scrape-matches.ts:198-201 | a valid date iff all five fields parse; the month is counted from 0; a year below 100 gets 2000 added |
| `MatchDates.FvgDate` | scripts/scrape-matches.ts:192-194 | the wall-clock fallback exactly when the cell has no space |
| `MatchDates.FvgDateOfNumbers` | scripts/scrape-matches.ts:192-202 | `day/month/year hours:minutes` with parseable pieces gives those fields, month - 1, year fixed |
| `MatchDates.FvgDateInvalid` | scripts/scrape-matches.ts:194-201 | a cell with a space is an Invalid Date iff one of the five pieces is NaN |
| `MatchDates.FvgDateWithoutYear` | scripts/scrape-matches.ts:195-201 | a date piece with fewer than three `/`-parts makes an Invalid Date |
| `Adapters.TriesteRecord` | scripts/scrape-matches.ts:117-127 | trimmed names; "conclusa" iff both set texts are non-empty, else "programmata"; a set text without a digit stores 0, a numeral its value; kickoff from the detail page; category of the championship |
| `Adapters.TriesteScoreRoundTrip` | scripts/scrape-matches.ts:122-123 | set counts written as numerals are stored as those numbers, and the match is concluded |
| `Adapters.TriesteOutcome` | scripts/scrape-matches.ts:86 | an entry yields a record iff it is a fixture of the club, and never ends the loop |
| `Adapters.TriesteRecords` | scripts/scrape-matches.ts:69-129 | every record of a provincial page is a club fixture filed under the page's championship |
| `Adapters.TriesteRecordsKeep` | scripts/scrape-matches.ts:69-129 | every club fixture of a provincial page has its record pushed |
| `Adapters.FvgCategory` | scripts/scrape-matches.ts:168-189 | one ensures per rule: "serie d" with " f " gives Femminile; else with " m " Maschile; else "1 div" or "under" skips (and only then); else the men's roster name gives Maschile, else the women's Femminile, else "Serie D" |
| `Adapters.FvgCategoryMensRoster` | scripts/scrape-matches.ts:182-184 | under a neutral caption, "ROSSO Volley Club TS" is Maschile although it also holds the women's name |
| `Adapters.FvgCategoryWomensRoster` | scripts/scrape-matches.ts:185-187 | under a neutral caption, "Volley Club TS" without the men's roster is Femminile |
| `Adapters.SerieDFCaptionFallsBack` | scripts/scrape-matches.ts:172-187 | "Serie D F" holds no " f "; the fallback still gives Femminile for the women's roster |
| `Adapters.FvgResult` | scripts/scrape-matches.ts:204-214 | "conclusa" iff the result holds `-` and is longer than 2, with the scores parseInt of the first two `-`-pieces (NaN for a piece without a digit); otherwise 0-0 "programmata" |
| `Adapters.FvgResultRoundTrip` | scripts/scrape-matches.ts:209-213 | `home-away` written as numerals reads back as those set counts, concluded |
| `Adapters.FvgRowOutcome` | scripts/scrape-matches.ts:154-225 | skip iff the row has under 5 cells, is not the club's, or its caption is provincial; stop iff the date is Invalid; else emit the trimmed names, the parsed date, the caption/roster category and the parsed result; a 5-cell row is scheduled |
| `Adapters.FvgRecords` | scripts/scrape-matches.ts:154-226 | every record of the regional table is a club fixture filed under one of the three Serie D labels |
| `Adapters.FvgIgnoredRow` | scripts/scrape-matches.ts:156-165 | a short row or a non-club row can be deleted without changing the records |
| `Adapters.FvgRecordsStopAt` | scripts/scrape-matches.ts:221-232 | a row that throws drops every row after it |
| `Adapters.FvgRowOfPlayedMatch` | scripts/scrape-matches.ts:159-224 | a club row with a numeric date and a `home-away` result becomes exactly that concluded record |
| `Adapters.RowEmits` | scripts/scrape-matches.ts:165-224 | a club row with a category, a valid date and a result emits the record built from exactly those |
| `Adapters.FvgYearlessDateEndsScan` | scripts/scrape-matches.ts:193-221 | a club row dated `dd/mm HH:MM` ends the scan: the records are those of the rows before it |
| `Ingestion.UpsertAll` | scripts/scrape-matches.ts:254-258 | the key set grows by the batch's keys; rows with other keys are unchanged |
| `Ingestion.Upsert` | scripts/scrape-matches.ts:254-260 | the batch is applied iff its keys are distinct; then every key is present and untouched rows keep their values |
| `Ingestion.UpsertAllStores` | scripts/scrape-matches.ts:254-258 | with distinct keys, each record is the row stored under its key |
| `Ingestion.UpsertIdempotent` | scripts/scrape-matches.ts:254-258 | upserting the same batch twice equals upserting it once |
| `Ingestion.UpsertKnownKeys` | scripts/scrape-matches.ts:256-257 | a batch whose keys are all stored updates in place: same key set, same row count |
| `Ingestion.UpsertOne` | scripts/scrape-matches.ts:254-258 | one record is stored under its key |
| `Ingestion.RerunWithoutDateAddsRow` | scripts/scrape-matches.ts:90-124 | a fixture without a kickoff, scraped at two times, ends up under two keys |
| `Ingestion.RescoreUpdatesInPlace` | scripts/scrape-matches.ts:254-258 | a fixture scraped again with the same teams and kickoff (a new score) overwrites its row: same key set, new record under the key |
| `Ingestion.TriesteRun` | scripts/scrape-matches.ts:241-245 | the first n championships yield club fixtures filed under one of the first n championship names |
| `Ingestion.PageRecords` | scripts/scrape-matches.ts:61-135 | a failed page yields nothing; otherwise club fixtures under the page's championship |
| `Ingestion.TableRecords` | scripts/scrape-matches.ts:146-232 | a failed page yields nothing; otherwise club fixtures under a Serie D label |
| `Ingestion.RunRecords` | scripts/scrape-matches.ts:237-248 | every record a run collects is a club fixture filed under a provincial championship or a Serie D label |
| `Ingestion.Scraper.constructor` | scripts/scrape-matches.ts:42 | the accumulator starts empty, over a given store |
| `Ingestion.Scraper.Scan` | scripts/scrape-matches.ts:69-130 | the loop appends exactly the records its passes emit, up to the first that throws; the store is untouched |
| `Ingestion.Scraper.ScrapeTriesteCampionship` | scripts/scrape-matches.ts:57-136 | appends the page's club records in page order; a failed page appends nothing |
| `Ingestion.Scraper.ScrapeFipavFvg` | scripts/scrape-matches.ts:143-233 | appends the table's club records in table order, up to a throwing row; a failed page appends nothing |
| `Ingestion.Scraper.SaveAll` | scripts/scrape-matches.ts:251-264 | an empty accumulator leaves the store alone; otherwise exactly one upsert, applied iff the keys are distinct; the accumulator is kept |
| `Ingestion.Scraper.Run` | scripts/scrape-matches.ts:237-265 | the accumulator is reset, then holds the four championships' records in order and then the regional ones; one upsert iff it is non-empty; the store changes only by that upsert |
| `Images.SafeImageUrl` | components/sponsors-section.tsx:100-105 | missing or empty gives `/placeholder.svg`; `http…` and `/…` unchanged; anything else gets `/` prefixed |
| `Images.SafeImageUrlIsUsable` | app/squadre/page.tsx:47-52 | every result starts with `/` or `http` |
| `Images.SafeImageUrlIdempotent` | app/squadre/page.tsx:47-52 | applying the function twice equals applying it once |
| `Sponsors.CategoryLabel` | app/sponsor/page.tsx:56-67 | the three known categories get their labels; the label is "Sponsor" iff the category is unknown |
| `Sponsors.CategoryColor` | components/sponsors-section.tsx:86-97 | the three known categories get their colours; the gray class iff the category is unknown |
| `Sponsors.Group` | app/sponsor/page.tsx:96-98 | a group holds exactly the sponsors of its category; no data gives an empty group |
| `Sponsors.GroupKeepsOrder` | app/sponsor/page.tsx:96-98 | each group is a subsequence of the query result |
| `Sponsors.GroupsDisjoint` | app/sponsor/page.tsx:96-98 | the three groups are pairwise disjoint |
| `Sponsors.UnknownCategoryInNoGroup` | app/sponsor/page.tsx:96-98 | a sponsor of an unknown category is in no group |
| `Sponsors.KnownCategoryInItsGroup` | components/sponsors-section.tsx:126-128 | every sponsor of a known category is in its category's group |
| `Sponsors.ActiveSponsors` | app/sponsor/page.tsx:85-89 | the query holds exactly the active rows |
| `Sponsors.InactiveSponsorHidden` | app/sponsor/page.tsx:88-98 | an inactive sponsor is in no group |
| `Sponsors.SectionSponsors` | components/sponsors-section.tsx:108-128 | the three category groups of the query's rows when it gave data, otherwise of the fallback list |
| `MatchLists.UpcomingMatches` | app/partite/page.tsx:95-99 | exactly the scheduled matches dated at or after now; empty without data |
| `MatchLists.PastMatches` | app/partite/page.tsx:101-105 | exactly the concluded matches and the scheduled ones dated before now; empty without data |
| `MatchLists.ListsPartition` | app/partite/page.tsx:95-105 | together the two lists hold every scheduled or concluded match exactly once and nothing else |
| `MatchLists.ListsDisjoint` | app/partite/page.tsx:95-105 | no match is in both lists |
| `MatchLists.ListsKeepOrder` | app/partite/page.tsx:88-105 | both lists keep the newest-first order of the query |
| `MatchLists.StatusBadge` | components/matches-section.tsx:86-103 | Conclusa iff concluded; In Corso iff in progress; Da Aggiornare iff scheduled and before now; Programmata iff scheduled and not before now; Sconosciuto otherwise |
| `MatchLists.BadgeAgreesWithLists` | app/partite/page.tsx:66-77 | "Programmata" exactly on upcoming matches; "Conclusa" or "Da Aggiornare" exactly on past ones |
| `MatchLists.NextMatchesQuery` | components/matches-section.tsx:113-118 | the first three rows dated from now on, or all of them if fewer, each taken from the input |
| `MatchLists.NextMatchesAreEarliest` | components/matches-section.tsx:116-118 | no match from now on that is left out is earlier than one shown |
| `MatchLists.NextMatchesIgnoreStatus` | components/matches-section.tsx:113-118 | a concluded future match is listed although the calendar does not call it upcoming |
| `MatchLists.LatestResultsQuery` | components/matches-section.tsx:121-126 | the first two concluded rows, or all of them if fewer, each taken from the input |
| `MatchLists.LatestResultsAreNewest` | components/matches-section.tsx:124-126 | no concluded match that is left out is newer than one shown |
| `MatchLists.SectionMatches` | components/matches-section.tsx:105-142 | query data when answered, empty when null; when the client throws, the first three upcoming and the first two concluded matches of the fallback (all of them if fewer) |
| `MatchLists.FallbackKeepsOrder` | components/matches-section.tsx:133-141 | both fallback lists are subsequences of the fallback list |
| `NewsLists.TruncateText` | app/news/page.tsx:51-54 | text within maxLength is unchanged; longer text gives at most maxLength + 3 characters ending in "..." |
| `NewsLists.TruncateIsSlice` | app/news/page.tsx:53 | a longer text becomes the trimmed slice of its first maxLength characters plus "...": white space before and after the slice, none at its ends |
| `NewsLists.TruncateKeepsPrefix` | components/news-section.tsx:65-68 | a text starting with a visible character keeps the prefix up to the last visible character among the first maxLength |
| `NewsLists.NewsPageExcerpt` | app/news/page.tsx:127-174 | the card excerpt is at most 250 (featured) or 120 (regular) characters plus "..."; a shorter text is shown whole |
| `NewsLists.SectionExcerpt` | components/news-section.tsx:163-190 | the section excerpt is at most 200 (featured slot) or 80 characters plus "..."; a shorter text is shown whole |
| `NewsLists.PublishedNews` | app/news/page.tsx:59-63 | exactly the published articles |
| `NewsLists.FeaturedNews` | app/news/page.tsx:69 | exactly the featured articles; empty without data |
| `NewsLists.RegularNews` | app/news/page.tsx:70 | exactly the non-featured articles; empty without data |
| `NewsLists.NewsPagePartition` | app/news/page.tsx:69-70 | featured and regular together hold every article exactly once |
| `NewsLists.NewsPageKeepsOrder` | app/news/page.tsx:69-70 | both lists keep the query's order |
| `NewsLists.OtherNews` | components/news-section.tsx:97 | the first three recent articles without the featured article's id, or all of them if fewer, each taken from the recent ones |
| `NewsLists.OtherNewsKeepsOrder` | components/news-section.tsx:97 | the other articles are a subsequence of the recent ones |
| `NewsLists.OtherNewsCount` | components/news-section.tsx:86-97 | without a featured article, the first three; with it among the recent ones, three of the rest, or all of them if fewer |
| `NewsLists.SectionNews` | components/news-section.tsx:70-104 | answered: featured is the first row of the featured query and the others are `OtherNews` of the recent query; thrown: featured is the first featured fallback item (none iff there is none) and the others are the first three non-featured fallback items |
| `NewsLists.FallbackFeaturedNotRepeated` | components/news-section.tsx:102-103 | the fallback never repeats the featured article among the others |
| `Seqs.FindFirst` | components/news-section.tsx:102 | `find`: none iff nothing qualifies, else the first element that qualifies |
| `Seqs.TakeFilterFirst` | components/matches-section.tsx:134-141 | `filter(p).slice(0, n)` holds at most n items: those satisfying p in a prefix of the list, exactly n unless the prefix is the whole list |
| `Text.Split` | scripts/scrape-matches.ts:193-210 | `split` on one character: pieces without the separator that rejoin to the text; a single piece iff the separator is absent |
| `Text.TrimIsSlice` | scripts/scrape-matches.ts:75 | `trim` keeps the slice after the leading white space; all around it is white space and neither of its ends is |
| `Text.TrimStartSpaces` | scripts/scrape-matches.ts:198 | white space followed by a non-space character trims to what follows |

## Left out

- HTTP fetching, cheerio parsing and selector traversal are left out. What `a.gara`,
  `.squadraCasa`, `.setCasa`, `table.tbl-risultati tbody tr`, `td` and `caption` yield is given
  as strings (`GaraEntry`, `FvgRow`, `Detail`).
- The Supabase client, the environment, `process.exit` and console output are left out. The
  upsert's effect is a map update keyed by the natural key. A store that refuses the batch for
  another reason (network, permissions) is not modelled.
- The 200 ms politeness delay and `async`/`await` sequencing are left out: the model runs the
  steps in the script's order.
- JavaScript `Date` is left out: `new Date()`, `toISOString`, time zones and the normalisation of
  out-of-range fields. This includes `new Date` mapping years 0–99 to 1900–1999 and the
  valid-date range. A kickoff is kept as the five arguments of `new Date`. So two tuples that
  JavaScript normalises to the same instant count as different keys here.
- The display pages' `new Date(string)` parsing is left out: stored dates are integers in
  milliseconds, so an unparseable date string (NaN) is not modelled.
- `toLowerCase` is modelled for ASCII and Latin-1 capitals only. Other Unicode case mappings are
  left out.
- Text lengths are counted in characters, where JavaScript counts UTF-16 code units. The two
  agree on the Basic Multilingual Plane.
- The sponsor query's ordering by category is not modelled: the groups keep whatever order the
  query returns.
- The fallback literal lists of the home-page sections (sponsors, matches, news) are not
  reproduced. The selection functions take the fallback list as a parameter.
- The `truncateText` default lengths (200 on the news page, 150 in the home section) are left out:
  every call site passes its own length (250, 120, 200, 80).
- JSX rendering, icons, metadata, structured data, the contact form, the sitemap and the
  seeding scripts are UI, configuration or database I/O.
- `JsParseInt.ParseInt`: its contract states only the NaN and sign cases. What it reads is
  stated by the lemmas beside it (`ParseIntNoDigit`, `ParseIntDecimal`, `ParseIntRoundTrip`,
  `ParseDigits`).
- `JsParseInt.ParseInt`: the result is an unbounded integer. JavaScript's `parseInt` returns a
  double, which loses precision above 2^53; set counts and date fields are far below that.
- `MatchDates.TriesteDate`: the clock is read once per run (`now`), where the script calls
  `new Date()` per fixture. So two dateless fixtures of one run with the same teams share a key
  here, and such a batch is rejected by `Ingestion.Upsert`; in the script their instants would
  most likely differ by milliseconds.
