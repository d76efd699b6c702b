# Quotation summary: per-salesrep report assembly

A Dafny model of the part of `main()` in `main.go` that turns the area
directory, the list of salesreps and two databases into one e-mail per
salesrep. For each rep, in file order, the program

1. builds the rep's list of area names and the comma-separated area filter
   from the area directory (area id to trimmed area name);
2. runs the quote query for that filter and completes every quote row: a row
   with a job number is looked up in the fulfilment (Sage) database chosen by
   its business (`rjw` for business 1, `chr` otherwise), a row without one
   gets the sentinels `Not supplied`, `-`, `-`; a lookup error other than
   "no rows" ends the whole run (log.Fatal);
3. formats the area phrase (`area X only`, `areas X and Y`,
   `areas X, Y and Z`), in a variable that is kept from one rep to the next;
4. assembles the report record (name, area phrase, quotes, date) and the
   subject `Quotation Report (<name>) - <date>`.

Modules:

- `Text` (text.dfy): Go's `strings.TrimSpace` (with the `unicode.IsSpace`
  set), `strings.HasSuffix`, `strconv.Itoa`, joins and the "append then cut
  the trailing separator" idiom both loops use.
- `Records` (records.dfy): the rows and records (`Salesrep`, `QuoteRow`,
  `Quote`, `ReportData`) and `Outcome` (a value, or the run ends with
  log.Fatal).
- `Areas` (areas.dfy): the area directory, the area list and filter, the
  area phrase.
- `Quotes` (quotes.dfy): completing one quote row, and the loop over the rows.
- `Reporting` (reports.dfy): the rep's iteration, the report record and
  subject, and the loop over the reps.
- `Scenario` (scenario.dfy): one whole run on concrete data.

Each loop of the source is a method with the loop and its invariants, proved
against a function of its inputs (`AreaMapOf`, `AreaFilter`, `AreaPhrase`,
`EnrichAll` and `Queries`, `Reports`); the lemmas state what those functions
promise. The databases and the clock are inputs: `primary` maps a filter text
to the rows of the quote query (or Fatal when the query fails), `lookup`
answers a secondary query with `NoRows`, `Row(description, date)` or
`Failure`, and `clock(i)` is the date read in the i-th iteration.

## Model

| member | source | states |
|---|---|---|
| Areas.BuildAreaMap | main.go:169-176 | The directory the loop builds is the fold `AreaMapOf` of the area rows: each row's trimmed name stored under its id, in row order. |
| Areas.AreaMapKeys | main.go:169-176 | An id is in the directory exactly when some area row carries it. |
| Areas.AreaMapSnoc | main.go:175 | One more area row stores its trimmed name under its id, over whatever the rows before it left. |
| Areas.AreaMapLastWins | main.go:175 | When several rows share an id, the directory holds the trimmed name of the last of them. |
| Text.TrimSpaceOfPadded | main.go:175 | `TrimSpace` of white space, a trimmed middle and white space is that middle (an independent characterisation of the trimming). |
| Text.TrimSpaceIdempotent | main.go:175 | Trimming a trimmed name changes nothing. |
| Areas.BuildAreaListAndFilter | main.go:186-194 | The area list is `AreaNames`: one entry per area id, in the rep's order, each the directory's name for it or "" when the id is missing; the filter, after the trailing comma is cut, is the ids' decimal texts joined by commas. |
| Areas.AreaFilterCommas | main.go:190-194 | A filter for n >= 1 areas holds exactly n - 1 commas and does not end in a comma. |
| Areas.AreaFilterRoundTrip | main.go:188-194 | Splitting the filter on commas gives back each id's decimal text, and parsing those gives back the rep's ids in order. |
| Text.ItoaRoundTrip | main.go:190 | The decimal text `strconv.Itoa` writes reads back as the same integer, negative ones included. |
| Areas.AreaFilterEmpty | main.go:187-194 | A rep without areas has the empty filter. |
| Areas.FormatAreaPhrase | main.go:265-278 | With no area names the phrase variable keeps its previous value; otherwise it becomes `AreaPhrase` of the names (one, two, or three-and-more forms). |
| Areas.AreaPhraseUniform | main.go:267-277 | From two names on, the phrase is "areas ", the names before the last joined by ", ", " and ", the last name. |
| Areas.AreaPhraseCommas | main.go:265-278 | With comma-free names, the phrase holds one comma per name beyond the second, and none for one or two names. |
| Areas.AreaPhraseThreeNames | main.go:269-277 | North, South, East give "areas North, South and East". |
| Quotes.EnrichRow | main.go:222-257 | One row's step yields `Enriched(row)` and issues exactly one lookup, `QueryFor(row)`, when the row has a job number and none otherwise. |
| Quotes.EnrichedCases | main.go:232-257 | A row fails exactly when it has a job number and its lookup errors; without a job number the quote gets "Not supplied", "-", "-"; with "no rows" the description and date stay ""; with a row, the description is the trimmed description1 and the date is the despatch date, all other fields as scanned. |
| Quotes.PartitionChoice | main.go:234-244 | The lookup targets rjw exactly for business 1 and chr otherwise, naming `<db>.scheme.jcmastm` and `<db>.scheme.opheadm`, with the job number as the job code. |
| Quotes.FirstAbort | main.go:246-249 | The index it returns is in range, no earlier row fails its lookup, and the row there (if any) does. |
| Quotes.AggregateQuotes | main.go:218-263 | The loop yields `EnrichAll(rows)`; when it completes it has issued the lookups `Queries(rows)`; when it ends the run it stopped at the first failing row, after issuing exactly the lookups of the rows up to and including it. |
| Quotes.EnrichAllOrder | main.go:218-263 | The quote list is produced exactly when no row's lookup fails, and then it has one quote per row, in row order, each that row's completed quote. |
| Quotes.EnrichAllDone | main.go:246-249 | The quote loop finishes exactly when no row's lookup fails with an error other than "no rows". |
| Quotes.EnrichAllContents | main.go:218-263 | A finished quote loop holds one quote per row, in row order, each that row's completed quote. |
| Quotes.QueriesOnlyForJobs | main.go:232-246 | The k-th lookup issued is `QueryFor` of the k-th row that has a job number, in row order; there are exactly as many lookups as such rows, and each of them is one of the quote rows: a row without a job number never reaches the secondary database. |
| Quotes.AbortAt | main.go:246-249 | When the row at index i fails after all earlier rows succeeded, the run ends there and i is the first failing row. |
| Reporting.SubjectInjective | main.go:301 | For names without ')', the subject determines both the rep's name and the date. |
| Reporting.SubjectNameEnds | main.go:301 | The subject is the prefix, the name closed by ')', then " - " and the date. |
| Reporting.ProcessRep | main.go:186-301 | One rep's iteration yields `RepStep`: Fatal when the quote query or a lookup fails, otherwise the e-mail with the report for the rep. |
| Reporting.RunReports | main.go:169-301 | The whole loop, after building the directory, yields `Reports` over all reps, starting with an empty phrase variable. |
| Reporting.SendReports | main.go:180-301 | The loop over the reps sends the e-mails `Reports` gives, in order, and stops at the first failing rep. |
| Reporting.RepStepContents | main.go:210-301 | A rep's step succeeds exactly when its quote query and all its lookups succeed; the e-mail then goes to the rep's address with the subject for the rep's name and date, the report names the rep and the date, holds one quote per queried row in order, and the phrase is the rep's area phrase, or the previous phrase when the rep has no areas. |
| Reporting.RepStepDone | main.go:210-301 | A rep whose query and lookups succeed gets the e-mail built from its name, address, area phrase, quotes and date. |
| Reporting.ReportsStep | main.go:180-301 | The run from rep k is rep k's e-mail followed by the run from k + 1 with that e-mail's phrase, or stops at rep k when its step fails. |
| Reporting.Reports | main.go:180-301 | A run from rep k sends at most one e-mail per remaining rep and is aborted exactly when it sends fewer. |
| Reporting.RunStepAt | main.go:180-301 | The j-th e-mail is what rep j's step makes, started with the phrase the e-mail before it left. |
| Reporting.RunAbortAt | main.go:180-301 | An aborted run stopped at a rep whose step fails. |
| Reporting.RunShape | main.go:180-301 | E-mail j goes to rep j's address, under rep j's subject with the date of iteration j, and names rep j. |
| Reporting.RunAbortCause | main.go:210-249 | An aborted run stopped at the first rep without an e-mail because that rep's quote query or one of its lookups failed. |
| Reporting.RepStepFatal | main.go:210-249 | A rep's iteration ends the run only when its quote query fails or one of its rows' lookups fails. |
| Reporting.StepOfSetsPhrase | main.go:265-278 | Every successful step sets the phrase variable to the rep's area phrase, or leaves it as it was for a rep without areas. |
| Reporting.RunPhraseAt | main.go:265-292 | The phrase of e-mail j is the phrase formed from rep j's area names and the phrase before it. |
| Reporting.RunPhraseOwn | main.go:265-292 | A rep with areas gets the phrase of its own area names. |
| Reporting.RunPhraseCarried | main.go:265-292 | A rep without areas gets the phrase of the e-mail before it, or "" when it is the first rep. |
| Reporting.RunQuotes | main.go:207-292 | Each e-mail carries one quote per row of the rep's quote query for its filter, in the query's order, each that row completed by its lookup. |
| Scenario.ScenarioDirectory | main.go:169-176 | Area rows whose names carry any white space on either side give the directory of the trimmed names North, South, East. |
| Scenario.EndToEnd | main.go:169-301 | Given area rows with padded names, a rep with areas 1 and 2 and two quotes (one with a known job, one without) gets one e-mail. It holds both quotes in order, the job-less one with the sentinels, and the phrase "areas North and South" made from the trimmed names. |

## Left out

- Start-up (`init`): the log file, the configuration file, opening the two
  database connections. Their failures end the program before the core runs.
- Reading and decoding `salesreps.json`: the reps are an input. A decoding
  error is ignored by the source and is not modelled.
- SQL execution. The source runs three queries: the area query
  (main.go:161), the quote query (main.go:210) and the fulfilment lookup
  (main.go:246). The area query's rows are the input `areaRows`; its failure
  (main.go:162-164) ends the program before any rep is handled and is not
  modelled. The other two are the inputs `primary` and `lookup`. The model
  states which filter text and which lookup (database, tables, job code) each
  step hands them; the SQL text around them is not modelled.
- The databases are modelled as unchanging during a run: `primary` depends
  only on the filter text and `lookup` only on the query, so two reps with
  the same filter get the same rows. The source's quote query compares with
  `CURRENT_TIMESTAMP` (main.go:206) and its lookup reads uncommitted data
  (main.go:240), so in the source two such reps can get different answers.
- `salesAreas.Err()` and `quoteRows.Err()` are never checked (main.go:170,
  main.go:220): an error part-way through the rows ends the loop early and
  the run goes on with the rows read so far. The model has no separate case
  for this; such a run is the same as an input (`areaRows`, or `primary`
  answering `Done`) holding just those rows.
- A zero-area rep's quote query has the filter "" spliced into `IN ()`. What
  the database does with that is up to the `primary` input; the model makes no
  claim about it.
- `Scan` errors on the area rows and the quote rows (they end the run): the
  rows are inputs as already scanned.
- `fmt.Sprintf("%.2f", ...)` of the quote value: floating point is not
  modelled; the value arrives as its formatted text.
- `time.Now()`: the date of each iteration is the input `clock(i)`.
- The template (`Quotationsummary.tpl`) and its rendering, SendGrid, the
  sender, the fixed CC list and the HTTP response. An e-mail is modelled as
  its recipient, subject and report record; failures there are not modelled.
- Logging, console output and the `defer` closes.
- Go's 64-bit `int`: ids and business ids are unbounded integers.
- Strings are sequences of runes; invalid UTF-8 bytes, which
  `strings.TrimSpace` passes through unchanged, are not modelled.
- `sageDb` is a variable of `main()` that is assigned before every use, so
  the model scopes it to one quote row.
- A rep without areas: the empty filter goes into `sa.area_id IN ()`
  (main.go:207), and `areaOutput` is not reassigned because none of the three
  branches at main.go:265-278 applies, so the report carries the previous
  rep's phrase (or "" for the first rep). The model does exactly this; it
  does not assume the rep gets an empty quote list or an empty phrase.
