/** The quote loop of one salesrep: each scanned quote row is completed from
    the fulfilment (Sage) database when it has a job number, or given the
    sentinel values when it has none, and appended to the quote list. */
module Quotes {
  import opened Text
  import opened Records

  /** What the single-row secondary lookup can come back with: sql.ErrNoRows,
      a row (description1 and the despatch date text), or any other error. */
  datatype LookupOutcome = NoRows | Row(description: string, dateDespatched: string) | Failure

  /** The two Sage databases the fulfilment data is split over. */
  datatype SageDb = Rjw | Chr {
    /** The database name spliced into the query text. */
    function Name(): string {
      match this
      case Rjw => "rjw"
      case Chr => "chr"
    }
  }

  /** The two tables the lookup joins: the job master and the order header. */
  datatype SageTable = JobMaster | OrderHeader

  /** A three-part table name `<database>.scheme.<table>`. */
  datatype TableRef = TableRef(db: SageDb, table: SageTable) {
    function QualifiedName(): string {
      db.Name() + ".scheme." + match table case JobMaster => "jcmastm" case OrderHeader => "opheadm"
    }
  }

  /** The secondary lookup as issued: the job table and the order-header table
      it joins, and the job code bound to the `?` parameter. */
  datatype SecondaryQuery = SecondaryQuery(jobTable: TableRef, headerTable: TableRef, jobCode: string)

  const NotSupplied := "Not supplied"
  const NoValue := "-"

  /** The Sage database holding the business's jobs: rjw for business 1,
      chr for every other business. */
  function Partition(businessID: int): SageDb {
    if businessID == 1 then Rjw else Chr
  }

  /** Both tables of a query live in database db. */
  predicate InPartition(q: SecondaryQuery, db: SageDb) {
    q.jobTable == TableRef(db, JobMaster) && q.headerTable == TableRef(db, OrderHeader)
  }

  /** The lookup made for a row: both tables named in the database its
      business selects. */
  function QueryFor(row: QuoteRow): SecondaryQuery {
    var sageDb := Partition(row.businessID);
    SecondaryQuery(TableRef(sageDb, JobMaster), TableRef(sageDb, OrderHeader), row.jobNo)
  }

  /** The quote as Scan leaves it: the row's columns, Description and
      DateDespatched still at Go's zero value "". */
  function Scanned(row: QuoteRow): Quote {
    Quote(row.quoteID, row.customerName, row.contactName, row.businessID,
          row.departmentName, row.quoteValue, row.jobNo, "", "")
  }

  /** A row whose lookup fails with an error other than sql.ErrNoRows. */
  predicate Aborts(row: QuoteRow, lookup: SecondaryQuery -> LookupOutcome) {
    row.jobNo != "" && lookup(QueryFor(row)).Failure?
  }

  /** The completed quote of one row, or Fatal when its lookup fails. */
  function Enriched(row: QuoteRow, lookup: SecondaryQuery -> LookupOutcome): Outcome<Quote> {
    var q := Scanned(row);
    if row.jobNo == "" then
      Done(q.(jobNo := NotSupplied, description := NoValue, dateDespatched := NoValue))
    else
      match lookup(QueryFor(row))
      case Failure => Fatal
      case NoRows => Done(q.(description := TrimSpace(q.description)))
      case Row(d, t) => Done(q.(description := TrimSpace(d), dateDespatched := t))
  }

  /** What each row's step promises, case by case. */
  lemma EnrichedCases(row: QuoteRow, lookup: SecondaryQuery -> LookupOutcome)
    ensures Enriched(row, lookup).Fatal? <==> Aborts(row, lookup)
    ensures row.jobNo == "" ==>
      Enriched(row, lookup) == Done(Quote(row.quoteID, row.customerName, row.contactName, row.businessID,
        row.departmentName, row.quoteValue, "Not supplied", "-", "-"))
    ensures row.jobNo != "" && lookup(QueryFor(row)).NoRows? ==>
      Enriched(row, lookup) == Done(Scanned(row))
    ensures row.jobNo != "" && lookup(QueryFor(row)).Row? ==>
      var q := Enriched(row, lookup).value;
      q.description == TrimSpace(lookup(QueryFor(row)).description) &&
      q.dateDespatched == lookup(QueryFor(row)).dateDespatched &&
      q == Scanned(row).(description := q.description, dateDespatched := q.dateDespatched)
  {
    assert TrimSpace("") == "";
  }

  /** The database is rjw exactly for business 1 and chr for every other
      business; both tables of the query are named in it, as
      `rjw.scheme.jcmastm` and `rjw.scheme.opheadm` (or the chr ones), and the
      job code is the quote's job number. */
  lemma PartitionChoice(row: QuoteRow)
    ensures InPartition(QueryFor(row), Rjw) <==> row.businessID == 1
    ensures InPartition(QueryFor(row), Chr) <==> row.businessID != 1
    ensures QueryFor(row).jobTable.QualifiedName() == (if row.businessID == 1 then "rjw" else "chr") + ".scheme.jcmastm"
    ensures QueryFor(row).headerTable.QualifiedName() == (if row.businessID == 1 then "rjw" else "chr") + ".scheme.opheadm"
    ensures QueryFor(row).jobCode == row.jobNo
  {
    var name := if row.businessID == 1 then "rjw" else "chr";
    assert name + ".scheme." + "jcmastm" == name + ".scheme.jcmastm";
    assert name + ".scheme." + "opheadm" == name + ".scheme.opheadm";
  }

  /** The index of the first row whose lookup fails, |rows| when none does. */
  function FirstAbort(rows: seq<QuoteRow>, lookup: SecondaryQuery -> LookupOutcome): (k: nat)
    ensures k <= |rows|
    ensures forall j :: 0 <= j < k ==> !Aborts(rows[j], lookup)
    ensures k < |rows| ==> Aborts(rows[k], lookup)
  {
    if rows == [] then 0
    else if Aborts(rows[0], lookup) then 0
    else 1 + FirstAbort(rows[1..], lookup)
  }

  /** The lookups made for rows processed in order: one per row with a job
      number, none for a row without. */
  function Queries(rows: seq<QuoteRow>): seq<SecondaryQuery> {
    if rows == [] then []
    else
      var last := rows[|rows| - 1];
      Queries(rows[..|rows| - 1]) + (if last.jobNo != "" then [QueryFor(last)] else [])
  }

  /** The number of rows that have a job number. */
  function JobCount(rows: seq<QuoteRow>): nat {
    if rows == [] then 0
    else JobCount(rows[..|rows| - 1]) + (if rows[|rows| - 1].jobNo != "" then 1 else 0)
  }

  /** The rows that have a job number, in row order. */
  function JobRows(rows: seq<QuoteRow>): seq<QuoteRow> {
    if rows == [] then []
    else
      var last := rows[|rows| - 1];
      JobRows(rows[..|rows| - 1]) + (if last.jobNo != "" then [last] else [])
  }

  /** Lookups are made only for rows with a job number, one each and in row
      order: the k-th lookup is the one for the k-th row with a job number,
      which is one of the rows, and there are as many lookups as such rows. */
  lemma {:induction false} QueriesOnlyForJobs(rows: seq<QuoteRow>)
    ensures |Queries(rows)| == JobCount(rows) == |JobRows(rows)|
    ensures forall k :: 0 <= k < |Queries(rows)| ==>
      JobRows(rows)[k].jobNo != "" && Queries(rows)[k] == QueryFor(JobRows(rows)[k])
    ensures forall k :: 0 <= k < |JobRows(rows)| ==> JobRows(rows)[k] in rows
  {
    if rows != [] {
      var init := rows[..|rows| - 1];
      var last := rows[|rows| - 1];
      QueriesOnlyForJobs(init);
      var extra := if last.jobNo != "" then [QueryFor(last)] else [];
      var extraRows := if last.jobNo != "" then [last] else [];
      assert Queries(rows) == Queries(init) + extra;
      assert JobRows(rows) == JobRows(init) + extraRows;
      forall k | 0 <= k < |JobRows(rows)|
        ensures JobRows(rows)[k].jobNo != "" && Queries(rows)[k] == QueryFor(JobRows(rows)[k])
        ensures JobRows(rows)[k] in rows
      {
        if k < |JobRows(init)| {
          assert JobRows(rows)[k] == JobRows(init)[k] && Queries(rows)[k] == Queries(init)[k];
          assert JobRows(init)[k] in init;
        } else {
          assert JobRows(rows)[k] == last && Queries(rows)[k] == QueryFor(last);
        }
      }
    }
  }

  /** The quote list the loop builds from the rows, in row order, or Fatal
      as soon as one row's lookup fails. */
  function EnrichAll(rows: seq<QuoteRow>, lookup: SecondaryQuery -> LookupOutcome): Outcome<seq<Quote>> {
    if rows == [] then Done([])
    else Append(EnrichAll(rows[..|rows| - 1], lookup), Enriched(rows[|rows| - 1], lookup))
  }

  /** `quotes = append(quotes, q)`, unless the run has already ended or ends now. */
  function Append(quotes: Outcome<seq<Quote>>, q: Outcome<Quote>): Outcome<seq<Quote>> {
    if quotes.Done? && q.Done? then Done(quotes.value + [q.value]) else Fatal
  }

  /** The body of the quote loop for one row: the quote is built field by
      field as main.go does; `issued` is the lookup made for it, if any. */
  method EnrichRow(row: QuoteRow, lookup: SecondaryQuery -> LookupOutcome)
    returns (quote: Outcome<Quote>, issued: seq<SecondaryQuery>)
    ensures quote == Enriched(row, lookup)
    ensures issued == if row.jobNo != "" then [QueryFor(row)] else []
  {
    var q := Scanned(row);
    if q.jobNo != "" {
      var sageDb;
      if q.businessID == 1 {
        sageDb := Rjw;
      } else {
        sageDb := Chr;
      }
      var query := SecondaryQuery(TableRef(sageDb, JobMaster), TableRef(sageDb, OrderHeader), q.jobNo);
      issued := [query];
      match lookup(query) {
        case Failure =>
          return Fatal, issued;
        case NoRows =>
        case Row(d, t) =>
          q := q.(description := d, dateDespatched := t);
      }
      q := q.(description := TrimSpace(q.description));
    } else {
      issued := [];
      q := q.(jobNo := NotSupplied);
      q := q.(description := NoValue);
      q := q.(dateDespatched := NoValue);
    }
    quote := Done(q);
  }

  /** The loop over the scanned quote rows. A lookup failure ends the run at
      once, with the lookups made so far (the failing one included) in
      `issued`. */
  method AggregateQuotes(rows: seq<QuoteRow>, lookup: SecondaryQuery -> LookupOutcome)
    returns (quotes: Outcome<seq<Quote>>, issued: seq<SecondaryQuery>)
    ensures quotes == EnrichAll(rows, lookup)
    ensures quotes.Done? ==> issued == Queries(rows)
    ensures quotes.Fatal? ==> FirstAbort(rows, lookup) < |rows| && issued == Queries(rows[..FirstAbort(rows, lookup) + 1])
  {
    var list: seq<Quote> := [];
    issued := [];
    var i := 0;
    while i < |rows|
      invariant 0 <= i <= |rows|
      invariant Done(list) == EnrichAll(rows[..i], lookup)
      invariant issued == Queries(rows[..i])
    {
      var q, query := EnrichRow(rows[i], lookup);
      QueriesStep(rows, i);
      EnrichAllStep(rows, i, lookup);
      issued := issued + query;
      if q.Fatal? {
        AbortAt(rows, i, lookup);
        return Fatal, issued;
      }
      list := list + [q.value];
      i := i + 1;
    }
    assert rows[..i] == rows;
    quotes := Done(list);
  }

  lemma QueriesStep(rows: seq<QuoteRow>, i: nat)
    requires i < |rows|
    ensures Queries(rows[..i + 1]) == Queries(rows[..i]) + if rows[i].jobNo != "" then [QueryFor(rows[i])] else []
  {
    assert rows[..i + 1][..i] == rows[..i];
  }

  lemma EnrichAllStep(rows: seq<QuoteRow>, i: nat, lookup: SecondaryQuery -> LookupOutcome)
    requires i < |rows|
    ensures EnrichAll(rows[..i + 1], lookup) == Append(EnrichAll(rows[..i], lookup), Enriched(rows[i], lookup))
  {
    assert rows[..i + 1][..i] == rows[..i];
  }

  /** The quote list is Fatal exactly when some row's lookup fails; otherwise
      it has one entry per row, in row order, each that row's completed
      quote. A "no rows" answer never ends the run. */
  lemma EnrichAllOrder(rows: seq<QuoteRow>, lookup: SecondaryQuery -> LookupOutcome)
    ensures EnrichAll(rows, lookup).Done? <==> forall j :: 0 <= j < |rows| ==> !Aborts(rows[j], lookup)
    ensures EnrichAll(rows, lookup).Done? ==>
      |EnrichAll(rows, lookup).value| == |rows| &&
      forall i :: 0 <= i < |rows| ==> Done(EnrichAll(rows, lookup).value[i]) == Enriched(rows[i], lookup)
  {
    EnrichAllDone(rows, lookup);
    if EnrichAll(rows, lookup).Done? {
      EnrichAllContents(rows, lookup);
    }
  }

  /** A row's step ends the run exactly when the row aborts. */
  lemma EnrichedFatal(row: QuoteRow, lookup: SecondaryQuery -> LookupOutcome)
    ensures Enriched(row, lookup).Fatal? <==> Aborts(row, lookup)
  {
  }

  lemma {:induction false} EnrichAllDone(rows: seq<QuoteRow>, lookup: SecondaryQuery -> LookupOutcome)
    ensures EnrichAll(rows, lookup).Done? <==> forall j :: 0 <= j < |rows| ==> !Aborts(rows[j], lookup)
  {
    if rows != [] {
      var init := rows[..|rows| - 1];
      var last := rows[|rows| - 1];
      EnrichAllDone(init, lookup);
      EnrichedFatal(last, lookup);
      assert forall j :: 0 <= j < |init| ==> init[j] == rows[j];
      if forall j :: 0 <= j < |rows| ==> !Aborts(rows[j], lookup) {
        assert !Aborts(last, lookup);
      }
    }
  }

  lemma {:induction false} EnrichAllContents(rows: seq<QuoteRow>, lookup: SecondaryQuery -> LookupOutcome)
    requires EnrichAll(rows, lookup).Done?
    ensures |EnrichAll(rows, lookup).value| == |rows|
    ensures forall i :: 0 <= i < |rows| ==> Done(EnrichAll(rows, lookup).value[i]) == Enriched(rows[i], lookup)
  {
    if rows != [] {
      var init := rows[..|rows| - 1];
      var last := rows[|rows| - 1];
      var quotes := EnrichAll(rows, lookup).value;
      assert EnrichAll(init, lookup).Done? && Enriched(last, lookup).Done?;
      EnrichAllContents(init, lookup);
      var prior := EnrichAll(init, lookup).value;
      assert quotes == prior + [Enriched(last, lookup).value];
      forall i | 0 <= i < |rows| ensures Done(quotes[i]) == Enriched(rows[i], lookup) {
        if i < |init| {
          assert quotes[i] == prior[i] && rows[i] == init[i];
        }
      }
    }
  }

  /** The loop stops at row i when that row's lookup fails after every
      earlier row went through: row i is the first failing row and the run
      ends. */
  lemma AbortAt(rows: seq<QuoteRow>, i: nat, lookup: SecondaryQuery -> LookupOutcome)
    requires i < |rows|
    requires EnrichAll(rows[..i], lookup).Done?
    requires Enriched(rows[i], lookup).Fatal?
    ensures EnrichAll(rows, lookup).Fatal?
    ensures FirstAbort(rows, lookup) == i
  {
    AbortEndsRun(rows, i, lookup);
    AbortIsFirst(rows, i, lookup);
  }

  lemma {:induction false} AbortEndsRun(rows: seq<QuoteRow>, i: nat, lookup: SecondaryQuery -> LookupOutcome)
    requires i < |rows|
    requires EnrichAll(rows[..i], lookup).Done?
    requires Enriched(rows[i], lookup).Fatal?
    ensures EnrichAll(rows, lookup).Fatal?
  {
    var init := rows[..|rows| - 1];
    if i == |rows| - 1 {
      assert rows[..i] == init;
    } else {
      assert init[..i] == rows[..i] && init[i] == rows[i];
      AbortEndsRun(init, i, lookup);
    }
  }

  lemma AbortIsFirst(rows: seq<QuoteRow>, i: nat, lookup: SecondaryQuery -> LookupOutcome)
    requires i < |rows|
    requires EnrichAll(rows[..i], lookup).Done?
    requires Enriched(rows[i], lookup).Fatal?
    ensures FirstAbort(rows, lookup) == i
  {
    NoAbortBefore(rows, i, lookup);
    EnrichedCases(rows[i], lookup);
    FirstAbortAt(rows, lookup, i);
  }

  lemma NoAbortBefore(rows: seq<QuoteRow>, i: nat, lookup: SecondaryQuery -> LookupOutcome)
    requires i <= |rows|
    requires EnrichAll(rows[..i], lookup).Done?
    ensures forall j :: 0 <= j < i ==> !Aborts(rows[j], lookup)
  {
    EnrichAllDone(rows[..i], lookup);
    forall j | 0 <= j < i ensures !Aborts(rows[j], lookup) {
      assert rows[..i][j] == rows[j];
    }
  }

  lemma {:induction false} FirstAbortAt(rows: seq<QuoteRow>, lookup: SecondaryQuery -> LookupOutcome, i: nat)
    requires i < |rows| && Aborts(rows[i], lookup)
    requires forall j :: 0 <= j < i ==> !Aborts(rows[j], lookup)
    ensures FirstAbort(rows, lookup) == i
  {
    if i > 0 {
      FirstAbortAt(rows[1..], lookup, i - 1);
    }
  }

  lemma {:induction false} FirstAbortNone(rows: seq<QuoteRow>, lookup: SecondaryQuery -> LookupOutcome)
    requires forall j :: 0 <= j < |rows| ==> !Aborts(rows[j], lookup)
    ensures FirstAbort(rows, lookup) == |rows|
  {
    if rows != [] {
      FirstAbortNone(rows[1..], lookup);
    }
  }
}
