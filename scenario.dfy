/** A whole run on concrete data: an area table whose names carry white
    space, one rep with areas 1 and 2, two quotes, one with a job number the
    secondary database knows and one without. */
module Scenario {
  import opened Text
  import opened Records
  import opened Areas
  import opened Quotes
  import opened Reporting

  const Rep := Salesrep(7, "Ann", "ann@example.com", [1, 2])
  /** The rows of tbl_area, their names padded with the white space pad:
      on both ends, on the right, on the left. */
  function AreaTable(pad: string): seq<AreaRow> {
    [AreaRow(1, pad + "North" + pad), AreaRow(2, "South" + pad), AreaRow(3, pad + "East")]
  }

  /** The directory those rows should give. */
  const Directory: AreaMap := map[1 := "North", 2 := "South", 3 := "East"]
  const WithJob := QuoteRow("Acme", "Bob", 10, 1, "Sales", "1234.50", "J100")
  const WithoutJob := QuoteRow("Bolt", "Cy", 11, 2, "Sales", "0.00", "")
  const FirstQuote := Quote(10, "Acme", "Bob", 1, "Sales", "1234.50", "J100", "Valve", "2024-03-01")
  const SecondQuote := Quote(11, "Bolt", "Cy", 2, "Sales", "0.00", "Not supplied", "-", "-")

  /** The quote query answers the filter "1,2" and fails on anything else. */
  function QuoteDb(filter: string): Outcome<seq<QuoteRow>> {
    if filter == "1,2" then Done([WithJob, WithoutJob]) else Fatal
  }

  /** The secondary database knows job J100 only. */
  function SageLookup(query: SecondaryQuery): LookupOutcome {
    if query.jobCode == "J100" then Row("Valve ", "2024-03-01") else NoRows
  }

  function Today(i: nat): string {
    "2024-03-04"
  }

  lemma NorthTrimmed(pad: string)
    requires AllSpace(pad)
    ensures TrimSpace(pad + "North" + pad) == "North"
  {
    TrimSpaceOfPadded(pad, "North", pad);
  }

  lemma SouthTrimmed(pad: string)
    requires AllSpace(pad)
    ensures TrimSpace("South" + pad) == "South"
  {
    TrimSpaceOfPadded([], "South", pad);
    assert [] + "South" + pad == "South" + pad;
  }

  lemma EastTrimmed(pad: string)
    requires AllSpace(pad)
    ensures TrimSpace(pad + "East") == "East"
  {
    TrimSpaceOfPadded(pad, "East", []);
    assert pad + "East" + [] == pad + "East";
  }

  /** The directory three rows give, before their names are worked out. */
  lemma FoldThree(a: AreaRow, b: AreaRow, c: AreaRow)
    ensures AreaMapOf([a, b, c]) ==
      map[a.areaID := TrimSpace(a.areaName)][b.areaID := TrimSpace(b.areaName)][c.areaID := TrimSpace(c.areaName)]
  {
    var empty: seq<AreaRow> := [];
    assert empty + [a] == [a];
    assert [a] + [b] == [a, b];
    assert [a, b] + [c] == [a, b, c];
    assert AreaMapOf(empty) == map[];
    AreaMapSnoc(empty, a);
    AreaMapSnoc([a], b);
    AreaMapSnoc([a, b], c);
  }

  /** Building the directory trims every name, whatever white space pads it. */
  lemma ScenarioDirectory(pad: string)
    requires AllSpace(pad)
    ensures AreaMapOf(AreaTable(pad)) == Directory
  {
    var north, south, east := AreaRow(1, pad + "North" + pad), AreaRow(2, "South" + pad), AreaRow(3, pad + "East");
    assert AreaTable(pad) == [north, south, east];
    FoldThree(north, south, east);
    NorthTrimmed(pad);
    SouthTrimmed(pad);
    EastTrimmed(pad);
  }

  lemma ScenarioFilter()
    ensures AreaFilter(Rep.areas) == "1,2"
  {
    assert NatToDecimal(1) == "1";
    assert NatToDecimal(2) == "2";
    assert DecimalIDs([1, 2]) == ["1", "2"];
    assert Join(["1", "2"], ",") == "1" + "," + Join(["2"], ",");
  }

  lemma ScenarioNames()
    ensures AreaNames(Rep.areas, Directory) == ["North", "South"]
  {
  }

  lemma ScenarioPhrase()
    ensures PhraseAfter(["North", "South"], "") == "areas North and South"
  {
  }

  lemma ScenarioSubject()
    ensures Subject("Ann", "2024-03-04") == "Quotation Report (Ann) - 2024-03-04"
  {
  }

  lemma ScenarioTrim()
    ensures TrimSpace("Valve ") == "Valve"
  {
    TrimSpaceOfPadded("", "Valve", " ");
    assert "" + "Valve" + " " == "Valve ";
  }

  lemma ScenarioFirstQuote()
    ensures Enriched(WithJob, SageLookup) == Done(FirstQuote)
  {
    assert SageLookup(QueryFor(WithJob)) == Row("Valve ", "2024-03-01");
    ScenarioTrim();
  }

  lemma ScenarioQuotes()
    ensures EnrichAll([WithJob, WithoutJob], SageLookup) == Done([FirstQuote, SecondQuote])
  {
    var rows := [WithJob, WithoutJob];
    ScenarioFirstQuote();
    assert Enriched(WithoutJob, SageLookup) == Done(SecondQuote);
    EnrichAllStep(rows, 0, SageLookup);
    EnrichAllStep(rows, 1, SageLookup);
    assert rows[..0] == [] && rows[0] == WithJob && rows[1] == WithoutJob;
    assert EnrichAll(rows[..1], SageLookup) == Done([] + [FirstQuote]);
    assert [] + [FirstQuote] + [SecondQuote] == [FirstQuote, SecondQuote];
    assert rows[..2] == rows;
  }

  const Sent := Email("ann@example.com", "Quotation Report (Ann) - 2024-03-04",
                      ReportData("Ann", "areas North and South", [FirstQuote, SecondQuote], "2024-03-04"))

  lemma ScenarioStep()
    ensures RepStep(Rep, "2024-03-04", Directory, QuoteDb, SageLookup, "") == Done(Sent)
  {
    ScenarioFilter();
    ScenarioNames();
    ScenarioPhrase();
    ScenarioSubject();
    ScenarioQuotes();
    RepStepDone(Rep, "2024-03-04", Directory, QuoteDb, SageLookup, "", [WithJob, WithoutJob], [FirstQuote, SecondQuote]);
  }

  /** The rep gets one e-mail: both quotes in the query's order, the one
      without a job carrying the "Not supplied" and "-" sentinels, and the
      phrase "areas North and South" built from the trimmed directory. */
  lemma EndToEnd(pad: string)
    requires AllSpace(pad)
    ensures Reports([Rep], 0, StepOf(AreaMapOf(AreaTable(pad)), QuoteDb, SageLookup), Today, "") == RunLog([Sent], false)
  {
    ScenarioDirectory(pad);
    var step := StepOf(Directory, QuoteDb, SageLookup);
    ScenarioStep();
    assert step(Rep, Today(0), "") == Done(Sent);
    ReportsStep([Rep], 0, step, Today, "");
    assert Reports([Rep], 1, step, Today, Sent.report.areaName) == RunLog([], false);
  }
}
