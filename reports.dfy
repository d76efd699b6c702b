/** The loop over the salesreps: for each rep in file order, its area names
    and filter, its quotes, the area phrase (a variable kept across reps), the
    report record and the e-mail subject. */
module Reporting {
  import opened Text
  import opened Records
  import opened Areas
  import opened Quotes

  /** What is handed to the template and to SendGrid for one rep: the "to"
      address, the subject and the report data. */
  datatype Email = Email(to: string, subject: string, report: ReportData)

  /** What a run produced: the e-mails in rep order, and whether it stopped
      early with log.Fatal (the e-mails before that point stay sent). */
  datatype RunLog = RunLog(emails: seq<Email>, aborted: bool)

  const SubjectPrefix := "Quotation Report ("
  const SubjectMiddle := ") - "

  /** fmt.Sprintf("Quotation Report (%s) - %s", name, date). */
  function Subject(name: string, date: string): string {
    SubjectPrefix + name + SubjectMiddle + date
  }

  /** Inside a subject, the first ')' after the prefix closes the name. */
  lemma SubjectNameEnds(name: string, date: string)
    requires ')' !in name
    ensures var s := Subject(name, date);
      |s| > |SubjectPrefix| + |name| && s[|SubjectPrefix| + |name|] == ')' &&
      s[..|SubjectPrefix|] == SubjectPrefix &&
      s[|SubjectPrefix|..|SubjectPrefix| + |name|] == name &&
      s[|SubjectPrefix| + |name| + |SubjectMiddle|..] == date
  {
    var s := Subject(name, date);
    assert s == SubjectPrefix + (name + (SubjectMiddle + date));
  }

  /** The subject names the rep and the date it was made on: when the name
      holds no ')', different (name, date) pairs give different subjects. */
  lemma SubjectInjective(name1: string, date1: string, name2: string, date2: string)
    requires ')' !in name1 && ')' !in name2
    requires Subject(name1, date1) == Subject(name2, date2)
    ensures name1 == name2 && date1 == date2
  {
    SubjectNameEnds(name1, date1);
    SubjectNameEnds(name2, date2);
    assert |name1| == |name2|;
  }

  /** The phrase variable after a rep: its area phrase, or, with no area
      names, what it held before. */
  function PhraseAfter(names: seq<string>, areaOutput: string): string {
    if |names| == 0 then areaOutput else AreaPhrase(names)
  }

  /** One rep's iteration: its e-mail (whose report carries the phrase
      variable's new value), or Fatal when the quote query or a lookup fails. */
  function RepStep(rep: Salesrep, date: string, areaMap: AreaMap,
                   primary: string -> Outcome<seq<QuoteRow>>, lookup: SecondaryQuery -> LookupOutcome,
                   areaOutput: string): Outcome<Email>
  {
    match primary(AreaFilter(rep.areas))
    case Fatal => Fatal
    case Done(rows) =>
      match EnrichAll(rows, lookup)
      case Fatal => Fatal
      case Done(quotes) =>
        var phrase := PhraseAfter(AreaNames(rep.areas, areaMap), areaOutput);
        Done(Email(rep.email, Subject(rep.name, date), ReportData(rep.name, phrase, quotes, date)))
  }

  /** A rep's step as a function of the rep, the date and the phrase so far;
      the run below is written over any such step. */
  type Step = (Salesrep, string, string) -> Outcome<Email>

  /** The step main() takes for each rep, given the directory and the two queries. */
  function StepOf(areaMap: AreaMap, primary: string -> Outcome<seq<QuoteRow>>,
                  lookup: SecondaryQuery -> LookupOutcome): Step
  {
    (rep: Salesrep, date: string, areaOutput: string) => RepStep(rep, date, areaMap, primary, lookup, areaOutput)
  }

  /** The run from rep k on, with the phrase variable holding areaOutput. */
  function Reports(reps: seq<Salesrep>, k: nat, step: Step,
                   clock: nat -> string, areaOutput: string): (r: RunLog)
    requires k <= |reps|
    ensures k + |r.emails| <= |reps|
    ensures r.aborted <==> k + |r.emails| < |reps|
    decreases |reps| - k
  {
    if k == |reps| then RunLog([], false)
    else
      match step(reps[k], clock(k), areaOutput)
      case Fatal => RunLog([], true)
      case Done(e) =>
        var rest := Reports(reps, k + 1, step, clock, e.report.areaName);
        RunLog([e] + rest.emails, rest.aborted)
  }

  /** The e-mails already sent, followed by a run's. */
  function Prefixed(sent: seq<Email>, log: RunLog): RunLog {
    RunLog(sent + log.emails, log.aborted)
  }

  lemma PrefixedAssoc(sent: seq<Email>, e: Email, log: RunLog)
    ensures Prefixed(sent, Prefixed([e], log)) == Prefixed(sent + [e], log)
  {
    assert sent + ([e] + log.emails) == (sent + [e]) + log.emails;
  }

  /** A rep whose queries succeed: its e-mail and what the phrase variable then holds. */
  lemma RepStepDone(rep: Salesrep, date: string, areaMap: AreaMap,
                    primary: string -> Outcome<seq<QuoteRow>>, lookup: SecondaryQuery -> LookupOutcome,
                    areaOutput: string, rows: seq<QuoteRow>, quotes: seq<Quote>)
    requires primary(AreaFilter(rep.areas)) == Done(rows)
    requires EnrichAll(rows, lookup) == Done(quotes)
    ensures RepStep(rep, date, areaMap, primary, lookup, areaOutput) ==
      Done(Email(rep.email, Subject(rep.name, date),
                 ReportData(rep.name, PhraseAfter(AreaNames(rep.areas, areaMap), areaOutput), quotes, date)))
  {
  }

  /** The run from rep k on is rep k's e-mail followed by the run from k + 1
      on with the phrase that e-mail carries, or stops at once when rep k fails. */
  lemma ReportsStep(reps: seq<Salesrep>, k: nat, step: Step,
                    clock: nat -> string, areaOutput: string)
    requires k < |reps|
    ensures step(reps[k], clock(k), areaOutput).Fatal? ==>
      Reports(reps, k, step, clock, areaOutput) == RunLog([], true)
    ensures step(reps[k], clock(k), areaOutput).Done? ==>
      var e := step(reps[k], clock(k), areaOutput).value;
      Reports(reps, k, step, clock, areaOutput) ==
      Prefixed([e], Reports(reps, k + 1, step, clock, e.report.areaName))
  {
  }

  /** One iteration of the loop over the reps: names and filter, the quote
      query, the quotes, the phrase, then the report and its subject. */
  method ProcessRep(salesRep: Salesrep, areaMap: AreaMap,
                    primary: string -> Outcome<seq<QuoteRow>>, lookup: SecondaryQuery -> LookupOutcome,
                    todaysDate: string, areaOutput: string)
    returns (outcome: Outcome<Email>)
    ensures outcome == RepStep(salesRep, todaysDate, areaMap, primary, lookup, areaOutput)
  {
    var areaList, areaFilter := BuildAreaListAndFilter(salesRep.areas, areaMap);
    assert areaList == AreaNames(salesRep.areas, areaMap);
    var quoteRows := primary(areaFilter);
    if quoteRows.Fatal? {
      return Fatal;
    }
    var quotes, issued := AggregateQuotes(quoteRows.value, lookup);
    if quotes.Fatal? {
      return Fatal;
    }
    var phrase := FormatAreaPhrase(areaList, areaOutput);
    var report := ReportData(salesRep.name, phrase, quotes.value, todaysDate);
    var subject := Subject(salesRep.name, todaysDate);
    RepStepDone(salesRep, todaysDate, areaMap, primary, lookup, areaOutput, quoteRows.value, quotes.value);
    outcome := Done(Email(salesRep.email, subject, report));
  }

  /** main(): build the area directory, then send the reports. `primary`
      answers the quote query for a filter text, `lookup` the secondary
      query, and `clock(i)` is today's date as read in iteration i. */
  method RunReports(reps: seq<Salesrep>, areaRows: seq<AreaRow>,
                    primary: string -> Outcome<seq<QuoteRow>>, lookup: SecondaryQuery -> LookupOutcome,
                    clock: nat -> string)
    returns (log: RunLog)
    ensures log == Reports(reps, 0, StepOf(AreaMapOf(areaRows), primary, lookup), clock, "")
  {
    var areaMap := BuildAreaMap(areaRows);
    log := SendReports(reps, areaMap, primary, lookup, clock);
  }

  /** The loop over the reps in file order, keeping the phrase variable from
      one rep to the next and stopping at the first failure. */
  method SendReports(reps: seq<Salesrep>, areaMap: AreaMap,
                     primary: string -> Outcome<seq<QuoteRow>>, lookup: SecondaryQuery -> LookupOutcome,
                     clock: nat -> string)
    returns (log: RunLog)
    ensures log == Reports(reps, 0, StepOf(areaMap, primary, lookup), clock, "")
  {
    var areaOutput := "";
    var sent: seq<Email> := [];
    ghost var step := StepOf(areaMap, primary, lookup);
    ghost var whole := Reports(reps, 0, step, clock, "");
    assert whole == Prefixed(sent, whole);
    var i := 0;
    while i < |reps|
      invariant 0 <= i <= |reps|
      invariant whole == Prefixed(sent, Reports(reps, i, step, clock, areaOutput))
    {
      ReportsStep(reps, i, step, clock, areaOutput);
      var outcome := ProcessRep(reps[i], areaMap, primary, lookup, clock(i), areaOutput);
      if outcome.Fatal? {
        assert sent + [] == sent;
        return RunLog(sent, true);
      }
      var email := outcome.value;
      PrefixedAssoc(sent, email, Reports(reps, i + 1, step, clock, email.report.areaName));
      sent := sent + [email];
      areaOutput := email.report.areaName;
      i := i + 1;
    }
    log := RunLog(sent, false);
    assert sent + [] == sent;
  }

  /** What the phrase variable holds when the j-th e-mail of a run is made:
      the starting value, then each e-mail's phrase in turn. */
  function PhraseBefore(emails: seq<Email>, j: nat, start: string): string
    requires j <= |emails|
  {
    if j == 0 then start else emails[j - 1].report.areaName
  }

  /** The j-th e-mail of a run from rep k on is what rep k + j's step makes,
      started with the phrase the e-mail before it left. */
  lemma {:induction false} RunStepAt(reps: seq<Salesrep>, k: nat, step: Step,
                                    clock: nat -> string, start: string, j: nat)
    requires k <= |reps|
    requires j < |Reports(reps, k, step, clock, start).emails|
    ensures var emails := Reports(reps, k, step, clock, start).emails;
      step(reps[k + j], clock(k + j), PhraseBefore(emails, j, start)) == Done(emails[j])
    decreases j
  {
    ReportsStep(reps, k, step, clock, start);
    if j > 0 {
      var e := step(reps[k], clock(k), start).value;
      var emails := Reports(reps, k, step, clock, start).emails;
      var rest := Reports(reps, k + 1, step, clock, e.report.areaName).emails;
      assert emails == [e] + rest;
      RunStepAt(reps, k + 1, step, clock, e.report.areaName, j - 1);
      assert emails[j] == rest[j - 1];
      assert PhraseBefore(emails, j, start) == PhraseBefore(rest, j - 1, e.report.areaName);
    }
  }

  /** A run that stops early stops at a rep whose step fails, started with
      the phrase the last e-mail left. */
  lemma {:induction false} RunAbortAt(reps: seq<Salesrep>, k: nat, step: Step,
                                     clock: nat -> string, start: string)
    requires k <= |reps|
    requires Reports(reps, k, step, clock, start).aborted
    ensures var emails := Reports(reps, k, step, clock, start).emails;
      step(reps[k + |emails|], clock(k + |emails|), PhraseBefore(emails, |emails|, start)).Fatal?
    decreases |reps| - k
  {
    ReportsStep(reps, k, step, clock, start);
    var outcome := step(reps[k], clock(k), start);
    if outcome.Done? {
      var e := outcome.value;
      var emails := Reports(reps, k, step, clock, start).emails;
      var rest := Reports(reps, k + 1, step, clock, e.report.areaName).emails;
      assert emails == [e] + rest;
      RunAbortAt(reps, k + 1, step, clock, e.report.areaName);
      assert PhraseBefore(emails, |emails|, start) == PhraseBefore(rest, |rest|, e.report.areaName);
    }
  }

  /** One rep's step succeeds exactly when its quote query and every lookup
      for its rows succeed; its e-mail then goes to the rep, with the subject
      naming the rep and the date, one quote per row in the query's order,
      and the phrase of its areas, or the one kept from before when the rep
      has no areas. */
  lemma RepStepContents(rep: Salesrep, date: string, areaMap: AreaMap,
                        primary: string -> Outcome<seq<QuoteRow>>, lookup: SecondaryQuery -> LookupOutcome,
                        areaOutput: string)
    ensures RepStep(rep, date, areaMap, primary, lookup, areaOutput).Done? <==>
      primary(AreaFilter(rep.areas)).Done? &&
      forall i :: 0 <= i < |primary(AreaFilter(rep.areas)).value| ==>
        !Aborts(primary(AreaFilter(rep.areas)).value[i], lookup)
    ensures RepStep(rep, date, areaMap, primary, lookup, areaOutput).Done? ==>
      var e := RepStep(rep, date, areaMap, primary, lookup, areaOutput).value;
      var rows := primary(AreaFilter(rep.areas)).value;
      e.to == rep.email && e.subject == Subject(rep.name, date) &&
      e.report.name == rep.name && e.report.date == date &&
      (|rep.areas| == 0 ==> e.report.areaName == areaOutput) &&
      (|rep.areas| >= 1 ==> e.report.areaName == AreaPhrase(AreaNames(rep.areas, areaMap))) &&
      |e.report.quotes| == |rows| &&
      forall i :: 0 <= i < |rows| ==> Enriched(rows[i], lookup) == Done(e.report.quotes[i])
  {
    var q := primary(AreaFilter(rep.areas));
    if q.Done? {
      EnrichAllOrder(q.value, lookup);
    }
  }

  /** The run as main() makes it: one e-mail per rep in file order up to the
      first failure, each to the rep, under the subject naming the rep and
      the day's date. */
  lemma RunShape(reps: seq<Salesrep>, areaRows: seq<AreaRow>,
                 primary: string -> Outcome<seq<QuoteRow>>, lookup: SecondaryQuery -> LookupOutcome,
                 clock: nat -> string)
    ensures var log := Reports(reps, 0, StepOf(AreaMapOf(areaRows), primary, lookup), clock, "");
      forall j :: 0 <= j < |log.emails| ==>
        log.emails[j].to == reps[j].email && log.emails[j].subject == Subject(reps[j].name, clock(j)) &&
        log.emails[j].report.name == reps[j].name && log.emails[j].report.date == clock(j)
  {
    var areaMap := AreaMapOf(areaRows);
    var step := StepOf(areaMap, primary, lookup);
    var log := Reports(reps, 0, step, clock, "");
    forall j | 0 <= j < |log.emails|
      ensures log.emails[j].to == reps[j].email && log.emails[j].subject == Subject(reps[j].name, clock(j)) &&
              log.emails[j].report.name == reps[j].name && log.emails[j].report.date == clock(j)
    {
      RunStepAt(reps, 0, step, clock, "", j);
      RepStepContents(reps[j], clock(j), areaMap, primary, lookup, PhraseBefore(log.emails, j, ""));
    }
  }

  /** When the run is aborted, the first rep without an e-mail had its quote
      query or one of its lookups fail. */
  lemma RunAbortCause(reps: seq<Salesrep>, areaRows: seq<AreaRow>,
                      primary: string -> Outcome<seq<QuoteRow>>, lookup: SecondaryQuery -> LookupOutcome,
                      clock: nat -> string)
    ensures var log := Reports(reps, 0, StepOf(AreaMapOf(areaRows), primary, lookup), clock, "");
      log.aborted ==>
        var rows := primary(AreaFilter(reps[|log.emails|].areas));
        rows.Fatal? || exists i :: 0 <= i < |rows.value| && Aborts(rows.value[i], lookup)
  {
    var areaMap := AreaMapOf(areaRows);
    var step := StepOf(areaMap, primary, lookup);
    var log := Reports(reps, 0, step, clock, "");
    if log.aborted {
      var n := |log.emails|;
      var phrase := PhraseBefore(log.emails, n, "");
      RunAbortAt(reps, 0, step, clock, "");
      assert step(reps[n], clock(n), phrase) == RepStep(reps[n], clock(n), areaMap, primary, lookup, phrase);
      RepStepFatal(reps[n], clock(n), areaMap, primary, lookup, phrase);
    }
  }

  /** A rep's step fails only when its quote query or one of its lookups does. */
  lemma RepStepFatal(rep: Salesrep, date: string, areaMap: AreaMap,
                     primary: string -> Outcome<seq<QuoteRow>>, lookup: SecondaryQuery -> LookupOutcome,
                     areaOutput: string)
    requires RepStep(rep, date, areaMap, primary, lookup, areaOutput).Fatal?
    ensures var rows := primary(AreaFilter(rep.areas));
      rows.Fatal? || exists i :: 0 <= i < |rows.value| && Aborts(rows.value[i], lookup)
  {
    var rows := primary(AreaFilter(rep.areas));
    if rows.Done? {
      EnrichAllDone(rows.value, lookup);
    }
  }

  /** A step whose e-mail carries the phrase variable's new value: the
      phrase of the rep's area names, or the old value when there are none. */
  ghost predicate SetsPhrase(step: Step, areaMap: AreaMap) {
    forall rep, date, areaOutput :: step(rep, date, areaOutput).Done? ==>
      step(rep, date, areaOutput).value.report.areaName == PhraseAfter(AreaNames(rep.areas, areaMap), areaOutput)
  }

  /** main()'s step sets the phrase that way. */
  lemma StepOfSetsPhrase(areaMap: AreaMap, primary: string -> Outcome<seq<QuoteRow>>,
                         lookup: SecondaryQuery -> LookupOutcome)
    ensures SetsPhrase(StepOf(areaMap, primary, lookup), areaMap)
  {
    var step := StepOf(areaMap, primary, lookup);
    forall rep, date, areaOutput | step(rep, date, areaOutput).Done?
      ensures step(rep, date, areaOutput).value.report.areaName == PhraseAfter(AreaNames(rep.areas, areaMap), areaOutput)
    {
      assert step(rep, date, areaOutput) == RepStep(rep, date, areaMap, primary, lookup, areaOutput);
    }
  }

  /** The phrase of the j-th e-mail of a run: its rep's area phrase, or the
      phrase kept from before when the rep has no areas. */
  lemma RunPhraseAt(reps: seq<Salesrep>, step: Step, areaMap: AreaMap, clock: nat -> string, j: nat)
    requires SetsPhrase(step, areaMap)
    requires j < |Reports(reps, 0, step, clock, "").emails|
    ensures var emails := Reports(reps, 0, step, clock, "").emails;
      emails[j].report.areaName == PhraseAfter(AreaNames(reps[j].areas, areaMap), PhraseBefore(emails, j, ""))
  {
    RunStepAt(reps, 0, step, clock, "", j);
  }

  /** A rep with areas gets the phrase of its own area names. */
  lemma RunPhraseOwn(reps: seq<Salesrep>, areaRows: seq<AreaRow>,
                     primary: string -> Outcome<seq<QuoteRow>>, lookup: SecondaryQuery -> LookupOutcome,
                     clock: nat -> string)
    ensures var log := Reports(reps, 0, StepOf(AreaMapOf(areaRows), primary, lookup), clock, "");
      forall j :: 0 <= j < |log.emails| && |reps[j].areas| >= 1 ==>
        log.emails[j].report.areaName == AreaPhrase(AreaNames(reps[j].areas, AreaMapOf(areaRows)))
  {
    var log := Reports(reps, 0, StepOf(AreaMapOf(areaRows), primary, lookup), clock, "");
    StepOfSetsPhrase(AreaMapOf(areaRows), primary, lookup);
    forall j | 0 <= j < |log.emails| && |reps[j].areas| >= 1
      ensures log.emails[j].report.areaName == AreaPhrase(AreaNames(reps[j].areas, AreaMapOf(areaRows)))
    {
      RunPhraseAt(reps, StepOf(AreaMapOf(areaRows), primary, lookup), AreaMapOf(areaRows), clock, j);
    }
  }

  /** The phrase variable outlives the rep that set it: a rep with no areas
      gets the phrase of the e-mail before it, or "" when it comes first. */
  lemma RunPhraseCarried(reps: seq<Salesrep>, areaRows: seq<AreaRow>,
                         primary: string -> Outcome<seq<QuoteRow>>, lookup: SecondaryQuery -> LookupOutcome,
                         clock: nat -> string)
    ensures var log := Reports(reps, 0, StepOf(AreaMapOf(areaRows), primary, lookup), clock, "");
      |log.emails| >= 1 && |reps[0].areas| == 0 ==> log.emails[0].report.areaName == ""
    ensures var log := Reports(reps, 0, StepOf(AreaMapOf(areaRows), primary, lookup), clock, "");
      forall j :: 1 <= j < |log.emails| && |reps[j].areas| == 0 ==>
        log.emails[j].report.areaName == log.emails[j - 1].report.areaName
  {
    var log := Reports(reps, 0, StepOf(AreaMapOf(areaRows), primary, lookup), clock, "");
    StepOfSetsPhrase(AreaMapOf(areaRows), primary, lookup);
    if |log.emails| >= 1 {
      RunPhraseAt(reps, StepOf(AreaMapOf(areaRows), primary, lookup), AreaMapOf(areaRows), clock, 0);
    }
    forall j | 1 <= j < |log.emails| && |reps[j].areas| == 0
      ensures log.emails[j].report.areaName == log.emails[j - 1].report.areaName
    {
      RunPhraseAt(reps, StepOf(AreaMapOf(areaRows), primary, lookup), AreaMapOf(areaRows), clock, j);
    }
  }

  /** The quotes of each e-mail: the rows the rep's quote query returned for
      its filter, one quote per row in the same order, each the row as
      enriched by its lookup. */
  lemma RunQuotes(reps: seq<Salesrep>, areaRows: seq<AreaRow>,
                  primary: string -> Outcome<seq<QuoteRow>>, lookup: SecondaryQuery -> LookupOutcome,
                  clock: nat -> string)
    ensures var log := Reports(reps, 0, StepOf(AreaMapOf(areaRows), primary, lookup), clock, "");
      forall j :: 0 <= j < |log.emails| ==>
        primary(AreaFilter(reps[j].areas)).Done? &&
        |log.emails[j].report.quotes| == |primary(AreaFilter(reps[j].areas)).value| &&
        forall i :: 0 <= i < |log.emails[j].report.quotes| ==>
          Enriched(primary(AreaFilter(reps[j].areas)).value[i], lookup) == Done(log.emails[j].report.quotes[i])
  {
    var areaMap := AreaMapOf(areaRows);
    var step := StepOf(areaMap, primary, lookup);
    var log := Reports(reps, 0, step, clock, "");
    forall j | 0 <= j < |log.emails|
      ensures primary(AreaFilter(reps[j].areas)).Done? &&
        |log.emails[j].report.quotes| == |primary(AreaFilter(reps[j].areas)).value| &&
        forall i :: 0 <= i < |log.emails[j].report.quotes| ==>
          Enriched(primary(AreaFilter(reps[j].areas)).value[i], lookup) == Done(log.emails[j].report.quotes[i])
    {
      RunStepAt(reps, 0, step, clock, "", j);
      RepStepContents(reps[j], clock(j), areaMap, primary, lookup, PhraseBefore(log.emails, j, ""));
    }
  }
}
