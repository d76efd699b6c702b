/** The records main.go passes between the steps of a report, and the outcome
    of a step that may end the run with log.Fatal. */
module Records {

  /** A step either yields its value or ends the whole run (log.Fatal). */
  datatype Outcome<T> = Done(value: T) | Fatal

  /** One `(area_id, area_name)` row of `SELECT area_id, area_name FROM tbl_area`. */
  datatype AreaRow = AreaRow(areaID: int, areaName: string)

  /** An entry of salesreps.json. */
  datatype Salesrep = Salesrep(userID: int, name: string, email: string, areas: seq<int>)

  /** One row of the quote query, as scanned. QuoteValue is the text that
      fmt.Sprintf("%.2f", ...) made of the numeric column; JobNo is '' when
      the column is NULL (COALESCE). */
  datatype QuoteRow = QuoteRow(
    customerName: string,
    contactName: string,
    quoteID: int,
    businessID: int,
    departmentName: string,
    quoteValue: string,
    jobNo: string)

  /** A quote line of the report (Go's `quote`). */
  datatype Quote = Quote(
    quoteID: int,
    customerName: string,
    contactName: string,
    businessID: int,
    departmentName: string,
    quoteValue: string,
    jobNo: string,
    description: string,
    dateDespatched: string)

  /** What the template receives for one salesrep (Go's `data`). */
  datatype ReportData = ReportData(name: string, areaName: string, quotes: seq<Quote>, date: string)
}
