/**
 * The example's record (`DataTableTestData`) and the six strings one record
 * shows in a table row.
 */
module TestData {
  import opened Outcomes
  import opened Text

  /** A `DateTime` as calendar date plus the time of day in ticks since midnight. */
  datatype DateTime = DateTime(year: nat, month: nat, day: nat, timeOfDay: nat)

  /**
   * One record. The four text fields are nullable strings; the salary, a
   * `decimal` in the source, is held as a whole number.
   */
  datatype DataTableTestData = DataTableTestData(
    firstName: Option<string>,
    lastName: Option<string>,
    company: Option<string>,
    city: Option<string>,
    startDate: DateTime,
    salary: int)

  /** The number of columns the example serves. */
  const ColumnCount: nat := 6

  /** `StartDate.ToShortDateString()`. */
  function StartDateText(r: DataTableTestData): string {
    ShortDate(r.startDate.year, r.startDate.month, r.startDate.day)
  }

  /** `Salary.ToString()`. */
  function SalaryText(r: DataTableTestData): string {
    SalaryToString(r.salary)
  }

  /**
   * The row sent for one record: FirstName, LastName, Company, City, the
   * short start date and the salary, in that order.
   */
  function Row(r: DataTableTestData): (row: seq<Option<string>>)
    ensures |row| == ColumnCount
  {
    [r.firstName, r.lastName, r.company, r.city, Some(StartDateText(r)), Some(SalaryText(r))]
  }

  /** Every record shown in a row can be read back from that row's last two cells. */
  lemma RowReadsBack(r: DataTableTestData)
    ensures Row(r)[4].Some? && ParseShortDate(Row(r)[4].value) == Some((r.startDate.year, r.startDate.month, r.startDate.day))
    ensures Row(r)[5].Some? && ParseSalary(Row(r)[5].value) == Some(r.salary)
  {
    ShortDateRoundTrip(r.startDate.year, r.startDate.month, r.startDate.day);
    SalaryToStringRoundTrip(r.salary);
  }
}
