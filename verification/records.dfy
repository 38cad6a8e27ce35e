/** Order and timesheet rows, and the caller's column mapping. A row is keyed
    by the uploaded file's header, so it is a map from column name to cell
    text; a column the row lacks reads as JavaScript `undefined`. */
module Records {
  import opened Optional

  type Record = map<string, string>

  /** `row[column]`: the cell, or `None` for `undefined`. */
  function Get(row: Record, column: string): (v: Option<string>)
    ensures v.Some? <==> column in row
    ensures v.Some? ==> v.value == row[column]
  {
    if column in row then Some(row[column]) else None
  }

  /** JavaScript truthiness of a cell: present and not the empty string. */
  predicate Truthy(v: Option<string>) {
    v.Some? && v.value != ""
  }

  /** Column names for the order fields. */
  datatype OrderColumns = OrderColumns(orderId: string, date: string, time: string, tipAmount: string)

  /** Column names for the timesheet fields. */
  datatype TimesheetColumns = TimesheetColumns(
    employeeName: string, clockInDate: string, clockInTime: string, clockOutTime: string)

  datatype Mappings = Mappings(orders: OrderColumns, timesheet: TimesheetColumns)
}
