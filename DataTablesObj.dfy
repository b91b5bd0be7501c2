/**
 * The request the table widget sends, after JSON parsing: `DataTablesIn` and the
 * records it is made of. These objects are only read once deserialised, so they
 * are values here. A reference field that JSON can leave null is an `Option`.
 */
module DataTablesObj {
  import opened Outcomes

  /** Column sort direction: exactly one of two values. */
  datatype SortDirection = Asc | Desc

  /** `DTSearch`: a search term (nullable) and the regex flag, which nothing reads. */
  datatype DTSearch = DTSearch(value: Option<string>, regex: bool)

  /** `DTOrder`: an index into the same request's `columns` list, and a direction. */
  datatype DTOrder = DTOrder(column: int, dir: SortDirection)

  /** `DTColumn`: one column as the widget describes it. */
  datatype DTColumn = DTColumn(
    data: Option<string>,
    name: Option<string>,
    searchable: bool,
    orderable: bool,
    search: Option<DTSearch>)

  /**
   * `DataTablesIn`. `start` is a zero-based offset into the filtered, sorted
   * records; `length` is the number of records wanted, or -1 for all of them.
   */
  datatype DataTablesIn = DataTablesIn(
    draw: int,
    start: int,
    length: int,
    search: Option<DTSearch>,
    columns: seq<DTColumn>,
    order: seq<DTOrder>)

  /** The `length` value that asks for every record after `start`. */
  const ReturnAll: int := -1

  /**
   * The parameterless constructor the JSON parser starts from: fresh, empty
   * `columns` and `order` lists, integers at zero, no global search.
   * Fields absent from the JSON keep these values.
   */
  function NewDataTablesIn(): (r: DataTablesIn)
    ensures r.columns == [] && r.order == []
    ensures r.search.None?
  {
    DataTablesIn(0, 0, 0, None, [], [])
  }

  /** Every order rule names a column of the same request. */
  predicate OrderColumnsInRange(req: DataTablesIn) {
    forall k :: 0 <= k < |req.order| ==> 0 <= req.order[k].column < |req.columns|
  }
}
