/**
 * The example's server-side action `DataTable`: per-column search, ordering by
 * the first order rule, the filtered count, paging, and the result object.
 * The record list arrives as a parameter; the request is already parsed.
 */
module HomeController {
  import opened Outcomes
  import opened Text
  import opened DataTablesObj
  import opened TestData
  import opened Ordering
  import opened DataTablesResult

  /** What the action throws instead of returning a result. */
  datatype PipelineError =
    /** `NullReferenceException`: a searchable column has a null search or a null search value. */
    | NullColumnSearch(column: nat)
    /** `InvalidOperationException` from `order.First()` on an empty order list. */
    | EmptyOrder

  /** One search that filters: the column index and the lower-cased term. */
  datatype ColumnSearch = ColumnSearch(column: nat, term: string)

  // ---------------------------------------------------------------- per-column search

  /** The lower-cased search value of a column, or None when its search or value is null. */
  function SearchTerm(c: DTColumn): Option<string> {
    match c.search
    case None => None
    case Some(search) =>
      match search.value
      case None => None
      case Some(v) => Some(ToLower(v))
  }

  /** Column c is searchable but its search value cannot be read. */
  predicate NullSearchAt(columns: seq<DTColumn>, c: nat)
    requires c < |columns|
  {
    columns[c].searchable && SearchTerm(columns[c]).None?
  }

  /** Column c filters with term t: it is searchable and its lower-cased value t is not blank. */
  predicate SearchesWith(columns: seq<DTColumn>, c: nat, t: string)
    requires c < |columns|
  {
    columns[c].searchable && SearchTerm(columns[c]) == Some(t) && !IsBlank(t)
  }

  /**
   * The searches the first n columns contribute, in column order, or the
   * error the first n iterations of the search loop raise.
   */
  function ActiveSearches(columns: seq<DTColumn>, n: nat): Result<seq<ColumnSearch>, PipelineError>
    requires n <= |columns|
  {
    if n == 0 then Ok([])
    else
      match ActiveSearches(columns, n - 1)
      case Err(e) => Err(e)
      case Ok(searches) =>
        if !columns[n - 1].searchable then Ok(searches)
        else
          match SearchTerm(columns[n - 1])
          case None => Err(NullColumnSearch(n - 1))
          case Some(term) => if IsBlank(term) then Ok(searches) else Ok(searches + [ColumnSearch(n - 1, term)])
  }

  /**
   * The search loop fails exactly when some searchable column has a null
   * search value, and then names the first such column; otherwise its
   * searches are exactly the (column, term) pairs of the searchable columns
   * with a non-blank lower-cased term.
   */
  lemma {:induction false} ActiveSearchesSpec(columns: seq<DTColumn>, n: nat)
    requires n <= |columns|
    ensures ActiveSearches(columns, n).Err? <==> exists c :: 0 <= c < n && NullSearchAt(columns, c)
    ensures ActiveSearches(columns, n).Err? ==>
      var e := ActiveSearches(columns, n).error;
      e.NullColumnSearch? && e.column < n && NullSearchAt(columns, e.column) &&
      forall c :: 0 <= c < e.column ==> !NullSearchAt(columns, c)
    ensures ActiveSearches(columns, n).Ok? ==>
      forall f :: f in ActiveSearches(columns, n).value <==> f.column < n && SearchesWith(columns, f.column, f.term)
  {
    if n > 0 {
      ActiveSearchesSpec(columns, n - 1);
      if ActiveSearches(columns, n - 1).Ok? {
        var searches := ActiveSearches(columns, n - 1).value;
        if NullSearchAt(columns, n - 1) {
          assert ActiveSearches(columns, n) == Err(NullColumnSearch(n - 1));
        } else {
          assert forall c :: 0 <= c < n ==> !NullSearchAt(columns, c);
          if columns[n - 1].searchable {
            var term := SearchTerm(columns[n - 1]).value;
            if !IsBlank(term) {
              assert ActiveSearches(columns, n).value == searches + [ColumnSearch(n - 1, term)];
            }
          }
        }
      }
    }
  }

  /** Once the loop has failed, later columns do not change the outcome. */
  lemma {:induction false} ErrorPersists(columns: seq<DTColumn>, n: nat, m: nat)
    requires n <= m <= |columns| && ActiveSearches(columns, n).Err?
    ensures ActiveSearches(columns, m) == ActiveSearches(columns, n)
    decreases m - n
  {
    if n < m {
      ErrorPersists(columns, n, m - 1);
    }
  }

  /**
   * The predicate of one search, as the switch over the column index builds
   * it: the text columns 0..3 must be non-null and contain the term once
   * lower-cased, the date and salary columns must contain it as formatted;
   * columns 6 and up have no case and constrain nothing.
   */
  predicate Matches(f: ColumnSearch, r: DataTableTestData) {
    match f.column
    case 0 => r.firstName != None && Contains(ToLower(r.firstName.value), f.term)
    case 1 => r.lastName != None && Contains(ToLower(r.lastName.value), f.term)
    case 2 => r.company != None && Contains(ToLower(r.company.value), f.term)
    case 3 => r.city != None && Contains(ToLower(r.city.value), f.term)
    case 4 => Contains(StartDateText(r), f.term)
    case 5 => Contains(SalaryText(r), f.term)
    case _ => true
  }

  /**
   * A search on column c < 6 matches a record exactly when the text shown in
   * column c of its row contains the term (lower-cased first for columns 0..3).
   */
  lemma MatchesShownText(f: ColumnSearch, r: DataTableTestData)
    requires f.column < ColumnCount
    ensures f.column < 4 ==>
      (Matches(f, r) <==> Row(r)[f.column].Some? && Contains(ToLower(Row(r)[f.column].value), f.term))
    ensures 4 <= f.column ==>
      (Matches(f, r) <==> Row(r)[f.column].Some? && Contains(Row(r)[f.column].value, f.term))
  {
  }

  predicate SatisfiesAll(r: DataTableTestData, searches: seq<ColumnSearch>) {
    forall m :: 0 <= m < |searches| ==> Matches(searches[m], r)
  }

  /** LINQ `Where` with the predicate of one search. */
  function Where(s: seq<DataTableTestData>, f: ColumnSearch): seq<DataTableTestData> {
    if s == [] then []
    else (if Matches(f, s[0]) then [s[0]] else []) + Where(s[1..], f)
  }

  /** The records of s that satisfy every search, in their order in s. */
  function KeepAll(s: seq<DataTableTestData>, searches: seq<ColumnSearch>): seq<DataTableTestData> {
    if s == [] then []
    else (if SatisfiesAll(s[0], searches) then [s[0]] else []) + KeepAll(s[1..], searches)
  }

  /** With no searches every record is kept. */
  lemma {:induction false} KeepAllNoSearches(s: seq<DataTableTestData>)
    ensures KeepAll(s, []) == s
    decreases |s|
  {
    if s != [] {
      KeepAllNoSearches(s[1..]);
      assert [s[0]] + s[1..] == s;
    }
  }

  /** Narrowing the records that satisfy some searches by one more search. */
  lemma {:induction false} WhereKeepAll(s: seq<DataTableTestData>, searches: seq<ColumnSearch>, f: ColumnSearch)
    ensures Where(KeepAll(s, searches), f) == KeepAll(s, searches + [f])
    decreases |s|
  {
    if s != [] {
      WhereKeepAll(s[1..], searches, f);
      var x := s[0];
      assert SatisfiesAll(x, searches + [f]) <==> SatisfiesAll(x, searches) && Matches(f, x) by {
        if SatisfiesAll(x, searches) && Matches(f, x) {
          forall m | 0 <= m < |searches| + 1 ensures Matches((searches + [f])[m], x) {
            if m < |searches| {
              assert (searches + [f])[m] == searches[m];
            }
          }
        }
        if SatisfiesAll(x, searches + [f]) {
          assert (searches + [f])[|searches|] == f;
          forall m | 0 <= m < |searches| ensures Matches(searches[m], x) {
            assert (searches + [f])[m] == searches[m];
          }
        }
      }
      var rest := KeepAll(s[1..], searches);
      if SatisfiesAll(x, searches) {
        assert KeepAll(s, searches) == [x] + rest;
        assert ([x] + rest)[1..] == rest;
      } else {
        assert KeepAll(s, searches) == rest;
      }
    }
  }

  /** A search on a column the switch has no case for keeps every record. */
  lemma {:induction false} WhereUnconstrained(s: seq<DataTableTestData>, f: ColumnSearch)
    requires f.column >= ColumnCount
    ensures Where(s, f) == s
    decreases |s|
  {
    if s != [] {
      WhereUnconstrained(s[1..], f);
      assert [s[0]] + s[1..] == s;
    }
  }

  /** Filtering never adds records. */
  lemma {:induction false} KeepAllLength(s: seq<DataTableTestData>, searches: seq<ColumnSearch>)
    ensures |KeepAll(s, searches)| <= |s|
    decreases |s|
  {
    if s != [] {
      KeepAllLength(s[1..], searches);
    }
  }

  /** a can be obtained from b by deleting elements. */
  predicate IsSubsequence(a: seq<DataTableTestData>, b: seq<DataTableTestData>)
    decreases |b|
  {
    if a == [] then true
    else if b == [] then false
    else (a[0] == b[0] && IsSubsequence(a[1..], b[1..])) || IsSubsequence(a, b[1..])
  }

  lemma {:induction false} SubsequenceOfTail(a: seq<DataTableTestData>, b: seq<DataTableTestData>)
    requires b != [] && IsSubsequence(a, b[1..])
    ensures IsSubsequence(a, b)
  {
  }

  /**
   * The filtered records are an order-preserving subsequence of the input,
   * and each record occurs in them exactly as often as in the input when it
   * satisfies every search, and not at all otherwise.
   */
  lemma {:induction false} KeepAllExact(s: seq<DataTableTestData>, searches: seq<ColumnSearch>)
    ensures IsSubsequence(KeepAll(s, searches), s)
    ensures forall x :: multiset(KeepAll(s, searches))[x] == if SatisfiesAll(x, searches) then multiset(s)[x] else 0
    decreases |s|
  {
    if s != [] {
      KeepAllExact(s[1..], searches);
      var rest := KeepAll(s[1..], searches);
      assert s == [s[0]] + s[1..];
      if SatisfiesAll(s[0], searches) {
        assert KeepAll(s, searches) == [s[0]] + rest;
        assert ([s[0]] + rest)[1..] == rest;
      } else {
        assert KeepAll(s, searches) == rest;
        if rest != [] {
          SubsequenceOfTail(rest, s);
        }
      }
    }
  }

  // ---------------------------------------------------------------- the search loop

  /** The result the search loop leaves in `DataQry`, or the error it throws. */
  function FilterResult(columns: seq<DTColumn>, data: seq<DataTableTestData>): Result<seq<DataTableTestData>, PipelineError> {
    match ActiveSearches(columns, |columns|)
    case Err(e) => Err(e)
    case Ok(searches) => Ok(KeepAll(data, searches))
  }

  /**
   * The per-column search loop: for each searchable column with a
   * non-blank lower-cased term, narrows the records with that column's
   * predicate; a null search value throws.
   */
  method ApplyColumnSearches(columns: seq<DTColumn>, data: seq<DataTableTestData>) returns (r: Result<seq<DataTableTestData>, PipelineError>)
    ensures r == FilterResult(columns, data)
  {
    var dataQry := data;
    ghost var searches: seq<ColumnSearch> := [];
    KeepAllNoSearches(data);
    for colNum := 0 to |columns|
      invariant ActiveSearches(columns, colNum) == Ok(searches)
      invariant dataQry == KeepAll(data, searches)
    {
      var column := columns[colNum];
      if column.searchable {
        if column.search == None || column.search.value.value == None {
          ErrorPersists(columns, colNum + 1, |columns|);
          return Err(NullColumnSearch(colNum));
        }
        var searchValue := ToLower(column.search.value.value.value);
        if IsBlank(searchValue) {
          continue;
        }
        var f := ColumnSearch(colNum, searchValue);
        WhereKeepAll(data, searches, f);
        if colNum < ColumnCount {
          dataQry := Where(dataQry, f);
        } else {
          WhereUnconstrained(dataQry, f);
        }
        searches := searches + [f];
      }
    }
    return Ok(dataQry);
  }

  // ---------------------------------------------------------------- paging

  /** LINQ `Skip`: drops the first n records, none when n <= 0. */
  function Skip(s: seq<DataTableTestData>, n: int): seq<DataTableTestData>
    decreases |s|
  {
    if n <= 0 || s == [] then s else Skip(s[1..], n - 1)
  }

  /** LINQ `Take`: keeps the first n records, none when n <= 0. */
  function Take(s: seq<DataTableTestData>, n: int): seq<DataTableTestData>
    decreases |s|
  {
    if n <= 0 || s == [] then [] else [s[0]] + Take(s[1..], n - 1)
  }

  /** n limited to 0..hi. */
  function Clamp(n: int, hi: nat): (r: nat)
    ensures r <= hi
  {
    if n <= 0 then 0 else if n >= hi then hi else n
  }

  lemma {:induction false} SkipIsSuffix(s: seq<DataTableTestData>, n: int)
    ensures Skip(s, n) == s[Clamp(n, |s|)..]
    decreases |s|
  {
    if n > 0 && s != [] {
      SkipIsSuffix(s[1..], n - 1);
      assert s[1..][Clamp(n - 1, |s| - 1)..] == s[Clamp(n, |s|)..];
    }
  }

  lemma {:induction false} TakeIsPrefix(s: seq<DataTableTestData>, n: int)
    ensures Take(s, n) == s[..Clamp(n, |s|)]
    decreases |s|
  {
    if n > 0 && s != [] {
      TakeIsPrefix(s[1..], n - 1);
      assert [s[0]] + s[1..][..Clamp(n - 1, |s| - 1)] == s[..Clamp(n, |s|)];
    }
  }

  /** The paging step: skip `start` records, then take `length` unless it is -1. */
  function Page(s: seq<DataTableTestData>, start: int, length: int): seq<DataTableTestData> {
    var rest := Skip(s, start);
    if length != ReturnAll then Take(rest, length) else rest
  }

  /**
   * The page is the window of s that begins at offset `start` (clamped to
   * 0..|s|): all of the rest when length is -1, otherwise at most `length`
   * records, and none when length <= 0 (other than -1).
   */
  lemma PageWindow(s: seq<DataTableTestData>, start: int, length: int)
    ensures var d := Clamp(start, |s|);
      if length == ReturnAll then Page(s, start, length) == s[d..]
      else Page(s, start, length) == s[d..d + Clamp(length, |s| - d)]
    ensures |Page(s, start, length)| <= |s|
    ensures length != ReturnAll ==> |Page(s, start, length)| <= Clamp(length, |s|)
    ensures length != ReturnAll && length <= 0 ==> Page(s, start, length) == []
    ensures 0 <= start ==> forall i :: 0 <= i < |Page(s, start, length)| ==> Page(s, start, length)[i] == s[start + i]
  {
    var d := Clamp(start, |s|);
    SkipIsSuffix(s, start);
    if length != ReturnAll {
      TakeIsPrefix(s[d..], length);
    }
  }

  // ---------------------------------------------------------------- the action

  /** The rows sent for a page of records, one per record. */
  function Rows(page: seq<DataTableTestData>): (rows: seq<seq<Option<string>>>)
    ensures |rows| == |page|
  {
    seq(|page|, i requires 0 <= i < |page| => Row(page[i]))
  }

  /** The fields the action puts in its result. */
  datatype Reply = Reply(draw: int, recordsTotal: int, recordsFiltered: int, data: seq<seq<Option<string>>>)

  /** The records after searching and ordering, or the error raised on the way. */
  function OrderedRecords(req: DataTablesIn, data: seq<DataTableTestData>): Result<seq<DataTableTestData>, PipelineError> {
    match FilterResult(req.columns, data)
    case Err(e) => Err(e)
    case Ok(filtered) =>
      if req.order == [] then Err(EmptyOrder) else Ok(OrderRecords(filtered, req.order[0]))
  }

  /** What the action answers for a request over the record list `data`. */
  function Query(req: DataTablesIn, data: seq<DataTableTestData>): Result<Reply, PipelineError> {
    match OrderedRecords(req, data)
    case Err(e) => Err(e)
    case Ok(ordered) =>
      Ok(Reply(req.draw, |data|, |ordered|, Rows(Page(ordered, req.start, req.length))))
  }

  /**
   * The action fails on the first searchable column with a null search
   * value; failing that, on an empty order list; and in no other case.
   */
  lemma QueryErrors(req: DataTablesIn, data: seq<DataTableTestData>)
    ensures (exists c :: 0 <= c < |req.columns| && NullSearchAt(req.columns, c)) ==>
      Query(req, data).Err? && Query(req, data).error.NullColumnSearch? &&
      var c := Query(req, data).error.column;
      c < |req.columns| && NullSearchAt(req.columns, c) &&
      forall c' :: 0 <= c' < c ==> !NullSearchAt(req.columns, c')
    ensures (forall c :: 0 <= c < |req.columns| ==> !NullSearchAt(req.columns, c)) ==>
      (Query(req, data).Err? <==> req.order == []) &&
      (req.order == [] ==> Query(req, data) == Err(EmptyOrder))
  {
    ActiveSearchesSpec(req.columns, |req.columns|);
  }

  /** The text shown in column c of the record's row (lower-cased for columns 0..3) is non-null and contains t. */
  predicate ShowsTerm(r: DataTableTestData, c: nat, t: string)
    requires c < ColumnCount
  {
    Row(r)[c].Some? && Contains(if c < 4 then ToLower(Row(r)[c].value) else Row(r)[c].value, t)
  }

  /**
   * For the searches the loop collects from `columns`, a record satisfies
   * them all exactly when it shows every term of a searchable column below 6.
   */
  lemma SatisfiesAllShows(columns: seq<DTColumn>, searches: seq<ColumnSearch>, r: DataTableTestData)
    requires forall f :: f in searches <==> f.column < |columns| && SearchesWith(columns, f.column, f.term)
    ensures SatisfiesAll(r, searches) <==>
      forall c, t :: 0 <= c < |columns| && c < ColumnCount && SearchesWith(columns, c, t) ==> ShowsTerm(r, c, t)
  {
    if SatisfiesAll(r, searches) {
      forall c, t | 0 <= c < |columns| && c < ColumnCount && SearchesWith(columns, c, t)
        ensures ShowsTerm(r, c, t)
      {
        var f := ColumnSearch(c, t);
        assert f in searches;
        var m :| 0 <= m < |searches| && searches[m] == f;
        MatchesShownText(f, r);
      }
    }
    if forall c, t :: 0 <= c < |columns| && c < ColumnCount && SearchesWith(columns, c, t) ==> ShowsTerm(r, c, t) {
      forall m | 0 <= m < |searches| ensures Matches(searches[m], r) {
        var f := searches[m];
        assert f in searches;
        if f.column < ColumnCount {
          MatchesShownText(f, r);
        }
      }
    }
  }

  /**
   * Every record that survives the search satisfies each column search in
   * the request: a searchable column c with non-blank lower-cased term t
   * requires the text shown in column c to contain t (lower-cased first for
   * the four text columns, which must not be null). Non-searchable columns,
   * blank terms and columns 6 and up constrain nothing, and every record
   * that satisfies all column searches survives.
   */
  lemma FilterKeepsExactlyMatching(req: DataTablesIn, data: seq<DataTableTestData>, r: DataTableTestData)
    requires FilterResult(req.columns, data).Ok?
    ensures r in FilterResult(req.columns, data).value <==>
      r in data &&
      forall c, t :: 0 <= c < |req.columns| && c < ColumnCount && SearchesWith(req.columns, c, t) ==> ShowsTerm(r, c, t)
  {
    var searches := ActiveSearches(req.columns, |req.columns|).value;
    ActiveSearchesSpec(req.columns, |req.columns|);
    KeepAllExact(data, searches);
    assert r in KeepAll(data, searches) <==> multiset(KeepAll(data, searches))[r] > 0;
    SatisfiesAllShows(req.columns, searches, r);
  }

  /**
   * The ordered records are a permutation of the filtered ones; when the
   * first order rule names a column in 0..5 they are in key order for its
   * direction and records with equal keys keep their order, and otherwise
   * they are the filtered records unchanged. When every order rule is in
   * range and the request has at most six columns, the first one always
   * names a column in 0..5.
   */
  lemma OrderedRecordsSpec(req: DataTablesIn, data: seq<DataTableTestData>)
    requires OrderedRecords(req, data).Ok?
    ensures req.order != [] && FilterResult(req.columns, data).Ok?
    ensures var filtered := FilterResult(req.columns, data).value;
      var ordered := OrderedRecords(req, data).value;
      var rule := req.order[0];
      multiset(ordered) == multiset(filtered) &&
      (0 <= rule.column < ColumnCount ==>
        Sorted(ordered, KeyOf(rule.column), rule.dir) &&
        forall k :: WithKey(ordered, KeyOf(rule.column), k) == WithKey(filtered, KeyOf(rule.column), k)) &&
      (!(0 <= rule.column < ColumnCount) ==> ordered == filtered)
    ensures OrderColumnsInRange(req) && |req.columns| <= ColumnCount ==> 0 <= req.order[0].column < ColumnCount
  {
    OrderRecordsCorrect(FilterResult(req.columns, data).value, req.order[0]);
  }

  /** The rows of a page: the six-cell rows of the window of s that starts at the clamped `start`. */
  lemma PageRows(s: seq<DataTableTestData>, start: int, length: int)
    ensures var d := Clamp(start, |s|);
      var rows := Rows(Page(s, start, length));
      d + |rows| <= |s| &&
      (length == ReturnAll ==> |rows| == |s| - d) &&
      (length != ReturnAll ==> |rows| == Clamp(length, |s| - d)) &&
      (length != ReturnAll ==> |rows| <= Clamp(length, |s|)) &&
      forall i :: 0 <= i < |rows| ==> |rows[i]| == ColumnCount && rows[i] == Row(s[d + i])
  {
    PageWindow(s, start, length);
  }

  /**
   * The counts and the page: draw is echoed, recordsTotal is the size of the
   * record list, recordsFiltered the number of records that survive the
   * search (so at most recordsTotal), and the rows are those of the window
   * of the ordered records that starts at `start`: all of the rest when
   * length is -1, else `length` of them unless fewer remain; never more
   * than recordsFiltered. Each row holds six strings.
   */
  lemma QueryCounts(req: DataTablesIn, data: seq<DataTableTestData>)
    requires Query(req, data).Ok?
    ensures var reply := Query(req, data).value;
      var ordered := OrderedRecords(req, data).value;
      var d := Clamp(req.start, |ordered|);
      reply.draw == req.draw &&
      reply.recordsTotal == |data| &&
      reply.recordsFiltered == |FilterResult(req.columns, data).value| == |ordered| &&
      reply.recordsFiltered <= reply.recordsTotal &&
      |reply.data| <= reply.recordsFiltered &&
      (req.length == ReturnAll ==> |reply.data| == reply.recordsFiltered - d) &&
      (req.length != ReturnAll ==> |reply.data| == Clamp(req.length, |ordered| - d)) &&
      (req.length != ReturnAll ==> |reply.data| <= Clamp(req.length, reply.recordsFiltered)) &&
      d + |reply.data| <= |ordered| &&
      (forall i :: 0 <= i < |reply.data| ==> |reply.data[i]| == ColumnCount && reply.data[i] == Row(ordered[d + i]))
  {
    var ordered := OrderedRecords(req, data).value;
    var filtered := FilterResult(req.columns, data).value;
    OrderRecordsLength(filtered, req.order[0]);
    KeepAllLength(data, ActiveSearches(req.columns, |req.columns|).value);
    assert Query(req, data).value.data == Rows(Page(ordered, req.start, req.length));
    PageRows(ordered, req.start, req.length);
  }

  /**
   * The constructor's default request (no columns, no order) passes the
   * search loop and then fails at `order.First()`, whatever the records.
   */
  lemma DefaultRequestFails(data: seq<DataTableTestData>)
    ensures Query(NewDataTablesIn(), data) == Err(EmptyOrder)
  {
    ActiveSearchesSpec(NewDataTablesIn().columns, 0);
  }

  /** The action: runs the search loop, orders, counts, pages and builds the result object. */
  method DataTable(req: DataTablesIn, data: seq<DataTableTestData>) returns (r: Result<DataTablesResult, PipelineError>)
    ensures Query(req, data).Err? ==> r.Err? && r.error == Query(req, data).error
    ensures Query(req, data).Ok? ==>
      r.Ok? && fresh(r.value) && r.value.Complete() &&
      var reply := Query(req, data).value;
      r.value.draw == Some(reply.draw) &&
      r.value.recordsTotal == Some(reply.recordsTotal) &&
      r.value.recordsFiltered == Some(reply.recordsFiltered) &&
      r.value.data == Some(reply.data) &&
      r.value.error == None
  {
    var searched := ApplyColumnSearches(req.columns, data);
    if searched.Err? {
      return Err(searched.error);
    }
    var dataQry := searched.value;
    if |req.order| == 0 {
      return Err(EmptyOrder);
    }
    var orderCol := req.order[0];
    dataQry := OrderRecords(dataQry, orderCol);
    var recordsFiltered := |dataQry|;
    dataQry := Skip(dataQry, req.start);
    if req.length != ReturnAll {
      dataQry := Take(dataQry, req.length);
    }
    var result := new DataTablesResult();
    result.draw := Some(req.draw);
    result.recordsTotal := Some(|data|);
    result.recordsFiltered := Some(recordsFiltered);
    result.data := Some(Rows(dataQry));
    return Ok(result);
  }
}
