/** The generic table (src/components/ui/DataTable.tsx): a search box over a
    list of keys, then an optional drop-down filter on one key. Rows are
    dictionaries of loosely typed values, as the JavaScript objects are. */
module DataTable {
  import opened Common
  import PerformanceStats

  /** A cell value; `Null` is `null` or `undefined`. Numbers are whole. */
  datatype Value = Str(s: string) | Num(n: int) | Bool(b: bool) | Null

  type Row = map<string, Value>

  /** `item[key]`: a missing key reads as `undefined`. */
  function Lookup(row: Row, key: string): Value {
    if key in row then row[key] else Null
  }

  /** `value?.toString()` */
  function Text(v: Value): (t: Option<string>)
    ensures t.None? <==> v.Null?
    ensures v.Str? ==> t == Some(v.s)
    ensures v.Bool? ==> t == Some(if v.b then "true" else "false")
  {
    match v
    case Str(s) => Some(s)
    case Num(n) => Some(IntToString(n))
    case Bool(b) => Some(if b then "true" else "false")
    case Null => None
  }

  /** One search key's test. */
  predicate KeyMatches(row: Row, key: string, query: string) {
    var t := Text(Lookup(row, key));
    t.Some? && ContainsCI(t.value, query)
  }

  /** `searchKeys.some(...)`, left to right. */
  predicate AnyKey(row: Row, keys: seq<string>, query: string)
    decreases |keys|
  {
    keys != [] && (KeyMatches(row, keys[0], query) || AnyKey(row, keys[1..], query))
  }

  /** A row passes the search exactly when one of the keys matches. */
  lemma {:induction false} AnyKeySpec(row: Row, keys: seq<string>, query: string)
    ensures AnyKey(row, keys, query) <==> exists i :: 0 <= i < |keys| && KeyMatches(row, keys[i], query)
    decreases |keys|
  {
    if keys != [] {
      AnyKeySpec(row, keys[1..], query);
      if AnyKey(row, keys[1..], query) {
        var i :| 0 <= i < |keys[1..]| && KeyMatches(row, keys[1..][i], query);
        assert KeyMatches(row, keys[i + 1], query);
      }
      if exists i :: 0 <= i < |keys| && KeyMatches(row, keys[i], query) {
        var i :| 0 <= i < |keys| && KeyMatches(row, keys[i], query);
        if i > 0 {
          assert KeyMatches(row, keys[1..][i - 1], query);
        }
      }
    }
  }

  /** A missing, `null` or `undefined` value never matches. */
  lemma NullNeverMatches(row: Row, key: string, query: string)
    requires Lookup(row, key) == Null
    ensures !KeyMatches(row, key, query)
  {
  }

  predicate SearchActive(searchable: bool, query: string) {
    searchable && query != ""
  }

  /** `filterable && activeFilter && filterKey`: an empty option or key is
      falsy too. */
  predicate FilterActive(filterable: bool, activeFilter: Option<string>, filterKey: string) {
    filterable && activeFilter.Some? && activeFilter.value != "" && filterKey != ""
  }

  predicate PassesSearch(row: Row, searchable: bool, keys: seq<string>, query: string) {
    !SearchActive(searchable, query) || AnyKey(row, keys, query)
  }

  function SearchStage(data: seq<Row>, searchable: bool, keys: seq<string>, query: string): seq<Row> {
    Filter(data, (row: Row) => PassesSearch(row, searchable, keys, query))
  }

  /** `item[filterKey] === activeFilter`: only a string cell can pass. */
  predicate StrictEquals(v: Value, option: string) {
    v == Str(option)
  }

  predicate PassesFilterAsWritten(row: Row, filterable: bool, filterKey: string, activeFilter: Option<string>) {
    !FilterActive(filterable, activeFilter, filterKey) || StrictEquals(Lookup(row, filterKey), activeFilter.value)
  }

  /** `filteredData` as written, with the strict comparison. */
  function FilteredDataAsWritten(data: seq<Row>, searchable: bool, keys: seq<string>, query: string,
                                 filterable: bool, filterKey: string, activeFilter: Option<string>): seq<Row> {
    Filter(SearchStage(data, searchable, keys, query),
      (row: Row) => PassesFilterAsWritten(row, filterable, filterKey, activeFilter))
  }

  /** The filter options are strings, so the cell is compared by its text. */
  predicate TextEquals(v: Value, option: string) {
    Text(v) == Some(option)
  }

  predicate PassesFilter(row: Row, filterable: bool, filterKey: string, activeFilter: Option<string>) {
    !FilterActive(filterable, activeFilter, filterKey) || TextEquals(Lookup(row, filterKey), activeFilter.value)
  }

  /** `filteredData` with the cell compared by its text. */
  function FilteredData(data: seq<Row>, searchable: bool, keys: seq<string>, query: string,
                        filterable: bool, filterKey: string, activeFilter: Option<string>): seq<Row> {
    Filter(SearchStage(data, searchable, keys, query),
      (row: Row) => PassesFilter(row, filterable, filterKey, activeFilter))
  }

  /** The two comparisons agree on string and missing cells. */
  lemma StrictAgreesOnStrings(v: Value, option: string)
    requires v.Str? || v.Null?
    ensures StrictEquals(v, option) <==> TextEquals(v, option)
  {
  }

  /** The table keeps, in order, exactly the rows that pass the search and
      the filter; so it never shows more rows than it was given. */
  lemma FilteredDataSpec(data: seq<Row>, searchable: bool, keys: seq<string>, query: string,
                         filterable: bool, filterKey: string, activeFilter: Option<string>)
    ensures var r := FilteredData(data, searchable, keys, query, filterable, filterKey, activeFilter);
            IsSubseq(r, data) && |r| <= |data|
            && forall row :: row in r <==>
                 row in data && PassesSearch(row, searchable, keys, query)
                 && PassesFilter(row, filterable, filterKey, activeFilter)
  {
    var s := SearchStage(data, searchable, keys, query);
    var r := FilteredData(data, searchable, keys, query, filterable, filterKey, activeFilter);
    FilterSpec(data, (row: Row) => PassesSearch(row, searchable, keys, query));
    FilterSpec(s, (row: Row) => PassesFilter(row, filterable, filterKey, activeFilter));
    SubseqTrans(r, s, data);
    SubseqLength(r, data);
  }

  lemma {:induction false} SubseqTrans<T>(a: seq<T>, b: seq<T>, c: seq<T>)
    requires IsSubseq(a, b) && IsSubseq(b, c)
    ensures IsSubseq(a, c)
    decreases |c|
  {
    if a != [] {
      if IsSubseq(b, c[1..]) {
        SubseqTrans(a, b, c[1..]);
      } else if a[0] == b[0] && IsSubseq(a[1..], b[1..]) {
        SubseqTrans(a[1..], b[1..], c[1..]);
      } else {
        SubseqTrans(a, b[1..], c[1..]);
      }
    }
  }

  /** With neither stage active the table shows all the data. */
  lemma NothingActiveShowsAll(data: seq<Row>, searchable: bool, keys: seq<string>, query: string,
                              filterable: bool, filterKey: string, activeFilter: Option<string>)
    requires !SearchActive(searchable, query) && !FilterActive(filterable, activeFilter, filterKey)
    ensures FilteredData(data, searchable, keys, query, filterable, filterKey, activeFilter) == data
  {
    FilterAll(data, (row: Row) => PassesSearch(row, searchable, keys, query));
    FilterAll(data, (row: Row) => PassesFilter(row, filterable, filterKey, activeFilter));
  }

  /** Clearing the filter leaves only the search. */
  lemma ClearedFilterIsSearchOnly(data: seq<Row>, searchable: bool, keys: seq<string>, query: string,
                                  filterable: bool, filterKey: string)
    ensures FilteredData(data, searchable, keys, query, filterable, filterKey, None)
         == SearchStage(data, searchable, keys, query)
  {
    var s := SearchStage(data, searchable, keys, query);
    FilterAll(s, (row: Row) => PassesFilter(row, filterable, filterKey, None));
  }

  /** An active search over no keys finds nothing. */
  lemma NoKeysNoRows(data: seq<Row>, query: string, filterable: bool, filterKey: string, activeFilter: Option<string>)
    requires query != ""
    ensures FilteredData(data, true, [], query, filterable, filterKey, activeFilter) == []
  {
    FilterNone(data, (row: Row) => PassesSearch(row, true, [], query));
  }

  // ------------------------------------------------ the attendance table

  /** The attendance table's row as the table sees it: the employee name it
      searches and the boolean `isLate` it filters on. */
  function AttendanceCells(r: PerformanceStats.AttendanceRow): (row: Row)
    ensures Lookup(row, "isLate") == Bool(r.isLate)
    ensures Lookup(row, "employeeName") == Str(r.employeeName)
  {
    map["employeeName" := Str(r.employeeName), "scheduledStart" := Str(r.scheduledStart), "isLate" := Bool(r.isLate)]
  }

  function AttendanceTable(rows: seq<PerformanceStats.AttendanceRow>): (t: seq<Row>)
    ensures |t| == |rows| && forall i :: 0 <= i < |rows| ==> t[i] == AttendanceCells(rows[i])
  {
    seq(|rows|, i requires 0 <= i < |rows| => AttendanceCells(rows[i]))
  }

  /** As written, choosing "Late" or "Present" empties the attendance table:
      the boolean cell never equals the string option. */
  lemma LateFilterEmptiesAsWritten(rows: seq<PerformanceStats.AttendanceRow>, query: string, option: string)
    requires option != ""
    ensures FilteredDataAsWritten(AttendanceTable(rows), true, ["employeeName"], query, true, "isLate", Some(option)) == []
  {
    var s := SearchStage(AttendanceTable(rows), true, ["employeeName"], query);
    FilterSpec(AttendanceTable(rows), (row: Row) => PassesSearch(row, true, ["employeeName"], query));
    forall row | row in s
      ensures !PassesFilterAsWritten(row, true, "isLate", Some(option))
    {
      var i :| 0 <= i < |rows| && AttendanceTable(rows)[i] == row;
      assert Lookup(row, "isLate") == Bool(rows[i].isLate);
    }
    FilterNone(s, (row: Row) => PassesFilterAsWritten(row, true, "isLate", Some(option)));
  }

  /** Compared by text, "true" keeps exactly the late rows, in order. */
  lemma LateFilterCorrected(rows: seq<PerformanceStats.AttendanceRow>)
    ensures FilteredData(AttendanceTable(rows), true, ["employeeName"], "", true, "isLate", Some("true"))
         == AttendanceTable(Filter(rows, (r: PerformanceStats.AttendanceRow) => r.isLate))
  {
    var t := AttendanceTable(rows);
    FilterAll(t, (row: Row) => PassesSearch(row, true, ["employeeName"], ""));
    LateRows(rows);
  }

  lemma {:induction false} LateRows(rows: seq<PerformanceStats.AttendanceRow>)
    ensures Filter(AttendanceTable(rows), (row: Row) => PassesFilter(row, true, "isLate", Some("true")))
         == AttendanceTable(Filter(rows, (r: PerformanceStats.AttendanceRow) => r.isLate))
    decreases |rows|
  {
    var p := (row: Row) => PassesFilter(row, true, "isLate", Some("true"));
    var q := (r: PerformanceStats.AttendanceRow) => r.isLate;
    if rows != [] {
      LateRows(rows[1..]);
      var x, xs := rows[0], rows[1..];
      assert [x] + xs == rows;
      TableCons(x, xs);
      LateCell(x);
      if q(x) {
        FilterKeep(x, xs, q);
        FilterKeep(AttendanceCells(x), AttendanceTable(xs), p);
        TableCons(x, Filter(xs, q));
      } else {
        FilterDrop(x, xs, q);
        FilterDrop(AttendanceCells(x), AttendanceTable(xs), p);
      }
    }
  }

  lemma TableCons(x: PerformanceStats.AttendanceRow, xs: seq<PerformanceStats.AttendanceRow>)
    ensures AttendanceTable([x] + xs) == [AttendanceCells(x)] + AttendanceTable(xs)
  {
  }

  lemma LateCell(x: PerformanceStats.AttendanceRow)
    ensures PassesFilter(AttendanceCells(x), true, "isLate", Some("true")) == x.isLate
  {
  }
}
