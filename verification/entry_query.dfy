/** internal/tui/utils/database.go and the older `queryMatchingEntries` of
    internal/tui/model_state.go: the numbers of the gift items whose cleaned
    attributes match the browser's selection. */
module EntryQuery {
  import opened Wrappers
  import opened GiftStore
  import opened Text
  import opened TuiStrings

  /** The columns the SELECT of `QueryEntries` reads. */
  const QueriedColumns: set<string> := {"number", "model", "backdrop", "symbol"}

  /** Outcomes of the SQLite calls of one query: `sql.Open`, `db.Query`, and the
      positions of the rows whose `Scan` fails (a NULL in a column that was added by
      ALTER TABLE after the row was written cannot be scanned into a string). */
  datatype QueryFaults = QueryFaults(openFails: bool, queryFails: bool, scanFails: set<int>)

  /** A row matches when its cleaned model equals the selected model exactly, and its
      cleaned backdrop and symbol equal the selected ones unless those are empty. */
  predicate Matches(row: Row, model: string, backdrop: string, symbol: string) {
    && RemovePercent(row.model) == model
    && (backdrop == "" || RemovePercent(row.backdrop) == backdrop)
    && (symbol == "" || RemovePercent(row.symbol) == symbol)
  }

  /** The numbers of the matching rows, in table order. */
  function MatchingNumbers(rows: seq<Row>, model: string, backdrop: string, symbol: string): (ns: seq<int>)
    ensures |ns| <= |rows|
  {
    if |rows| == 0 then []
    else
      var last := rows[|rows| - 1];
      MatchingNumbers(rows[..|rows| - 1], model, backdrop, symbol)
        + (if Matches(last, model, backdrop, symbol) then [last.number] else [])
  }

  /** The SELECT itself fails: the connection or the query errs, or the file has no
      `gifts` table with the queried columns. */
  predicate SelectFails(tableExists: bool, columns: set<string>, faults: QueryFaults) {
    faults.openFails || faults.queryFails || !tableExists || !(QueriedColumns <= columns)
  }

  /** Some row of the table cannot be scanned. */
  predicate ScanFails(rows: seq<Row>, faults: QueryFaults) {
    exists i :: 0 <= i < |rows| && i in faults.scanFails
  }

  /** `QueryEntries`: walks the rows in order, returns an error at the first one whose
      Scan fails, and otherwise the numbers of the matching rows. */
  method QueryEntries(db: GiftDatabase, model: string, backdrop: string, symbol: string, faults: QueryFaults)
    returns (matches: Option<seq<int>>)
    ensures matches.None? <==> SelectFails(db.tableExists, db.columns, faults) || ScanFails(db.rows, faults)
    ensures matches.Some? ==> matches.value == MatchingNumbers(db.rows, model, backdrop, symbol)
  {
    if SelectFails(db.tableExists, db.columns, faults) {
      return None;
    }
    var rows := db.rows;
    var found: seq<int> := [];
    var i := 0;
    while i < |rows|
      invariant 0 <= i <= |rows|
      invariant forall j :: 0 <= j < i ==> j !in faults.scanFails
      invariant found == MatchingNumbers(rows[..i], model, backdrop, symbol)
    {
      if i in faults.scanFails {
        return None;
      }
      assert rows[..i + 1][..i] == rows[..i];
      if Matches(rows[i], model, backdrop, symbol) {
        found := found + [rows[i].number];
      }
      i := i + 1;
    }
    assert rows[..i] == rows;
    return Some(found);
  }

  /** A number is reported exactly when some matching row carries it. */
  lemma MatchingNumbersMembership(rows: seq<Row>, model: string, backdrop: string, symbol: string, n: int)
    ensures n in MatchingNumbers(rows, model, backdrop, symbol)
        <==> exists i :: 0 <= i < |rows| && rows[i].number == n && Matches(rows[i], model, backdrop, symbol)
  {
    MatchingNumbersCount(rows, model, backdrop, symbol, n);
    var found := MatchingRowsWith(rows, model, backdrop, symbol, n);
    if exists i :: 0 <= i < |rows| && rows[i].number == n && Matches(rows[i], model, backdrop, symbol) {
      var i :| 0 <= i < |rows| && rows[i].number == n && Matches(rows[i], model, backdrop, symbol);
      assert i in found;
    }
    if |found| > 0 {
      var i :| i in found;
    }
  }

  /** The positions of the rows that carry `n` and match the selection. */
  function MatchingRowsWith(rows: seq<Row>, model: string, backdrop: string, symbol: string, n: int): set<int> {
    set i | 0 <= i < |rows| && rows[i].number == n && Matches(rows[i], model, backdrop, symbol)
  }

  /** Every matching row contributes its number once: a number occurs in the result
      as many times as there are matching rows carrying it. */
  lemma {:induction false} MatchingNumbersCount(rows: seq<Row>, model: string, backdrop: string, symbol: string, n: int)
    ensures multiset(MatchingNumbers(rows, model, backdrop, symbol))[n]
         == |MatchingRowsWith(rows, model, backdrop, symbol, n)|
  {
    if |rows| > 0 {
      var init := rows[..|rows| - 1];
      var last := rows[|rows| - 1];
      MatchingNumbersCount(init, model, backdrop, symbol, n);
      var hit := last.number == n && Matches(last, model, backdrop, symbol);
      MatchingRowsWithSnoc(rows, model, backdrop, symbol, n);
      SnocPositions(MatchingRowsWith(init, model, backdrop, symbol, n),
                    MatchingRowsWith(rows, model, backdrop, symbol, n), |init|, hit);
      var tail := if Matches(last, model, backdrop, symbol) then [last.number] else [];
      assert multiset(MatchingNumbers(rows, model, backdrop, symbol))
          == multiset(MatchingNumbers(init, model, backdrop, symbol)) + multiset(tail);
    }
  }

  lemma MatchingRowsWithSnoc(rows: seq<Row>, model: string, backdrop: string, symbol: string, n: int)
    requires |rows| > 0
    ensures var last := rows[|rows| - 1];
      && MatchingRowsWith(rows, model, backdrop, symbol, n)
         == MatchingRowsWith(rows[..|rows| - 1], model, backdrop, symbol, n)
            + (if last.number == n && Matches(last, model, backdrop, symbol) then {|rows| - 1} else {})
  {
    var init := rows[..|rows| - 1];
    forall i | 0 <= i < |init| ensures init[i] == rows[i] { }
  }

  /** Growing a set of positions below `k` by position `k` or not at all. */
  lemma SnocPositions(before: set<int>, after: set<int>, k: int, hit: bool)
    requires forall i :: i in before ==> i < k
    requires after == before + (if hit then {k} else {})
    ensures |after| == |before| + (if hit then 1 else 0)
  {
    if hit {
      assert k !in before;
    }
  }

  /** An empty backdrop or symbol selects every value: the result with a filter set is
      an in-order sublist of the result with that filter cleared. */
  lemma {:induction false} ClearingFiltersWidens(rows: seq<Row>, model: string, backdrop: string, symbol: string,
                                                  wideBackdrop: string, wideSymbol: string)
    requires wideBackdrop == "" || wideBackdrop == backdrop
    requires wideSymbol == "" || wideSymbol == symbol
    ensures IsSubsequence(MatchingNumbers(rows, model, backdrop, symbol),
                          MatchingNumbers(rows, model, wideBackdrop, wideSymbol))
  {
    if |rows| == 0 {
    } else {
      var init := rows[..|rows| - 1];
      var last := rows[|rows| - 1];
      ClearingFiltersWidens(init, model, backdrop, symbol, wideBackdrop, wideSymbol);
      var narrow := MatchingNumbers(init, model, backdrop, symbol);
      var wide := MatchingNumbers(init, model, wideBackdrop, wideSymbol);
      if Matches(last, model, backdrop, symbol) {
        SubsequenceSnoc(narrow, wide, last.number);
      } else if Matches(last, model, wideBackdrop, wideSymbol) {
        SubsequenceSnoc(narrow, wide, last.number);
        assert narrow + [] == narrow;
      } else {
        assert narrow + [] == narrow;
        assert wide + [] == wide;
      }
    }
  }

  /** The model is never a wildcard: an empty model only matches rows whose model
      cleans to the empty string. */
  lemma EmptyModelIsNoWildcard(rows: seq<Row>, backdrop: string, symbol: string, n: int)
    requires n in MatchingNumbers(rows, "", backdrop, symbol)
    ensures exists i :: 0 <= i < |rows| && rows[i].number == n && RemovePercent(rows[i].model) == ""
  {
    MatchingNumbersMembership(rows, "", backdrop, symbol, n);
  }

  /** A row stored with a rarity tag, "Name (1.5%)", is found by the bare name the
      browser offers. */
  lemma TaggedRowIsFound(rows: seq<Row>, i: nat, name: string, d: string, frac: string)
    requires i < |rows| && IsDigits(d) && (frac == "" || IsDigits(frac)) && NoAsciiDigit(name)
    requires rows[i].model == name + Tag(d, frac)
    ensures rows[i].number in MatchingNumbers(rows, name, "", "")
  {
    RemovePercentStripsTag(name, d, frac);
    MatchingNumbersMembership(rows, name, "", "", rows[i].number);
  }

  /** The columns the older query reads. */
  const LegacyColumns: set<string> := {"number", "model", "backdrop"}

  /** The older query compares both model and backdrop exactly. */
  predicate LegacyMatches(row: Row, model: string, backdrop: string) {
    RemovePercent(row.model) == model && RemovePercent(row.backdrop) == backdrop
  }

  function LegacyMatchingNumbers(rows: seq<Row>, model: string, backdrop: string): (ns: seq<int>)
    ensures |ns| <= |rows|
  {
    if |rows| == 0 then []
    else
      var last := rows[|rows| - 1];
      LegacyMatchingNumbers(rows[..|rows| - 1], model, backdrop)
        + (if LegacyMatches(last, model, backdrop) then [last.number] else [])
  }

  /** The positions of the rows that carry `n` and match the older query. */
  function LegacyRowsWith(rows: seq<Row>, model: string, backdrop: string, n: int): set<int> {
    set i | 0 <= i < |rows| && rows[i].number == n && LegacyMatches(rows[i], model, backdrop)
  }

  /** Every row the older query matches contributes its number once. */
  lemma {:induction false} LegacyMatchingNumbersCount(rows: seq<Row>, model: string, backdrop: string, n: int)
    ensures multiset(LegacyMatchingNumbers(rows, model, backdrop))[n] == |LegacyRowsWith(rows, model, backdrop, n)|
  {
    if |rows| > 0 {
      var init := rows[..|rows| - 1];
      var last := rows[|rows| - 1];
      LegacyMatchingNumbersCount(init, model, backdrop, n);
      LegacyRowsWithSnoc(rows, model, backdrop, n);
      SnocPositions(LegacyRowsWith(init, model, backdrop, n), LegacyRowsWith(rows, model, backdrop, n), |init|,
                    last.number == n && LegacyMatches(last, model, backdrop));
      var tail := if LegacyMatches(last, model, backdrop) then [last.number] else [];
      assert multiset(LegacyMatchingNumbers(rows, model, backdrop))
          == multiset(LegacyMatchingNumbers(init, model, backdrop)) + multiset(tail);
    }
  }

  lemma LegacyRowsWithSnoc(rows: seq<Row>, model: string, backdrop: string, n: int)
    requires |rows| > 0
    ensures var last := rows[|rows| - 1];
      LegacyRowsWith(rows, model, backdrop, n)
        == LegacyRowsWith(rows[..|rows| - 1], model, backdrop, n)
           + (if last.number == n && LegacyMatches(last, model, backdrop) then {|rows| - 1} else {})
  {
    var init := rows[..|rows| - 1];
    forall i | 0 <= i < |init| ensures init[i] == rows[i] { }
  }

  /** A number is reported by the older query exactly when some row carrying it has
      both its cleaned model and its cleaned backdrop equal to the selection; an
      empty backdrop is compared like any other. */
  lemma LegacyMatchingNumbersMembership(rows: seq<Row>, model: string, backdrop: string, n: int)
    ensures n in LegacyMatchingNumbers(rows, model, backdrop)
        <==> exists i :: 0 <= i < |rows| && rows[i].number == n && LegacyMatches(rows[i], model, backdrop)
  {
    LegacyMatchingNumbersCount(rows, model, backdrop, n);
    var found := LegacyRowsWith(rows, model, backdrop, n);
    if exists i :: 0 <= i < |rows| && rows[i].number == n && LegacyMatches(rows[i], model, backdrop) {
      var i :| 0 <= i < |rows| && rows[i].number == n && LegacyMatches(rows[i], model, backdrop);
      assert i in found;
    }
    if |found| > 0 {
      var i :| i in found;
    }
  }

  /** `queryMatchingEntries` of the older browser. */
  method LegacyQueryEntries(db: GiftDatabase, model: string, backdrop: string, faults: QueryFaults)
    returns (matches: Option<seq<int>>)
    ensures matches.None? <==>
      || faults.openFails || faults.queryFails || !db.tableExists || !(LegacyColumns <= db.columns)
      || ScanFails(db.rows, faults)
    ensures matches.Some? ==> matches.value == LegacyMatchingNumbers(db.rows, model, backdrop)
  {
    if faults.openFails || faults.queryFails || !db.tableExists || !(LegacyColumns <= db.columns) {
      return None;
    }
    var rows := db.rows;
    var found: seq<int> := [];
    var i := 0;
    while i < |rows|
      invariant 0 <= i <= |rows|
      invariant forall j :: 0 <= j < i ==> j !in faults.scanFails
      invariant found == LegacyMatchingNumbers(rows[..i], model, backdrop)
    {
      if i in faults.scanFails {
        return None;
      }
      assert rows[..i + 1][..i] == rows[..i];
      if LegacyMatches(rows[i], model, backdrop) {
        found := found + [rows[i].number];
      }
      i := i + 1;
    }
    assert rows[..i] == rows;
    return Some(found);
  }

  /** With a backdrop chosen, the older query is the newer one without a symbol. */
  lemma {:induction false} LegacyAgreesWithBackdrop(rows: seq<Row>, model: string, backdrop: string)
    requires backdrop != ""
    ensures LegacyMatchingNumbers(rows, model, backdrop) == MatchingNumbers(rows, model, backdrop, "")
  {
    if |rows| > 0 {
      LegacyAgreesWithBackdrop(rows[..|rows| - 1], model, backdrop);
    }
  }

  /** With no backdrop, the older query only finds rows whose backdrop cleans to the
      empty string, where the newer one finds every backdrop. */
  lemma LegacyEmptyBackdrop(rows: seq<Row>, model: string, n: int)
    requires n in LegacyMatchingNumbers(rows, model, "")
    ensures n in MatchingNumbers(rows, model, "", "")
    ensures exists i :: 0 <= i < |rows| && rows[i].number == n && RemovePercent(rows[i].backdrop) == ""
  {
    LegacyMatchingNumbersMembership(rows, model, "", n);
    LegacyEmptyBackdropSubsumed(rows, model);
    MatchingNumbersMembership(rows, model, "", "", n);
  }

  lemma {:induction false} LegacyEmptyBackdropSubsumed(rows: seq<Row>, model: string)
    ensures forall n :: n in LegacyMatchingNumbers(rows, model, "") ==>
      exists i :: 0 <= i < |rows| && rows[i].number == n && Matches(rows[i], model, "", "")
  {
    if |rows| > 0 {
      var init := rows[..|rows| - 1];
      LegacyEmptyBackdropSubsumed(init, model);
      forall n | n in LegacyMatchingNumbers(rows, model, "")
        ensures exists i :: 0 <= i < |rows| && rows[i].number == n && Matches(rows[i], model, "", "")
      {
        if n in LegacyMatchingNumbers(init, model, "") {
          var i :| 0 <= i < |init| && init[i].number == n && Matches(init[i], model, "", "");
          assert rows[i] == init[i];
        } else {
          assert rows[|rows| - 1].number == n;
        }
      }
    }
  }
}
