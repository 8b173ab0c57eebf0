/** internal/parser/pars_out.go: the file-name slug of a gift key, the fallback
    quantity extractor and the per-gift database writer. */
module ParsOut {
  import opened Wrappers
  import opened Text
  import opened GiftParser
  import opened GiftStore

  /** `unicode.IsLetter`, over the ASCII and Latin-1 letters, Latin Extended-A/B,
      the basic Greek and Cyrillic letters and the CJK Unified Ideographs block. */
  predicate IsLetter(c: char) {
    || IsAsciiLetter(c)
    || c == '\U{00AA}' || c == '\U{00B5}' || c == '\U{00BA}'
    || ('\U{00C0}' <= c <= '\U{00D6}') || ('\U{00D8}' <= c <= '\U{00F6}')
    || ('\U{00F8}' <= c <= '\U{024F}')
    || ('\U{0391}' <= c <= '\U{03A1}') || ('\U{03A3}' <= c <= '\U{03A9}')
    || ('\U{03B1}' <= c <= '\U{03C9}')
    || ('\U{0400}' <= c <= '\U{0481}')
    || ('\U{4E00}' <= c <= '\U{9FFF}')
  }

  /** `unicode.IsDigit`, over the ASCII, Arabic-Indic, extended Arabic-Indic,
      Devanagari and full-width decimal digits. */
  predicate IsDigit(c: char) {
    || IsAsciiDigit(c)
    || ('\U{0660}' <= c <= '\U{0669}') || ('\U{06F0}' <= c <= '\U{06F9}')
    || ('\U{0966}' <= c <= '\U{096F}') || ('\U{FF10}' <= c <= '\U{FF19}')
  }

  predicate IsLetterOrDigit(c: char) { IsLetter(c) || IsDigit(c) }

  /** `SanitizeKey`: the key's letters and digits, in order. */
  function SanitizeKey(key: string): (slug: string)
    ensures |slug| <= |key|
    ensures forall i :: 0 <= i < |slug| ==> IsLetterOrDigit(slug[i])
  {
    if |key| == 0 then ""
    else
      var rest := SanitizeKey(key[1..]);
      if IsLetterOrDigit(key[0]) then [key[0]] + rest else rest
  }

  /** The slug distributes over concatenation, so it is the rune-by-rune filter. */
  lemma {:induction false} SanitizeKeyAppend(a: string, b: string)
    ensures SanitizeKey(a + b) == SanitizeKey(a) + SanitizeKey(b)
  {
    if |a| == 0 {
      assert a + b == b;
    } else {
      assert (a + b)[1..] == a[1..] + b;
      SanitizeKeyAppend(a[1..], b);
    }
  }

  lemma {:induction false} SanitizeKeySubsequence(key: string)
    ensures IsSubsequence(SanitizeKey(key), key)
  {
    if |key| > 0 {
      SanitizeKeySubsequence(key[1..]);
      assert [key[0]] + key[1..] == key;
      SubsequenceCons(key[0], SanitizeKey(key[1..]), key[1..]);
    }
  }

  /** A key made only of letters and digits is its own slug. */
  lemma {:induction false} SanitizeKeyKeepsAlphanumeric(key: string)
    requires forall i :: 0 <= i < |key| ==> IsLetterOrDigit(key[i])
    ensures SanitizeKey(key) == key
  {
    if |key| > 0 {
      assert IsLetterOrDigit(key[0]);
      SanitizeKeyKeepsAlphanumeric(key[1..]);
      assert [key[0]] + key[1..] == key;
    }
  }

  lemma SanitizeKeyIdempotent(key: string)
    ensures SanitizeKey(SanitizeKey(key)) == SanitizeKey(key)
  {
    SanitizeKeyKeepsAlphanumeric(SanitizeKey(key));
  }

  /** A separator between two alphanumeric words is dropped. */
  lemma SanitizeKeyDropsSeparator(a: string, sep: char, b: string)
    requires forall i :: 0 <= i < |a| ==> IsLetterOrDigit(a[i])
    requires forall i :: 0 <= i < |b| ==> IsLetterOrDigit(b[i])
    requires !IsLetterOrDigit(sep)
    ensures SanitizeKey(a + [sep] + b) == a + b
  {
    assert SanitizeKey([sep]) == "" by { assert [sep][1..] == ""; }
    SanitizeKeyAppend(a, [sep]);
    SanitizeKeyKeepsAlphanumeric(a);
    assert SanitizeKey(a + [sep]) == a;
    SanitizeKeyAppend(a + [sep], b);
    SanitizeKeyKeepsAlphanumeric(b);
  }

  /** Keys that differ only in punctuation or spacing share one database file. */
  lemma SanitizeKeyCollision()
    ensures SanitizeKey("Desk Calendar") == "DeskCalendar"
    ensures SanitizeKey("Desk-Calendar") == "DeskCalendar"
  {
    DeskCalendarParts();
    SanitizeKeyDropsSeparator("Desk", ' ', "Calendar");
    SanitizeKeyDropsSeparator("Desk", '-', "Calendar");
  }

  lemma DeskCalendarParts()
    ensures forall i :: 0 <= i < |"Desk"| ==> IsLetterOrDigit("Desk"[i])
    ensures forall i :: 0 <= i < |"Calendar"| ==> IsLetterOrDigit("Calendar"[i])
    ensures !IsLetterOrDigit(' ') && !IsLetterOrDigit('-')
    ensures "Desk" + [' '] + "Calendar" == "Desk Calendar"
    ensures "Desk" + ['-'] + "Calendar" == "Desk-Calendar"
    ensures "Desk" + "Calendar" == "DeskCalendar"
  {
    assert forall i :: 0 <= i < |"Desk"| ==> IsAsciiLetter("Desk"[i]);
    assert forall i :: 0 <= i < |"Calendar"| ==> IsAsciiLetter("Calendar"[i]);
  }

  /** The runes `strings.Trim` strips from each field in the fallback. */
  const QuantityCutset: set<char> := {':', ',', '(', ')', ' '}

  predicate IsPositiveInteger(s: string) {
    Atoi(s).Some? && Atoi(s).value > 0
  }

  /** The first field of `fields` that, trimmed, is a positive integer. */
  function ScanFields(fields: seq<string>): (r: Option<string>)
    ensures r.Some? ==> IsPositiveInteger(r.value)
  {
    if |fields| == 0 then None
    else
      var cleaned := Trim(fields[0], QuantityCutset);
      if IsPositiveInteger(cleaned) then Some(cleaned) else ScanFields(fields[1..])
  }

  /** The first positive integer field on a line mentioning "Quantity". */
  function ScanLines(lines: seq<string>): (r: string)
    ensures r == "Unknown" || IsPositiveInteger(r)
  {
    if |lines| == 0 then "Unknown"
    else if Contains(lines[0], "Quantity") && ScanFields(Fields(lines[0])).Some? then
      ScanFields(Fields(lines[0])).value
    else ScanLines(lines[1..])
  }

  /** `ExtractQuantityFallback` over the page's inner text. */
  function ExtractQuantityFallback(text: string): (r: string)
    ensures r == "Unknown" || IsPositiveInteger(r)
  {
    ScanLines(Split(text, '\n'))
  }

  /** What Atoi accepts holds neither a '/' nor a space. */
  lemma AtoiSyntax(s: string)
    requires Atoi(s).Some?
    ensures '/' !in s && ' ' !in s && NoBreakSpace !in s
  {
    if s[0] == '+' || s[0] == '-' {
      DigitsAreNotSeparators(s[1..]);
      assert s == [s[0]] + s[1..];
    } else {
      DigitsAreNotSeparators(s);
    }
  }

  /** A string Atoi accepts is parsed unchanged by `CleanQuantity`. */
  lemma CleanQuantityOfInteger(s: string)
    requires Atoi(s).Some?
    ensures CleanQuantity(s) == Atoi(s).value
  {
    AtoiSyntax(s);
    CleanQuantityWithoutSlash(s);
    RemoveSpacesKeepsOthers(s);
  }

  /** The fallback's answer gives a positive quantity exactly when it found one. */
  lemma FallbackQuantity(text: string)
    ensures var f := ExtractQuantityFallback(text);
      && (f == "Unknown" ==> CleanQuantity(f) == 0)
      && (f != "Unknown" ==> CleanQuantity(f) == Atoi(f).value > 0)
  {
    var f := ExtractQuantityFallback(text);
    if f == "Unknown" {
      CleanQuantityRejectsWords();
    } else {
      CleanQuantityOfInteger(f);
    }
  }

  lemma {:induction false} FieldsOfToken(tok: string, sp: char, rest: string)
    requires |tok| > 0 && (forall i :: 0 <= i < |tok| ==> !IsSpace(tok[i]))
    requires IsSpace(sp)
    ensures Fields(tok + [sp] + rest) == [tok] + Fields(rest)
  {
    var s := tok + [sp] + rest;
    assert TokenLen(s) == |tok| by { TokenLenOfToken(tok, sp, rest); }
    assert s[..|tok|] == tok;
    assert s[|tok|..] == [sp] + rest;
    assert ([sp] + rest)[1..] == rest;
  }

  lemma {:induction false} TokenLenOfToken(tok: string, sp: char, rest: string)
    requires forall i :: 0 <= i < |tok| ==> !IsSpace(tok[i])
    requires IsSpace(sp)
    ensures TokenLen(tok + [sp] + rest) == |tok|
  {
    if |tok| > 0 {
      assert (tok + [sp] + rest)[1..] == tok[1..] + [sp] + rest;
      TokenLenOfToken(tok[1..], sp, rest);
    }
  }

  /** A positive digit string is left alone by the trim and accepted by Atoi. */
  lemma PositiveDigitsField(d: string)
    requires IsDigits(d) && DigitsValue(d) > 0
    ensures Trim(d, QuantityCutset) == d && IsPositiveInteger(d)
  {
    assert IsAsciiDigit(d[0]) && IsAsciiDigit(d[|d| - 1]);
  }

  /** The "Quantity:" label itself is skipped, and a positive number after it is taken. */
  lemma ScanFieldsSkipsLabel(d: string, rest: seq<string>)
    requires IsDigits(d) && DigitsValue(d) > 0
    ensures ScanFields(["Quantity:", d] + rest) == Some(d)
  {
    var fs := ["Quantity:", d] + rest;
    assert Trim("Quantity:", QuantityCutset) == "Quantity" by {
      assert "Quantity:"[..8] == "Quantity";
    }
    assert !IsPositiveInteger("Quantity") by { assert !IsDigits("Quantity"); }
    PositiveDigitsField(d);
    assert fs[1..] == [d] + rest;
  }

  lemma FieldsOfTwoTokens(tag: string, d: string, rest: string)
    requires |tag| > 0 && forall i :: 0 <= i < |tag| ==> !IsSpace(tag[i])
    requires IsDigits(d)
    ensures Fields(tag + [' '] + d + [' '] + rest) == [tag, d] + Fields(rest)
  {
    var tail := d + [' '] + rest;
    DigitsAreNotSpaces(d);
    FieldsOfToken(d, ' ', rest);
    FieldsOfToken(tag, ' ', tail);
    TwoTokensShape(tag, d, rest, Fields(rest));
  }

  lemma DigitsAreNotSpaces(d: string)
    requires IsDigits(d)
    ensures |d| > 0 && forall i :: 0 <= i < |d| ==> !IsSpace(d[i])
  {
    forall i | 0 <= i < |d| ensures !IsSpace(d[i]) { assert IsAsciiDigit(d[i]); }
  }

  lemma TwoTokensShape(tag: string, d: string, rest: string, fs: seq<string>)
    ensures tag + [' '] + (d + [' '] + rest) == tag + [' '] + d + [' '] + rest
    ensures [tag] + ([d] + fs) == [tag, d] + fs
  {
  }

  /** On a line "Quantity: <d> <rest>" with a positive number d, the fallback gives d:
      a grouped number such as "1 234/5000" yields only its first group. */
  lemma FallbackTakesFirstGroup(d: string, rest: string)
    requires IsDigits(d) && DigitsValue(d) > 0 && '\n' !in rest
    ensures ExtractQuantityFallback("Quantity:" + [' '] + d + [' '] + rest) == d
  {
    var line := "Quantity:" + [' '] + d + [' '] + rest;
    assert HasPrefix(line, "Quantity") by { assert line[..8] == "Quantity"; }
    assert forall i :: 0 <= i < |"Quantity:"| ==> !IsSpace("Quantity:"[i]);
    FieldsOfTwoTokens("Quantity:", d, rest);
    ScanFieldsSkipsLabel(d, Fields(rest));
    assert '\n' !in line by {
      DigitsAreNotNewlines(d);
      assert forall c :: c in line ==> c in "Quantity:" || c == ' ' || c in d || c in rest;
    }
    SplitWithoutSeparator(line, '\n');
  }

  lemma DigitsAreNotNewlines(d: string)
    requires IsDigits(d)
    ensures '\n' !in d
  {
    forall i | 0 <= i < |d| ensures d[i] != '\n' { assert IsAsciiDigit(d[i]); }
  }

  /** The quantity a gift's first page announces: the Quantity cell, or the fallback
      over the page text when the cell is missing. */
  function PageQuantity(page: Page): int {
    CleanQuantity(if page.quantityField == "Unknown" then ExtractQuantityFallback(page.text)
                  else page.quantityField)
  }

  /** Without a Quantity cell the quantity is never negative, and positive exactly when
      some "Quantity" line holds a positive integer. */
  lemma PageQuantityWithoutCell(page: Page)
    requires page.quantityField == "Unknown"
    ensures PageQuantity(page) >= 0
    ensures PageQuantity(page) > 0 <==> ExtractQuantityFallback(page.text) != "Unknown"
  {
    FallbackQuantity(page.text);
  }

  /** The remote side of one gift: the first page (`<slug>-1`) as fetched for the
      quantity, the page of each item number as fetched in the loop (None when
      every attempt failed), and the item numbers whose INSERT fails. */
  datatype Remote = Remote(firstPage: Option<Page>, item: int -> Option<Page>, insertFails: set<int>)

  /** The row item `i` contributes: one when its page arrived and the INSERT worked. */
  function ItemRow(key: string, i: int, remote: Remote): seq<Row> {
    match remote.item(i)
    case None => []
    case Some(p) => if i in remote.insertFails then [] else [Row(key, i, p.model, p.backdrop, p.symbol)]
  }

  /** The rows the loop `for i := lo; i <= hi; i++` inserts, in order. */
  function FetchedRows(key: string, lo: int, hi: int, remote: Remote): seq<Row>
    decreases if lo <= hi then hi - lo + 1 else 0
  {
    if lo > hi then [] else ItemRow(key, lo, remote) + FetchedRows(key, lo + 1, hi, remote)
  }

  /** Each row carries the raw key and a number in lo..hi; numbers strictly
      increase, so no number appears twice; at most one row per item. */
  lemma {:induction false} FetchedRowsShape(key: string, lo: int, hi: int, remote: Remote)
    ensures var rows := FetchedRows(key, lo, hi, remote);
      && |rows| <= (if lo <= hi then hi - lo + 1 else 0)
      && (forall k :: 0 <= k < |rows| ==> rows[k].name == key && lo <= rows[k].number <= hi)
      && (forall j, k :: 0 <= j < k < |rows| ==> rows[j].number < rows[k].number)
    decreases if lo <= hi then hi - lo + 1 else 0
  {
    if lo <= hi {
      FetchedRowsShape(key, lo + 1, hi, remote);
    }
  }

  /** Appending the next item extends the loop's rows. */
  lemma {:induction false} FetchedRowsSnoc(key: string, lo: int, hi: int, remote: Remote)
    requires lo <= hi + 1
    ensures FetchedRows(key, lo, hi + 1, remote) == FetchedRows(key, lo, hi, remote) + ItemRow(key, hi + 1, remote)
    decreases hi + 1 - lo
  {
    var last := ItemRow(key, hi + 1, remote);
    if lo <= hi {
      FetchedRowsSnoc(key, lo + 1, hi, remote);
      var head := ItemRow(key, lo, remote);
      calc {
        FetchedRows(key, lo, hi + 1, remote);
        head + FetchedRows(key, lo + 1, hi + 1, remote);
        head + (FetchedRows(key, lo + 1, hi, remote) + last);
        { assert head + (FetchedRows(key, lo + 1, hi, remote) + last)
              == (head + FetchedRows(key, lo + 1, hi, remote)) + last; }
        (head + FetchedRows(key, lo + 1, hi, remote)) + last;
        FetchedRows(key, lo, hi, remote) + last;
      }
    } else {
      assert FetchedRows(key, lo + 1, hi + 1, remote) == [];
      assert FetchedRows(key, lo, hi + 1, remote) == last + [];
    }
  }

  /** Two consecutive loops insert what one loop over both ranges inserts. */
  lemma {:induction false} FetchedRowsSplit(key: string, lo: int, mid: int, hi: int, remote: Remote)
    requires lo <= mid <= hi + 1
    ensures FetchedRows(key, lo, hi, remote) == FetchedRows(key, lo, mid - 1, remote) + FetchedRows(key, mid, hi, remote)
    decreases mid - lo
  {
    if lo < mid {
      FetchedRowsSplit(key, lo + 1, mid, hi, remote);
    }
  }

  /** When every page arrives and every INSERT works, the numbers are exactly lo..hi. */
  lemma {:induction false} FetchedRowsComplete(key: string, lo: int, hi: int, remote: Remote)
    requires forall i :: lo <= i <= hi ==> remote.item(i).Some? && i !in remote.insertFails
    ensures Numbers(FetchedRows(key, lo, hi, remote)) == Range(lo, hi)
    decreases if lo <= hi then hi - lo + 1 else 0
  {
    if lo <= hi {
      FetchedRowsComplete(key, lo + 1, hi, remote);
      assert Range(lo, hi) == [lo] + Range(lo + 1, hi);
    }
  }

  /** An item whose page arrived and whose INSERT worked is stored with its cells. */
  lemma {:induction false} FetchedRowsHoldItem(key: string, lo: int, hi: int, i: int, remote: Remote)
    requires lo <= i <= hi && remote.item(i).Some? && i !in remote.insertFails
    ensures var p := remote.item(i).value;
      Row(key, i, p.model, p.backdrop, p.symbol) in FetchedRows(key, lo, hi, remote)
    decreases hi - lo
  {
    if lo < i {
      FetchedRowsHoldItem(key, lo + 1, hi, i, remote);
    }
  }

  /** An item whose page never arrived, or whose INSERT failed, leaves a gap. */
  lemma {:induction false} FetchedRowsSkipItem(key: string, lo: int, hi: int, i: int, remote: Remote)
    requires remote.item(i).None? || i in remote.insertFails
    ensures forall r :: r in FetchedRows(key, lo, hi, remote) ==> r.number != i
    decreases if lo <= hi then hi - lo + 1 else 0
  {
    if lo <= hi {
      FetchedRowsSkipItem(key, lo + 1, hi, i, remote);
    }
  }

  /** `CreateDB`: the table and its (name, number) index, created if absent. */
  method CreateDB(db: GiftDatabase, faults: SqlFaults) returns (err: bool)
    requires db.Valid()
    modifies db
    ensures db.Valid()
    ensures err <==> faults.openFails || faults.execFails
    ensures err ==> unchanged(db)
    ensures !err ==> db.fileExists && db.tableExists && db.indexExists && db.rows == old(db.rows)
    ensures !err ==> db.columns == if old(db.tableExists) then old(db.columns) else TableColumns
    ensures old(db.tableExists && db.indexExists) ==> unchanged(db)
  {
    if faults.openFails || faults.execFails {
      return true;
    }
    if !db.tableExists {
      db.tableExists, db.columns := true, TableColumns;
    }
    db.fileExists, db.indexExists := true, true;
    return false;
  }

  /** `InsertGift`: one INSERT of the five gift columns. */
  method InsertGift(db: GiftDatabase, name: string, model: string, backdrop: string, symbol: string,
                    number: int, fails: bool) returns (err: bool)
    requires db.Valid()
    modifies db`rows
    ensures db.Valid()
    ensures err <==> fails || !db.Insertable()
    ensures db.rows == if err then old(db.rows) else old(db.rows) + [Row(name, number, model, backdrop, symbol)]
  {
    if fails || !db.Insertable() {
      return true;
    }
    db.rows := db.rows + [Row(name, number, model, backdrop, symbol)];
    return false;
  }

  /** Which `return` a `ParseAndSaveGift` run reaches: one of the early ones (no
      database, no first page, zero quantity), or the end of the function. */
  datatype Exit = EarlyReturn | ReachedEnd

  /** The quantity the first page announces (none without a first page). */
  function AnnouncedQuantity(remote: Remote): int {
    match remote.firstPage
    case None => 0
    case Some(p) => PageQuantity(p)
  }

  function ExitOf(faults: SqlFaults, remote: Remote): Exit {
    if faults.openFails || faults.execFails || remote.firstPage.None? || AnnouncedQuantity(remote) == 0
    then EarlyReturn
    else ReachedEnd
  }

  /** `ParseAndSaveGift` against an oracle: the database is created, the first page
      gives the quantity, and items 1..quantity are fetched and inserted one by one,
      a failed fetch or INSERT being skipped. */
  method ParseAndSaveGift(key: string, db: GiftDatabase, faults: SqlFaults, remote: Remote)
    returns (exit: Exit, ghost visited: seq<int>)
    requires db.Valid()
    modifies db
    ensures db.Valid()
    ensures exit == ExitOf(faults, remote)
    ensures faults.openFails || faults.execFails ==> unchanged(db)
    ensures !(faults.openFails || faults.execFails) ==> db.fileExists && db.tableExists && db.indexExists
    ensures db.columns == if faults.openFails || faults.execFails || old(db.tableExists) then old(db.columns) else TableColumns
    ensures var quantity := AnnouncedQuantity(remote);
      && db.rows == old(db.rows) + (if exit == ReachedEnd && db.Insertable() then FetchedRows(key, 1, quantity, remote) else [])
      && visited == (if exit == ReachedEnd then Range(1, quantity) else [])
  {
    visited := [];
    var createErr := CreateDB(db, faults);
    if createErr {
      return EarlyReturn, visited;
    }
    if remote.firstPage.None? {
      return EarlyReturn, visited;
    }
    var quantity := PageQuantity(remote.firstPage.value);
    if quantity == 0 {
      return EarlyReturn, visited;
    }
    assert quantity == AnnouncedQuantity(remote);
    var inserted;
    inserted, visited := SaveItems(key, db, 1, quantity, remote);
    return ReachedEnd, visited;
  }

  /** The item loop: items lo..hi are fetched and inserted in turn, a failed fetch
      or INSERT being skipped; `inserted` counts the rows added. */
  method SaveItems(key: string, db: GiftDatabase, lo: int, hi: int, remote: Remote)
    returns (inserted: nat, ghost visited: seq<int>)
    requires db.Valid()
    modifies db`rows
    ensures db.Valid()
    ensures db.rows == old(db.rows) + (if db.Insertable() then FetchedRows(key, lo, hi, remote) else [])
    ensures inserted == |db.rows| - |old(db.rows)|
    ensures visited == Range(lo, hi)
  {
    inserted, visited := 0, [];
    ghost var ok := db.Insertable();
    var i := lo;
    while i <= hi
      invariant lo <= i <= if lo <= hi then hi + 1 else lo
      invariant db.Valid() && db.Insertable() == ok
      invariant db.rows == old(db.rows) + (if ok then FetchedRows(key, lo, i - 1, remote) else [])
      invariant inserted == |db.rows| - |old(db.rows)|
      invariant visited == Range(lo, i - 1)
    {
      FetchedRowsSnoc(key, lo, i - 1, remote);
      RangeSnoc(lo, i);
      visited := visited + [i];
      ghost var before := db.rows;
      var page := remote.item(i);
      if page.Some? {
        var err := InsertGift(db, key, page.value.model, page.value.backdrop, page.value.symbol,
                              i, i in remote.insertFails);
        if !err {
          inserted := inserted + 1;
        }
      }
      assert db.rows == before + (if ok then ItemRow(key, i, remote) else []);
      i := i + 1;
    }
  }
}
