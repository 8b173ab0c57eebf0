/** external/updater.go: the resumable updater. For each gift whose database file
    exists, the schema is brought up to date, the stored rows are counted, and the
    items after that count up to the announced quantity are fetched and inserted; a
    scheduler commits the databases once enough new items have accumulated. */
module Updater {
  import opened Wrappers
  import opened GiftParser
  import opened GiftStore
  import opened ParsOut

  /** New items after which the scheduler commits. */
  const UpdateThreshold: int := 10000

  /** The column list of `requiredCols`, in one of the orders a Go map range may take. */
  predicate IsColumnOrder(order: seq<string>) {
    multiset(order) == multiset(["name", "number", "model", "backdrop", "symbol"])
  }

  lemma ColumnOrderCoversRequired(order: seq<string>)
    requires IsColumnOrder(order)
    ensures forall c :: c in order <==> c in RequiredColumns
  {
    forall c ensures c in order <==> c in RequiredColumns {
      calc {
        c in order;
        c in multiset(order);
        c in multiset(["name", "number", "model", "backdrop", "symbol"]);
        c in RequiredColumns;
      }
    }
  }

  /** The columns an `ensureColumns` pass adds, and whether it ends without error. */
  datatype AlterResult = AlterResult(added: seq<string>, ok: bool)

  /** One pass over `order` with the snapshot `existing` of the table's columns:
      each missing column is ALTERed in; the first failing ALTER ends the pass. */
  function AlterPlan(order: seq<string>, existing: set<string>, failing: set<string>): AlterResult {
    if |order| == 0 then AlterResult([], true)
    else if order[0] in existing then AlterPlan(order[1..], existing, failing)
    else if order[0] in failing then AlterResult([], false)
    else
      var rest := AlterPlan(order[1..], existing, failing);
      AlterResult([order[0]] + rest.added, rest.ok)
  }

  /** Only missing columns are added, and a successful pass adds every missing one. */
  lemma {:induction false} AlterPlanAdds(order: seq<string>, existing: set<string>, failing: set<string>)
    ensures var r := AlterPlan(order, existing, failing);
      && (forall c :: c in r.added ==> c in order && c !in existing && c !in failing)
      && (r.ok ==> forall c :: c in order ==> c in existing || c in r.added)
  {
    if |order| > 0 {
      AlterPlanAdds(order[1..], existing, failing);
    }
  }

  /** A pass fails exactly when some missing column's ALTER fails. */
  lemma {:induction false} AlterPlanOk(order: seq<string>, existing: set<string>, failing: set<string>)
    ensures AlterPlan(order, existing, failing).ok <==> forall c :: c in order && c !in existing ==> c !in failing
  {
    if |order| > 0 {
      AlterPlanOk(order[1..], existing, failing);
      assert forall c :: c in order <==> c == order[0] || c in order[1..];
    }
  }

  /** With every column present a pass issues no ALTER. */
  lemma {:induction false} AlterPlanNothingMissing(order: seq<string>, existing: set<string>, failing: set<string>)
    requires forall c :: c in order ==> c in existing
    ensures AlterPlan(order, existing, failing) == AlterResult([], true)
  {
    if |order| > 0 {
      AlterPlanNothingMissing(order[1..], existing, failing);
    }
  }

  /** `ensureColumns` is idempotent: after a successful pass a second one adds nothing. */
  lemma AlterPlanTwice(order: seq<string>, existing: set<string>, failing: set<string>, failing2: set<string>)
    requires AlterPlan(order, existing, failing).ok
    ensures var added := AlterPlan(order, existing, failing).added;
      AlterPlan(order, existing + (set c | c in added), failing2) == AlterResult([], true)
  {
    AlterPlanAdds(order, existing, failing);
    var added := AlterPlan(order, existing, failing).added;
    AlterPlanNothingMissing(order, existing + (set c | c in added), failing2);
  }

  /** `ensureGiftsTable`: CREATE TABLE IF NOT EXISTS, without the index. */
  method EnsureGiftsTable(db: GiftDatabase, faults: SqlFaults) returns (err: bool)
    requires db.Valid()
    modifies db
    ensures db.Valid()
    ensures err <==> faults.execFails
    ensures err ==> unchanged(db)
    ensures !err ==> db.fileExists && db.tableExists
    ensures !err ==> db.columns == if old(db.tableExists) then old(db.columns) else TableColumns
    ensures db.rows == old(db.rows) && db.indexExists == old(db.indexExists)
  {
    if faults.execFails {
      return true;
    }
    if !db.tableExists {
      db.tableExists, db.columns := true, TableColumns;
    }
    db.fileExists := true;
    return false;
  }

  /** The ALTERs that fail: all of them when there is no table to alter. */
  function FailingAlters(tableExists: bool, faults: SqlFaults, order: seq<string>): set<string> {
    if tableExists then faults.failingAlters else set c | c in order
  }

  lemma ElementsSnoc(s: seq<string>, x: string)
    ensures (set c | c in s + [x]) == (set c | c in s) + {x}
  {
    assert forall c :: c in s + [x] <==> c in s || c == x;
  }

  /** `ensureColumns`: the PRAGMA snapshot, then an ALTER for each missing column in
      `order`, stopping at the first failure. `added` lists the columns added. */
  method EnsureColumns(db: GiftDatabase, faults: SqlFaults, order: seq<string>)
    returns (err: bool, added: seq<string>)
    requires db.Valid()
    modifies db`columns
    ensures db.Valid()
    ensures faults.pragmaFails ==> err && added == [] && unchanged(db)
    ensures !faults.pragmaFails ==>
      AlterResult(added, !err) == AlterPlan(order, old(db.columns), FailingAlters(db.tableExists, faults, order))
    ensures db.columns == old(db.columns) + (set c | c in added)
  {
    added := [];
    if faults.pragmaFails {
      return true, added;
    }
    var existing := db.columns;
    var failing := FailingAlters(db.tableExists, faults, order);
    var i := 0;
    while i < |order|
      invariant 0 <= i <= |order|
      invariant db.Valid() && db.tableExists == old(db.tableExists)
      invariant db.columns == existing + (set c | c in added)
      invariant AlterPlan(order, existing, failing)
        == AlterResult(added + AlterPlan(order[i..], existing, failing).added, AlterPlan(order[i..], existing, failing).ok)
    {
      var col := order[i];
      assert order[i..][1..] == order[i + 1..];
      if col !in existing {
        if col in failing {
          return true, added;
        }
        ElementsSnoc(added, col);
        db.columns := db.columns + {col};
        added := added + [col];
      }
      i := i + 1;
    }
    return false, added;
  }

  /** `getExistingCount`: reopen, ensure the table and columns again, and count rows. */
  method GetExistingCount(db: GiftDatabase, faults: SqlFaults, order: seq<string>)
    returns (count: int, err: bool)
    requires db.Valid()
    modifies db
    ensures db.Valid() && db.rows == old(db.rows)
    ensures err ==> count == 0
    ensures !err ==> count == |db.rows|
    ensures old(db.tableExists) ==> db.tableExists && old(db.columns) <= db.columns
    ensures err <==> (|| faults.openFails || faults.execFails || faults.pragmaFails || faults.countFails
                      || !AlterPlan(order, if old(db.tableExists) then old(db.columns) else TableColumns,
                                    faults.failingAlters).ok)
  {
    if faults.openFails {
      return 0, true;
    }
    var tableErr := EnsureGiftsTable(db, faults);
    if tableErr {
      return 0, true;
    }
    var columnsErr, added := EnsureColumns(db, faults, order);
    if columnsErr {
      return 0, true;
    }
    if faults.countFails {
      return 0, true;
    }
    return |db.rows|, false;
  }

  /** Why `updateGiftIfNeeded` gave up on a gift. */
  datatype UpdateError = OpenFailed | TableFailed | ColumnsFailed | CountFailed | FirstPageFailed

  /** Every database step of an existing file succeeds (the table, if missing, is
      created with all columns; otherwise the columns it lacks must all ALTER in). */
  predicate SqlPathSucceeds(faults: SqlFaults, order: seq<string>, hadTable: bool, columns: set<string>) {
    && !faults.openFails && !faults.execFails && !faults.pragmaFails && !faults.countFails
    && AlterPlan(order, if hadTable then columns else TableColumns, faults.failingAlters).ok
  }

  /** The rows a resumed run adds: items existing+1 .. quantity. */
  function ResumeRows(key: string, existing: int, remote: Remote): seq<Row> {
    FetchedRows(key, existing + 1, AnnouncedQuantity(remote), remote)
  }

  /** Lines 115-131 of `updateGiftIfNeeded`: open the file, ensure the table and its
      columns, and count the stored rows (through `getExistingCount`). */
  method PrepareSchema(db: GiftDatabase, faults: SqlFaults, order: seq<string>)
    returns (existing: int, err: Option<UpdateError>)
    requires db.Valid() && db.fileExists && IsColumnOrder(order)
    modifies db
    ensures db.Valid() && db.fileExists && db.rows == old(db.rows)
    ensures err.None? <==> SqlPathSucceeds(faults, order, old(db.tableExists), old(db.columns))
    ensures err.None? ==> existing == |db.rows| && db.Insertable()
  {
    existing := 0;
    if faults.openFails {
      return existing, Some(OpenFailed);
    }
    var tableErr := EnsureGiftsTable(db, faults);
    if tableErr {
      return existing, Some(TableFailed);
    }
    ghost var snapshot := db.columns;
    var columnsErr, added := EnsureColumns(db, faults, order);
    if columnsErr {
      return existing, Some(ColumnsFailed);
    }
    ColumnOrderCoversRequired(order);
    AlterPlanAdds(order, snapshot, faults.failingAlters);
    AlterPlanTwice(order, snapshot, faults.failingAlters, faults.failingAlters);
    assert db.Insertable();
    var countErr;
    existing, countErr := GetExistingCount(db, faults, order);
    if countErr {
      return existing, Some(CountFailed);
    }
    return existing, None;
  }

  /** The missing-file branch: parse the gift from item 1 and report no new items
      and no error. */
  method ParseFromStart(key: string, db: GiftDatabase, faults: SqlFaults, remote: Remote)
    returns (count: int, err: Option<UpdateError>)
    requires db.Valid() && !db.fileExists
    modifies db
    ensures db.Valid()
    ensures count == 0 && err.None?
    ensures db.rows == if ExitOf(faults, remote) == ReachedEnd then FetchedRows(key, 1, AnnouncedQuantity(remote), remote) else []
  {
    var exit, visited := ParseAndSaveGift(key, db, faults, remote);
    return 0, None;
  }

  /** `updateGiftIfNeeded`: `visited` lists the item numbers fetched in the loop. */
  method UpdateGiftIfNeeded(key: string, db: GiftDatabase, faults: SqlFaults, order: seq<string>, remote: Remote)
    returns (count: int, err: Option<UpdateError>, ghost visited: seq<int>)
    requires db.Valid() && IsColumnOrder(order)
    modifies db
    ensures db.Valid()
    ensures err.Some? ==> count == 0
    ensures !old(db.fileExists) ==> (
      && count == 0 && err.None?
      && db.rows == (if ExitOf(faults, remote) == ReachedEnd then FetchedRows(key, 1, AnnouncedQuantity(remote), remote) else []))
    ensures old(db.fileExists) ==>
      (err.None? <==> SqlPathSucceeds(faults, order, old(db.tableExists), old(db.columns)) && remote.firstPage.Some?)
    ensures old(db.fileExists) ==>
      db.rows == old(db.rows) + (if err.None? then ResumeRows(key, |old(db.rows)|, remote) else [])
    ensures old(db.fileExists) && err.None? ==> count == |ResumeRows(key, |old(db.rows)|, remote)|
    ensures old(db.fileExists) ==>
      visited == if err.None? then Range(|old(db.rows)| + 1, AnnouncedQuantity(remote)) else []
  {
    visited := [];
    if !db.fileExists {
      count, err := ParseFromStart(key, db, faults, remote);
      return;
    }
    var existing;
    existing, err := PrepareSchema(db, faults, order);
    if err.Some? {
      return 0, err, visited;
    }
    if remote.firstPage.None? {
      return 0, Some(FirstPageFailed), visited;
    }
    var quantity := PageQuantity(remote.firstPage.value);
    assert quantity == AnnouncedQuantity(remote);
    if quantity == 0 {
      return 0, None, visited;
    }
    if existing >= quantity {
      return 0, None, visited;
    }
    var inserted;
    inserted, visited := SaveItems(key, db, existing + 1, quantity, remote);
    return inserted, None, visited;
  }

  /** The count a resumed run reports is between 0 and quantity - existing. */
  lemma ResumeCountBounds(key: string, existing: int, remote: Remote)
    requires existing >= 0
    ensures var q := AnnouncedQuantity(remote);
      0 <= |ResumeRows(key, existing, remote)| <= if q > existing then q - existing else 0
  {
    FetchedRowsShape(key, existing + 1, AnnouncedQuantity(remote), remote);
  }

  /** Against an unchanged remote whose items all arrive, a second run finds the
      count at the quantity and adds nothing. */
  lemma SecondRunAddsNothing(key: string, remote: Remote)
    requires AnnouncedQuantity(remote) >= 0
    requires forall i :: 1 <= i <= AnnouncedQuantity(remote) ==> remote.item(i).Some? && i !in remote.insertFails
    ensures var stored := FetchedRows(key, 1, AnnouncedQuantity(remote), remote);
      |stored| == AnnouncedQuantity(remote) && ResumeRows(key, |stored|, remote) == []
  {
    FetchedRowsComplete(key, 1, AnnouncedQuantity(remote), remote);
  }

  /** A gap in the first run (an item whose page never arrived or whose INSERT
      failed) leaves fewer rows than items. */
  lemma {:induction false} FetchedRowsGapShorter(key: string, lo: int, hi: int, j: int, remote: Remote)
    requires lo <= j <= hi && (remote.item(j).None? || j in remote.insertFails)
    ensures |FetchedRows(key, lo, hi, remote)| < hi - lo + 1
    decreases hi - lo
  {
    FetchedRowsShape(key, lo + 1, hi, remote);
    if lo < j {
      FetchedRowsGapShorter(key, lo + 1, hi, j, remote);
    }
  }

  /** Without gaps, resuming after items 1..m completes exactly the rows one run over
      1..quantity would have stored. */
  lemma ResumeCompletes(key: string, m: int, remote: Remote)
    requires 0 <= m <= AnnouncedQuantity(remote)
    ensures FetchedRows(key, 1, m, remote) + ResumeRows(key, m, remote)
      == FetchedRows(key, 1, AnnouncedQuantity(remote), remote)
  {
    FetchedRowsSplit(key, 1, m + 1, AnnouncedQuantity(remote), remote);
  }

  /** The resume point is the row COUNT, not the highest stored number: after a gap
      below item m, an update whose run fetches item m again stores it a second time. */
  lemma ResumeAfterGapDuplicates(key: string, m: int, j: int, first: Remote, second: Remote)
    requires 1 <= j < m
    requires first.item(j).None? || j in first.insertFails
    requires first.item(m).Some? && m !in first.insertFails
    requires m <= AnnouncedQuantity(second) && second.item(m).Some? && m !in second.insertFails
    ensures var stored := FetchedRows(key, 1, m, first);
      && |stored| < m
      && (exists r :: r in stored && r.number == m)
      && (exists r :: r in ResumeRows(key, |stored|, second) && r.number == m)
  {
    var stored := FetchedRows(key, 1, m, first);
    var q := AnnouncedQuantity(second);
    GapThenRefetch(key, m, j, first, second, q);
    assert ResumeRows(key, |stored|, second) == FetchedRows(key, |stored| + 1, q, second);
  }

  /** `ResumeAfterGapDuplicates` for a resumed run that ends at `q`. */
  lemma GapThenRefetch(key: string, m: int, j: int, first: Remote, second: Remote, q: int)
    requires 1 <= j < m <= q
    requires first.item(j).None? || j in first.insertFails
    requires first.item(m).Some? && m !in first.insertFails
    requires second.item(m).Some? && m !in second.insertFails
    ensures var stored := FetchedRows(key, 1, m, first);
      && |stored| < m
      && (exists r :: r in stored && r.number == m)
      && (exists r :: r in FetchedRows(key, |stored| + 1, q, second) && r.number == m)
  {
    var stored := FetchedRows(key, 1, m, first);
    FetchedRowsGapShorter(key, 1, m, j, first);
    HoldsNumber(key, 1, m, m, first);
    HoldsNumber(key, |stored| + 1, q, m, second);
  }

  /** Some row of a run carries each item that arrived and was inserted. */
  lemma HoldsNumber(key: string, lo: int, hi: int, i: int, remote: Remote)
    requires lo <= i <= hi && remote.item(i).Some? && i !in remote.insertFails
    ensures exists r :: r in FetchedRows(key, lo, hi, remote) && r.number == i
  {
    FetchedRowsHoldItem(key, lo, hi, i, remote);
    var p := remote.item(i).value;
    var r := Row(key, i, p.model, p.backdrop, p.symbol);
    assert r in FetchedRows(key, lo, hi, remote) && r.number == i;
  }

  /** What `updateGiftIfNeeded` reported for one key. */
  datatype KeyResult = KeyResult(count: int, err: Option<UpdateError>)

  /** The new items `RunUpdater` adds up: the counts of the keys without error. */
  function Gathered(results: seq<KeyResult>): int {
    if |results| == 0 then 0
    else
      var last := results[|results| - 1];
      Gathered(results[..|results| - 1]) + (if last.err.None? then last.count else 0)
  }

  lemma {:induction false} GatheredAppend(a: seq<KeyResult>, b: seq<KeyResult>)
    ensures Gathered(a + b) == Gathered(a) + Gathered(b)
    decreases |b|
  {
    if |b| == 0 {
      assert a + b == a;
    } else {
      GatheredAppend(a, b[..|b| - 1]);
      assert (a + b)[..|a + b| - 1] == a + b[..|b| - 1];
    }
  }

  lemma GatheredSingle(r: KeyResult)
    ensures Gathered([r]) == if r.err.None? then r.count else 0
  {
    assert [r][..0] == [];
  }

  /** The workers finish in any order: the total does not depend on it. */
  lemma {:induction false} GatheredPermutation(a: seq<KeyResult>, b: seq<KeyResult>)
    requires multiset(a) == multiset(b)
    ensures Gathered(a) == Gathered(b)
    decreases |a|
  {
    if |a| == 0 {
      assert |b| == |multiset(b)| == 0;
    } else {
      var x := a[0];
      assert x in multiset(b);
      var i :| 0 <= i < |b| && b[i] == x;
      var rest := b[..i] + b[i + 1..];
      assert b == b[..i] + [x] + b[i + 1..];
      assert a == [x] + a[1..];
      assert multiset(b) == multiset(b[..i]) + multiset([x]) + multiset(b[i + 1..]);
      assert multiset(rest) == multiset(b[..i]) + multiset(b[i + 1..]);
      assert multiset(a) == multiset([x]) + multiset(a[1..]);
      assert multiset(a[1..]) == multiset(a) - multiset{x};
      assert multiset(rest) == multiset(b) - multiset{x};
      GatheredPermutation(a[1..], rest);
      GatheredAppend([x], a[1..]);
      GatheredAppend(b[..i] + [x], b[i + 1..]);
      GatheredAppend(b[..i], [x]);
      GatheredAppend(b[..i], b[i + 1..]);
    }
  }

  /** Counts are never negative, so neither is the total. */
  lemma {:induction false} GatheredNonNegative(results: seq<KeyResult>)
    requires forall k :: 0 <= k < |results| ==> results[k].count >= 0
    ensures Gathered(results) >= 0
  {
    if |results| > 0 {
      GatheredNonNegative(results[..|results| - 1]);
    }
  }

  /** `RunUpdater`: load the keys, run every key, add up the counts of the keys
      without error; per-key errors are printed and do not fail the run. */
  method RunUpdater(loaded: bool, results: seq<KeyResult>) returns (total: int, err: bool)
    ensures err <==> !loaded
    ensures total == if loaded then Gathered(results) else 0
  {
    if !loaded {
      return 0, true;
    }
    total := 0;
    var i := 0;
    while i < |results|
      invariant 0 <= i <= |results|
      invariant total == Gathered(results[..i])
    {
      assert results[..i + 1][..i] == results[..i];
      if results[i].err.None? {
        total := total + results[i].count;
      }
      i := i + 1;
    }
    assert results[..i] == results;
    return total, false;
  }

  /** One pass of the scheduler's loop: the updater's total (None on error) and
      whether `gitCommitAll` (add, commit, push) succeeds if it is called. */
  datatype Round = Round(newItems: Option<int>, commitSucceeds: bool)

  /** The items counted since the last commit, and the amounts of the commits made. */
  datatype Ledger = Ledger(pending: int, commits: seq<int>)

  /** One round: an updater error changes nothing; otherwise the new items join the
      pending total, which is committed whole, and reset to 0, once it reaches the
      threshold and the commit succeeds, and is kept whole otherwise. */
  function Step(ledger: Ledger, round: Round): (next: Ledger)
    ensures round.newItems.None? ==> next == ledger
    ensures round.newItems.Some? ==>
      var total := ledger.pending + round.newItems.value;
      if total >= UpdateThreshold && round.commitSucceeds then next == Ledger(0, ledger.commits + [total])
      else next == Ledger(total, ledger.commits)
    ensures next.pending >= UpdateThreshold && ledger.pending < UpdateThreshold ==>
      round.newItems.Some? && !round.commitSucceeds
    ensures || next.commits == ledger.commits
            || (&& |next.commits| == |ledger.commits| + 1
                && next.commits[..|ledger.commits|] == ledger.commits
                && next.commits[|ledger.commits|] >= UpdateThreshold)
  {
    match round.newItems
    case None => ledger
    case Some(n) =>
      var total := ledger.pending + n;
      if total >= UpdateThreshold && round.commitSucceeds then Ledger(0, ledger.commits + [total])
      else Ledger(total, ledger.commits)
  }

  /** The ledger after a sequence of rounds. */
  function Replay(ledger: Ledger, rounds: seq<Round>): Ledger {
    if |rounds| == 0 then ledger
    else Step(Replay(ledger, rounds[..|rounds| - 1]), rounds[|rounds| - 1])
  }

  function Sum(xs: seq<int>): int {
    if |xs| == 0 then 0 else Sum(xs[..|xs| - 1]) + xs[|xs| - 1]
  }

  /** The new items of the rounds whose updater run succeeded. */
  function Reported(rounds: seq<Round>): int {
    if |rounds| == 0 then 0
    else Reported(rounds[..|rounds| - 1]) + rounds[|rounds| - 1].newItems.GetOr(0)
  }

  lemma SumSnoc(xs: seq<int>, x: int)
    ensures Sum(xs + [x]) == Sum(xs) + x
  {
    assert (xs + [x])[..|xs|] == xs;
  }

  /** Nothing is lost or counted twice: what was committed plus what is pending is
      what the updater reported. */
  lemma {:induction false} ReplayConserves(ledger: Ledger, rounds: seq<Round>)
    ensures var after := Replay(ledger, rounds);
      Sum(after.commits) + after.pending == Sum(ledger.commits) + ledger.pending + Reported(rounds)
  {
    if |rounds| > 0 {
      var before := Replay(ledger, rounds[..|rounds| - 1]);
      ReplayConserves(ledger, rounds[..|rounds| - 1]);
      SumSnoc(before.commits, before.pending + rounds[|rounds| - 1].newItems.GetOr(0));
    }
  }

  /** Every commit carries at least the threshold. */
  predicate AllReachThreshold(commits: seq<int>) {
    forall k :: 0 <= k < |commits| ==> commits[k] >= UpdateThreshold
  }

  lemma {:induction false} ReplayCommitsReachThreshold(ledger: Ledger, rounds: seq<Round>)
    requires AllReachThreshold(ledger.commits)
    ensures AllReachThreshold(Replay(ledger, rounds).commits)
  {
    if |rounds| > 0 {
      var before := Replay(ledger, rounds[..|rounds| - 1]);
      ReplayCommitsReachThreshold(ledger, rounds[..|rounds| - 1]);
      assert AllReachThreshold(before.commits);
      var after := Step(before, rounds[|rounds| - 1]);
      assert Replay(ledger, rounds) == after;
      if after.commits != before.commits {
        forall k | 0 <= k < |after.commits| ensures after.commits[k] >= UpdateThreshold {
          assert |after.commits| == |before.commits| + 1;
          if k < |before.commits| {
            assert after.commits[k] == after.commits[..|before.commits|][k];
            assert before.commits[k] >= UpdateThreshold;
          } else {
            assert k == |before.commits|;
          }
        }
      }
    }
  }

  /** While commits succeed and counts are non-negative, the pending total stays in
      [0, threshold). */
  lemma {:induction false} ReplayPendingBelowThreshold(ledger: Ledger, rounds: seq<Round>)
    requires 0 <= ledger.pending < UpdateThreshold
    requires forall k :: 0 <= k < |rounds| ==> rounds[k].commitSucceeds && rounds[k].newItems.GetOr(0) >= 0
    ensures 0 <= Replay(ledger, rounds).pending < UpdateThreshold
  {
    if |rounds| > 0 {
      ReplayPendingBelowThreshold(ledger, rounds[..|rounds| - 1]);
    }
  }

  /** The index of the first round after the last one that committed (0 when none
      did). */
  function LastCommitCut(ledger: Ledger, rounds: seq<Round>): (cut: nat)
    ensures cut <= |rounds|
  {
    if |rounds| == 0 then 0
    else if |Replay(ledger, rounds).commits| > |Replay(ledger, rounds[..|rounds| - 1]).commits| then |rounds|
    else LastCommitCut(ledger, rounds[..|rounds| - 1])
  }

  lemma ReportedSuffixSnoc(rounds: seq<Round>, cut: nat)
    requires cut < |rounds|
    ensures Reported(rounds[cut..]) == Reported(rounds[..|rounds| - 1][cut..]) + rounds[|rounds| - 1].newItems.GetOr(0)
  {
    var s := rounds[cut..];
    assert s[..|s| - 1] == rounds[..|rounds| - 1][cut..];
  }

  /** The pending total is exactly what was reported since the last commit (on top of
      the starting total when nothing was committed yet), whether the commits in
      between failed or not; and no commit was made after that point. */
  lemma {:induction false} ReplayPendingSinceLastCommit(ledger: Ledger, rounds: seq<Round>)
    ensures var cut := LastCommitCut(ledger, rounds);
      var after := Replay(ledger, rounds);
      && after.pending == (if cut == 0 then ledger.pending else 0) + Reported(rounds[cut..])
      && Replay(ledger, rounds[..cut]).commits == after.commits
  {
    if |rounds| > 0 {
      var init := rounds[..|rounds| - 1];
      var last := rounds[|rounds| - 1];
      var before := Replay(ledger, init);
      var after := Replay(ledger, rounds);
      assert after == Step(before, last);
      assert rounds[..|rounds|] == rounds;
      if |after.commits| > |before.commits| {
        assert LastCommitCut(ledger, rounds) == |rounds|;
      } else {
        var cut := LastCommitCut(ledger, init);
        assert LastCommitCut(ledger, rounds) == cut;
        ReplayPendingSinceLastCommit(ledger, init);
        ReportedSuffixSnoc(rounds, cut);
        assert init[..cut] == rounds[..cut];
      }
    }
  }

  /** Each commit carries exactly the items reported since the previous commit (on top
      of the starting total for the first one). */
  lemma ReplayCommitIsSinceLastCommit(ledger: Ledger, rounds: seq<Round>)
    requires |rounds| > 0
    requires |Replay(ledger, rounds).commits| > |Replay(ledger, rounds[..|rounds| - 1]).commits|
    ensures var init := rounds[..|rounds| - 1];
      var cut := LastCommitCut(ledger, init);
      var commits := Replay(ledger, rounds).commits;
      commits[|commits| - 1] == (if cut == 0 then ledger.pending else 0) + Reported(rounds[cut..])
  {
    var init := rounds[..|rounds| - 1];
    var last := rounds[|rounds| - 1];
    assert Replay(ledger, rounds) == Step(Replay(ledger, init), last);
    CommitAfter(ledger, init, last);
    ReportedSuffixSnoc(rounds, LastCommitCut(ledger, init));
  }

  lemma CommitAfter(ledger: Ledger, init: seq<Round>, last: Round)
    requires |Step(Replay(ledger, init), last).commits| > |Replay(ledger, init).commits|
    ensures var cut := LastCommitCut(ledger, init);
      var commits := Step(Replay(ledger, init), last).commits;
      commits[|commits| - 1] == (if cut == 0 then ledger.pending else 0) + Reported(init[cut..]) + last.newItems.GetOr(0)
  {
    ReplayPendingSinceLastCommit(ledger, init);
  }

  /** Runs of 4000, 3000 and 4000 new items give one commit, of 11000, on the third. */
  lemma ThresholdScenario()
    ensures Replay(Ledger(0, []), [Round(Some(4000), true), Round(Some(3000), true), Round(Some(4000), true)])
      == Ledger(0, [11000])
  {
    var rounds := [Round(Some(4000), true), Round(Some(3000), true), Round(Some(4000), true)];
    var start := Ledger(0, []);
    assert rounds[..1][..0] == [];
    assert Replay(start, rounds[..1]) == Ledger(4000, []);
    assert rounds[..2][..1] == rounds[..1];
    assert Replay(start, rounds[..2]) == Ledger(7000, []);
    assert rounds[..2] == rounds[..|rounds| - 1];
  }

  /** A failed commit keeps the pending total, so the next successful commit covers it. */
  lemma FailedCommitCarriesOver(pending: int, n1: nat, n2: nat)
    requires 0 <= pending && pending + n1 >= UpdateThreshold
    ensures Replay(Ledger(pending, []), [Round(Some(n1), false), Round(Some(n2), true)])
      == Ledger(0, [pending + n1 + n2])
  {
    var rounds := [Round(Some(n1), false), Round(Some(n2), true)];
    var start := Ledger(pending, []);
    assert rounds[..1][..0] == [];
    assert Replay(start, rounds[..1]) == Ledger(pending + n1, []);
    assert rounds[..1] == rounds[..|rounds| - 1];
  }

  /** `ScheduleUpdater`'s state across iterations of its endless loop. */
  class Scheduler {
    var sinceLastCommit: int
    var commits: seq<int>

    constructor()
      ensures sinceLastCommit == 0 && commits == []
    {
      sinceLastCommit, commits := 0, [];
    }

    function Current(): Ledger
      reads this
    {
      Ledger(sinceLastCommit, commits)
    }

    /** One iteration: run the updater, add its total, commit past the threshold. */
    method Iterate(round: Round)
      modifies this
      ensures Current() == Step(old(Current()), round)
    {
      if round.newItems.Some? {
        sinceLastCommit := sinceLastCommit + round.newItems.value;
        if sinceLastCommit >= UpdateThreshold {
          if round.commitSucceeds {
            commits := commits + [sinceLastCommit];
            sinceLastCommit := 0;
          }
        }
      }
    }

    /** The first |rounds| iterations of the loop (the six-hour sleeps left out). */
    method RunRounds(rounds: seq<Round>)
      modifies this
      ensures Current() == Replay(old(Current()), rounds)
    {
      var i := 0;
      while i < |rounds|
        invariant 0 <= i <= |rounds|
        invariant Current() == Replay(old(Current()), rounds[..i])
      {
        assert rounds[..i + 1][..i] == rounds[..i];
        Iterate(rounds[i]);
        i := i + 1;
      }
      assert rounds[..i] == rounds;
    }
  }
}
