/** The per-gift SQLite file `data/database/<slug>.db` and its `gifts` table, as the
    parser and the updater see it: whether the file and the table exist, the table's
    column names, the `idx_name_number` index, and the rows in insertion order. */
module GiftStore {

  /** One `gifts` row (the AUTOINCREMENT `id` is the row's position). */
  datatype Row = Row(name: string, number: int, model: string, backdrop: string, symbol: string)

  /** Outcomes of the SQLite calls that can fail for one connection: `sql.Open`,
      an `Exec` of CREATE statements, the `PRAGMA table_info` query, the ALTERs of the
      columns in `failingAlters`, and the `SELECT COUNT(*)`. */
  datatype SqlFaults = SqlFaults(
    openFails: bool, execFails: bool, pragmaFails: bool,
    failingAlters: set<string>, countFails: bool)

  /** Columns declared by both CREATE TABLE statements. */
  const TableColumns: set<string> := {"id", "name", "number", "model", "backdrop", "symbol"}

  /** Columns the updater requires, and the ones an INSERT writes. */
  const RequiredColumns: set<string> := {"name", "number", "model", "backdrop", "symbol"}

  function Numbers(rows: seq<Row>): (ns: seq<int>)
    ensures |ns| == |rows|
    ensures forall k :: 0 <= k < |rows| ==> ns[k] == rows[k].number
  {
    seq(|rows|, k requires 0 <= k < |rows| => rows[k].number)
  }

  /** The integers lo, lo+1, ..., hi (empty when hi < lo). */
  function Range(lo: int, hi: int): (r: seq<int>)
    ensures |r| == if lo <= hi then hi - lo + 1 else 0
    ensures forall k :: 0 <= k < |r| ==> r[k] == lo + k
    decreases if lo <= hi then hi - lo + 1 else 0
  {
    if lo > hi then [] else [lo] + Range(lo + 1, hi)
  }

  /** Counting up to `hi` is counting up to `hi - 1`, then `hi`. */
  lemma RangeSnoc(lo: int, hi: int)
    requires lo <= hi
    ensures Range(lo, hi) == Range(lo, hi - 1) + [hi]
  {
    var a, b := Range(lo, hi), Range(lo, hi - 1) + [hi];
    assert forall k :: 0 <= k < |a| ==> a[k] == b[k];
  }

  class GiftDatabase {
    var fileExists: bool
    var tableExists: bool
    var columns: set<string>
    var indexExists: bool
    var rows: seq<Row>

    /** A table lives in a file; rows, columns and the index live in a table. */
    ghost predicate Valid()
      reads this
    {
      && (!fileExists ==> !tableExists)
      && (!tableExists ==> rows == [] && columns == {} && !indexExists)
    }

    /** A table that accepts INSERTs of the five gift columns. */
    predicate Insertable()
      reads this
    {
      tableExists && RequiredColumns <= columns
    }

    /** A path with no file yet. */
    constructor Missing()
      ensures Valid() && !fileExists && rows == []
    {
      fileExists, tableExists, columns, indexExists, rows := false, false, {}, false, [];
    }

    /** An existing file whose `gifts` table has the given columns and rows. */
    constructor Existing(columns: set<string>, rows: seq<Row>, indexed: bool)
      ensures Valid() && fileExists && tableExists
      ensures this.columns == columns && this.rows == rows && indexExists == indexed
    {
      this.fileExists, this.tableExists := true, true;
      this.columns, this.rows, this.indexExists := columns, rows, indexed;
    }
  }
}
