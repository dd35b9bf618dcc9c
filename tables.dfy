/**
 * The two import endpoints: POST /admin/insertcourses fills `courses`,
 * POST /admin fills `teachers`, by the same loop.
 */
module Tables {
  import opened Wrappers
  import opened Sheets

  /** A database table the import appends to; `columns` is its INSERT column list. */
  class Table {
    const columns: seq<string>
    var rows: seq<Tuple>

    constructor (columns: seq<string>, rows: seq<Tuple>)
      ensures this.columns == columns && this.rows == rows
    {
      this.columns := columns;
      this.rows := rows;
    }

    /** One awaited `INSERT ... VALUES (?, ...)`; `fail` says whether the database throws. */
    method Insert(values: Tuple, fail: bool) returns (ok: bool)
      modifies this
      ensures ok == !fail
      ensures rows == if ok then old(rows) + [values] else old(rows)
    {
      ok := !fail;
      if ok {
        rows := rows + [values];
      }
    }

    /**
     * The handler body shared by both endpoints: check the upload, take the
     * column order from the first row, then insert every row in order,
     * stopping at the first insert that throws.
     */
    method Import(file: Option<Parse>, fails: seq<bool>) returns (o: ImportOutcome)
      modifies this
      ensures o == RunImport(file, fails).outcome
      ensures rows == old(rows) + RunImport(file, fails).committed
    {
      var guard := UploadCheck(file);
      if guard.Some? {
        return guard.value;
      }
      match file.value
      case ParseFailed =>
        return ParseError;
      case Parsed(result) =>
        if result == [] {
          return EmptySheet;
        }
        var headers := Keys(result[0]);
        ghost var tuples := TuplesBy(headers, result);
        var i := 0;
        while i < |result|
          invariant 0 <= i <= |result|
          invariant forall j :: 0 <= j < i ==> !InsertFails(fails, j)
          invariant rows == old(rows) + tuples[..i]
        {
          var values := TupleOf(headers, result[i]);
          var ok := Insert(values, InsertFails(fails, i));
          if !ok {
            FirstFailureIsUnique(fails, |result|, i);
            return InsertFailed(i);
          }
          assert tuples[..i + 1] == tuples[..i] + [values];
          i := i + 1;
        }
        FirstFailureIsUnique(fails, |result|, |result|);
        assert tuples[..i] == tuples;
        o := Imported;
    }
  }
}
