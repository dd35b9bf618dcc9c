/**
 * The pure part of spreadsheet ingestion: the parsed rows, the column order
 * taken from the first row, the positional insert tuples, and the outcome of
 * one import request.
 */
module Sheets {
  import opened Wrappers

  /** A parsed row: (header, cell) pairs in the row object's key order. */
  type Row = seq<(string, string)>

  /** The positional values of one INSERT; None is JavaScript `undefined`. */
  type Tuple = seq<Option<string>>

  /** `Object.keys(row)`. */
  function Keys(row: Row): (ks: seq<string>)
    ensures |ks| == |row|
    ensures forall i :: 0 <= i < |row| ==> ks[i] == row[i].0
  {
    if row == [] then [] else [row[0].0] + Keys(row[1..])
  }

  /** A JavaScript object never holds a key twice. */
  ghost predicate DistinctKeys(row: Row) {
    forall i, j :: 0 <= i < j < |row| ==> row[i].0 != row[j].0
  }

  /** `row[header]`: the cell stored under `header`, or `undefined`. */
  function Field(row: Row, header: string): (v: Option<string>)
    ensures v.None? <==> forall i :: 0 <= i < |row| ==> row[i].0 != header
    ensures v.Some? ==> exists i :: 0 <= i < |row| && row[i] == (header, v.value)
  {
    if row == [] then None
    else if row[0].0 == header then Some(row[0].1)
    else
      var v := Field(row[1..], header);
      assert v.Some? ==> exists i :: 0 <= i < |row| && row[i] == (header, v.value) by {
        if v.Some? {
          var i :| 0 <= i < |row[1..]| && row[1..][i] == (header, v.value);
          assert row[i + 1] == (header, v.value);
        }
      }
      v
  }

  /** In an object without repeated keys, the cell under the i-th key is the i-th cell. */
  lemma {:induction false} FieldAtKey(row: Row, i: nat)
    requires DistinctKeys(row)
    requires i < |row|
    ensures Field(row, row[i].0) == Some(row[i].1)
  {
    var v := Field(row, row[i].0);
    var k :| 0 <= k < |row| && row[k] == (row[i].0, v.value);
  }

  /** `headers.map(h => row[h])`. */
  function TupleOf(headers: seq<string>, row: Row): (t: Tuple)
    ensures |t| == |headers|
    ensures forall i :: 0 <= i < |headers| ==> t[i] == Field(row, headers[i])
  {
    if headers == [] then [] else [Field(row, headers[0])] + TupleOf(headers[1..], row)
  }

  /** The cells of a row, in key order. */
  function Values(row: Row): (vs: Tuple)
    ensures |vs| == |row|
    ensures forall i :: 0 <= i < |row| ==> vs[i] == Some(row[i].1)
  {
    if row == [] then [] else [Some(row[0].1)] + Values(row[1..])
  }

  /** A row whose keys come in the header order yields exactly its own cells, in order. */
  lemma AlignedRowKeepsCells(headers: seq<string>, row: Row)
    requires DistinctKeys(row)
    requires Keys(row) == headers
    ensures TupleOf(headers, row) == Values(row)
  {
    forall i | 0 <= i < |row|
      ensures TupleOf(headers, row)[i] == Values(row)[i]
    {
      FieldAtKey(row, i);
    }
  }

  /** A header the row lacks becomes `undefined` in its tuple. */
  lemma MissingHeaderIsUndefined(headers: seq<string>, row: Row, i: nat)
    requires i < |headers|
    requires headers[i] !in Keys(row)
    ensures TupleOf(headers, row)[i] == None
  {
    forall j | 0 <= j < |row| ensures row[j].0 != headers[i] {
      assert Keys(row)[j] == row[j].0;
    }
  }

  /** One tuple per row, every row (the first included) read in the given header order. */
  function TuplesBy(headers: seq<string>, rows: seq<Row>): (ts: seq<Tuple>)
    ensures |ts| == |rows|
    ensures forall k :: 0 <= k < |rows| ==> ts[k] == TupleOf(headers, rows[k])
  {
    if rows == [] then [] else [TupleOf(headers, rows[0])] + TuplesBy(headers, rows[1..])
  }

  /** The column order of an import: the keys of the first parsed row. */
  function Headers(rows: seq<Row>): seq<string>
    requires rows != []
  {
    Keys(rows[0])
  }

  /** The insert tuple of the first row is that row's cells, in order. */
  lemma FirstTupleIsFirstRow(rows: seq<Row>)
    requires rows != []
    requires DistinctKeys(rows[0])
    ensures TuplesBy(Headers(rows), rows)[0] == Values(rows[0])
    ensures |TuplesBy(Headers(rows), rows)[0]| == |rows[0]|
  {
    AlignedRowKeepsCells(Headers(rows), rows[0]);
  }

  /** Whether the insert of row `k` throws; rows past the end of `fails` succeed. */
  predicate InsertFails(fails: seq<bool>, k: nat) {
    k < |fails| && fails[k]
  }

  /** The index of the first of `n` inserts that throws, or `n` when none does. */
  function FirstFailure(fails: seq<bool>, n: nat): (k: nat)
    ensures k <= n
    ensures k < n ==> InsertFails(fails, k)
    ensures forall j :: 0 <= j < k ==> !InsertFails(fails, j)
  {
    if n == 0 then 0
    else
      var k := FirstFailure(fails, n - 1);
      if k < n - 1 then k
      else if InsertFails(fails, n - 1) then n - 1
      else n
  }

  /** The first failing insert is determined by the failures: it is the one that fails with none failing before it. */
  lemma FirstFailureIsUnique(fails: seq<bool>, n: nat, i: nat)
    requires i <= n
    requires i < n ==> InsertFails(fails, i)
    requires forall j :: 0 <= j < i ==> !InsertFails(fails, j)
    ensures FirstFailure(fails, n) == i
  {
  }

  /** The parse callback's `(error, result)`. */
  datatype Parse = ParseFailed | Parsed(rows: seq<Row>)

  /** The responses of an import request. */
  datatype ImportOutcome =
    | NoFile              // 400 "No file uploaded"
    | ImportFault         // 500 "An error occurred while importing data"
    | ParseError          // 500 "An error occurred while parsing the Excel file"
    | EmptySheet          // `Object.keys(result[0])` throws in the callback: no response
    | InsertFailed(row: nat)  // an awaited insert throws in the callback: no response
    | Imported            // 200 "Data imported successfully"

  /** The `!req.file` guard as the handlers order it: `req.file.path` is read first and throws. */
  function UploadCheckAsWritten(file: Option<Parse>): (r: Option<ImportOutcome>)
    ensures r.Some? <==> file.None?
    ensures r != Some(NoFile)
  {
    if file.None? then Some(ImportFault) else None
  }

  /** The guard as intended: a missing file answers 400 before the path is read. */
  function UploadCheck(file: Option<Parse>): (r: Option<ImportOutcome>)
    ensures r == Some(NoFile) <==> file.None?
    ensures r.None? <==> file.Some?
  {
    if file.None? then Some(NoFile) else None
  }

  /** The guard as written never reaches the 400 answer: a request without a file gets 500. */
  lemma MissingFileAnswers500()
    ensures UploadCheckAsWritten(None) == Some(ImportFault)
    ensures UploadCheck(None) == Some(NoFile)
  {
  }

  /** What an import request answers and which tuples it commits, in insert order. */
  datatype Report = Report(outcome: ImportOutcome, committed: seq<Tuple>)

  /**
   * One import request. Rows are inserted one at a time in parse order; the
   * first failing insert stops the loop, leaving the earlier rows committed.
   */
  function RunImport(file: Option<Parse>, fails: seq<bool>): (r: Report)
    ensures file.None? ==> r == Report(NoFile, [])
    ensures file == Some(ParseFailed) ==> r == Report(ParseError, [])
    ensures file == Some(Parsed([])) ==> r == Report(EmptySheet, [])
    ensures file.Some? && file.value.Parsed? && file.value.rows != [] ==>
      var rows := file.value.rows;
      && (r.outcome == Imported <==> forall j :: 0 <= j < |rows| ==> !InsertFails(fails, j))
      && (r.outcome == Imported ==> r.committed == TuplesBy(Headers(rows), rows))
      && (r.outcome != Imported ==>
            && r.outcome.InsertFailed?
            && r.outcome.row < |rows|
            && InsertFails(fails, r.outcome.row)
            && (forall j :: 0 <= j < r.outcome.row ==> !InsertFails(fails, j))
            && r.committed == TuplesBy(Headers(rows), rows)[..r.outcome.row])
  {
    match file
    case None => Report(UploadCheck(file).value, [])
    case Some(ParseFailed) => Report(ParseError, [])
    case Some(Parsed(rows)) =>
      if rows == [] then Report(EmptySheet, [])
      else
        var k := FirstFailure(fails, |rows|);
        var tuples := TuplesBy(Headers(rows), rows)[..k];
        if k == |rows| then Report(Imported, tuples) else Report(InsertFailed(k), tuples)
  }

  /** A successful import adds exactly one tuple per parsed row, each of the header count's length. */
  lemma ImportedAddsOneTuplePerRow(rows: seq<Row>, fails: seq<bool>)
    requires rows != []
    requires RunImport(Some(Parsed(rows)), fails).outcome == Imported
    ensures var c := RunImport(Some(Parsed(rows)), fails).committed;
      && |c| == |rows|
      && forall k :: 0 <= k < |rows| ==> |c[k]| == |Keys(rows[0])| && c[k] == TupleOf(Keys(rows[0]), rows[k])
  {
  }

  /** Three rows whose second insert fails: only the first row's tuple stays committed. */
  lemma SecondInsertFails(a: Row, b: Row, c: Row)
    ensures RunImport(Some(Parsed([a, b, c])), [false, true, false]) ==
            Report(InsertFailed(1), [TupleOf(Keys(a), a)])
  {
    assert FirstFailure([false, true, false], 3) == 1;
    assert TuplesBy(Keys(a), [a, b, c])[..1] == [TupleOf(Keys(a), a)];
  }
}
