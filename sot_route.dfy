/**
 * The load filter of `GET /api/sot` (src/app/api/sot/route.ts): parsed records whose
 * item is the `totals` footer are dropped, the rest are decoded and recomputed in order.
 * Reading the file and parsing the CSV text are not modelled; the records are given.
 */
module SotRoute {
  import opened Sot
  import JsText
  import Seqs

  /** The footer row of the ledger: its `Item`, trimmed and lower-cased, is `totals`. */
  predicate IsTotalsRecord(rec: CsvRecord)
  {
    JsText.ToLower(JsText.Trim(TextOf(rec, "Item"))) == "totals"
  }

  predicate IsLineRecord(rec: CsvRecord)
  {
    !IsTotalsRecord(rec)
  }

  /** `computeFinancials(fromCsvRecord(r))`. */
  function LoadRow(rec: CsvRecord): Row
  {
    ComputeFinancials(FromCsvRecord(rec))
  }

  /** The rows `GET` returns for the parsed records. */
  function LoadRows(records: seq<CsvRecord>): (rows: seq<Row>)
    ensures |rows| <= |records|
    ensures forall i :: 0 <= i < |rows| ==> !rows[i].realizedRoi.Raw?
  {
    Seqs.Map(Seqs.Filter(records, IsLineRecord), LoadRow)
  }

  /** Every row is the decoding of a non-footer record. */
  lemma LoadRowsFromLines(records: seq<CsvRecord>)
    ensures var kept := Seqs.Filter(records, IsLineRecord);
      && |LoadRows(records)| == |kept|
      && forall i :: 0 <= i < |kept| ==> !IsTotalsRecord(kept[i]) && LoadRows(records)[i] == LoadRow(kept[i])
  {
  }

  /**
   * Every occurrence of a non-footer record is kept (a record without an `Item` column
   * included) and no footer record is.
   */
  lemma LoadKeepsLines(records: seq<CsvRecord>)
    ensures forall r :: IsLineRecord(r) ==> multiset(Seqs.Filter(records, IsLineRecord))[r] == multiset(records)[r]
    ensures forall r :: IsTotalsRecord(r) ==> multiset(Seqs.Filter(records, IsLineRecord))[r] == 0
  {
    Seqs.FilterCounts(records, IsLineRecord);
  }

  /** A record without an `Item` column is never the footer. */
  lemma MissingItemIsLine(rec: CsvRecord)
    requires "Item" !in rec
    ensures IsLineRecord(rec)
  {
    assert TextOf(rec, "Item") == [];
    JsText.TrimKeepsTrimmed([]);
  }

  /** Loading is order-preserving: the records of two files load as the two loads, in order. */
  lemma LoadRowsConcat(a: seq<CsvRecord>, b: seq<CsvRecord>)
    ensures LoadRows(a + b) == LoadRows(a) + LoadRows(b)
  {
    Seqs.FilterConcat(a, b, IsLineRecord);
    Seqs.MapConcat(Seqs.Filter(a, IsLineRecord), Seqs.Filter(b, IsLineRecord), LoadRow);
  }

  /** Nothing is dropped exactly when there is no footer record. */
  lemma LoadRowsLength(records: seq<CsvRecord>)
    ensures |LoadRows(records)| == |records| <==> forall i :: 0 <= i < |records| ==> !IsTotalsRecord(records[i])
  {
    Seqs.FilterKeepsAll(records, IsLineRecord);
  }
}
