/**
 * The SOT control room (src/app/page.tsx): the ledger of rows held in page state, the
 * search filter over it, the totals and dashboard metrics of the rows on screen, and the
 * edit, add, import and export actions. Rendering, fetching, and the CSV text parser and
 * writer are not modelled; imports receive parsed records and exports yield the cell grid.
 */
module Page {
  import opened Sot
  import opened JsNumber
  import JsText
  import Seqs
  import SotRoute

  // ---------------------------------------------------------------------------
  // The search filter
  // ---------------------------------------------------------------------------

  /** The row's item, invoice or marketplace, lower-cased, contains the query. */
  predicate RowMatches(row: Row, q: string)
  {
    || JsText.Includes(JsText.ToLower(row.item), q)
    || JsText.Includes(JsText.ToLower(row.invoice), q)
    || JsText.Includes(JsText.ToLower(row.marketplace), q)
  }

  function Matches(q: string): Row -> bool
  {
    row => RowMatches(row, q)
  }

  /** A blank search (`!search.trim()`) shows everything. */
  predicate IsBlank(search: string)
  {
    JsText.Trim(search) == []
  }

  /** `filtered`: the rows on screen for the search box's text. */
  function FilteredRows(rows: seq<Row>, search: string): seq<Row>
  {
    if IsBlank(search) then rows else Seqs.Filter(rows, Matches(JsText.ToLower(search)))
  }

  /**
   * A blank search shows every row; otherwise the screen shows, in ledger order, every
   * occurrence of a row matching the lower-cased search text and nothing else. The
   * query itself is not trimmed.
   */
  lemma FilteredRowsSpec(rows: seq<Row>, search: string)
    ensures IsBlank(search) ==> FilteredRows(rows, search) == rows
    ensures !IsBlank(search) ==>
      var q := JsText.ToLower(search);
      && (forall i :: 0 <= i < |FilteredRows(rows, search)| ==> RowMatches(FilteredRows(rows, search)[i], q))
      && (forall r :: RowMatches(r, q) ==> multiset(FilteredRows(rows, search))[r] == multiset(rows)[r])
      && (forall r :: !RowMatches(r, q) ==> multiset(FilteredRows(rows, search))[r] == 0)
  {
    if !IsBlank(search) {
      var q := JsText.ToLower(search);
      Seqs.FilterCounts(rows, Matches(q));
      assert forall r :: Matches(q)(r) == RowMatches(r, q);
    }
  }

  /** Rows on screen never outnumber the ledger, and the filter keeps ledger order. */
  lemma FilteredRowsConcat(a: seq<Row>, b: seq<Row>, search: string)
    ensures FilteredRows(a + b, search) == FilteredRows(a, search) + FilteredRows(b, search)
    ensures |FilteredRows(a, search)| <= |a|
  {
    if !IsBlank(search) {
      Seqs.FilterConcat(a, b, Matches(JsText.ToLower(search)));
    }
  }

  /**
   * The position in the ledger of the row the table shows at position `k`, or -1 when
   * the table has no such row: exactly `k` shown rows come before it.
   */
  function ShownIndex(rows: seq<Row>, search: string, k: int): (j: int)
    ensures 0 <= k < |FilteredRows(rows, search)| ==> 0 <= j < |rows| && rows[j] == FilteredRows(rows, search)[k]
    ensures 0 <= k < |FilteredRows(rows, search)| ==> |FilteredRows(rows[..j], search)| == k
    ensures !(0 <= k < |FilteredRows(rows, search)|) ==> j == -1
  {
    if IsBlank(search) then (if 0 <= k < |rows| then k else -1)
    else Seqs.SourceIndex(rows, Matches(JsText.ToLower(search)), k)
  }

  // ---------------------------------------------------------------------------
  // Totals and metrics
  // ---------------------------------------------------------------------------

  /** The `totals` accumulator. */
  datatype Totals = Totals(paid: Num, sold: Num, realized: Num, fees: Num, shipping: Num)

  const NoTotals: Totals := Totals(Finite(0.0), Finite(0.0), Finite(0.0), Finite(0.0), Finite(0.0))

  /** One step of the `reduce`: each total grows by the row's own value. */
  function Accumulate(acc: Totals, row: Row): Totals
  {
    Totals(
      Add(acc.paid, row.paidTotal),
      Add(acc.sold, row.soldFor),
      Add(acc.realized, row.realizedProfit),
      Add(acc.fees, row.marketplaceFees),
      Add(acc.shipping, row.shippingCost))
  }

  /** The totals of `rows`, folded from the left as `reduce` does. */
  function TotalsOf(rows: seq<Row>): Totals
  {
    if rows == [] then NoTotals else Accumulate(TotalsOf(rows[..|rows| - 1]), rows[|rows| - 1])
  }

  /** The column-wise sum of two totals. */
  function Combine(a: Totals, b: Totals): Totals
  {
    Totals(Add(a.paid, b.paid), Add(a.sold, b.sold), Add(a.realized, b.realized),
           Add(a.fees, b.fees), Add(a.shipping, b.shipping))
  }

  lemma AddZero(a: Num)
    ensures Add(a, Finite(0.0)) == a
  {
  }

  /**
   * The totals of two runs of rows combine column by column, so the fold's order does
   * not matter beyond the order of addition.
   */
  lemma {:induction false} TotalsConcat(a: seq<Row>, b: seq<Row>)
    ensures TotalsOf(a + b) == Combine(TotalsOf(a), TotalsOf(b))
    decreases |b|
  {
    var ta := TotalsOf(a);
    if b == [] {
      assert a + b == a;
      AddZero(ta.paid); AddZero(ta.sold); AddZero(ta.realized); AddZero(ta.fees); AddZero(ta.shipping);
    } else {
      var init := b[..|b| - 1];
      var last := b[|b| - 1];
      assert (a + b)[..|a + b| - 1] == a + init;
      TotalsConcat(a, init);
      var ti := TotalsOf(init);
      AddAssociates(ta.paid, ti.paid, last.paidTotal);
      AddAssociates(ta.sold, ti.sold, last.soldFor);
      AddAssociates(ta.realized, ti.realized, last.realizedProfit);
      AddAssociates(ta.fees, ti.fees, last.marketplaceFees);
      AddAssociates(ta.shipping, ti.shipping, last.shippingCost);
    }
  }

  /** The real value of a finite number (0 otherwise). */
  function Val(n: Num): real
  {
    if n.Finite? then n.value else 0.0
  }

  /** The columns the totals add up. */
  function PaidOf(row: Row): Num { row.paidTotal }
  function SoldOf(row: Row): Num { row.soldFor }
  function RealizedOf(row: Row): Num { row.realizedProfit }
  function FeesOf(row: Row): Num { row.marketplaceFees }
  function ShippingOf(row: Row): Num { row.shippingCost }

  /** The real-valued sum of one column. */
  function Sum(rows: seq<Row>, column: Row -> Num): real
  {
    if rows == [] then 0.0 else Sum(rows[..|rows| - 1], column) + Val(column(rows[|rows| - 1]))
  }

  /**
   * Over rows whose numbers are all finite (every decoded row), each total is finite and
   * is the exact sum of its column.
   */
  lemma {:induction false} TotalsOfFinite(rows: seq<Row>)
    requires forall i :: 0 <= i < |rows| ==> NumbersFinite(rows[i])
    ensures var t := TotalsOf(rows);
      && t.paid.Finite? && t.sold.Finite? && t.realized.Finite? && t.fees.Finite? && t.shipping.Finite?
      && t.paid.value == Sum(rows, PaidOf) && t.sold.value == Sum(rows, SoldOf)
      && t.realized.value == Sum(rows, RealizedOf) && t.fees.value == Sum(rows, FeesOf)
      && t.shipping.value == Sum(rows, ShippingOf)
  {
    if rows != [] {
      TotalsOfFinite(rows[..|rows| - 1]);
      assert NumbersFinite(rows[|rows| - 1]);
    }
  }

  /** `soldLines`: the rows on screen with a positive sale price. */
  predicate IsSold(row: Row)
  {
    GreaterThanZero(row.soldFor)
  }

  function SoldLines(shown: seq<Row>): seq<Row>
  {
    Seqs.Filter(shown, IsSold)
  }

  /** Every sold line has a positive sale, and every occurrence of one on screen is counted. */
  lemma SoldLinesSpec(shown: seq<Row>)
    ensures |SoldLines(shown)| <= |shown|
    ensures forall i :: 0 <= i < |SoldLines(shown)| ==> GreaterThanZero(SoldLines(shown)[i].soldFor)
    ensures forall r :: IsSold(r) ==> multiset(SoldLines(shown))[r] == multiset(shown)[r]
    ensures forall r :: !IsSold(r) ==> multiset(SoldLines(shown))[r] == 0
  {
    Seqs.FilterCounts(shown, IsSold);
  }

  /** The three derived dashboard figures. */
  datatype Metrics = Metrics(roi: Num, sellThrough: real, avgTicket: Num)

  /** `metrics` for the rows on screen. */
  function MetricsOf(shown: seq<Row>): (m: Metrics)
    ensures 0.0 <= m.sellThrough <= 1.0
    ensures |shown| == 0 ==> m.sellThrough == 0.0
    ensures |shown| > 0 ==> m.sellThrough == |SoldLines(shown)| as real / |shown| as real
    ensures TotalsOf(shown).paid == Finite(0.0) ==> m.roi == Finite(0.0)
    ensures TotalsOf(shown).paid != Finite(0.0) ==> m.roi == Div(TotalsOf(shown).realized, TotalsOf(shown).paid)
    ensures SoldLines(shown) == [] ==> m.avgTicket == Finite(0.0)
    ensures SoldLines(shown) != [] ==> m.avgTicket == Div(TotalsOf(shown).sold, Finite(|SoldLines(shown)| as real))
  {
    var t := TotalsOf(shown);
    var sold := SoldLines(shown);
    var roi := if t.paid == Finite(0.0) then Finite(0.0) else Div(t.realized, t.paid);
    var sellThrough := if |shown| == 0 then 0.0 else |sold| as real / |shown| as real;
    var avgTicket := if |sold| == 0 then Finite(0.0) else Div(t.sold, Finite(|sold| as real));
    Metrics(roi, sellThrough, avgTicket)
  }

  /**
   * On rows of finite numbers no figure is ever NaN or infinite: the ROI is realized over
   * paid whenever something was paid, and the average ticket is gross sales per sold line.
   */
  lemma MetricsFinite(shown: seq<Row>)
    requires forall i :: 0 <= i < |shown| ==> NumbersFinite(shown[i])
    ensures var m := MetricsOf(shown);
      var t := TotalsOf(shown);
      && t.paid.Finite? && t.realized.Finite? && t.sold.Finite?
      && m.roi.Finite? && m.avgTicket.Finite?
      && (t.paid != Finite(0.0) ==> m.roi.value == t.realized.value / t.paid.value)
      && (SoldLines(shown) != [] ==> m.avgTicket.value == t.sold.value / |SoldLines(shown)| as real)
  {
    TotalsOfFinite(shown);
  }

  /** Sell-through is 1 exactly when every line on screen has a sale (and some line is shown). */
  lemma SellThroughComplete(shown: seq<Row>)
    requires shown != []
    ensures MetricsOf(shown).sellThrough == 1.0 <==> forall i :: 0 <= i < |shown| ==> IsSold(shown[i])
  {
    var sold := SoldLines(shown);
    assert MetricsOf(shown).sellThrough == |sold| as real / |shown| as real;
    RatioIsOne(|sold|, |shown|);
    Seqs.FilterKeepsAll(shown, IsSold);
  }

  lemma RatioIsOne(a: nat, b: nat)
    requires 0 < b
    ensures a as real / b as real == 1.0 <==> a == b
  {
  }

  // ---------------------------------------------------------------------------
  // Editing, importing and exporting
  // ---------------------------------------------------------------------------

  /** `Number(value) || 0`: NaN and zero both become 0. */
  function Coerce(value: string): (n: Num)
    ensures n == StringToNumber(value) || (n == Finite(0.0) && !Truthy(StringToNumber(value)))
    ensures !n.NaN?
  {
    var parsed := StringToNumber(value);
    if Truthy(parsed) then parsed else Finite(0.0)
  }

  /** The row with `field` set from the text typed into the table. */
  function SetField(row: Row, field: Field, value: string): Row
  {
    Assign(row, field, value, Coerce(value))
  }

  /** `{ ...row, [field]: v }`, where `v` is `text` for a text field and `n` for any other. */
  function Assign(row: Row, field: Field, text: string, n: Num): Row
  {
    match field
    case Invoice => row.(invoice := text)
    case PurchaseDate => row.(purchaseDate := text)
    case Item => row.(item := text)
    case Marketplace => row.(marketplace := text)
    case Hammer => row.(hammer := n)
    case BuyerPremium => row.(buyerPremium := n)
    case LotFee => row.(lotFee := n)
    case Tax => row.(tax := n)
    case PaidTotal => row.(paidTotal := n)
    case SoldFor => row.(soldFor := n)
    case MarketplaceFees => row.(marketplaceFees := n)
    case ShippingCost => row.(shippingCost := n)
    case RealizedProfit => row.(realizedProfit := n)
    case RealizedRoi => row.(realizedRoi := Ratio(n))
  }

  /**
   * The edited column holds the typed text (a text field) or its coerced number, and
   * every other column is as it was.
   */
  lemma SetFieldSpec(row: Row, field: Field, value: string)
    ensures CellOf(SetField(row, field, value), field) ==
      if IsTextField(field) then Text(value) else Number(Coerce(value))
    ensures forall g :: g != field ==> CellOf(SetField(row, field, value), g) == CellOf(row, g)
  {
    AssignSpec(row, field, value, Coerce(value));
  }

  lemma AssignSpec(row: Row, field: Field, text: string, n: Num)
    ensures CellOf(Assign(row, field, text, n), field) == if IsTextField(field) then Text(text) else Number(n)
    ensures forall g :: g != field ==> CellOf(Assign(row, field, text, n), g) == CellOf(row, g)
  {
    match field
    case Invoice =>
    case PurchaseDate =>
    case Item =>
    case Marketplace =>
    case Hammer =>
    case BuyerPremium =>
    case LotFee =>
    case Tax =>
    case PaidTotal =>
    case SoldFor =>
    case MarketplaceFees =>
    case ShippingCost =>
    case RealizedProfit =>
    case RealizedRoi =>
  }

  /** `updateRow`'s new ledger: row `idx` of the ledger edited and recomputed, nothing else changed. */
  function UpdatedRows(rows: seq<Row>, idx: int, field: Field, value: string): (r: seq<Row>)
    ensures |r| == |rows|
    ensures forall i :: 0 <= i < |rows| && i != idx ==> r[i] == rows[i]
    ensures 0 <= idx < |rows| ==> r[idx] == ComputeFinancials(SetField(rows[idx], field, value))
  {
    seq(|rows|, i requires 0 <= i < |rows| => if i == idx then ComputeFinancials(SetField(rows[i], field, value)) else rows[i])
  }

  /** An index past either end of the ledger changes nothing. */
  lemma UpdateOutOfRange(rows: seq<Row>, idx: int, field: Field, value: string)
    requires !(0 <= idx < |rows|)
    ensures UpdatedRows(rows, idx, field, value) == rows
  {
  }

  /** Editing a text field keeps the row's computed figures, since they depend only on numbers. */
  lemma EditTextKeepsFigures(rows: seq<Row>, idx: int, field: Field, value: string)
    requires 0 <= idx < |rows| && IsTextField(field)
    requires rows[idx] == ComputeFinancials(rows[idx])
    ensures UpdatedRows(rows, idx, field, value)[idx] == SetField(rows[idx], field, value)
  {
  }

  /** The rows an import prepends: records decoded, recomputed, and those with a blank item dropped. */
  predicate HasItem(row: Row)
  {
    JsText.Trim(row.item) != []
  }

  function ImportedRows(records: seq<CsvRecord>): (rows: seq<Row>)
    ensures |rows| <= |records|
    ensures forall i :: 0 <= i < |rows| ==> HasItem(rows[i])
  {
    Seqs.Filter(Seqs.Map(records, SotRoute.LoadRow), HasItem)
  }

  /** Every decoded row with a non-blank item is imported, as often as it occurs, and no other row is. */
  lemma ImportedRowsSpec(records: seq<CsvRecord>)
    ensures forall r :: HasItem(r) ==>
      multiset(ImportedRows(records))[r] == multiset(Seqs.Map(records, SotRoute.LoadRow))[r]
    ensures forall r :: !HasItem(r) ==> multiset(ImportedRows(records))[r] == 0
  {
    Seqs.FilterCounts(Seqs.Map(records, SotRoute.LoadRow), HasItem);
  }

  /** An imported row's item is never blank, so the import keeps a record exactly when its `Item` cell is not blank. */
  lemma ImportKeepsItems(rec: CsvRecord)
    ensures ImportedRows([rec]) == if JsText.Trim(TextOf(rec, "Item")) == [] then [] else [SotRoute.LoadRow(rec)]
  {
    var row := SotRoute.LoadRow(rec);
    assert Seqs.Map([rec], SotRoute.LoadRow) == [row];
    FromCsvRecordTexts(rec, Item);
    assert row.item == TextOf(rec, "Item");
  }

  /** `r[h] ?? ""`: the cell of column `h`, or the empty string when the record lacks it. */
  function CellOr(rec: map<string, Cell>, h: string): Cell
  {
    if h in rec then rec[h] else Text("")
  }

  /** One data line of the export: the row's cells in header order. */
  function ExportLine(row: Row): seq<Cell>
  {
    var rec := ToCsvRecord(row);
    seq(|CsvHeaders|, i requires 0 <= i < |CsvHeaders| => CellOr(rec, CsvHeaders[i]))
  }

  /** Each line has one cell per header, holding that column's field. */
  lemma ExportLineSpec(row: Row)
    ensures |ExportLine(row)| == |Fields|
    ensures forall i :: 0 <= i < |Fields| ==> ExportLine(row)[i] == CellOf(row, Fields[i])
  {
    HeadersAreColumns();
  }

  /** `data`: the export grid, one line per ledger row, in ledger order (not only the rows on screen). */
  function ExportData(rows: seq<Row>): (data: seq<seq<Cell>>)
    ensures |data| == |rows|
    ensures forall i :: 0 <= i < |rows| ==> data[i] == ExportLine(rows[i])
  {
    Seqs.Map(rows, ExportLine)
  }

  // ---------------------------------------------------------------------------
  // Page state
  // ---------------------------------------------------------------------------

  /** The page's `rows` and `search` state. */
  class Ledger {
    var rows: seq<Row>
    var search: string

    /** `useState([])` and `useState("")`. */
    constructor ()
      ensures rows == [] && search == ""
    {
      rows := [];
      search := "";
    }

    /** The rows `GET /api/sot` returned replace the ledger. */
    method Load(loaded: seq<Row>)
      modifies this
      ensures rows == loaded && search == old(search)
    {
      rows := loaded;
    }

    /** Typing into the search box. */
    method SetSearch(text: string)
      modifies this
      ensures rows == old(rows) && search == text
    {
      search := text;
    }

    /** The rows on screen. */
    function Shown(): seq<Row>
      reads this
    {
      FilteredRows(rows, search)
    }

    /**
     * `updateRow(idx, field, value)` as written: `idx` indexes the whole ledger, although
     * the table passes the row's position among the rows on screen.
     */
    method UpdateRow(idx: int, field: Field, value: string)
      modifies this
      ensures rows == UpdatedRows(old(rows), idx, field, value) && search == old(search)
    {
      rows := UpdatedRows(rows, idx, field, value);
    }

    /** The edit the table means: the row shown at position `idx` is the one changed. */
    method UpdateShownRow(idx: int, field: Field, value: string)
      modifies this
      ensures rows == UpdatedRows(old(rows), ShownIndex(old(rows), old(search), idx), field, value)
      ensures search == old(search)
    {
      rows := UpdatedRows(rows, ShownIndex(rows, search, idx), field, value);
    }

    /** `addRow`: a blank computed line goes on top. */
    method AddRow()
      modifies this
      ensures rows == [ComputeFinancials(EmptyRow)] + old(rows) && search == old(search)
    {
      rows := [ComputeFinancials(EmptyRow)] + rows;
    }

    /** The import's post-parse step: the new rows go on top, and their number is reported. */
    method ImportCsv(records: seq<CsvRecord>) returns (count: nat)
      modifies this
      ensures rows == ImportedRows(records) + old(rows) && search == old(search)
      ensures count == |ImportedRows(records)|
    {
      var parsed := ImportedRows(records);
      rows := parsed + rows;
      count := |parsed|;
    }

    /** `totals`: the `reduce` over the rows on screen, one column at a time per row. */
    method ComputeTotals() returns (t: Totals)
      ensures t == TotalsOf(Shown())
    {
      var shown := Shown();
      t := NoTotals;
      var i := 0;
      while i < |shown|
        invariant 0 <= i <= |shown|
        invariant t == TotalsOf(shown[..i])
      {
        var row := shown[i];
        t := t.(paid := Add(t.paid, row.paidTotal));
        t := t.(sold := Add(t.sold, row.soldFor));
        t := t.(realized := Add(t.realized, row.realizedProfit));
        t := t.(fees := Add(t.fees, row.marketplaceFees));
        t := t.(shipping := Add(t.shipping, row.shippingCost));
        assert shown[..i + 1][..i] == shown[..i];
        i := i + 1;
      }
      assert shown[..|shown|] == shown;
    }

    /** The export grid of the whole ledger, whatever the search. */
    method ExportCsv() returns (data: seq<seq<Cell>>)
      ensures data == ExportData(rows)
      ensures forall i, j :: 0 <= i < |rows| && 0 <= j < |Fields| ==> data[i][j] == CellOf(rows[i], Fields[j])
    {
      data := ExportData(rows);
      forall i | 0 <= i < |rows|
        ensures forall j :: 0 <= j < |Fields| ==> data[i][j] == CellOf(rows[i], Fields[j])
      {
        ExportLineSpec(rows[i]);
      }
    }
  }

  /** A new line has no profit and no ROI, and adding it shows it first under a blank search. */
  lemma AddRowIsBlank(rows: seq<Row>)
    ensures ComputeFinancials(EmptyRow).realizedProfit == Finite(0.0)
    ensures ComputeFinancials(EmptyRow).realizedRoi == Empty
    ensures FilteredRows([ComputeFinancials(EmptyRow)] + rows, "") == [EmptyRow] + rows
  {
    ComputeEmptyRow();
    assert IsBlank("");
  }

  /**
   * The corrected edit changes exactly the row the table shows at `k`: the ledger row with
   * `k` shown rows before it, not merely some row equal to it.
   */
  lemma ShownRowIsEdited(rows: seq<Row>, search: string, k: int, field: Field, value: string)
    requires 0 <= k < |FilteredRows(rows, search)|
    ensures var j := ShownIndex(rows, search, k);
      && 0 <= j < |rows|
      && rows[j] == FilteredRows(rows, search)[k]
      && |FilteredRows(rows[..j], search)| == k
      && UpdatedRows(rows, j, field, value)[j] == ComputeFinancials(SetField(FilteredRows(rows, search)[k], field, value))
      && forall i :: 0 <= i < |rows| && i != j ==> UpdatedRows(rows, j, field, value)[i] == rows[i]
  {
  }

  // ---------------------------------------------------------------------------
  // The table edits the wrong row while a search is active
  // ---------------------------------------------------------------------------

  /** A line with only its item filled in. */
  function ItemLine(item: string): Row
  {
    EmptyRow.(item := item)
  }

  lemma SearchExample()
    ensures FilteredRows([ItemLine("apple"), ItemLine("banana")], "ban") == [ItemLine("banana")]
  {
    BanIsQuery();
    AppleMisses();
    BananaHits();
    var rows := [ItemLine("apple"), ItemLine("banana")];
    assert Seqs.Filter(rows, Matches("ban")) == Seqs.Filter(rows[1..], Matches("ban"));
    assert rows[1..][1..] == [];
  }

  lemma BanIsQuery()
    ensures !IsBlank("ban") && JsText.ToLower("ban") == "ban"
  {
    JsText.TrimKeepsTrimmed("ban");
  }

  lemma AppleMisses()
    ensures !RowMatches(ItemLine("apple"), "ban")
  {
    assert JsText.ToLower("apple") == "apple";
    assert !JsText.Includes("apple", "ban") by {
      forall i ensures !JsText.OccursAt("apple", "ban", i) {
        if 0 <= i <= 2 {
          assert "apple"[i..i + 3][0] == "apple"[i] != 'b';
        }
      }
    }
    assert JsText.ToLower("") == "";
  }

  lemma BananaHits()
    ensures RowMatches(ItemLine("banana"), "ban")
  {
    assert JsText.ToLower("banana") == "banana";
    assert JsText.OccursAt("banana", "ban", 0);
  }

  /** Typing a new item into a blank line leaves it a blank line with that item. */
  lemma EditLineItem(item: string, value: string)
    ensures ComputeFinancials(SetField(ItemLine(item), Item, value)) == ItemLine(value)
  {
  }

  /**
   * With the ledger `[apple, banana]` and the search `ban`, the table shows only banana,
   * at position 0; typing `value` into its item calls `updateRow(0, "item", value)`, which
   * rewrites the hidden apple line and leaves banana as it was.
   */
  lemma UpdateRowEditsHiddenRow(value: string)
    ensures var rows := [ItemLine("apple"), ItemLine("banana")];
      && FilteredRows(rows, "ban") == [ItemLine("banana")]
      && UpdatedRows(rows, 0, Item, value) == [ItemLine(value), ItemLine("banana")]
  {
    SearchExample();
    EditLineItem("apple", value);
    var rows := [ItemLine("apple"), ItemLine("banana")];
    var r := UpdatedRows(rows, 0, Item, value);
    assert r[0] == ItemLine(value);
    assert r[1] == ItemLine("banana");
  }

  /** The corrected edit of the same example rewrites banana and leaves apple alone. */
  lemma UpdateShownRowEditsBanana(value: string)
    ensures var rows := [ItemLine("apple"), ItemLine("banana")];
      UpdatedRows(rows, ShownIndex(rows, "ban", 0), Item, value) == [ItemLine("apple"), ItemLine(value)]
  {
    SearchExample();
    EditLineItem("banana", value);
    var rows := [ItemLine("apple"), ItemLine("banana")];
    var j := ShownIndex(rows, "ban", 0);
    assert rows[j] == ItemLine("banana");
    assert j == 1;
    var r := UpdatedRows(rows, j, Item, value);
    assert r[0] == ItemLine("apple");
    assert r[1] == ItemLine(value);
  }
}
