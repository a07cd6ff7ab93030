/**
 * The ledger row ("SOT row"), its 14-column CSV shape and the financial calculator
 * (src/lib/sot.ts).
 */
module Sot {
  import opened JsNumber
  import JsText
  import Seqs

  /** `realizedRoi`: the empty marker `""`, a computed ratio, or text carried over from a CSV cell. */
  datatype Roi = Empty | Ratio(ratio: Num) | Raw(text: string)

  /** One purchase/resale line item. */
  datatype Row = Row(
    invoice: string,
    purchaseDate: string,
    item: string,
    hammer: Num,
    buyerPremium: Num,
    lotFee: Num,
    tax: Num,
    paidTotal: Num,
    marketplace: string,
    soldFor: Num,
    marketplaceFees: Num,
    shippingCost: Num,
    realizedProfit: Num,
    realizedRoi: Roi)

  /** The keys of a row (`keyof SotRow`), in declaration order, which is also column order. */
  datatype Field =
    | Invoice | PurchaseDate | Item | Hammer | BuyerPremium | LotFee | Tax | PaidTotal
    | Marketplace | SoldFor | MarketplaceFees | ShippingCost | RealizedProfit | RealizedRoi

  /** The fields that hold free text. */
  predicate IsTextField(f: Field)
  {
    f == Invoice || f == PurchaseDate || f == Item || f == Marketplace
  }

  /** The fields that hold a plain number (every field but the text ones and `realizedRoi`). */
  predicate IsNumberField(f: Field)
  {
    !IsTextField(f) && f != RealizedRoi
  }

  const Fields: seq<Field> :=
    [Invoice, PurchaseDate, Item, Hammer, BuyerPremium, LotFee, Tax, PaidTotal,
     Marketplace, SoldFor, MarketplaceFees, ShippingCost, RealizedProfit, RealizedRoi]

  /** `CSV_HEADERS`: the external column names, in file order. */
  const CsvHeaders: seq<string> :=
    ["Invoice", "Purchase_Date", "Item", "Hammer", "Buyer_Premium_15%", "Lot_Fee", "Tax",
     "Paid_Total", "Marketplace", "Sold For", "Marketplace_Fees", "Shipping_Cost",
     "Realized_Profit", "Realized_ROI"]

  /** The column that carries a field. */
  function Header(f: Field): string
  {
    match f
    case Invoice => "Invoice"
    case PurchaseDate => "Purchase_Date"
    case Item => "Item"
    case Hammer => "Hammer"
    case BuyerPremium => "Buyer_Premium_15%"
    case LotFee => "Lot_Fee"
    case Tax => "Tax"
    case PaidTotal => "Paid_Total"
    case Marketplace => "Marketplace"
    case SoldFor => "Sold For"
    case MarketplaceFees => "Marketplace_Fees"
    case ShippingCost => "Shipping_Cost"
    case RealizedProfit => "Realized_Profit"
    case RealizedRoi => "Realized_ROI"
  }

  /**
   * The 14 headers are the columns of the 14 fields, in order, and no two fields share a
   * column, so a record keyed by header holds each field exactly once.
   */
  lemma HeadersAreColumns()
    ensures |Fields| == |CsvHeaders| == 14
    ensures forall i :: 0 <= i < 14 ==> CsvHeaders[i] == Header(Fields[i])
    ensures forall f :: Header(f) in CsvHeaders
  {
    forall f ensures Header(f) in CsvHeaders {
      HeaderIsColumn(f);
    }
  }

  lemma HeaderIsColumn(f: Field)
    ensures Header(f) in CsvHeaders
  {
    match f
    case Invoice => assert CsvHeaders[0] == Header(f);
    case PurchaseDate => assert CsvHeaders[1] == Header(f);
    case Item => assert CsvHeaders[2] == Header(f);
    case Hammer => assert CsvHeaders[3] == Header(f);
    case BuyerPremium => assert CsvHeaders[4] == Header(f);
    case LotFee => assert CsvHeaders[5] == Header(f);
    case Tax => assert CsvHeaders[6] == Header(f);
    case PaidTotal => assert CsvHeaders[7] == Header(f);
    case Marketplace => assert CsvHeaders[8] == Header(f);
    case SoldFor => assert CsvHeaders[9] == Header(f);
    case MarketplaceFees => assert CsvHeaders[10] == Header(f);
    case ShippingCost => assert CsvHeaders[11] == Header(f);
    case RealizedProfit => assert CsvHeaders[12] == Header(f);
    case RealizedRoi => assert CsvHeaders[13] == Header(f);
  }

  /** No two fields share a column, so a record keyed by header holds each field once. */
  lemma HeadersDistinct(f: Field, g: Field)
    requires Header(f) == Header(g)
    ensures f == g
  {
    assert |Header(f)| == |Header(g)| && Header(f)[0] == Header(g)[0] && Header(f)[|Header(f)| - 1] == Header(g)[|Header(g)| - 1];
  }

  /** `emptyRow`: the blank template. */
  const EmptyRow: Row :=
    Row("", "", "", Finite(0.0), Finite(0.0), Finite(0.0), Finite(0.0), Finite(0.0), "",
        Finite(0.0), Finite(0.0), Finite(0.0), Finite(0.0), Empty)

  // ---------------------------------------------------------------------------
  // Cells and records
  // ---------------------------------------------------------------------------

  /** A parsed CSV line: header to cell text; a header that is not a key is a missing column. */
  type CsvRecord = map<string, string>

  /** A cell of `toCsvRecord`'s output: text or a number. */
  datatype Cell = Text(text: string) | Number(number: Num)

  /** The column view of a row: what `toCsvRecord` writes under `Header(f)`. */
  function CellOf(row: Row, f: Field): Cell
  {
    match f
    case Invoice => Text(row.invoice)
    case PurchaseDate => Text(row.purchaseDate)
    case Item => Text(row.item)
    case Hammer => Number(row.hammer)
    case BuyerPremium => Number(row.buyerPremium)
    case LotFee => Number(row.lotFee)
    case Tax => Number(row.tax)
    case PaidTotal => Number(row.paidTotal)
    case Marketplace => Text(row.marketplace)
    case SoldFor => Number(row.soldFor)
    case MarketplaceFees => Number(row.marketplaceFees)
    case ShippingCost => Number(row.shippingCost)
    case RealizedProfit => Number(row.realizedProfit)
    case RealizedRoi => RoiCell(row.realizedRoi)
  }

  /** `row.realizedRoi ?? ""`: the empty marker is the empty string. */
  function RoiCell(roi: Roi): Cell
  {
    match roi
    case Empty => Text("")
    case Raw(s) => Text(s)
    case Ratio(n) => Number(n)
  }

  /** `record[h] ?? ""`. */
  function TextOf(rec: CsvRecord, h: string): string
  {
    if h in rec then rec[h] else ""
  }

  /** `record[h]`, absent when the column is missing. */
  function Lookup(rec: CsvRecord, h: string): Option<string>
  {
    if h in rec then Some(rec[h]) else None
  }

  /** CSV text carried into `realizedRoi`: the empty string is the empty marker. */
  function RoiFromText(s: string): (roi: Roi)
    ensures RoiCell(roi) == Text(s)
    ensures !roi.Ratio?
  {
    if s == "" then Empty else Raw(s)
  }

  // ---------------------------------------------------------------------------
  // normalizeNumber
  // ---------------------------------------------------------------------------

  predicate NotComma(c: char) { c != ',' }

  /** `str.replace(/,/g, "")`. */
  function StripCommas(s: string): (r: string)
    ensures forall i :: 0 <= i < |r| ==> r[i] != ','
  {
    Seqs.Filter(s, NotComma)
  }

  /** The text `normalizeNumber` hands to `Number`: commas removed, then trimmed. */
  function Cleaned(s: string): string
  {
    JsText.Trim(StripCommas(s))
  }

  /**
   * `normalizeNumber`: cell text to a finite number. A missing cell, text that is blank
   * once commas are removed and trimmed, and text `Number` rejects or reads as an
   * infinity all give 0; any other text gives what `Number` reads.
   */
  function NormalizeNumber(value: Option<string>): (r: Num)
    ensures r.Finite?
    ensures value.None? ==> r == Finite(0.0)
    ensures value.Some? && Cleaned(value.value) == [] ==> r == Finite(0.0)
    ensures value.Some? && !StringToNumber(Cleaned(value.value)).Finite? ==> r == Finite(0.0)
    ensures value.Some? && StringToNumber(Cleaned(value.value)).Finite? ==> r == StringToNumber(Cleaned(value.value))
  {
    if value.None? then Finite(0.0)
    else
      var str := Cleaned(value.value);
      if str == [] then Finite(0.0)
      else
        var num := StringToNumber(str);
        if num.Finite? then num else Finite(0.0)
  }

  /** Commas anywhere in the text are ignored: removing one does not change the number. */
  lemma NormalizeIgnoresComma(a: string, b: string)
    ensures NormalizeNumber(Some(a + "," + b)) == NormalizeNumber(Some(a + b))
  {
    StripCommasDropsComma(a, b);
    assert Cleaned(a + "," + b) == Cleaned(a + b);
  }

  lemma StripCommasDropsComma(a: string, b: string)
    ensures StripCommas(a + "," + b) == StripCommas(a + b)
  {
    Seqs.FilterConcat(a + ",", b, NotComma);
    Seqs.FilterConcat(a, ",", NotComma);
    Seqs.FilterConcat(a, b, NotComma);
    assert Seqs.Filter(",", NotComma) == [];
  }

  /** A plain decimal is read as its value: `"1234.50"` is 1234.5. */
  lemma NormalizePlainDecimal()
    ensures NormalizeNumber(Some("1234.50")) == Finite(1234.5)
  {
    CleanedPlain("1234.50");
    StringToNumberDecimalExample();
  }

  /** Text that is not a number, a blank cell and a missing cell are all 0. */
  lemma NormalizeFallbacks()
    ensures NormalizeNumber(Some("abc")) == Finite(0.0)
    ensures NormalizeNumber(Some("")) == Finite(0.0)
    ensures NormalizeNumber(None) == Finite(0.0)
  {
    CleanedPlain("abc");
    StringToNumberLettersExample();
    CleanedPlain("");
  }

  /** Text without commas and without white space at its ends is handed to `Number` as is. */
  lemma CleanedPlain(s: string)
    requires forall i :: 0 <= i < |s| ==> NotComma(s[i])
    requires JsText.IsTrimmed(s)
    ensures Cleaned(s) == s
  {
    Seqs.FilterKeepsAll(s, NotComma);
    JsText.TrimKeepsTrimmed(s);
  }

  /** A whole number written in plain decimal digits reads back as itself. */
  lemma NormalizeDecimalString(n: nat)
    requires n < 100_000_000_000_000_000_000
    ensures NormalizeNumber(Some(DecimalString(n))) == Finite(n as real)
  {
    DecimalStringRoundTrip(n);
    NormalizeDigits(DecimalString(n));
  }

  /** A digit string is normalized to its decimal value. */
  lemma NormalizeDigits(s: string)
    requires s != [] && AllDigits(s) && DigitsValue(s) < 100_000_000_000_000_000_000
    ensures NormalizeNumber(Some(s)) == Finite(DigitsValue(s) as real)
  {
    DigitsAreClean(s);
    DigitsParse(s);
  }

  lemma DigitsAreClean(s: string)
    requires AllDigits(s)
    ensures Cleaned(s) == s
  {
    if s != [] {
      assert IsDigit(s[0]) && IsDigit(s[|s| - 1]);
    }
    CleanedPlain(s);
  }

  /** A whole number of cents written as fixed-point text, sign included, reads back as itself. */
  lemma NormalizeCents(c: int)
    requires -1_000_000_000_000_000_000_000_000 < c < 1_000_000_000_000_000_000_000_000
    ensures NormalizeNumber(Some(CentsText(c))) == Finite(c as real / 100.0)
  {
    CentsTextIsClean(c);
    StringToNumberCents(c);
  }

  lemma CentsTextIsClean(c: int)
    ensures Cleaned(CentsText(c)) == CentsText(c)
  {
    var m: nat := if c < 0 then -c else c;
    var t := CentsText(c);
    var u := CentsDigits(m);
    CentsDigitsShape(m);
    forall i | 0 <= i < |t| ensures NotComma(t[i]) {
      if c < 0 {
        assert t == "-" + u;
        if i > 0 { assert t[i] == u[i - 1]; }
      } else {
        assert t == u;
      }
    }
    Seqs.FilterKeepsAll(t, NotComma);
    CentsTextIsDecimal(c);
  }

  /** A thousands separator is ignored: `"1,234.50"` is 1234.5. */
  lemma NormalizeThousandsExample()
    ensures NormalizeNumber(Some("1,234.50")) == Finite(1234.5)
  {
    var a, b := "1", "234.50";
    assert a + "," + b == "1,234.50";
    assert a + b == "1234.50";
    NormalizeIgnoresComma(a, b);
    NormalizePlainDecimal();
  }

  // ---------------------------------------------------------------------------
  // fromCsvRecord / toCsvRecord
  // ---------------------------------------------------------------------------

  /** Every plain number of the row is finite. */
  predicate NumbersFinite(row: Row)
  {
    && row.hammer.Finite? && row.buyerPremium.Finite? && row.lotFee.Finite? && row.tax.Finite?
    && row.paidTotal.Finite? && row.soldFor.Finite? && row.marketplaceFees.Finite?
    && row.shippingCost.Finite? && row.realizedProfit.Finite?
  }

  /**
   * `fromCsvRecord`: the invoice is the trimmed `Invoice` text, every number is finite,
   * and `Realized_ROI` is never read as a computed ratio.
   */
  function FromCsvRecord(rec: CsvRecord): (row: Row)
    ensures row.invoice == JsText.Trim(TextOf(rec, "Invoice")) && JsText.IsTrimmed(row.invoice)
    ensures NumbersFinite(row) && !row.realizedRoi.Ratio?
    ensures RoiCell(row.realizedRoi) == Text(TextOf(rec, "Realized_ROI"))
  {
    JsText.TrimHasNoEdges(TextOf(rec, "Invoice"));
    Row(
      invoice := JsText.Trim(TextOf(rec, "Invoice")),
      purchaseDate := TextOf(rec, "Purchase_Date"),
      item := TextOf(rec, "Item"),
      hammer := NormalizeNumber(Lookup(rec, "Hammer")),
      buyerPremium := NormalizeNumber(Lookup(rec, "Buyer_Premium_15%")),
      lotFee := NormalizeNumber(Lookup(rec, "Lot_Fee")),
      tax := NormalizeNumber(Lookup(rec, "Tax")),
      paidTotal := NormalizeNumber(Lookup(rec, "Paid_Total")),
      marketplace := TextOf(rec, "Marketplace"),
      soldFor := NormalizeNumber(Lookup(rec, "Sold For")),
      marketplaceFees := NormalizeNumber(Lookup(rec, "Marketplace_Fees")),
      shippingCost := NormalizeNumber(Lookup(rec, "Shipping_Cost")),
      realizedProfit := NormalizeNumber(Lookup(rec, "Realized_Profit")),
      realizedRoi := RoiFromText(TextOf(rec, "Realized_ROI")))
  }

  /** A number field of `fromCsvRecord` is the normalized text of its own column. */
  lemma FromCsvRecordNumbers(rec: CsvRecord, f: Field)
    requires IsNumberField(f)
    ensures CellOf(FromCsvRecord(rec), f) == Number(NormalizeNumber(Lookup(rec, Header(f))))
  {
  }

  /** A text field other than the invoice is the text of its own column, `""` when missing. */
  lemma FromCsvRecordTexts(rec: CsvRecord, f: Field)
    requires IsTextField(f) && f != Invoice
    ensures CellOf(FromCsvRecord(rec), f) == Text(TextOf(rec, Header(f)))
  {
  }

  /** The ROI cell of `fromCsvRecord` is the `Realized_ROI` text, `""` when missing. */
  lemma FromCsvRecordRoi(rec: CsvRecord)
    ensures CellOf(FromCsvRecord(rec), RealizedRoi) == Text(TextOf(rec, Header(RealizedRoi)))
  {
    RoiColumn(FromCsvRecord(rec));
  }

  /**
   * Record first: encoding a decoded record gives back each text column verbatim, the
   * invoice trimmed, each number column normalized, and the `Realized_ROI` text.
   */
  lemma EncodeDecoded(rec: CsvRecord)
    ensures var r := ToCsvRecord(FromCsvRecord(rec));
      forall f :: IsTextField(f) && f != Invoice ==> r[Header(f)] == Text(TextOf(rec, Header(f)))
    ensures ToCsvRecord(FromCsvRecord(rec))["Invoice"] == Text(JsText.Trim(TextOf(rec, "Invoice")))
    ensures var r := ToCsvRecord(FromCsvRecord(rec));
      forall f :: IsNumberField(f) ==> r[Header(f)] == Number(NormalizeNumber(Lookup(rec, Header(f))))
    ensures ToCsvRecord(FromCsvRecord(rec))["Realized_ROI"] == Text(TextOf(rec, "Realized_ROI"))
  {
    var row := FromCsvRecord(rec);
    forall f | IsTextField(f) && f != Invoice
      ensures ToCsvRecord(row)[Header(f)] == Text(TextOf(rec, Header(f)))
    {
      FromCsvRecordTexts(rec, f);
    }
    forall f | IsNumberField(f)
      ensures ToCsvRecord(row)[Header(f)] == Number(NormalizeNumber(Lookup(rec, Header(f))))
    {
      FromCsvRecordNumbers(rec, f);
    }
    assert Header(Invoice) == "Invoice";
    assert Header(RealizedRoi) == "Realized_ROI";
    FromCsvRecordRoi(rec);
  }

  lemma RoiColumn(row: Row)
    ensures CellOf(row, RealizedRoi) == RoiCell(row.realizedRoi)
  {
  }

  /** `toCsvRecord`: each field under its own header (`?? ""` never applies to a complete row). */
  function ToCsvRecord(row: Row): (r: map<string, Cell>)
    ensures forall f :: Header(f) in r && r[Header(f)] == CellOf(row, f)
  {
    map[
      "Invoice" := Text(row.invoice),
      "Purchase_Date" := Text(row.purchaseDate),
      "Item" := Text(row.item),
      "Hammer" := Number(row.hammer),
      "Buyer_Premium_15%" := Number(row.buyerPremium),
      "Lot_Fee" := Number(row.lotFee),
      "Tax" := Number(row.tax),
      "Paid_Total" := Number(row.paidTotal),
      "Marketplace" := Text(row.marketplace),
      "Sold For" := Number(row.soldFor),
      "Marketplace_Fees" := Number(row.marketplaceFees),
      "Shipping_Cost" := Number(row.shippingCost),
      "Realized_Profit" := Number(row.realizedProfit),
      "Realized_ROI" := RoiCell(row.realizedRoi)]
  }

  /** The record has no key besides the 14 headers. */
  lemma ToCsvRecordKeys(row: Row)
    ensures forall h :: h in ToCsvRecord(row) <==> h in CsvHeaders
  {
    HeadersAreColumns();
  }

  /**
   * `text` is a textual rendering of `cell` that decoding accepts: text cells verbatim,
   * number cells as any text that normalizes back to the number.
   */
  predicate RendersAs(cell: Cell, text: string)
  {
    match cell
    case Text(s) => text == s
    case Number(n) => NormalizeNumber(Some(text)) == n
  }

  /** Two rows with the same cells in every column but the ROI differ at most in `realizedRoi`. */
  lemma SameCells(a: Row, b: Row)
    requires forall f :: f != RealizedRoi ==> CellOf(a, f) == CellOf(b, f)
    ensures a == b.(realizedRoi := a.realizedRoi)
  {
    SameTextCells(a, b);
    SameNumberCells(a, b);
  }

  lemma SameTextCells(a: Row, b: Row)
    requires forall f :: IsTextField(f) ==> CellOf(a, f) == CellOf(b, f)
    ensures a.invoice == b.invoice && a.purchaseDate == b.purchaseDate && a.item == b.item
    ensures a.marketplace == b.marketplace
  {
    assert CellOf(a, Invoice) == CellOf(b, Invoice);
    assert CellOf(a, PurchaseDate) == CellOf(b, PurchaseDate);
    assert CellOf(a, Item) == CellOf(b, Item);
    assert CellOf(a, Marketplace) == CellOf(b, Marketplace);
  }

  lemma SameNumberCells(a: Row, b: Row)
    requires forall f :: IsNumberField(f) ==> CellOf(a, f) == CellOf(b, f)
    ensures a.hammer == b.hammer && a.buyerPremium == b.buyerPremium && a.lotFee == b.lotFee
    ensures a.tax == b.tax && a.paidTotal == b.paidTotal && a.soldFor == b.soldFor
    ensures a.marketplaceFees == b.marketplaceFees && a.shippingCost == b.shippingCost
    ensures a.realizedProfit == b.realizedProfit
  {
    assert CellOf(a, Hammer) == CellOf(b, Hammer);
    assert CellOf(a, BuyerPremium) == CellOf(b, BuyerPremium);
    assert CellOf(a, LotFee) == CellOf(b, LotFee);
    assert CellOf(a, Tax) == CellOf(b, Tax);
    assert CellOf(a, PaidTotal) == CellOf(b, PaidTotal);
    assert CellOf(a, SoldFor) == CellOf(b, SoldFor);
    assert CellOf(a, MarketplaceFees) == CellOf(b, MarketplaceFees);
    assert CellOf(a, ShippingCost) == CellOf(b, ShippingCost);
    assert CellOf(a, RealizedProfit) == CellOf(b, RealizedProfit);
  }

  /** A number column rendered from `row` decodes back to the same number. */
  lemma DecodedNumber(row: Row, rec: CsvRecord, f: Field)
    requires IsNumberField(f) && Header(f) in rec && RendersAs(CellOf(row, f), rec[Header(f)])
    ensures CellOf(FromCsvRecord(rec), f) == CellOf(row, f)
  {
    FromCsvRecordNumbers(rec, f);
  }

  /** A text column other than the invoice decodes back verbatim. */
  lemma DecodedText(row: Row, rec: CsvRecord, f: Field)
    requires IsTextField(f) && f != Invoice && Header(f) in rec && RendersAs(CellOf(row, f), rec[Header(f)])
    ensures CellOf(FromCsvRecord(rec), f) == CellOf(row, f)
  {
    FromCsvRecordTexts(rec, f);
  }

  /** A trimmed invoice decodes back unchanged. */
  lemma DecodedInvoice(row: Row, rec: CsvRecord)
    requires "Invoice" in rec && rec["Invoice"] == row.invoice && JsText.IsTrimmed(row.invoice)
    ensures FromCsvRecord(rec).invoice == row.invoice
  {
    JsText.TrimKeepsTrimmed(row.invoice);
  }

  /** Every column but the ROI of a rendering of `toCsvRecord(row)` decodes back to its cell. */
  lemma DecodedCells(row: Row, rec: CsvRecord)
    requires JsText.IsTrimmed(row.invoice)
    requires forall f :: f != RealizedRoi ==> Header(f) in rec && RendersAs(ToCsvRecord(row)[Header(f)], rec[Header(f)])
    ensures forall f :: f != RealizedRoi ==> CellOf(FromCsvRecord(rec), f) == CellOf(row, f)
  {
    forall f | f != RealizedRoi
      ensures CellOf(FromCsvRecord(rec), f) == CellOf(row, f)
    {
      assert RendersAs(CellOf(row, f), rec[Header(f)]);
      if f == Invoice {
        DecodedInvoice(row, rec);
      } else if IsNumberField(f) {
        DecodedNumber(row, rec, f);
      } else {
        DecodedText(row, rec, f);
      }
    }
  }

  /**
   * Decoding a rendering of `toCsvRecord(row)` restores every field of a row with a
   * trimmed invoice, except `realizedRoi`, which comes back as the text of its cell.
   */
  lemma DecodeEncoded(row: Row, rec: CsvRecord)
    requires JsText.IsTrimmed(row.invoice)
    requires forall f :: f != RealizedRoi ==> Header(f) in rec && RendersAs(ToCsvRecord(row)[Header(f)], rec[Header(f)])
    ensures FromCsvRecord(rec) == row.(realizedRoi := RoiFromText(TextOf(rec, "Realized_ROI")))
  {
    var d := FromCsvRecord(rec);
    DecodedCells(row, rec);
    SameCells(d, row);
    assert d.realizedRoi == RoiFromText(TextOf(rec, "Realized_ROI"));
  }

  /** So recomputing the financials after a round trip gives what recomputing them on the original gives. */
  lemma DecodeEncodedComputes(row: Row, rec: CsvRecord)
    requires JsText.IsTrimmed(row.invoice)
    requires forall f :: f != RealizedRoi ==> Header(f) in rec && RendersAs(ToCsvRecord(row)[Header(f)], rec[Header(f)])
    ensures ComputeFinancials(FromCsvRecord(rec)) == ComputeFinancials(row)
  {
    DecodeEncoded(row, rec);
    ComputeIgnoresRoi(row, FromCsvRecord(rec));
  }

  /** The calculator does not read `realizedRoi`. */
  lemma ComputeIgnoresRoi(a: Row, b: Row)
    requires a == b.(realizedRoi := a.realizedRoi)
    ensures ComputeFinancials(a) == ComputeFinancials(b)
  {
  }

  /**
   * A row whose `realizedRoi` is not a computed ratio, and is written as `""` when empty,
   * decodes back exactly from a rendering of all 14 columns.
   */
  lemma DecodeEncodedExactly(row: Row, rec: CsvRecord)
    requires JsText.IsTrimmed(row.invoice) && !row.realizedRoi.Ratio? && row.realizedRoi != Raw("")
    requires forall f :: Header(f) in rec && RendersAs(ToCsvRecord(row)[Header(f)], rec[Header(f)])
    ensures FromCsvRecord(rec) == row
  {
    DecodeEncoded(row, rec);
    assert RendersAs(ToCsvRecord(row)[Header(RealizedRoi)], rec[Header(RealizedRoi)]);
    RoiColumn(row);
    RoiRoundTrip(row.realizedRoi, rec["Realized_ROI"]);
  }

  /** ROI text decodes back to the ROI it renders, unless that was a ratio or `Raw("")`. */
  lemma RoiRoundTrip(roi: Roi, s: string)
    requires !roi.Ratio? && roi != Raw("") && RendersAs(RoiCell(roi), s)
    ensures RoiFromText(s) == roi
  {
  }

  // ---------------------------------------------------------------------------
  // computeFinancials
  // ---------------------------------------------------------------------------

  /** `hasSale`: the sale price is a finite number above zero. */
  predicate HasSale(row: Row)
  {
    row.soldFor.Finite? && row.soldFor.value > 0.0
  }

  /** Sale price less fees, shipping and the amount paid, before rounding. */
  function RawProfit(row: Row): Num
  {
    Sub(Sub(Sub(row.soldFor, row.marketplaceFees), row.shippingCost), row.paidTotal)
  }

  /**
   * `computeFinancials`: on a sale, the profit is recomputed and rounded to cents;
   * otherwise it is kept. The ROI is profit over paid only on a sale with a truthy paid
   * total, and the empty marker otherwise. Every other field is unchanged.
   */
  function ComputeFinancials(row: Row): (r: Row)
    ensures r == row.(realizedProfit := r.realizedProfit, realizedRoi := r.realizedRoi)
    ensures HasSale(row) ==> r.realizedProfit == ToFixed2(RawProfit(row))
    ensures !HasSale(row) ==> r.realizedProfit == row.realizedProfit
    ensures r.realizedRoi.Ratio? <==> HasSale(row) && Truthy(row.paidTotal)
    ensures r.realizedRoi.Ratio? ==> r.realizedRoi.ratio == Div(r.realizedProfit, row.paidTotal)
    ensures !r.realizedRoi.Ratio? ==> r.realizedRoi == Empty
  {
    var hasSale := HasSale(row);
    var realizedProfit := if hasSale then ToFixed2(RawProfit(row)) else row.realizedProfit;
    var realizedRoi := if hasSale && Truthy(row.paidTotal) then Ratio(Div(realizedProfit, row.paidTotal)) else Empty;
    row.(realizedProfit := realizedProfit, realizedRoi := realizedRoi)
  }

  /** Recomputing is harmless: the calculator is idempotent. */
  lemma ComputeIdempotent(row: Row)
    ensures ComputeFinancials(ComputeFinancials(row)) == ComputeFinancials(row)
  {
  }

  /** The blank template is already computed. */
  lemma ComputeEmptyRow()
    ensures ComputeFinancials(EmptyRow) == EmptyRow
  {
  }

  /**
   * The ROI is never a division by zero, and on a row of finite numbers with a sale and
   * a non-zero paid total it is the finite ratio of the rounded profit, which lies within
   * half a cent of the exact one, to the paid total.
   */
  lemma ComputeNeverDividesByZero(row: Row)
    ensures ComputeFinancials(row).realizedRoi.Ratio? ==> row.paidTotal != Finite(0.0) && !row.paidTotal.NaN?
    ensures NumbersFinite(row) && HasSale(row) && row.paidTotal != Finite(0.0) ==>
      var r := ComputeFinancials(row);
      var exact := row.soldFor.value - row.marketplaceFees.value - row.shippingCost.value - row.paidTotal.value;
      && r.realizedProfit == Finite(Round2(exact))
      && r.realizedRoi == Ratio(Finite(Round2(exact) / row.paidTotal.value))
  {
  }

  /** On a row of finite numbers with a sale, the profit is whole cents within half a cent of the exact profit. */
  lemma ProfitIsRoundedToCents(row: Row) returns (cents: int)
    requires NumbersFinite(row) && HasSale(row)
    requires -1e21 < RawProfit(row).value < 1e21
    ensures ComputeFinancials(row).realizedProfit == Finite(cents as real / 100.0)
    ensures -0.005 <= cents as real / 100.0 - RawProfit(row).value <= 0.005
  {
    cents := Round2Close(RawProfit(row).value);
  }

  /**
   * The rounded profit, written as fixed-point text with its sign and two decimals, is read
   * back by `normalizeNumber` as the same number: negative profits included.
   */
  lemma ProfitRendersAsCents(row: Row) returns (cents: int)
    requires NumbersFinite(row) && HasSale(row)
    requires -1e21 < RawProfit(row).value < 1e21
    ensures ComputeFinancials(row).realizedProfit == Finite(cents as real / 100.0)
    ensures RendersAs(Number(ComputeFinancials(row).realizedProfit), CentsText(cents))
  {
    cents := ProfitIsRoundedToCents(row);
    NormalizeCents(cents);
  }

  /** A row with only the named fields set (the rest blank). */
  function SaleLine(soldFor: real, fees: real, shipping: real, paid: real, profit: real): Row
  {
    EmptyRow.(soldFor := Finite(soldFor), marketplaceFees := Finite(fees),
              shippingCost := Finite(shipping), paidTotal := Finite(paid),
              realizedProfit := Finite(profit))
  }

  /** A sold line: 100 less 10 fees, 5 shipping and 50 paid is 35 profit, a ROI of 0.7. */
  lemma ComputeSoldLine()
    ensures var r := ComputeFinancials(SaleLine(100.0, 10.0, 5.0, 50.0, 0.0));
      r.realizedProfit == Finite(35.0) && r.realizedRoi == Ratio(Finite(0.7))
  {
    assert (35.0 * 100.0 + 0.5).Floor == 3500;
  }

  /** An unsold line keeps its profit and has no ROI. */
  lemma ComputeUnsoldLine()
    ensures var r := ComputeFinancials(SaleLine(0.0, 0.0, 0.0, 50.0, 0.0));
      r.realizedProfit == Finite(0.0) && r.realizedRoi == Empty
  {
  }

  /** A sold line with nothing paid has a profit but no ROI. */
  lemma ComputeUnpaidLine()
    ensures var r := ComputeFinancials(SaleLine(20.0, 0.0, 0.0, 0.0, 0.0));
      r.realizedProfit == Finite(20.0) && r.realizedRoi == Empty
  {
    assert (20.0 * 100.0 + 0.5).Floor == 2000;
  }
}
