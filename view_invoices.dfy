/** The invoice list page: the amount formatting it shows, the newest-first
    order of the fetched invoices, and the rows, padding and file name of
    the invoice PDF it generates. */
module ViewInvoices {
  import opened Base
  import opened Text
  import opened JsNumber
  import opened InvoiceModel

  // ---------------------------------------------------------------------
  // Amount formatting

  /** `formatAED(amount)`: `None` is an amount `parseFloat` reads as `NaN`
      (a missing one). Any other amount is printed with two decimals,
      grouped in threes, after "AED ". */
  function FormatAED(amount: Option<real>): (s: string)
    ensures |s| >= 4 && s[..4] == "AED "
    ensures amount.None? ==> s == "AED 0.00"
    ensures amount.Some? ==> ParseFloat(WithoutCommas(s[4..])) == Some(Fixed2(amount.value))
  {
    if amount.None? then "AED 0.00"
    else
      var text := ToLocaleFixed2(amount.value);
      assert ("AED " + text)[4..] == text;
      LocaleWithoutCommas(amount.value);
      ParseToFixed2(amount.value);
      "AED " + text
  }

  /** `formatCurrency(num)` inside the PDF generator: the same formatting
      without the currency prefix, "0.00" for `NaN`. */
  function FormatCurrency(num: Option<real>): (s: string)
    ensures num.None? ==> s == "0.00"
    ensures num.Some? ==> ParseFloat(WithoutCommas(s)) == Some(Fixed2(num.value))
  {
    if num.None? then "0.00"
    else
      LocaleWithoutCommas(num.value);
      ParseToFixed2(num.value);
      ToLocaleFixed2(num.value)
  }

  /** `parseFloat(invoice?.grandTotal || 0)`: a missing grand total counts
      as zero. */
  function PdfGrandTotal(grandTotal: Option<real>): (g: real)
    ensures grandTotal.None? ==> g == 0.0
    ensures grandTotal.Some? ==> g == grandTotal.value
  {
    grandTotal.GetOr(0.0)
  }

  // ---------------------------------------------------------------------
  // Newest first

  /** The fetched invoices sorted by `createdAt`, newest first. */
  function NewestFirst(invoices: seq<Invoice>): (r: seq<Invoice>)
    ensures |r| == |invoices|
    decreases |invoices|
  {
    if invoices == [] then []
    else InsertByDate(invoices[0], NewestFirst(invoices[1..]))
  }

  /** Inserts `inv` before the first invoice that is not newer than it. */
  function InsertByDate(inv: Invoice, sorted: seq<Invoice>): (r: seq<Invoice>)
    ensures |r| == |sorted| + 1
    ensures multiset(r) == multiset(sorted) + multiset{inv}
    decreases |sorted|
  {
    if sorted == [] || sorted[0].createdAt <= inv.createdAt then [inv] + sorted
    else
      var rest := InsertByDate(inv, sorted[1..]);
      assert sorted == [sorted[0]] + sorted[1..];
      [sorted[0]] + rest
  }

  predicate NewestFirstOrder(s: seq<Invoice>) {
    forall i, j :: 0 <= i < j < |s| ==> s[i].createdAt >= s[j].createdAt
  }

  lemma {:induction false} InsertKeepsOrder(inv: Invoice, sorted: seq<Invoice>)
    requires NewestFirstOrder(sorted)
    ensures NewestFirstOrder(InsertByDate(inv, sorted))
    ensures InsertByDate(inv, sorted)[0] == inv || (sorted != [] && InsertByDate(inv, sorted)[0] == sorted[0])
    decreases |sorted|
  {
    if sorted != [] && sorted[0].createdAt > inv.createdAt {
      InsertKeepsOrder(inv, sorted[1..]);
    }
  }

  /** The sorted list holds the same invoices, newest first. */
  lemma {:induction false} NewestFirstSorted(invoices: seq<Invoice>)
    ensures NewestFirstOrder(NewestFirst(invoices))
    ensures multiset(NewestFirst(invoices)) == multiset(invoices)
    decreases |invoices|
  {
    if invoices != [] {
      NewestFirstSorted(invoices[1..]);
      InsertKeepsOrder(invoices[0], NewestFirst(invoices[1..]));
      assert invoices == [invoices[0]] + invoices[1..];
    }
  }

  // ---------------------------------------------------------------------
  // The PDF table

  /** An item as the PDF generator reads it. `weightText` is what the
      template literal prints for the weight. For `rate` and `amount`,
      `None` stands for `undefined` only: a saved item's rate and amount
      are required Numbers, so they are never `null` (which `* 0.05` would
      turn into 0) nor `NaN` (which `toFixed` would print as "NaN"). */
  datatype ShownItem = ShownItem(
    itemName: Option<string>, ct: Option<string>, clarity: Option<string>,
    color: Option<string>, material: Option<string>, kind: Option<string>,
    weightText: string, rate: Option<real>, amount: Option<real>)

  /** A JavaScript string value that is truthy: present and not empty. */
  predicate Truthy(v: Option<string>) {
    v.Some? && v.value != ""
  }

  function Part(v: Option<string>, before: string, after: string): seq<string> {
    if Truthy(v) then [before + v.value + after] else []
  }

  /** The description lines kept by `filter(Boolean)`, in order. */
  function DescriptionParts(it: ShownItem): (parts: seq<string>)
    ensures forall i :: 0 <= i < |parts| ==> parts[i] != ""
    ensures parts == [] <==> !Truthy(it.itemName) && !Truthy(it.ct) && !Truthy(it.clarity)
                             && !Truthy(it.color) && !Truthy(it.material) && !Truthy(it.kind)
  {
    Part(it.itemName, "Diamond ", "") + Part(it.ct, "Diamond: ", " CT")
    + Part(it.clarity, "Clarity: ", "") + Part(it.color, "Color: ", "")
    + Part(it.material, "Material: ", "") + Part(it.kind, "", " - " + it.weightText + " GM")
  }

  /** `desc || 'No Description'`. */
  function Description(it: ShownItem): (d: string)
    ensures DescriptionParts(it) == [] ==> d == "No Description"
    ensures DescriptionParts(it) != [] ==> d == Join(DescriptionParts(it), "\n\n")
  {
    var desc := Join(DescriptionParts(it), "\n\n");
    if desc == "" then "No Description" else desc
  }

  lemma {:induction false} JoinHasPart(parts: seq<string>, sep: string, i: nat)
    requires i < |parts|
    ensures Includes(Join(parts, sep), parts[i])
    decreases |parts|
  {
    var j := Join(parts, sep);
    if |parts| == 1 {
      assert j[0..|parts[0]|] == parts[0];
      assert OccursAt(j, parts[i], 0);
    } else {
      var rest := Join(parts[1..], sep);
      assert j == parts[0] + sep + rest;
      if i == 0 {
        assert j[0..|parts[0]|] == parts[0];
        assert OccursAt(j, parts[0], 0);
      } else {
        JoinHasPart(parts[1..], sep, i - 1);
        var p: nat :| p <= |rest| && OccursAt(rest, parts[i], p);
        var q := |parts[0]| + |sep| + p;
        assert j[q..q + |parts[i]|] == rest[p..p + |parts[i]|];
        assert OccursAt(j, parts[i], q);
      }
    }
  }

  /** The description cell is never empty and mentions every truthy field
      of the item. */
  lemma DescriptionMentionsParts(it: ShownItem)
    ensures Description(it) != ""
    ensures forall i :: 0 <= i < |DescriptionParts(it)| ==> Includes(Description(it), DescriptionParts(it)[i])
  {
    var parts := DescriptionParts(it);
    forall i | 0 <= i < |parts|
      ensures Includes(Description(it), parts[i])
    {
      JoinHasPart(parts, "\n\n", i);
    }
    if parts != [] {
      JoinHasPart(parts, "\n\n", 0);
    }
  }

  /** One row of the PDF table body. */
  datatype Row =
    | ItemRow(serial: string, description: string, qty: string, unitPrice: string, vat: string, total: string)
    | GrandTotalRow(amount: string)

  const BlankRow := ItemRow("", "", "", "", "", "")

  /** `item.rate?.toFixed(2) || '0.00'`. */
  function UnitPrice(rate: Option<real>): (s: string)
    ensures rate.None? ==> s == "0.00"
    ensures rate.Some? ==> ParseFloat(s) == Some(Fixed2(rate.value))
  {
    if rate.None? then "0.00"
    else
      ParseToFixed2(rate.value);
      ToFixed2(rate.value)
  }

  /** `(item.amount * 0.05).toFixed(2)`; an `undefined` amount gives `NaN`. */
  function VatText(amount: Option<real>): (s: string)
    ensures amount.None? ==> s == "NaN"
    ensures amount.Some? ==> ParseFloat(s) == Some(Fixed2(amount.value * 0.05))
  {
    if amount.None? then "NaN"
    else
      ParseToFixed2(amount.value * 0.05);
      ToFixed2(amount.value * 0.05)
  }

  /** `(item.amount + parseFloat(vat)).toFixed(2)`. */
  function TotalText(amount: Option<real>, vat: string): (s: string)
    ensures amount.None? || ParseFloat(vat).None? ==> s == "NaN"
    ensures amount.Some? && ParseFloat(vat).Some? ==>
              ParseFloat(s) == Some(Fixed2(amount.value + ParseFloat(vat).value))
  {
    var v := ParseFloat(vat);
    if amount.None? || v.None? then "NaN"
    else
      ParseToFixed2(amount.value + v.value);
      ToFixed2(amount.value + v.value)
  }

  /** The row for the item at `index`: serial, description, the index
      padded as quantity, unit price, VAT and total. */
  function ItemRowOf(it: ShownItem, index: nat): Row {
    var serial := NatToString(index + 1);
    var vat := VatText(it.amount);
    ItemRow(serial, Description(it), PadStart(serial, 2, '0'), UnitPrice(it.rate), vat, TotalText(it.amount, vat))
  }

  /** The serial is `index + 1`, and the quantity column is the same number
      padded to two digits. */
  lemma RowNumbering(it: ShownItem, index: nat)
    ensures var r := ItemRowOf(it, index);
            && AllDigits(r.serial) && DigitsValue(r.serial) == index + 1
            && AllDigits(r.qty) && DigitsValue(r.qty) == index + 1
            && |r.qty| >= 2 && (index < 9 <==> r.qty == "0" + r.serial)
  {
    var serial := NatToString(index + 1);
    DigitsValueOfNatToString(index + 1);
    var qty := PadStart(serial, 2, '0');
    if |serial| >= 2 {
      assert qty == serial;
      assert qty != "0" + serial;
    } else {
      assert qty == Repeat('0', 1) + serial;
      DigitsValueLeadingZeros(1, serial);
      assert Repeat('0', 1) == "0";
    }
  }

  /** With an amount, the VAT cell reads back as five percent of it
      rounded to the hundredth, and the total cell as the amount plus that
      VAT, again rounded: within one hundredth of 105% of the amount. */
  lemma RowAmounts(it: ShownItem, index: nat)
    requires it.amount.Some?
    ensures var r := ItemRowOf(it, index);
            var a := it.amount.value;
            && ParseFloat(r.vat) == Some(Fixed2(a * 0.05))
            && ParseFloat(r.total) == Some(Fixed2(a + Fixed2(a * 0.05)))
            && -0.01 <= Fixed2(a + Fixed2(a * 0.05)) - a * 1.05 <= 0.01
  {
    RowVat(it, index);
    RowTotal(it, index);
    TotalError(it.amount.value);
  }

  lemma RowVat(it: ShownItem, index: nat)
    requires it.amount.Some?
    ensures ParseFloat(ItemRowOf(it, index).vat) == Some(Fixed2(it.amount.value * 0.05))
  {
    VatCell(it, index);
    VatValue(it.amount);
  }

  lemma RowTotal(it: ShownItem, index: nat)
    requires it.amount.Some?
    ensures ParseFloat(ItemRowOf(it, index).total) == Some(Fixed2(it.amount.value + Fixed2(it.amount.value * 0.05)))
  {
    TotalCell(it, index);
    TotalValue(it.amount);
  }

  lemma VatCell(it: ShownItem, index: nat)
    ensures ParseFloat(ItemRowOf(it, index).vat) == ParseFloat(VatText(it.amount))
  {
  }

  lemma TotalCell(it: ShownItem, index: nat)
    ensures ParseFloat(ItemRowOf(it, index).total) == ParseFloat(TotalText(it.amount, VatText(it.amount)))
  {
  }

  lemma VatValue(amount: Option<real>)
    requires amount.Some?
    ensures ParseFloat(VatText(amount)) == Some(Fixed2(amount.value * 0.05))
  {
  }

  lemma TotalValue(amount: Option<real>)
    requires amount.Some?
    ensures ParseFloat(TotalText(amount, VatText(amount))) == Some(Fixed2(amount.value + Fixed2(amount.value * 0.05)))
  {
    VatValue(amount);
    TotalOf(amount, VatText(amount), Fixed2(amount.value * 0.05));
  }

  lemma TotalOf(amount: Option<real>, vat: string, v: real)
    requires amount.Some? && ParseFloat(vat) == Some(v)
    ensures ParseFloat(TotalText(amount, vat)) == Some(Fixed2(amount.value + v))
  {
  }

  /** Two roundings to the hundredth stay within a hundredth of 105%. */
  lemma TotalError(a: real)
    ensures -0.01 <= Fixed2(a + Fixed2(a * 0.05)) - a * 1.05 <= 0.01
  {
    var v := Fixed2(a * 0.05);
    var t := Fixed2(a + v);
    assert -0.005 <= v - a * 0.05 <= 0.005 by { Fixed2Error(a * 0.05); }
    assert -0.005 <= t - (a + v) <= 0.005 by { Fixed2Error(a + v); }
  }

  /** With an `undefined` amount both computed cells read `NaN`. */
  lemma RowWithoutAmount(it: ShownItem, index: nat)
    requires it.amount.None?
    ensures ItemRowOf(it, index).vat == "NaN" && ItemRowOf(it, index).total == "NaN"
  {
  }

  /** `invoice.items.map(...)`. */
  function ItemRows(items: seq<ShownItem>): (rows: seq<Row>)
    ensures |rows| == |items|
    ensures forall i :: 0 <= i < |items| ==> rows[i] == ItemRowOf(items[i], i)
  {
    seq(|items|, i requires 0 <= i < |items| => ItemRowOf(items[i], i))
  }

  /** `Math.floor((pageHeight * 0.75 - tableStartY) / approxRowHeight)` with
      the table starting at 75 mm and rows of about 8 mm. */
  function MaxTableRows(pageHeight: real): int {
    ((pageHeight * 0.75 - 75.0) / 8.0).Floor
  }

  /** The height of the portrait A4 page the PDF is created on, in mm. */
  const A4Height: real := 297.0

  /** An A4 page takes 18 table rows. */
  lemma A4TableRows()
    ensures MaxTableRows(A4Height) == 18
  {
    assert (A4Height * 0.75 - 75.0) / 8.0 == 18.46875;
  }

  /** `Math.max(0, maxTableRows - tableBody.length - 1)`. */
  function BlankRowsNeeded(maxRows: int, itemCount: nat): nat {
    if maxRows - itemCount - 1 > 0 then maxRows - itemCount - 1 else 0
  }

  /** The rows of the table body: items, blank padding, the total row. */
  function TableLength(maxRows: int, itemCount: nat): nat {
    itemCount + BlankRowsNeeded(maxRows, itemCount) + 1
  }

  /** A short invoice fills the page's rows exactly; a long one gets no
      padding, only its total row. */
  lemma TableFillsPage(maxRows: int, itemCount: nat)
    ensures itemCount < maxRows ==> TableLength(maxRows, itemCount) == maxRows
    ensures itemCount >= maxRows - 1 ==> TableLength(maxRows, itemCount) == itemCount + 1
    ensures TableLength(maxRows, itemCount) >= maxRows && TableLength(maxRows, itemCount) >= itemCount + 1
  {
  }

  /** Builds the table body: the item rows, then blank rows pushed one by
      one, then the grand-total row. */
  method BuildTableBody(items: seq<ShownItem>, grandTotal: Option<real>, maxRows: int)
    returns (body: seq<Row>)
    ensures |body| == TableLength(maxRows, |items|)
    ensures forall i :: 0 <= i < |items| ==> body[i] == ItemRowOf(items[i], i)
    ensures forall i :: |items| <= i < |body| - 1 ==> body[i] == BlankRow
    ensures body[|body| - 1] == GrandTotalRow(FormatCurrency(Some(PdfGrandTotal(grandTotal))))
  {
    body := ItemRows(items);
    var total := PdfGrandTotal(grandTotal);
    var blankRowsNeeded := BlankRowsNeeded(maxRows, |body|);
    for i := 0 to blankRowsNeeded
      invariant |body| == |items| + i
      invariant forall k :: 0 <= k < |items| ==> body[k] == ItemRowOf(items[k], k)
      invariant forall k :: |items| <= k < |body| ==> body[k] == BlankRow
    {
      body := body + [BlankRow];
    }
    body := body + [GrandTotalRow(FormatCurrency(Some(total)))];
  }

  // ---------------------------------------------------------------------
  // File name

  /** The characters `/[^a-z0-9_.-]/gi` leaves alone. */
  predicate SafeChar(c: char) {
    ('a' <= c <= 'z') || ('A' <= c <= 'Z') || ('0' <= c <= '9') || c == '_' || c == '.' || c == '-'
  }

  /** `.replace(/[^a-z0-9_.-]/gi, '_')`. */
  function Sanitise(s: string): (r: string)
    ensures |r| == |s|
    ensures forall i :: 0 <= i < |s| ==> r[i] == if SafeChar(s[i]) then s[i] else '_'
  {
    if s == [] then []
    else [if SafeChar(s[0]) then s[0] else '_'] + Sanitise(s[1..])
  }

  /** The sanitised text holds safe characters only, keeps every safe
      character where it was, and sanitising it again changes nothing. */
  lemma SanitiseSafe(s: string)
    ensures forall i :: 0 <= i < |Sanitise(s)| ==> SafeChar(Sanitise(s)[i])
    ensures (forall i :: 0 <= i < |s| ==> SafeChar(s[i])) ==> Sanitise(s) == s
    ensures Sanitise(Sanitise(s)) == Sanitise(s)
  {
  }

  /** `String(invoice?.invoiceNumber || 'NoNumber')`, sanitised. */
  function SafeInvoiceNumber(invoiceNumber: Option<string>): (r: string)
    ensures !Truthy(invoiceNumber) ==> r == "NoNumber"
    ensures Truthy(invoiceNumber) ==> |r| == |invoiceNumber.value|
    ensures Truthy(invoiceNumber) ==>
              forall i :: 0 <= i < |r| ==>
                r[i] == if SafeChar(invoiceNumber.value[i]) then invoiceNumber.value[i] else '_'
    ensures forall i :: 0 <= i < |r| ==> SafeChar(r[i])
  {
    var name := if Truthy(invoiceNumber) then invoiceNumber.value else "NoNumber";
    assert Sanitise("NoNumber") == "NoNumber" by {
      SanitiseSafe("NoNumber");
    }
    SanitiseSafe(name);
    Sanitise(name)
  }

  /** The name the PDF is saved under. */
  function PdfFileName(invoiceNumber: Option<string>): (name: string)
    ensures |name| == |SafeInvoiceNumber(invoiceNumber)| + 12
    ensures name[8..|name| - 4] == SafeInvoiceNumber(invoiceNumber)
    ensures name[..8] == "Invoice_" && name[|name| - 4..] == ".pdf"
  {
    "Invoice_" + SafeInvoiceNumber(invoiceNumber) + ".pdf"
  }

  /** A generated invoice number names its file unchanged. */
  lemma GeneratedNumberFileName(n: string)
    requires n != [] && forall i :: 0 <= i < |n| ==> SafeChar(n[i])
    ensures PdfFileName(Some(n)) == "Invoice_" + n + ".pdf"
  {
    SanitiseSafe(n);
  }
}
