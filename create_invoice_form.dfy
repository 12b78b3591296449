/** The invoice entry form: the customer fields, the editable list of line
    items with each item's amount recomputed from weight and rate, the
    derived subtotal, VAT and grand total, and the payload sent on submit. */
module CreateInvoiceForm {
  import opened Base
  import opened Text
  import opened JsNumber
  import opened InvoiceModel
  import InvoiceCreation

  datatype CustomerForm = CustomerForm(name: string, phone: string, address: string)

  /** The `name` attribute of a customer input. */
  datatype CustomerField = Name | Phone | Address

  /** One row of the form. Every input holds text; `amount` holds the value
      of the `toFixed(2)` string last computed for the row (0 initially). */
  datatype FormItem = FormItem(kind: string, itemName: string, weight: string, rate: string,
                               clarity: string, ct: string, color: string, amount: real)

  /** The item fields an input edits; the read-only amount is not one. */
  datatype ItemField = Kind | ItemName | Weight | Rate | Clarity | Ct | Color

  const BlankCustomer: CustomerForm := CustomerForm("", "", "")

  const BlankItem: FormItem := FormItem("", "", "", "", "", "", "", 0.0)

  /** `GST_RATE`, in percent. */
  const GstRate: real := 5.0

  function CustomerValue(c: CustomerForm, f: CustomerField): string {
    match f
    case Name => c.name
    case Phone => c.phone
    case Address => c.address
  }

  /** `{ ...customer, [name]: value }`. */
  function SetCustomerField(c: CustomerForm, f: CustomerField, v: string): (r: CustomerForm)
    ensures CustomerValue(r, f) == v
    ensures forall g :: g != f ==> CustomerValue(r, g) == CustomerValue(c, g)
  {
    match f
    case Name => c.(name := v)
    case Phone => c.(phone := v)
    case Address => c.(address := v)
  }

  function FieldValue(it: FormItem, f: ItemField): string {
    match f
    case Kind => it.kind
    case ItemName => it.itemName
    case Weight => it.weight
    case Rate => it.rate
    case Clarity => it.clarity
    case Ct => it.ct
    case Color => it.color
  }

  /** `item[field] = value`. */
  function SetField(it: FormItem, f: ItemField, v: string): (r: FormItem)
    ensures FieldValue(r, f) == v
    ensures forall g :: g != f ==> FieldValue(r, g) == FieldValue(it, g)
    ensures r.amount == it.amount
  {
    match f
    case Kind => it.(kind := v)
    case ItemName => it.(itemName := v)
    case Weight => it.(weight := v)
    case Rate => it.(rate := v)
    case Clarity => it.(clarity := v)
    case Ct => it.(ct := v)
    case Color => it.(color := v)
  }

  /** `(parseFloat(weight) || 0) * (parseFloat(rate) || 0)`, to two
      decimals. */
  function LineAmount(weight: string, rate: string): (a: real)
    ensures -0.005 <= a - OrZero(ParseFloat(weight)) * OrZero(ParseFloat(rate)) <= 0.005
  {
    var product := OrZero(ParseFloat(weight)) * OrZero(ParseFloat(rate));
    Fixed2Error(product);
    Fixed2(product)
  }

  /** The row after one input changes: the field takes the new text, and a
      change of weight or rate recomputes the amount from the row's new
      weight and rate. */
  function EditItem(it: FormItem, f: ItemField, v: string): (r: FormItem)
    ensures FieldValue(r, f) == v
    ensures forall g :: g != f ==> FieldValue(r, g) == FieldValue(it, g)
    ensures r.amount == if f == Weight || f == Rate then LineAmount(r.weight, r.rate) else it.amount
  {
    var edited := SetField(it, f, v);
    if f == Weight || f == Rate then edited.(amount := LineAmount(edited.weight, edited.rate))
    else edited
  }

  /** `handleItemChange(index, field, value)`: only the row at `index`
      changes; an index with no row makes the assignment throw before the
      state is set, so nothing changes. */
  function EditItems(items: seq<FormItem>, index: int, f: ItemField, v: string): (r: seq<FormItem>)
    ensures |r| == |items|
    ensures 0 <= index < |items| ==> r[index] == EditItem(items[index], f, v)
    ensures forall j :: 0 <= j < |items| && j != index ==> r[j] == items[j]
  {
    if 0 <= index < |items| then items[index := EditItem(items[index], f, v)] else items
  }

  /** `items.filter((_, idx) => idx !== index)`. */
  function RemoveAt<T>(s: seq<T>, index: int): (r: seq<T>)
    ensures 0 <= index < |s| ==> r == s[..index] + s[index + 1..]
    ensures !(0 <= index < |s|) ==> r == s
  {
    if s == [] then []
    else
      var kept := RemoveAt(s[..|s| - 1], index);
      var last := if |s| - 1 == index then [] else [s[|s| - 1]];
      assert s[..|s| - 1] + [s[|s| - 1]] == s;
      kept + last
  }

  /** `items.reduce((sum, item) => sum + parseFloat(item.amount || 0), 0)`. */
  function Subtotal(items: seq<FormItem>): real {
    if items == [] then 0.0 else Subtotal(items[..|items| - 1]) + items[|items| - 1].amount
  }

  /** `(subtotal * GST_RATE) / 100`. */
  function Gst(subtotal: real): real {
    subtotal * GstRate / 100.0
  }

  /** `subtotal + gst`: the subtotal with 5% added. */
  function GrandTotal(subtotal: real): (t: real)
    ensures t == subtotal * 105.0 / 100.0
    ensures t - subtotal == Gst(subtotal)
  {
    subtotal + Gst(subtotal)
  }

  /** The subtotal of two lists one after the other is the sum of theirs. */
  lemma {:induction false} SubtotalConcat(a: seq<FormItem>, b: seq<FormItem>)
    ensures Subtotal(a + b) == Subtotal(a) + Subtotal(b)
    decreases |b|
  {
    if b == [] {
      assert a + b == a;
    } else {
      assert (a + b)[..|a + b| - 1] == a + b[..|b| - 1];
      SubtotalConcat(a, b[..|b| - 1]);
    }
  }

  lemma SubtotalSingle(it: FormItem)
    ensures Subtotal([it]) == it.amount
  {
    assert [it][..0] == [];
  }

  /** Appending a blank row leaves the subtotal as it was. */
  lemma SubtotalAddBlank(items: seq<FormItem>)
    ensures Subtotal(items + [BlankItem]) == Subtotal(items)
  {
    SubtotalConcat(items, [BlankItem]);
    SubtotalSingle(BlankItem);
  }

  /** Removing a row takes its amount off the subtotal; a missing index
      changes nothing. */
  lemma SubtotalRemove(items: seq<FormItem>, index: int)
    ensures 0 <= index < |items| ==> Subtotal(RemoveAt(items, index)) == Subtotal(items) - items[index].amount
    ensures !(0 <= index < |items|) ==> Subtotal(RemoveAt(items, index)) == Subtotal(items)
  {
    if 0 <= index < |items| {
      SubtotalSplit(items, index);
      SubtotalConcat(items[..index], items[index + 1..]);
    }
  }

  /** The subtotal of a list is that of the rows before `index`, plus the
      row at `index`, plus the rows after it. */
  lemma SubtotalSplit(items: seq<FormItem>, index: nat)
    requires index < |items|
    ensures Subtotal(items) == Subtotal(items[..index]) + items[index].amount + Subtotal(items[index + 1..])
  {
    var a := items[..index];
    var x := items[index];
    var b := items[index + 1..];
    assert items == (a + [x]) + b;
    SubtotalConcat(a + [x], b);
    SubtotalConcat(a, [x]);
    SubtotalSingle(x);
  }

  /** Editing a row moves the subtotal by the change in that row's amount
      only; editing a field other than weight or rate leaves it as it was. */
  lemma SubtotalEdit(items: seq<FormItem>, index: int, f: ItemField, v: string)
    ensures 0 <= index < |items| ==>
              Subtotal(EditItems(items, index, f, v))
                == Subtotal(items) - items[index].amount + EditItem(items[index], f, v).amount
    ensures !(0 <= index < |items|) || (f != Weight && f != Rate) ==>
              Subtotal(EditItems(items, index, f, v)) == Subtotal(items)
  {
    if 0 <= index < |items| {
      var r := EditItems(items, index, f, v);
      SubtotalSplit(items, index);
      SubtotalSplit(r, index);
      assert r[..index] == items[..index];
      assert r[index + 1..] == items[index + 1..];
    }
  }

  /** One item of the submitted JSON; `clarity`, `ct` and `color` are not
      schema paths and are dropped by the server. */
  datatype PayloadItem = PayloadItem(kind: string, itemName: string, weight: real, rate: real,
                                     clarity: string, ct: real, color: string, amount: real)

  datatype Payload = Payload(customer: CustomerForm, items: seq<PayloadItem>,
                             subtotal: real, gstAmount: real, grandTotal: real, date: int)

  /** The text fields are sent as typed; the numeric ones are parsed, with
      `NaN` sent as 0. */
  function ToPayloadItem(it: FormItem): (p: PayloadItem)
    ensures p.kind == it.kind && p.itemName == it.itemName && p.clarity == it.clarity && p.color == it.color
    ensures p.weight == OrZero(ParseFloat(it.weight)) && p.rate == OrZero(ParseFloat(it.rate))
    ensures p.ct == OrZero(ParseFloat(it.ct)) && p.amount == it.amount
  {
    PayloadItem(it.kind, it.itemName, OrZero(ParseFloat(it.weight)), OrZero(ParseFloat(it.rate)),
                it.clarity, OrZero(ParseFloat(it.ct)), it.color, it.amount)
  }

  /** `items.map(...)`: one payload item per row, in order. */
  function PayloadItems(items: seq<FormItem>): (ps: seq<PayloadItem>)
    ensures |ps| == |items|
    ensures forall i :: 0 <= i < |items| ==> ps[i] == ToPayloadItem(items[i])
  {
    if items == [] then [] else [ToPayloadItem(items[0])] + PayloadItems(items[1..])
  }

  /** `invoiceData`, with `date` the submit instant. */
  function MakePayload(customer: CustomerForm, items: seq<FormItem>, now: int): (p: Payload)
    ensures p.customer == customer && p.date == now
    ensures p.items == PayloadItems(items)
    ensures p.subtotal == Subtotal(items) && p.gstAmount == Gst(p.subtotal)
    ensures p.grandTotal == p.subtotal * 105.0 / 100.0
  {
    var subtotal := Subtotal(items);
    Payload(customer, PayloadItems(items), subtotal, Gst(subtotal), GrandTotal(subtotal), now)
  }

  /** The document the server builds from the payload: no invoice number,
      and only the schema's paths. */
  function ServerDocument(p: Payload): Document {
    Document(
      Missing,
      Some(Customer(Some(p.customer.name), Some(p.customer.phone), Some(p.customer.address))),
      seq(|p.items|, i requires 0 <= i < |p.items| => ServerItem(p.items[i])),
      Some(p.subtotal), Some(p.gstAmount), Some(p.grandTotal), Given(p.date))
  }

  /** An item as the server stores it: every number is present, so only
      the type can be missing. */
  function ServerItem(pi: PayloadItem): (it: Item)
    ensures ValidItem(it) <==> pi.kind != ""
  {
    Item(Some(pi.kind), Some(pi.itemName), Some(pi.weight), Some(pi.rate), Some(pi.amount))
  }

  /** A submitted form passes the schema's required checks exactly when
      the three customer fields and every row's type are filled in. */
  lemma SubmittedFieldsValid(customer: CustomerForm, items: seq<FormItem>, now: int)
    ensures FieldsValid(ServerDocument(MakePayload(customer, items, now)))
            <==> customer.name != "" && customer.phone != "" && customer.address != ""
                 && forall i :: 0 <= i < |items| ==> items[i].kind != ""
  {
    var p := MakePayload(customer, items, now);
    var doc := ServerDocument(p);
    forall i | 0 <= i < |items|
      ensures ValidItem(doc.items[i]) <==> items[i].kind != ""
    {
      assert doc.items[i] == ServerItem(p.items[i]);
      assert p.items[i] == ToPayloadItem(items[i]);
    }
  }

  /** The inputs the page marks `required`, which the browser checks before
      submitting: every row input, and the customer's name and phone, but
      not the address. */
  predicate BrowserAccepts(customer: CustomerForm, items: seq<FormItem>) {
    && customer.name != "" && customer.phone != ""
    && forall i :: 0 <= i < |items| ==>
         && items[i].kind != "" && items[i].itemName != "" && items[i].weight != ""
         && items[i].clarity != "" && items[i].ct != "" && items[i].color != "" && items[i].rate != ""
  }

  /** A form the browser lets through reaches the store exactly when its
      address is filled in: the address is required only by the schema,
      so a form without one is answered with the server's 500. */
  lemma AddressCheckedOnlyByServer(customer: CustomerForm, items: seq<FormItem>, now: int,
                                   records: seq<Invoice>, year: nat)
    requires BrowserAccepts(customer, items)
    ensures var o := InvoiceCreation.Handle(records, year, now,
                                            ServerDocument(MakePayload(customer, items, now)), None, None);
            o.Created? <==> customer.address != ""
  {
    var doc := ServerDocument(MakePayload(customer, items, now));
    SubmittedFieldsValid(customer, items, now);
    InvoiceCreation.GeneratedNumber(records, year, now, doc, None, None);
  }

  /** What the `fetch` of the submit produced. */
  datatype SubmitReply = Ok | NotOk(message: string) | NetworkError

  /** How the page reads the server's reply: `response.ok` and
      `data.message`. */
  function ReadReply(r: InvoiceCreation.Response): (s: SubmitReply)
    ensures s == Ok <==> 200 <= r.status <= 299
    ensures s != Ok ==> s == NotOk(r.body.message)
  {
    if 200 <= r.status <= 299 then Ok else NotOk(r.body.message)
  }

  /** The state of the page. */
  class InvoiceForm {
    var customer: CustomerForm
    var items: seq<FormItem>
    var successMessage: string

    /** One blank row, empty customer, no message. */
    constructor ()
      ensures customer == BlankCustomer && items == [BlankItem] && successMessage == ""
    {
      customer := BlankCustomer;
      items := [BlankItem];
      successMessage := "";
    }

    method HandleCustomerChange(f: CustomerField, v: string)
      modifies this
      ensures customer == SetCustomerField(old(customer), f, v)
      ensures items == old(items) && successMessage == old(successMessage)
    {
      customer := SetCustomerField(customer, f, v);
    }

    method HandleItemChange(index: int, f: ItemField, v: string)
      modifies this
      ensures items == EditItems(old(items), index, f, v)
      ensures customer == old(customer) && successMessage == old(successMessage)
    {
      if 0 <= index < |items| {
        var newItems := items;
        var item := SetField(newItems[index], f, v);
        if f == Weight || f == Rate {
          item := item.(amount := LineAmount(item.weight, item.rate));
        }
        newItems := newItems[index := item];
        items := newItems;
      }
    }

    method AddNewItem()
      modifies this
      ensures items == old(items) + [BlankItem]
      ensures customer == old(customer) && successMessage == old(successMessage)
    {
      items := items + [BlankItem];
    }

    method RemoveItem(index: int)
      modifies this
      ensures items == RemoveAt(old(items), index)
      ensures customer == old(customer) && successMessage == old(successMessage)
    {
      items := RemoveAt(items, index);
    }

    /** Sends the payload built from the current state and applies the
        reply: on success the form is cleared to one blank row. */
    method HandleSubmit(now: int, reply: SubmitReply) returns (sent: Payload)
      modifies this
      ensures sent == MakePayload(old(customer), old(items), now)
      ensures reply == Ok ==> customer == BlankCustomer && items == [BlankItem]
                              && successMessage == "Invoice created successfully!"
      ensures reply != Ok ==> customer == old(customer) && items == old(items)
      ensures reply.NotOk? ==> successMessage == "Error: " + reply.message
      ensures reply == NetworkError ==> successMessage == "Error creating invoice."
    {
      sent := MakePayload(customer, items, now);
      match reply
      case Ok =>
        successMessage := "Invoice created successfully!";
        customer := BlankCustomer;
        items := [BlankItem];
      case NotOk(message) =>
        successMessage := "Error: " + message;
      case NetworkError =>
        successMessage := "Error creating invoice.";
    }
  }
}
