/** The invoice collection: the record shape of the invoice schema, the
    required-field check `save()` performs, the timestamps it adds, and the
    two collection operations the controllers use (`countDocuments` over a
    `createdAt` range, and `save`). */
module InvoiceModel {
  import opened Base
  import opened Text

  datatype Customer = Customer(name: Option<string>, phone: Option<string>, address: Option<string>)

  /** One line item; `kind` is the schema's `type` key. */
  datatype Item = Item(kind: Option<string>, itemName: Option<string>,
                       weight: Option<real>, rate: Option<real>, amount: Option<real>)

  /** A top-level field of a JSON request body: left out, sent as `null`,
      or given. The difference matters for the two fields that have a
      fallback: a spread copies `null` over the generated invoice number,
      and a schema default replaces only a field that is left out. */
  datatype Field<+T> = Missing | Null | Given(value: T)

  /** The field's value, if it has one: the required validator rejects a
      left-out field and a `null` alike. */
  function Known<T>(f: Field<T>): (v: Option<T>)
    ensures v.Some? <==> f.Given?
    ensures f.Given? ==> v.value == f.value
  {
    if f.Given? then Some(f.value) else None
  }

  /** The fields an invoice document is built from; any of them may be
      missing from a request. */
  datatype Document = Document(
    invoiceNumber: Field<string>,
    customer: Option<Customer>,
    items: seq<Item>,
    subtotal: Option<real>,
    gstAmount: Option<real>,
    grandTotal: Option<real>,
    date: Field<int>)

  /** A saved invoice: its fields (with `date` filled in) and the two
      timestamps the schema's `timestamps` option adds. */
  datatype Invoice = Invoice(fields: Document, createdAt: int, updatedAt: int)

  /** A failing path as a validation error reports it: `key` is its full
      path in the document and `name` its path in the schema that declares
      it. The two differ for item fields, which the items' own sub-schema
      declares (`items.0.type` is the path `type` there). */
  datatype SchemaPath = SchemaPath(key: string, name: string)

  /** A path of the invoice schema itself, nested ones included. */
  function TopPath(key: string): (p: SchemaPath)
    ensures p.key == key && p.name == key
  {
    SchemaPath(key, key)
  }

  /** Why a collection operation threw. */
  datatype Failure =
    | StoreFailure(message: string)
    | ValidationFailure(paths: seq<SchemaPath>)

  /** `error.message` of a thrown error. A validation error lists each
      failing path with the required validator's message, joined by ", ". */
  function Message(f: Failure): (m: string)
    ensures f.StoreFailure? ==> m == f.message
    ensures f.ValidationFailure? ==> |m| >= 27 && m[..27] == "Invoice validation failed: "
  {
    match f
    case StoreFailure(message) => message
    case ValidationFailure(paths) => "Invoice validation failed: " + Join(RequiredMessages(paths), ", ")
  }

  /** `<key>: Path `<name>` is required.`, one per path. */
  function RequiredMessages(paths: seq<SchemaPath>): (ms: seq<string>)
    ensures |ms| == |paths|
    ensures forall i :: 0 <= i < |paths| ==>
              ms[i] == paths[i].key + ": Path `" + paths[i].name + "` is required."
  {
    if paths == [] then []
    else [paths[0].key + ": Path `" + paths[0].name + "` is required."] + RequiredMessages(paths[1..])
  }

  /** A required String path: present and not the empty string. */
  predicate RequiredString(v: Option<string>) {
    v.Some? && v.value != ""
  }

  /** A required Number path: present. */
  predicate RequiredNumber(v: Option<real>) {
    v.Some?
  }

  predicate ValidCustomer(c: Option<Customer>) {
    c.Some? && RequiredString(c.value.name) && RequiredString(c.value.phone)
    && RequiredString(c.value.address)
  }

  /** `itemName` is the only optional item path. */
  predicate ValidItem(it: Item) {
    RequiredString(it.kind) && RequiredNumber(it.weight) && RequiredNumber(it.rate)
    && RequiredNumber(it.amount)
  }

  /** Every required path except the invoice number. */
  predicate FieldsValid(doc: Document) {
    && ValidCustomer(doc.customer)
    && (forall i :: 0 <= i < |doc.items| ==> ValidItem(doc.items[i]))
    && RequiredNumber(doc.subtotal) && RequiredNumber(doc.gstAmount)
    && RequiredNumber(doc.grandTotal)
  }

  /** The schema's required-field constraints. */
  predicate Valid(doc: Document) {
    RequiredString(Known(doc.invoiceNumber)) && FieldsValid(doc)
  }

  function CustomerPaths(c: Option<Customer>): seq<SchemaPath> {
    var name := if c.Some? then c.value.name else None;
    var phone := if c.Some? then c.value.phone else None;
    var address := if c.Some? then c.value.address else None;
    (if RequiredString(name) then [] else [TopPath("customer.name")])
    + (if RequiredString(phone) then [] else [TopPath("customer.phone")])
    + (if RequiredString(address) then [] else [TopPath("customer.address")])
  }

  /** The item field `field` of the item at `index`. */
  function ItemPath(index: nat, field: string): (p: SchemaPath)
    ensures p.key == "items." + NatToString(index) + "." + field && p.name == field
  {
    SchemaPath("items." + NatToString(index) + "." + field, field)
  }

  function ItemPaths(it: Item, index: nat): seq<SchemaPath> {
    (if RequiredString(it.kind) then [] else [ItemPath(index, "type")])
    + (if RequiredNumber(it.weight) then [] else [ItemPath(index, "weight")])
    + (if RequiredNumber(it.rate) then [] else [ItemPath(index, "rate")])
    + (if RequiredNumber(it.amount) then [] else [ItemPath(index, "amount")])
  }

  /** Paths of the items from position `from` on that fail validation. */
  function ItemsPaths(items: seq<Item>, from: nat): (paths: seq<SchemaPath>)
    requires from <= |items|
    ensures paths == [] <==> forall i :: from <= i < |items| ==> ValidItem(items[i])
    decreases |items| - from
  {
    if from == |items| then []
    else ItemPaths(items[from], from) + ItemsPaths(items, from + 1)
  }

  /** What `save()` validates: the paths whose required constraint fails,
      in schema order. */
  function Validate(doc: Document): seq<SchemaPath> {
    (if RequiredString(Known(doc.invoiceNumber)) then [] else [TopPath("invoiceNumber")])
    + CustomerPaths(doc.customer)
    + ItemsPaths(doc.items, 0)
    + (if RequiredNumber(doc.subtotal) then [] else [TopPath("subtotal")])
    + (if RequiredNumber(doc.gstAmount) then [] else [TopPath("gstAmount")])
    + (if RequiredNumber(doc.grandTotal) then [] else [TopPath("grandTotal")])
  }

  /** Validation reports no path exactly when the document is valid. */
  lemma ValidateEmptyIffValid(doc: Document)
    ensures Validate(doc) == [] <==> Valid(doc)
  {
    var _ := ItemsPaths(doc.items, 0);
  }

  /** A missing or empty address is reported, whatever the rest holds. */
  lemma AddressRequired(doc: Document)
    requires doc.customer.None? || !RequiredString(doc.customer.value.address)
    ensures TopPath("customer.address") in Validate(doc) && !Valid(doc)
  {
    var pre := (if RequiredString(Known(doc.invoiceNumber)) then [] else [TopPath("invoiceNumber")]);
    var c := CustomerPaths(doc.customer);
    assert TopPath("customer.address") == c[|c| - 1];
    assert Validate(doc)[|pre| + |c| - 1] == TopPath("customer.address");
  }

  /** An item field is reported under its full key, with the message
      naming the field as the items' sub-schema declares it. */
  lemma ItemTypeMessage()
    ensures RequiredMessages([ItemPath(0, "type")])
            == ["items.0.type" + ": Path `" + "type" + "` is required."]
  {
    ItemTypePath();
    var ms := RequiredMessages([SchemaPath("items.0.type", "type")]);
    assert ms == [ms[0]];
  }

  lemma ItemTypePath()
    ensures ItemPath(0, "type") == SchemaPath("items.0.type", "type")
  {
    assert NatToString(0) == "0";
  }

  /** `save()` fills the default `date` and the timestamps. The default
      applies only to a date left out: a `null` date is stored as `null`. */
  function Stamp(doc: Document, now: int): (inv: Invoice)
    ensures inv.createdAt == now && inv.updatedAt == now
    ensures doc.date.Missing? ==> inv.fields.date == Given(now)
    ensures !doc.date.Missing? ==> inv.fields.date == doc.date
    ensures inv.fields == doc.(date := inv.fields.date)
  {
    Invoice(doc.(date := if doc.date.Missing? then Given(now) else doc.date), now, now)
  }

  /** The outcome of `save()`: a validation error, a store error, or the
      stored invoice. */
  function SaveResult(doc: Document, now: int, fault: Option<string>): (r: Result<Invoice, Failure>)
    ensures r.Success? <==> Valid(doc) && fault.None?
    ensures r.Success? ==> r.value == Stamp(doc, now) && Valid(r.value.fields)
    ensures !Valid(doc) ==> r == Failure(ValidationFailure(Validate(doc)))
  {
    ValidateEmptyIffValid(doc);
    var missing := Validate(doc);
    if missing != [] then Failure(ValidationFailure(missing))
    else if fault.Some? then Failure(StoreFailure(fault.value))
    else Success(Stamp(doc, now))
  }

  predicate CreatedIn(inv: Invoice, from: int, to: int) {
    from <= inv.createdAt <= to
  }

  /** `countDocuments({createdAt: {$gte: from, $lte: to}})`. */
  function CountCreatedIn(records: seq<Invoice>, from: int, to: int): nat {
    if records == [] then 0
    else CountCreatedIn(records[..|records| - 1], from, to)
         + (if CreatedIn(records[|records| - 1], from, to) then 1 else 0)
  }

  /** The count of a concatenation is the sum of the counts. */
  lemma {:induction false} CountConcat(a: seq<Invoice>, b: seq<Invoice>, from: int, to: int)
    ensures CountCreatedIn(a + b, from, to) == CountCreatedIn(a, from, to) + CountCreatedIn(b, from, to)
    decreases |b|
  {
    if b != [] {
      assert (a + b)[..|a + b| - 1] == a + b[..|b| - 1];
      CountConcat(a, b[..|b| - 1], from, to);
    } else {
      assert a + b == a;
    }
  }

  /** The count never exceeds the number of records, and records created
      outside the range do not contribute to it. */
  lemma {:induction false} CountBounds(records: seq<Invoice>, from: int, to: int)
    ensures CountCreatedIn(records, from, to) <= |records|
    ensures (forall i :: 0 <= i < |records| ==> !CreatedIn(records[i], from, to))
            ==> CountCreatedIn(records, from, to) == 0
    ensures (forall i :: 0 <= i < |records| ==> CreatedIn(records[i], from, to))
            ==> CountCreatedIn(records, from, to) == |records|
  {
    if records != [] {
      CountBounds(records[..|records| - 1], from, to);
    }
  }

  /** The stored invoices, in insertion order. */
  class InvoiceCollection {
    var records: seq<Invoice>

    constructor ()
      ensures records == []
    {
      records := [];
    }

    /** Counts the stored invoices created in `[from, to]`; a store fault
        throws instead. */
    method CountDocuments(from: int, to: int, fault: Option<string>) returns (r: Result<nat, Failure>)
      ensures fault.Some? ==> r == Failure(StoreFailure(fault.value))
      ensures fault.None? ==> r == Success(CountCreatedIn(records, from, to))
    {
      if fault.Some? {
        r := Failure(StoreFailure(fault.value));
      } else {
        r := Success(CountCreatedIn(records, from, to));
      }
    }

    /** Validates `doc` and appends it, stamped, to the collection; on a
        validation or store error nothing is stored. No uniqueness is
        checked: the schema declares no unique path. */
    method Save(doc: Document, now: int, fault: Option<string>) returns (r: Result<Invoice, Failure>)
      modifies this
      ensures r == SaveResult(doc, now, fault)
      ensures records == if r.Success? then old(records) + [r.value] else old(records)
    {
      r := SaveResult(doc, now, fault);
      if r.Success? {
        records := records + [r.value];
      }
    }
  }
}
