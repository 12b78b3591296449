# Billing: a verified model of invoice numbering, the invoice form and the invoice PDF

This project models the sequential logic of a small jewellery invoicing
application (an Express/Mongoose back end and a React front end) in Dafny,
and proves what that logic promises. The model covers:

- **Invoice creation** (`backend/controllers/createinvoice.js`,
  `backend/controllers/invoiceController.js`, `backend/models/invoice.js`).
  The invoice collection is a class holding the stored records, in order.
  Each handler:
  - counts the records created within the current year;
  - formats `INV-<year>-<count+1 padded to 4>`;
  - spreads the request body over that number;
  - validates the schema's required paths and saves the record;
  - answers 201 or 500.

  Store faults are parameters, and so are the clock's year and the save
  instant.
- **The invoice form** (`frontend/src/pages/CreateInvoice.jsx`). The page
  state is a class; its handlers are methods:
  - editing a field (the line amount is recomputed when the weight or the
    rate changes);
  - adding a row and removing a row;
  - the subtotal, the 5% GST and the grand total;
  - building the submit payload, and resetting the form after a successful
    reply.
- **The invoice list and PDF** (`frontend/src/pages/ViewInvoices.jsx`):
  - the amount-in-words converter, as the imperative chunk routine, the
    Indian grouping (crore, lakh, thousand) and the dirham/fils phrase rules;
  - the AED formatting;
  - the newest-first order;
  - the table rows: serial, padded quantity, unit price, VAT, total and
    description;
  - the blank-row padding and the grand-total row;
  - the sanitised PDF file name.
- **The dashboard** (`frontend/src/pages/Dashboard.jsx`): the path-based
  title, total sales, pending count, unique customers and the five most
  recent invoices.

Money is a Dafny `real`:
- `Math.round` is rounding half up.
- `toFixed(2)` rounds to the nearest hundredth, with ties away from zero.
- `parseFloat` is a scanner over the decimal text.
- `toLocaleString('en-AE', …)` with two decimals is `toFixed(2)` with the
  integer digits grouped in threes by commas.

The proofs show that each printed figure reads back as the rounded value.

Where the code and its written description differ, the model follows the
code. Three examples:
- An amount whose dirham part reaches 1000 crore loses its crore count:
  the chunk routine returns the empty string for it, so only the label
  "Crore" remains before the lower groups
  (`AmountInWords.CroreCountDropped`). A whole multiple of a crore from
  1000 crore up reads "Crore Dirhams Only" (`AmountInWords.CroreOverflow`),
  and 10,000,000,005 dirhams reads "Crore Five Dirhams Only"
  (`AmountInWords.CroreOverflowWithRemainder`).
- "Dirhams" is absent only when the dirham part is zero and there are fils.
  The zero amount still reads "Zero Dirhams Only".
- A positive amount below half a fil reads "Zero Dirhams Only" too.

The schema has no `paid` path, so every stored invoice counts as pending on
the dashboard (`Dashboard.StoredAllPending`).

## Model

| member | source | states |
|---|---|---|
| Text.PadStart | backend/controllers/createinvoice.js:13 | `padStart` prepends the fill until the width is reached and returns a longer string unchanged |
| Text.DigitsValueOfNatToString | backend/controllers/createinvoice.js:13 | the decimal text of a count reads back as that count |
| Text.TrimUnchanged | frontend/src/pages/ViewInvoices.jsx:168 | `trim` leaves text that neither starts nor ends with white space unchanged |
| Text.TrimStart | frontend/src/pages/ViewInvoices.jsx:168 | the start of `trim` keeps a suffix of the text that is empty or starts with a non-blank character |
| Text.TrimEnd | frontend/src/pages/ViewInvoices.jsx:168 | the end of `trim` keeps a prefix of the text that is empty or ends with a non-blank character |
| Text.TrimStartDropsWhiteSpace | frontend/src/pages/ViewInvoices.jsx:168 | every character `trim` drops at the start is white space |
| Text.TrimEndDropsWhiteSpace | frontend/src/pages/ViewInvoices.jsx:168 | every character `trim` drops at the end is white space |
| Text.NatToStringInjective | backend/controllers/createinvoice.js:13 | distinct counts have distinct decimal texts |
| JsNumber.Round | frontend/src/pages/ViewInvoices.jsx:96 | `Math.round` returns the integer within half of its argument, ties upward |
| JsNumber.Hundredths | frontend/src/pages/CreateInvoice.jsx:20 | `toFixed(2)` picks the hundredth nearest the value, ties away from zero |
| JsNumber.Fixed2Error | frontend/src/pages/CreateInvoice.jsx:20 | two-decimal rounding moves a value by at most half a hundredth |
| JsNumber.ParseFloatOfNatToString | frontend/src/pages/CreateInvoice.jsx:51-56 | `parseFloat` reads an integer's digits back, also with trailing text that is neither a digit nor a point |
| JsNumber.ParseFloatWithoutDigits | frontend/src/pages/CreateInvoice.jsx:51-56 | text without digits parses to `NaN`, which `|| 0` turns into 0 |
| JsNumber.ParseFloatExamples | frontend/src/pages/CreateInvoice.jsx:51-56 | leading blanks are skipped, a trailing unit is ignored, letters give `NaN` |
| JsNumber.ToFixed2 | frontend/src/pages/ViewInvoices.jsx:276-278 | `toFixed(2)` ends with a point and two digits |
| JsNumber.ParseToFixed2 | frontend/src/pages/ViewInvoices.jsx:277-278 | `parseFloat` of `x.toFixed(2)` is `x` rounded to the hundredth |
| JsNumber.UngroupThousands | frontend/src/pages/ViewInvoices.jsx:38 | removing the thousands separators restores the digits they grouped |
| JsNumber.LocaleWithoutCommas | frontend/src/pages/ViewInvoices.jsx:261-266 | the grouped two-decimal text is the `toFixed(2)` text with commas added |
| Calendar.YearEndMeetsNextStart | backend/controllers/createinvoice.js:8-9 | a year's last counted millisecond is followed by the next year's first |
| Calendar.YearStartBeforeEnd | backend/controllers/createinvoice.js:8-9 | each year's count range is non-empty |
| Calendar.YearRangesDisjoint | backend/controllers/createinvoice.js:6-11 | an instant is counted in at most one year |
| Calendar.Year2025Boundaries | backend/controllers/createinvoice.js:8-9 | the date literals give the expected UTC time values |
| InvoiceModel.Message | backend/controllers/invoiceController.js:19-21 | a store error carries its own message; a validation error begins "Invoice validation failed: " |
| InvoiceModel.RequiredMessages | backend/models/invoice.js:4-19 | one message per failing path, in order: its full key, then "Path", then its name in the schema that declares it, then "is required."; an item field is named by the field alone |
| InvoiceModel.ItemTypeMessage | backend/models/invoice.js:10-11 | a missing type of the first item is reported under the key items.0.type and the name type |
| InvoiceModel.ItemPath | backend/models/invoice.js:10-16 | an item field is reported under `items.<index>.<field>` and named `<field>` |
| InvoiceModel.Known | backend/models/invoice.js:4 | a body field has a value exactly when it is given: a left-out field and a `null` both fail the required check |
| InvoiceModel.ItemsPaths | backend/models/invoice.js:10-16 | no item path fails exactly when every item has its type, weight, rate and amount |
| InvoiceModel.ValidateEmptyIffValid | backend/models/invoice.js:3-21 | validation reports nothing exactly when every required path is set |
| InvoiceModel.AddressRequired | backend/models/invoice.js:8 | a missing or empty address is always rejected |
| InvoiceModel.Stamp | backend/models/invoice.js:20-21 | saving stamps the record at `now` and defaults a left-out `date` to now; a `null` date stays `null`, and every other field stays as given |
| InvoiceModel.SaveResult | backend/controllers/createinvoice.js:15 | `save` succeeds exactly when the document is valid and the store does not fail; on success the stored record is stamped and valid |
| InvoiceModel.CountConcat | backend/controllers/createinvoice.js:6-11 | the range count of two record lists is the sum of their counts |
| InvoiceModel.CountBounds | backend/controllers/createinvoice.js:6-11 | the count is at most the record count: 0 when none lies in range, all when all do |
| InvoiceModel.InvoiceCollection.constructor | backend/models/invoice.js:23 | a new collection is empty |
| InvoiceModel.InvoiceCollection.CountDocuments | backend/controllers/createinvoice.js:6-11 | counting returns the number of records created within the range, or the store's error |
| InvoiceModel.InvoiceCollection.Save | backend/controllers/createinvoice.js:15 | a successful save appends exactly the stamped record; a failed one changes nothing |
| InvoiceCreation.InvoiceNumber | backend/controllers/createinvoice.js:13 | the `INV-<year>-<sequence padded to four>` format; its properties are stated by InvoiceNumberDecodes, InvoiceNumberInjective, InvoiceNumberDistinct, SequenceWidth and InvoiceNumberExamples |
| InvoiceCreation.IndexOf | backend/controllers/createinvoice.js:13 | finds the first occurrence of a character, or reports that there is none |
| InvoiceCreation.InvoiceNumberDecodes | backend/controllers/createinvoice.js:13 | an invoice number reads back as its year and sequence number |
| InvoiceCreation.InvoiceNumberInjective | backend/controllers/createinvoice.js:13 | equal invoice numbers have equal years and sequence numbers |
| InvoiceCreation.InvoiceNumberDistinct | backend/controllers/createinvoice.js:13 | within a year, distinct counts give distinct numbers |
| InvoiceCreation.PadStartZeros | backend/controllers/createinvoice.js:13 | a sequence of four digits or more is not padded or truncated |
| InvoiceCreation.SequenceWidth | backend/controllers/createinvoice.js:13 | the sequence part is at least four characters and grows only past 9999 |
| InvoiceCreation.InvoiceNumberExamples | backend/controllers/createinvoice.js:13 | the first 2025 invoice is INV-2025-0001; the 10000th is INV-2025-10000 |
| InvoiceCreation.Construct | backend/controllers/createinvoice.js:14 | the generated number is kept only when the body leaves `invoiceNumber` out; a body number or a `null` overrides it; every other field comes from the body |
| InvoiceCreation.Handle | backend/controllers/createinvoice.js:5-16 | one run: a count fault fails, otherwise the constructed document is saved at `now`; its properties are stated by GeneratedNumber, BodyNumberOverrides, NullNumberRejected, FailureLeavesCollection and CreateStep |
| InvoiceCreation.Respond | backend/controllers/createinvoice.js:17-19 | 201 with the success message and the invoice exactly when the run succeeded, else 500 with "Error creating invoice" and the error's message |
| InvoiceCreation.CreateInvoice | backend/controllers/createinvoice.js:3-21 | the collection grows by the answered invoice on 201, and stays the same on 500 |
| InvoiceCreation.GeneratedNumber | backend/controllers/createinvoice.js:5-17 | without a body number, a run succeeds exactly when both store calls succeed and the fields are valid, and the stored number is `INV-<year>-<count+1>` |
| InvoiceCreation.BodyNumberOverrides | backend/controllers/createinvoice.js:14 | a body number is the stored number |
| InvoiceCreation.NullNumberRejected | backend/controllers/createinvoice.js:14-19 | a `null` body number overwrites the generated one, fails validation on the invoice number first, stores nothing and answers 500 |
| InvoiceCreation.FailureLeavesCollection | backend/controllers/createinvoice.js:18-19 | any store error leaves the records unchanged and answers 500 |
| InvoiceCreation.OtherYearsIgnored | backend/controllers/createinvoice.js:6-13 | records created outside the year do not change the next number |
| InvoiceCreation.FirstOfYear | backend/controllers/createinvoice.js:6-13 | the first invoice of a year is numbered `…-0001` |
| InvoiceCreation.CreateStep | backend/controllers/createinvoice.js:5-15 | a successful run within the year appends one invoice numbered one past the year's count |
| InvoiceCreation.SequentialNumbers | backend/controllers/createinvoice.js:5-15 | N successive runs whose instants fall within one year append N invoices, raise the year's count by N and number them count+1 … count+N after the count the collection had; no two of them share a number |
| InvoiceCreation.NumbersDistinct | backend/controllers/createinvoice.js:13 | consecutively numbered invoices carry pairwise distinct numbers |
| InvoiceCreation.DuplicateNumberAccepted | backend/models/invoice.js:4 | a number already in use is stored again: the schema has no uniqueness constraint |
| InvoiceCreation.ClockYearMismatchRepeatsNumber | backend/controllers/createinvoice.js:5-9 | when the save instant falls outside the clock's year range, the next run gets the same number again |
| InvoiceController.Answer | backend/controllers/invoiceController.js:18-20 | 201 with the bare invoice, or 500 with only the error's message |
| InvoiceController.RangeIsYear | backend/controllers/invoiceController.js:6-11 | the explicit UTC bounds are the other handler's bounds; consecutive years meet without overlap |
| InvoiceController.CreateInvoice | backend/controllers/invoiceController.js:3-22 | the collection grows by the answered invoice on 201, and stays the same on 500 |
| InvoiceController.HandlersAgree | backend/controllers/invoiceController.js:15-21 | both handlers store the same invoice and answer with the same status and error message |
| InvoiceController.StoreErrorReported | backend/controllers/invoiceController.js:19-21 | a store error reaches the client as its own message |
| InvoiceController.InvalidBodyRejected | backend/controllers/invoiceController.js:15-21 | a body lacking a required field is answered 500 and nothing is stored |
| CreateInvoiceForm.SetCustomerField | frontend/src/pages/CreateInvoice.jsx:9-11 | the named customer field takes the value and the others keep theirs |
| CreateInvoiceForm.SetField | frontend/src/pages/CreateInvoice.jsx:15 | the edited field takes the value and no other field or amount changes |
| CreateInvoiceForm.LineAmount | frontend/src/pages/CreateInvoice.jsx:17-21 | the amount is within half a fil of weight times rate, unparsable inputs counting as 0 |
| CreateInvoiceForm.EditItem | frontend/src/pages/CreateInvoice.jsx:13-21 | the field changes, and the amount is recomputed only for weight and rate |
| CreateInvoiceForm.EditItems | frontend/src/pages/CreateInvoice.jsx:13-23 | only the row at the index changes; the length stays the same |
| CreateInvoiceForm.RemoveAt | frontend/src/pages/CreateInvoice.jsx:30-33 | exactly the element at the index is removed, keeping the others' order; an out-of-range index changes nothing |
| CreateInvoiceForm.Subtotal | frontend/src/pages/CreateInvoice.jsx:35 | the left fold of the row amounts from 0; its properties are stated by SubtotalConcat, SubtotalSingle, SubtotalAddBlank, SubtotalRemove, SubtotalSplit and SubtotalEdit |
| CreateInvoiceForm.Gst | frontend/src/pages/CreateInvoice.jsx:36 | `GST_RATE` percent of the subtotal; GrandTotal states that adding it gives 105% of the subtotal |
| CreateInvoiceForm.GrandTotal | frontend/src/pages/CreateInvoice.jsx:36-41 | the grand total is the subtotal plus its 5% GST, i.e. 105% of it |
| CreateInvoiceForm.SubtotalConcat | frontend/src/pages/CreateInvoice.jsx:35 | the subtotal of joined lists is the sum of their subtotals |
| CreateInvoiceForm.SubtotalSingle | frontend/src/pages/CreateInvoice.jsx:35 | a single row's subtotal is its amount |
| CreateInvoiceForm.SubtotalAddBlank | frontend/src/pages/CreateInvoice.jsx:26-28 | appending a blank row leaves the subtotal unchanged |
| CreateInvoiceForm.SubtotalRemove | frontend/src/pages/CreateInvoice.jsx:30-35 | removing a row takes its amount off the subtotal |
| CreateInvoiceForm.SubtotalSplit | frontend/src/pages/CreateInvoice.jsx:35 | the subtotal is the rows before the index, plus that row, plus the rows after it |
| CreateInvoiceForm.SubtotalEdit | frontend/src/pages/CreateInvoice.jsx:13-35 | editing moves the subtotal by the change in that row's amount, and by nothing for other fields |
| CreateInvoiceForm.ToPayloadItem | frontend/src/pages/CreateInvoice.jsx:48-57 | text fields are sent as typed; weight, rate and ct are parsed, defaulting to 0 |
| CreateInvoiceForm.PayloadItems | frontend/src/pages/CreateInvoice.jsx:48-57 | one payload item per row, in order |
| CreateInvoiceForm.MakePayload | frontend/src/pages/CreateInvoice.jsx:46-62 | the payload carries the customer, the mapped items, the subtotal, the GST, 105% of the subtotal and the submit instant |
| CreateInvoiceForm.ServerItem | backend/models/invoice.js:10-16 | a submitted row reaches the schema with every number present, so it is valid exactly when its type is filled in |
| CreateInvoiceForm.SubmittedFieldsValid | frontend/src/pages/CreateInvoice.jsx:46-62 | a submitted form passes the schema's required checks exactly when the three customer fields and every row's type are filled in |
| CreateInvoiceForm.AddressCheckedOnlyByServer | frontend/src/pages/CreateInvoice.jsx:98-103 | a form the browser lets through is stored exactly when its address is filled in |
| CreateInvoiceForm.ReadReply | frontend/src/pages/CreateInvoice.jsx:71-78 | a 2xx reply is success; any other carries the server's message |
| CreateInvoiceForm.InvoiceForm.constructor | frontend/src/pages/CreateInvoice.jsx:4-6 | the form starts with an empty customer, one blank row and no message |
| CreateInvoiceForm.InvoiceForm.HandleCustomerChange | frontend/src/pages/CreateInvoice.jsx:9-11 | only the customer changes |
| CreateInvoiceForm.InvoiceForm.HandleItemChange | frontend/src/pages/CreateInvoice.jsx:13-24 | the rows become the edited rows; nothing else changes |
| CreateInvoiceForm.InvoiceForm.AddNewItem | frontend/src/pages/CreateInvoice.jsx:26-28 | one blank row is appended; nothing else changes |
| CreateInvoiceForm.InvoiceForm.RemoveItem | frontend/src/pages/CreateInvoice.jsx:30-33 | the row at the index is removed; nothing else changes |
| CreateInvoiceForm.InvoiceForm.HandleSubmit | frontend/src/pages/CreateInvoice.jsx:43-83 | sends the payload of the current state; on success resets the customer and rows; otherwise keeps them and shows the error |
| AmountInWords.ConvertChunkToWords | frontend/src/pages/ViewInvoices.jsx:66-90 | the imperative chunk routine computes the chunk's words: hundreds part, then tens and units |
| AmountInWords.UnitCapitalised | frontend/src/pages/ViewInvoices.jsx:57-61 | each unit word is one capitalised word |
| AmountInWords.TenCapitalised | frontend/src/pages/ViewInvoices.jsx:62 | each tens word is one capitalised word |
| AmountInWords.BelowHundredShape | frontend/src/pages/ViewInvoices.jsx:79-88 | the words for 1..99 start with a capital and mention no hundred |
| AmountInWords.ChunkWordsCases | frontend/src/pages/ViewInvoices.jsx:72-88 | below 100 the chunk is its tens and units; from 100 it is the hundreds digit, " Hundred", and the rest |
| AmountInWords.ChunkWordsShape | frontend/src/pages/ViewInvoices.jsx:66-90 | a chunk of 1..999 is non-empty, capitalised, and holds no "Hundred" below 100 |
| AmountInWords.ChunkWordsNonEmpty | frontend/src/pages/ViewInvoices.jsx:67-68 | a chunk's words are non-empty exactly for 1..999 |
| AmountInWords.ChunkWordsHundred | frontend/src/pages/ViewInvoices.jsx:72-76 | a chunk contains "Hundred" exactly when it is 100..999 |
| AmountInWords.Decompose | frontend/src/pages/ViewInvoices.jsx:111-128 | dirhams = crore·10^7 + lakh·10^5 + thousand·10^3 + rest, with lakh, thousand < 100 and rest < 1000 |
| AmountInWords.DecomposeUnique | frontend/src/pages/ViewInvoices.jsx:111-128 | those bounds determine the groups uniquely |
| AmountInWords.Split | frontend/src/pages/ViewInvoices.jsx:93-104 | dirhams and fils (< 100) together are the amount rounded to the fil |
| AmountInWords.FilsCarry | frontend/src/pages/ViewInvoices.jsx:96-104 | fils that round to 100 carry one dirham and become 0 |
| AmountInWords.RoundShift | frontend/src/pages/ViewInvoices.jsx:96 | rounding commutes with adding whole dirhams |
| AmountInWords.Phrase | frontend/src/pages/ViewInvoices.jsx:137-168 | the phrase for a positive amount ends with " Only" |
| AmountInWords.Words | frontend/src/pages/ViewInvoices.jsx:150-168 | the phrase for dirhams and fils ends with " Only" |
| AmountInWords.Only | frontend/src/pages/ViewInvoices.jsx:168 | the suffix " Only" is appended |
| AmountInWords.AmountWords | frontend/src/pages/ViewInvoices.jsx:42-169 | `NaN` gives "Invalid Amount", 0 gives "Zero Dirhams Only", and every other number's words end with " Only" |
| AmountInWords.Abs | frontend/src/pages/ViewInvoices.jsx:54 | the absolute value is non-negative, ± the input, and zero only for zero |
| AmountInWords.CollectGroups | frontend/src/pages/ViewInvoices.jsx:107-134 | the pushes produce the non-zero groups in descending order with their labels |
| AmountInWords.GetAmountInWords | frontend/src/pages/ViewInvoices.jsx:42-169 | the imperative converter returns the specified words |
| AmountInWords.SpellParts | frontend/src/pages/ViewInvoices.jsx:107-168 | from the rounded dirhams and fils, the imperative steps build the specified words |
| AmountInWords.SignInsensitive | frontend/src/pages/ViewInvoices.jsx:54 | an amount and its negation read the same |
| AmountInWords.DirhamWordsSmall | frontend/src/pages/ViewInvoices.jsx:136-140 | 1..999 dirhams read as the chunk followed by " Dirhams" |
| AmountInWords.TrimPhrase | frontend/src/pages/ViewInvoices.jsx:168 | a phrase from a capital to a lower-case letter survives `trim` |
| AmountInWords.DirhamsOnlyWords | frontend/src/pages/ViewInvoices.jsx:136-168 | whole dirhams under 1000 read "<chunk> Dirhams Only" |
| AmountInWords.FilsOnlyWords | frontend/src/pages/ViewInvoices.jsx:143-168 | fils alone read "<chunk> Fils Only" |
| AmountInWords.DirhamsAndFilsWords | frontend/src/pages/ViewInvoices.jsx:149-168 | both parts read "<d> Dirhams and <f> Fils Only" |
| AmountInWords.ZeroWords | frontend/src/pages/ViewInvoices.jsx:162-165 | nothing to say reads "Zero Dirhams Only" |
| AmountInWords.RoundedAmountWords | frontend/src/pages/ViewInvoices.jsx:93-168 | a positive amount reads as its rounded dirhams and fils; below half a fil it reads "Zero Dirhams Only" |
| AmountInWords.TrimLeadingSpace | frontend/src/pages/ViewInvoices.jsx:168 | a leading space disappears in `trim` |
| AmountInWords.CroreOverflow | frontend/src/pages/ViewInvoices.jsx:112-115 | a whole number of 1000 crore or more reads "Crore Dirhams Only" |
| AmountInWords.CroreOverflowWords | frontend/src/pages/ViewInvoices.jsx:111-140 | the crore chunk above 999 contributes no words |
| AmountInWords.CroreCountDropped | frontend/src/pages/ViewInvoices.jsx:111-140 | from 1000 crore up the crore count is spelt as nothing: the groups are the bare label " Crore" followed by the groups of the amount below a crore |
| AmountInWords.CroreOverflowRemainder | frontend/src/pages/ViewInvoices.jsx:111-168 | from 1000 crore up with 1..999 dirhams below the crores, the words are "Crore", the remainder's words, "Dirhams Only" |
| AmountInWords.CroreOverflowWithRemainder | frontend/src/pages/ViewInvoices.jsx:111-168 | 1000 crore or more with five dirhams below the crores, such as 10,000,000,005, reads "Crore Five Dirhams Only" |
| AmountPhrases.Labels | frontend/src/pages/ViewInvoices.jsx:115-146 | every label starts a new capitalised word |
| AmountPhrases.ChunkSpaced | frontend/src/pages/ViewInvoices.jsx:66-90 | every space in a chunk's words is followed by a capital |
| AmountPhrases.JoinSpaced | frontend/src/pages/ViewInvoices.jsx:137 | joining capitalised groups with spaces keeps that shape |
| AmountPhrases.GroupSpaced | frontend/src/pages/ViewInvoices.jsx:114-133 | each pushed group is spaced, and capitalised when its count is a chunk |
| AmountPhrases.DirhamGroupsJoinable | frontend/src/pages/ViewInvoices.jsx:108-134 | the groups pushed for any dirham amount can be joined safely |
| AmountPhrases.DirhamWordsSpaced | frontend/src/pages/ViewInvoices.jsx:136-140 | the dirham words are spaced and end with "Dirhams" |
| AmountPhrases.FilsWordsSpaced | frontend/src/pages/ViewInvoices.jsx:144-147 | the fils words are capitalised and never mention dirhams |
| AmountPhrases.TrimSpaced | frontend/src/pages/ViewInvoices.jsx:168 | trimming keeps the spacing shape |
| AmountPhrases.IncludesAfterTrim | frontend/src/pages/ViewInvoices.jsx:168 | text between non-blank characters survives `trim` |
| AmountPhrases.NoConjunction | frontend/src/pages/ViewInvoices.jsx:150-160 | spaced words never contain " and " |
| AmountPhrases.ConjunctionIffBoth | frontend/src/pages/ViewInvoices.jsx:149-160 | " and " appears exactly when both dirhams and fils are non-zero |
| AmountPhrases.ConjunctionWhenBoth | frontend/src/pages/ViewInvoices.jsx:149-160 | non-zero dirhams and fils are joined by " and " |
| AmountPhrases.NoConjunctionOtherwise | frontend/src/pages/ViewInvoices.jsx:149-160 | with only one part, or neither, the words hold no " and " |
| AmountPhrases.DirhamsNamedIff | frontend/src/pages/ViewInvoices.jsx:136-168 | "Dirhams" appears exactly when there are dirhams or no fils |
| AmountPhrases.DirhamsNamed | frontend/src/pages/ViewInvoices.jsx:136-140 | a non-zero dirham part is named |
| AmountPhrases.ZeroNamed | frontend/src/pages/ViewInvoices.jsx:163-165 | the zero phrase names dirhams |
| AmountPhrases.FilsAloneUnnamed | frontend/src/pages/ViewInvoices.jsx:143-168 | fils alone never mention dirhams |
| ViewInvoices.FormatAED | frontend/src/pages/ViewInvoices.jsx:32-39 | `NaN` shows "AED 0.00"; any amount shows "AED " and text that reads back, without its commas, as the amount rounded to the fil |
| ViewInvoices.FormatCurrency | frontend/src/pages/ViewInvoices.jsx:261-266 | `NaN` shows "0.00"; any amount reads back, without its commas, as the amount rounded to the fil |
| ViewInvoices.PdfGrandTotal | frontend/src/pages/ViewInvoices.jsx:300 | a missing grand total counts as 0 |
| ViewInvoices.NewestFirst | frontend/src/pages/ViewInvoices.jsx:18 | the sort by `createdAt`, newest first, keeps the length; NewestFirstSorted states that the result is ordered and a permutation of the input |
| ViewInvoices.InsertByDate | frontend/src/pages/ViewInvoices.jsx:18 | an insertion adds exactly that invoice |
| ViewInvoices.InsertKeepsOrder | frontend/src/pages/ViewInvoices.jsx:18 | inserting into a newest-first list keeps it newest first |
| ViewInvoices.NewestFirstSorted | frontend/src/pages/ViewInvoices.jsx:18 | the sorted list is newest first and holds the same invoices |
| ViewInvoices.DescriptionParts | frontend/src/pages/ViewInvoices.jsx:280-287 | only truthy fields contribute lines, and no line is empty |
| ViewInvoices.Description | frontend/src/pages/ViewInvoices.jsx:280-292 | without lines the cell reads "No Description"; otherwise the lines joined by blank lines |
| ViewInvoices.JoinHasPart | frontend/src/pages/ViewInvoices.jsx:287 | the joined text contains each line |
| ViewInvoices.DescriptionMentionsParts | frontend/src/pages/ViewInvoices.jsx:280-292 | the description cell is never empty and mentions every truthy field |
| ViewInvoices.UnitPrice | frontend/src/pages/ViewInvoices.jsx:276 | a missing rate shows "0.00"; any rate reads back as itself rounded to the fil |
| ViewInvoices.RowNumbering | frontend/src/pages/ViewInvoices.jsx:274-291 | the serial reads `i+1`; the quantity reads `i+1`, is at least two digits, and is zero-padded exactly below 10 |
| ViewInvoices.VatText | frontend/src/pages/ViewInvoices.jsx:277 | "NaN" for an `undefined` amount, otherwise text that reads back as 5% of the amount rounded to the hundredth |
| ViewInvoices.TotalText | frontend/src/pages/ViewInvoices.jsx:278 | "NaN" when the amount is `undefined` or the VAT text has no number, otherwise text that reads back as the amount plus the VAT, rounded to the hundredth |
| ViewInvoices.RowAmounts | frontend/src/pages/ViewInvoices.jsx:277-278 | VAT reads as 5% of the amount rounded; the total reads as the amount plus that VAT rounded, within a fil of 105% |
| ViewInvoices.RowVat | frontend/src/pages/ViewInvoices.jsx:277 | the VAT cell reads back as 5% of the amount rounded to the fil |
| ViewInvoices.RowTotal | frontend/src/pages/ViewInvoices.jsx:278 | the total cell reads back as the amount plus its rounded VAT, rounded to the fil |
| ViewInvoices.TotalError | frontend/src/pages/ViewInvoices.jsx:277-278 | the two roundings stay within a fil of 105% of the amount |
| ViewInvoices.RowWithoutAmount | frontend/src/pages/ViewInvoices.jsx:277-278 | without an amount VAT and total read "NaN" |
| ViewInvoices.ItemRowOf | frontend/src/pages/ViewInvoices.jsx:272-297 | the six cells of one item row; its properties are stated by RowNumbering, RowAmounts, RowVat, RowTotal, RowWithoutAmount and DescriptionMentionsParts |
| ViewInvoices.ItemRows | frontend/src/pages/ViewInvoices.jsx:272-298 | one row per item, in order, for its index |
| ViewInvoices.A4TableRows | frontend/src/pages/ViewInvoices.jsx:268-270 | an A4 page takes 18 table rows |
| ViewInvoices.TableFillsPage | frontend/src/pages/ViewInvoices.jsx:301-302 | a short invoice fills exactly the page's rows; a long one gets only its total row |
| ViewInvoices.BuildTableBody | frontend/src/pages/ViewInvoices.jsx:272-309 | the body is the item rows, then `max(0, maxRows − items − 1)` blank rows, then exactly one grand-total row |
| ViewInvoices.Sanitise | frontend/src/pages/ViewInvoices.jsx:370 | same length; each character is kept if it is in `[A-Za-z0-9_.-]`, else replaced by `_` |
| ViewInvoices.SanitiseSafe | frontend/src/pages/ViewInvoices.jsx:370 | the result holds only safe characters, safe text is unchanged, and sanitising twice equals once |
| ViewInvoices.SafeInvoiceNumber | frontend/src/pages/ViewInvoices.jsx:370 | a missing or empty number becomes "NoNumber"; otherwise each character is kept when safe and replaced by `_` when not; the result holds only safe characters |
| ViewInvoices.PdfFileName | frontend/src/pages/ViewInvoices.jsx:370-371 | the file is named "Invoice_" + the safe number + ".pdf" |
| ViewInvoices.GeneratedNumberFileName | frontend/src/pages/ViewInvoices.jsx:370-371 | a number made of safe characters names its file unchanged |
| Dashboard.GetTitle | frontend/src/pages/Dashboard.jsx:15-20 | the title is one of the four titles |
| Dashboard.TitlePriority | frontend/src/pages/Dashboard.jsx:15-20 | "/create" wins whatever else the path holds; then "/invoices", then "/rates", else the overview |
| Dashboard.RouteTitles | frontend/src/pages/Dashboard.jsx:35-38 | each dashboard route gets its own title |
| Dashboard.FromStored | frontend/src/pages/Dashboard.jsx:59 | a stored invoice has no `paid` flag |
| Dashboard.FromStoredAll | frontend/src/pages/Dashboard.jsx:56-57 | the fetched list holds the stored invoices in order |
| Dashboard.TotalSales | frontend/src/pages/Dashboard.jsx:58 | the left fold of the grand totals from 0, a missing one adding 0; its properties are stated by TotalSalesConcat, TotalSalesEmptyAndSingle, TotalSalesBounds and TotalSalesNonNegative |
| Dashboard.TotalSalesConcat | frontend/src/pages/Dashboard.jsx:58 | total sales of joined lists is the sum of their totals |
| Dashboard.TotalSalesEmptyAndSingle | frontend/src/pages/Dashboard.jsx:58 | an empty list totals 0; one invoice totals its grand total, or 0 without one |
| Dashboard.TotalSalesBounds | frontend/src/pages/Dashboard.jsx:58 | with non-negative grand totals the total is at least each one |
| Dashboard.TotalSalesNonNegative | frontend/src/pages/Dashboard.jsx:58 | with non-negative grand totals the total is non-negative |
| Dashboard.SalesLabel | frontend/src/pages/Dashboard.jsx:76 | the card shows "₹ " and text that reads back as the total rounded to the hundredth |
| Dashboard.PendingCount | frontend/src/pages/Dashboard.jsx:59 | the pending count never exceeds the invoice count |
| Dashboard.PendingCountAll | frontend/src/pages/Dashboard.jsx:59 | all invoices count exactly when none is paid; none count exactly when all are |
| Dashboard.StoredAllPending | frontend/src/pages/Dashboard.jsx:59 | every stored invoice counts as pending |
| Dashboard.Phones | frontend/src/pages/Dashboard.jsx:60 | one phone per invoice, `undefined` when the customer or the phone is missing |
| Dashboard.Distinct | frontend/src/pages/Dashboard.jsx:60-61 | each value once, the same values, no more than the input |
| Dashboard.DistinctKeepsFirst | frontend/src/pages/Dashboard.jsx:60-61 | the first value stays first |
| Dashboard.DistinctFirstAppearance | frontend/src/pages/Dashboard.jsx:60-61 | the distinct values come in the order of their first appearance |
| Dashboard.FirstIndex | frontend/src/pages/Dashboard.jsx:60-61 | the first position holding a value |
| Dashboard.NoDuplicatesCardinality | frontend/src/pages/Dashboard.jsx:60-61 | a repeat-free list has as many elements as values |
| Dashboard.UniqueCustomers | frontend/src/pages/Dashboard.jsx:60-61 | the length of the Set of phone values; UniqueCustomersCount states that it is the number of distinct values and at most the invoice count |
| Dashboard.UniqueCustomersCount | frontend/src/pages/Dashboard.jsx:60-61 | the unique-customer figure is the number of distinct phone values, at most the invoice count |
| Dashboard.Recent | frontend/src/pages/Dashboard.jsx:92 | recent activity is the first five invoices, or all of them when fewer |

## Left out

- Concurrency: two simultaneous requests can read the same count and store the same number. The model runs requests one after another.
- Clocks, I/O and the network: the current year, the save instant, store errors, `fetch` and its reply are parameters. The server's local-time year (`new Date().getFullYear()` in the handler) is an input, separate from the UTC instant.
- The handlers require a four-digit year. For other years the date literals are invalid and the count query fails with a 500; the model does not cover that case.
- Floating point: money is exact `real`. Binary rounding artefacts in `toFixed`, `Math.round` and the sums are not modelled. Exponent forms and amounts of 1e21 or more, which `toFixed` prints in exponent notation, are not modelled either.
- `parseFloat` handles no exponent or `Infinity`. Both `parseFloat` and `trim` treat only the listed white-space characters as blanks: tab, line feed, vertical tab, form feed, carriage return, space, no-break space, byte-order mark and the line and paragraph separators. Other Unicode spaces such as U+3000 are not skipped.
- `toLocaleString('en-AE')` is modelled for two fraction digits only. The words line of the PDF prints the grand total with the default `toLocaleString`, which is not modelled.
- Number-to-text conversion of the item weight in the description is a text input (`weightText`). Item fields are their printed text, and a falsy numeric field is the empty text.
- JavaScript strings are UTF-16. Here a character is a Unicode scalar, so a character outside the Basic Multilingual Plane becomes one `_` in the file name instead of two.
- PDF layout, fonts, images, `autoTable` drawing and `doc.save` are not modelled. Neither are React rendering and state hooks (other than the form's state), routing, the sidebar, the admin pages, authentication, rates, the listing route and the server setup.
- Mongoose internals are not modelled: casting, strict-mode dropping of unknown paths (`clarity`, `ct`, `color`), and the exact order of validation messages.
- InvoiceModel.Stamp: a `createdAt` or `updatedAt` supplied in the request body is not modelled. Mongoose keeps a body `createdAt` on a new document, and `updatedAt` copies it, so such an invoice is stored under that instant rather than `now`, and it is counted in that instant's year. The model's body has no timestamp fields and always stamps `now`.
- ViewInvoices.NewestFirstSorted: does not state stability for equal `createdAt` values. The model inserts before equal entries but proves only ordering and permutation.
- CreateInvoiceForm.LineAmount: `toFixed(2)` yields text in the source; the model keeps the rounded value, which the subtotal reads back unchanged.
- The inputs upper-case clarity and color before calling the item handler (frontend/src/pages/CreateInvoice.jsx:124 and :130); the model takes the handler's value as given.
