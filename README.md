# Invoice app: a verified model in Dafny

This project models the core of a small Django invoicing application. The
application keeps customers, invoices and invoice line items. It computes
line totals and invoice totals, and numbers new invoices. Its create/edit
view saves an invoice header and a set of item rows in one transaction. It
can also serve an invoice as a PDF.

The model has seven modules:

- `Wrappers` (`wrappers.dfy`): the `Option` type.
- `Models` (`models.dfy`): the records and the five status choices.
  `InvoiceItem.line_total` and `Invoice.total_amount` are exact fixed-point
  arithmetic. Quantities and prices are counted in hundredths, line totals in
  ten-thousandths. The invoice-number rule of `Invoice.save` is here too.
- `Decimals` (`decimals.dfy`): the validator of
  `DecimalField(max_digits=10, decimal_places=2)`. A submitted decimal is a
  coefficient and exponent pair, as Python's `Decimal` holds it. A value that
  passes the validator is stored exactly, as a whole number of hundredths.
- `Forms` (`forms.dfy`): the fields `InvoiceForm` and `InvoiceItemForm` may
  change, and when a submission is valid. It keeps two item-formset
  configurations side by side:
  - the one the view builds (`extra=1, can_delete=True`, no minimum);
  - the declared `InvoiceItemFormSet`, which adds `min_num=1, validate_min=True`.
- `Database` (`database.dfy`): the store.
  - `Tables` is a value snapshot and `TablesValid` is the schema invariant:
    keys below their counters, unique customer names and invoice numbers,
    and foreign keys that resolve.
  - Customer get-or-create, the invoice save and the cascading deletes are
    functions on `Tables`.
  - The class `Store` holds the same tables as fields. Its methods perform the
    single-row writes, the cascades and the rollback.
- `Views` (`views.dfy`):
  - `invoice_list` as a sorted permutation of the invoice table.
  - `invoice_pdf` with the template and the HTML-to-PDF converter passed in as
    opaque functions.
  - `invoice_create_update`. It is specified by the function `Submit` and
    carried out step by step by the method `InvoiceCreateUpdate` on a `Store`,
    whose contract is `(db.State(), resp) == Submit(old(db.State()), ...)`.
- `SubmitProperties` (`submit_properties.dfy`): what one submission
  guarantees.
  - Atomicity.
  - Which invoice and which items a committed submission writes.
  - When a commit can fail.
  - How the customer step behaves across submissions.

Storage faults are an input. `failAt: Option<nat>` names the write that
raises: write 0 is the header save, then one write per acting item row, in
order. The header save also raises on an invoice-number clash or a missing
customer. The uuid of a new invoice number is an input too: a 32-character
lower-case hex string.

Four behaviours of the code are easy to misread. The model follows the code
in each:

- **Zero items.** The declared `InvoiceItemFormSet` asks for at least one item
  (`min_num=1, validate_min=True`, commented "Ensure at least one item is always
  present", `invoices/forms.py:41-49`). The view never uses it. It builds its
  own formset without a minimum (`invoices/views.py:37`), so an edit that
  deletes every item is committed. `EmptyingAnInvoice` proves this.
  `ConfigurationsDifferOnlyInMinimum` states the whole gap between the two
  formsets. Both differences come from `min_num=1`. The declared formset needs
  a surviving row. It also validates its first form even when that form is
  left unchanged, so filling only the second of the two forms it offers for a
  new invoice is rejected (`SecondFormOnly`).
- **Customer creation.** The get-or-create at `invoices/views.py:44` runs before
  validation and before `transaction.atomic()` opens at `invoices/views.py:50`.
  A customer created for a rejected or rolled-back submission therefore stays
  (`CustomerStepPersists`).
- **Order of item writes.** `formset.save()` handles the existing rows in
  submission order, each deleted or updated as marked, and inserts the new rows
  afterwards (`ApplyExisting`, then `ApplyNew`).
- **Failures.** Every exception raised inside the `try` block
  (`invoices/views.py:49-68`) is caught and printed, and the form is shown
  again. The model answers `FormPage` with the tables from before the
  transaction block.

Form text is cleaned as Django's `CharField` cleans it. Surrounding white space
is stripped (`Strip`) before a description or the notes are validated,
compared with the stored value, or saved. A description or notes holding a NUL
character is rejected, as `CharField`'s null-character validator rejects it
(`NullCharacter`).

## Model

| member | source | states |
|---|---|---|
| Models.ParseStatus | invoice_app_project/invoices/models.py:19-31 | an accepted status text is the stored value of the status it yields |
| Models.ParseStatusRoundTrip | invoice_app_project/invoices/models.py:19-25 | every choice is read back as itself; a text is accepted iff it is one of the five choices |
| Models.LineTotal | invoice_app_project/invoices/models.py:69-74 | the line total is the exact real product of quantity and unit price; a missing factor counts as 0 and makes it 0 |
| Models.LineTotalExample | invoice_app_project/invoices/models.py:69-74 | 3.00 x 19.99 = 59.97 exactly; a missing quantity gives 0 |
| Models.LineTotalBound | invoice_app_project/invoices/models.py:56-57 | with both factors within the column bounds, the magnitude of a line total is below 10^16 |
| Models.TotalAmount | invoice_app_project/invoices/models.py:41-44 | the total of no items is 0 |
| Models.TotalConcat | invoice_app_project/invoices/models.py:44 | the total of two listings put together is the sum of their totals |
| Models.TotalAppend | invoice_app_project/invoices/models.py:44 | adding an item raises the total by exactly its line total |
| Models.TotalRemoveAt | invoice_app_project/invoices/models.py:44 | removing an item lowers the total by exactly its line total |
| Models.TotalPermutation | invoice_app_project/invoices/models.py:44 | the total does not depend on the order of the items |
| Database.InvoiceTotalNoItems | invoice_app_project/invoices/models.py:41-44 | an invoice without items totals 0 |
| Models.GeneratedNumber | invoice_app_project/invoices/models.py:38 | a generated number is "INV-" plus 8 upper-case hex digits, 12 characters, whose lower-case form is the uuid's first 8 characters |
| Models.NumberOnSave | invoice_app_project/invoices/models.py:34-39 | after a save the number is never empty; a non-empty number is kept; an empty one becomes GeneratedNumber of the uuid |
| Models.NumberOnSaveIdempotent | invoice_app_project/invoices/models.py:35-39 | saving twice never regenerates the number, whatever the second uuid |
| Decimals.HundredthsExact | invoice_app_project/invoices/models.py:56-57 | a value the field's validator accepts is stored exactly, as 100 times its value |
| Decimals.HundredthsBound | invoice_app_project/invoices/models.py:56-57 | a value the validator accepts has magnitude at most 99999999.99 |
| Decimals.FitsFieldExamples | invoice_app_project/invoices/models.py:56-57 | 123.45 and 99999999.99 fit; 9 whole digits or 3 decimal places do not |
| Decimals.FitsField | invoice_app_project/invoices/models.py:56-57 | the validator accepts at most 10 digits, at most 2 of them after the point |
| Decimals.Hundredths | invoice_app_project/invoices/models.py:56-57 | the stored column value in hundredths; exact for accepted inputs (HundredthsExact) |
| Forms.StripSlice | invoice_app_project/invoices/forms.py:31 | stripping keeps the slice from the first to the last non-space character; everything cut off is space |
| Forms.StripIdempotent | invoice_app_project/invoices/forms.py:31 | stripping twice is stripping once |
| Forms.StripEmpty | invoice_app_project/invoices/forms.py:31 | a text strips to nothing iff it is all space |
| Forms.StripKeeps | invoice_app_project/invoices/forms.py:31 | a character that is not space is in the stripped text iff it is in the original |
| Forms.NullCharacter | invoice_app_project/invoices/forms.py:16-31 | a NUL character anywhere in a description or in the notes makes that form invalid |
| Forms.InvoiceFormValid | invoice_app_project/invoices/forms.py:16-19 | the header is valid iff customer (an existing one), both dates and a status choice are given and the notes hold no NUL character |
| Forms.ApplyInvoiceForm | invoice_app_project/invoices/forms.py:16-19 | the invoice form sets the chosen customer, the dates, the status and the stripped notes; the number is the edited invoice's (empty when creating) |
| Forms.RowItem | invoice_app_project/invoices/forms.py:28-31 | an item form sets only the stripped description, quantity and unit price; the owner is the formset's invoice |
| Forms.RowItemExact | invoice_app_project/invoices/models.py:56-57 | a valid row is stored exactly and within the column bounds |
| Forms.BlankDescription | invoice_app_project/invoices/forms.py:31 | a description of nothing but spaces is rejected, and an extra row with it and zero amounts is not looked at |
| Forms.FormsetValid | invoice_app_project/invoices/forms.py:41-49 | the formset is valid iff every live row is valid, every undeleted row below min_num is valid even if unchanged, and, under validate_min, at least min_num rows are live; a row's id may name any stored item, not only the invoice's own |
| Forms.LiveCount | invoice_app_project/invoices/forms.py:47-48 | the number of surviving rows is at most the number of rows |
| Forms.LiveCountPositive | invoice_app_project/invoices/forms.py:47-48 | the count of surviving rows is positive iff some row survives |
| Forms.OfferedFormCount | invoice_app_project/invoices/forms.py:45-47 | an unbound formset offers max(initial, min_num) forms plus the extra ones |
| Forms.OfferedForms | invoice_app_project/invoices/forms.py:41-49 | the view's formset offers initial + 1 forms; the declared one offers 2 for an invoice without items, initial + 1 otherwise |
| Forms.DeclaredFormsetKeepsAnItem | invoice_app_project/invoices/forms.py:47-48 | the declared formset accepts a submission only if some row survives it |
| Forms.RemovingEverything | invoice_app_project/invoices/forms.py:41-49 | rows that leave no item pass the view's formset and fail the declared one |
| Forms.ConfigurationsDifferOnlyInMinimum | invoice_app_project/invoices/views.py:37 | the declared formset accepts exactly what the view's formset accepts with at least one surviving row and, unless deleted, a valid first row |
| Forms.FirstFormRequired | invoice_app_project/invoices/forms.py:41-49 | under the declared formset an unchanged first extra form rejects the submission |
| Forms.SecondFormOnly | invoice_app_project/invoices/forms.py:41-49 | a new invoice with only the second offered form filled in passes the view's formset and fails the declared one |
| Database.CustomerNamed | invoice_app_project/invoices/models.py:9 | looking up a unique name finds the customer with that name, or proves there is none |
| Database.TablesValid | invoice_app_project/invoices/models.py:7-57 | the schema: keys below their counters, unique names and numbers, foreign keys that resolve, no invoice without a number |
| Database.ItemsOf | invoice_app_project/invoices/models.py:44 | the listing holds only the invoice's items (ItemsOfComplete and ItemsOfEnumerates: all of them, each once) |
| Database.ItemsOfComplete | invoice_app_project/invoices/models.py:44 | every item of the invoice is in its listing |
| Database.ItemsOfEnumerates | invoice_app_project/invoices/models.py:44 | the listing has the same multiset as the rows under any duplicate-free enumeration of the invoice's keys: each item exactly once |
| Database.InvoiceTotalAnyOrder | invoice_app_project/invoices/models.py:41-44 | total_amount equals the sum of line totals over the invoice's items in whatever order they are enumerated |
| Database.ItemsOfIgnoresAbove | invoice_app_project/invoices/models.py:44 | a key at or above the bound does not change the listing |
| Database.ItemsOfWithout | invoice_app_project/invoices/models.py:44 | removing a key at or above the bound does not change the listing |
| Database.ItemsOfNoneOwned | invoice_app_project/invoices/models.py:44 | an invoice owning no key lists no items |
| Database.ItemsOfRange | invoice_app_project/invoices/models.py:44 | items stored under consecutive keys, and none before them, are listed in key order |
| Database.InsertItemTotal | invoice_app_project/invoices/models.py:42-44 | inserting an item raises its invoice's total by its line total and leaves other totals alone |
| Database.RemoveItemTotal | invoice_app_project/invoices/models.py:42-44 | deleting an item lowers its invoice's total by exactly its line total |
| Database.GetOrCreate | invoice_app_project/invoices/views.py:41-44 | the result is a customer with the name; an existing one is reused untouched; otherwise one with only the name is inserted under the next key; the schema holds |
| Database.GetOrCreateIdempotent | invoice_app_project/invoices/views.py:44 | a second get-or-create of the same name changes nothing and returns the same customer |
| Database.GetOrCreateSingleCustomer | invoice_app_project/invoices/views.py:44 | afterwards exactly one customer has the name |
| Database.Numbered | invoice_app_project/invoices/models.py:34-39 | the saved instance differs from the given one only in its number, which is non-empty and kept when already set |
| Database.AfterSave | invoice_app_project/invoices/models.py:39 | an edit overwrites its own row and a create inserts under the next key; nothing else changes and the schema holds |
| Database.DeleteInvoiceCascade | invoice_app_project/invoices/models.py:54 | deleting an invoice removes exactly it and its items; every other row keeps its value, the customers and the counters are unchanged; the schema holds |
| Database.DeleteCustomerCascade | invoice_app_project/invoices/models.py:27 | deleting a customer removes exactly it, its invoices and their items; every other row keeps its value and the counters are unchanged; the schema holds |
| Database.Store.constructor | invoice_app_project/invoices/models.py:7-57 | an empty store with all keys starting at 1 satisfies the schema |
| Database.Store.GetOrCreateCustomer | invoice_app_project/invoices/views.py:44 | the store and the returned key are those of GetOrCreate |
| Database.Store.GetCustomerByName | invoice_app_project/invoices/views.py:55 | the returned key is the one customer with the name |
| Database.Store.SaveInvoice | invoice_app_project/invoices/models.py:34-39 | the instance is numbered; the save fails iff the number clashes or the customer is missing, writing nothing; otherwise the store is AfterSave's |
| Database.Store.DeleteItem | invoice_app_project/invoices/views.py:61 | one item row is removed and nothing else changes |
| Database.Store.UpdateItem | invoice_app_project/invoices/views.py:61 | one item row is overwritten, keeping its owner, and nothing else changes |
| Database.Store.InsertItem | invoice_app_project/invoices/views.py:61 | one item row is inserted under the next key and nothing else changes |
| Database.Store.DeleteInvoice | invoice_app_project/invoices/models.py:54 | the store becomes DeleteInvoiceCascade of the old one |
| Database.Store.DeleteCustomer | invoice_app_project/invoices/models.py:27 | the store becomes DeleteCustomerCascade of the old one |
| Database.Store.Rollback | invoice_app_project/invoices/views.py:50 | the store returns to the snapshot taken when the block began |
| Views.Scan | invoice_app_project/invoices/views.py:14 | the scan holds exactly the invoices with keys below the bound, in strictly increasing key order |
| Views.ScanOnce | invoice_app_project/invoices/views.py:14 | each invoice row below the bound occurs exactly once in the scan, and nothing else occurs |
| Views.InsertByDate | invoice_app_project/invoices/views.py:14 | inserting into a listing sorted by descending issue date keeps it sorted and adds exactly that invoice |
| Views.OrderByIssueDateDesc | invoice_app_project/invoices/views.py:14 | the result is sorted by descending issue date and a permutation of the input |
| Views.InvoiceList | invoice_app_project/invoices/views.py:12-19 | the list is sorted by descending issue date and holds every invoice of the store exactly once and nothing else |
| Views.ContextOf | invoice_app_project/invoices/views.py:95 | the template context is the invoice row, with items that all belong to it |
| Views.InvoicePdf | invoice_app_project/invoices/views.py:91-115 | an unknown key gives not-found and only it does; the template sees the invoice, its customer and its items; success serves the converter's bytes as application/pdf, inline, named after the number; failure serves "We had some errors <pre>" + html + "</pre>" |
| Views.DispositionInline | invoice_app_project/invoices/views.py:106 | the disposition is inline and names invoice_<number>.pdf |
| Views.ExistingStep | invoice_app_project/invoices/views.py:61 | one existing row: deleted when marked, overwritten when its cleaned values differ, skipped otherwise |
| Views.ForeignRow | invoice_app_project/invoices/views.py:48-61 | an initial row's id must name a stored item, of any invoice; a row naming another invoice's item is judged on its other fields and skipped on save, with no write |
| Views.ApplyExisting | invoice_app_project/invoices/views.py:61 | the existing rows in submission order (effect stated by ApplyExistingEffect) |
| Views.ApplyExistingKeepsOwners | invoice_app_project/invoices/views.py:61 | saving the existing rows adds no item and moves none to another invoice |
| Views.ApplyExistingOthers | invoice_app_project/invoices/views.py:61 | saving the existing rows leaves other invoices' items untouched |
| Views.ApplyExistingEffect | invoice_app_project/invoices/views.py:61 | with distinct row ids, an item of the invoice is deleted if its row is marked, holds the row's values otherwise, and is kept when no row names it |
| Views.NewRowsMembers | invoice_app_project/invoices/views.py:61 | the inserted rows are exactly the changed, undeleted extra rows |
| Views.NoInsertedRows | invoice_app_project/invoices/views.py:61 | rows none of which is inserted insert nothing |
| Views.ApplyNew | invoice_app_project/invoices/views.py:61 | the inserted rows under consecutive keys (effect stated by ApplyNewItems) |
| Views.ApplyNewItems | invoice_app_project/invoices/views.py:61 | the inserts take exactly the keys from the counter on, one per inserted row in order, and keep every stored item |
| Views.NewItemsOwned | invoice_app_project/invoices/views.py:61 | every inserted item belongs to the saved invoice |
| Views.ItemWrites | invoice_app_project/invoices/views.py:60-61 | saving the formset changes only the item table and its counter |
| Views.CommitValid | invoice_app_project/invoices/views.py:60-61 | the tables after the item writes satisfy the schema |
| Views.Commit | invoice_app_project/invoices/views.py:50-61 | a committed block returns a saved invoice key and leaves the customers alone |
| Views.CommitKeepsValid | invoice_app_project/invoices/views.py:50-61 | a committed block leaves the schema satisfied |
| Views.Submit | invoice_app_project/invoices/views.py:22-78 | the whole request as a function of the store (its guarantees: SubmitValid and the SubmitProperties lemmas) |
| Views.CustomerStep | invoice_app_project/invoices/views.py:41-46 | with an empty name nothing changes; otherwise the form's customer becomes the got-or-created one; only the customer table changes |
| Views.Gate | invoice_app_project/invoices/views.py:48 | the gate is the header form and the view's formset both being valid after the customer step, with row ids chosen among all stored items |
| Views.FormInstance | invoice_app_project/invoices/views.py:51-56 | the instance carries the submitted status and dates, the stripped notes, the edited invoice's number, and the typed-in name's customer over the selected one |
| Views.SubmitValid | invoice_app_project/invoices/views.py:22-78 | every submission leaves the schema satisfied |
| Views.SaveExistingRows | invoice_app_project/invoices/views.py:61 | without a fault the items become ApplyExisting's; a fault is raised iff it falls among this loop's writes; only the item table changes |
| Views.SaveExistingRow | invoice_app_project/invoices/views.py:61 | one existing row is applied as ExistingStep describes |
| Views.SaveNewRows | invoice_app_project/invoices/views.py:61 | without a fault the items become ApplyNew's; a fault is raised iff it falls among this loop's writes |
| Views.WriteItems | invoice_app_project/invoices/views.py:60-61 | raises iff the fault falls among the item writes; otherwise the store is ItemWrites of the old one |
| Views.CommitToStore | invoice_app_project/invoices/views.py:49-68 | the block commits exactly when Commit does, and to Commit's tables; otherwise the store is as before |
| Views.RunCustomerStep | invoice_app_project/invoices/views.py:41-46 | the store and form data become CustomerStep's |
| Views.BuildInstance | invoice_app_project/invoices/views.py:51-56 | the instance is the form applied, with the customer of the typed-in name when one was given |
| Views.InvoiceCreateUpdate | invoice_app_project/invoices/views.py:22-78 | the store and the response are exactly those Submit gives for the old store |
| SubmitProperties.SubmitRedirect | invoice_app_project/invoices/views.py:48-63 | a redirect happens only for a POST that passes the gate, saves without a clash and meets no fault; the store is then the committed one |
| SubmitProperties.SubmitCommits | invoice_app_project/invoices/views.py:48-63 | a redirect carries exactly the committed block's tables and key |
| SubmitProperties.CommitEffect | invoice_app_project/invoices/views.py:50-61 | a committed block wrote the numbered instance under its key and the rows' effect on the items, nothing else |
| SubmitProperties.CommitInvoice | invoice_app_project/invoices/views.py:57 | a committed block saved exactly one invoice: the edited one keeping its number, or a new one under the next key with a generated number |
| SubmitProperties.CommitNewItems | invoice_app_project/invoices/views.py:61 | a committed block stored the inserted rows in order under the keys from the old counter on |
| SubmitProperties.CommitCreatedItems | invoice_app_project/invoices/views.py:57-61 | a block that creates an invoice leaves it with exactly the inserted rows as its items |
| SubmitProperties.FreshInvoiceItems | invoice_app_project/invoices/views.py:61 | for an invoice that owned no item, the rows leave exactly the inserted ones as its items |
| SubmitProperties.UnknownInvoice | invoice_app_project/invoices/views.py:28-29 | an unknown key in edit mode gives not-found and no change; nothing else gives not-found |
| SubmitProperties.CustomerStepPersists | invoice_app_project/invoices/views.py:44-50 | a customer created for a submission stays whether it is rejected, rolled back or committed |
| SubmitProperties.NoRedirectNoWrites | invoice_app_project/invoices/views.py:48-68 | a submission without a redirect leaves the invoice and item tables and their counters as they were |
| SubmitProperties.RedirectInvoice | invoice_app_project/invoices/views.py:57-63 | a redirect names the one invoice saved: the edited one keeping its number, or a new one under the next key with a generated number; the others are unchanged |
| SubmitProperties.RedirectInvoiceFields | invoice_app_project/invoices/views.py:51-57 | the saved invoice has the submitted status and dates, the stripped notes, and the typed-in name's customer over the selected one |
| SubmitProperties.RedirectItems | invoice_app_project/invoices/views.py:60-61 | a commit writes only its own invoice's items; every item afterwards is old and unchanged, the saved invoice's, or new |
| SubmitProperties.RedirectNewItems | invoice_app_project/invoices/views.py:61 | the inserted rows take the keys from the old counter on, in order, as items of the saved invoice |
| SubmitProperties.CreatedInvoiceTotal | invoice_app_project/invoices/views.py:57-61 | a created invoice's items are exactly the inserted rows, so its total is the sum of their line totals |
| SubmitProperties.EditedItem | invoice_app_project/invoices/views.py:61 | with distinct row ids, each item of the edited invoice is deleted, updated or kept as the row naming it says |
| SubmitProperties.EditCommitsUnlessStorageFails | invoice_app_project/invoices/views.py:48-63 | an edit that passes the gate is committed whenever no write raises |
| SubmitProperties.CreateFailsOnNumberClash | invoice_app_project/invoices/models.py:28-39 | a create whose generated number is taken raises in the save: the form is shown again and no invoice is created |
| SubmitProperties.DeletionOnlyRows | invoice_app_project/invoices/views.py:37 | rows that only delete pass the view's gate and fail the declared formset, and insert nothing |
| SubmitProperties.EmptyingAnInvoice | invoice_app_project/invoices/views.py:37 | an edit deleting every item is committed and leaves the invoice without items, though the declared formset rejects it |
| SubmitProperties.DeletingEveryItem | invoice_app_project/invoices/views.py:61 | rows that delete every item of an invoice and insert none leave it without items |
| SubmitProperties.ResubmitSameName | invoice_app_project/invoices/views.py:41-44 | submitting the same customer name again never creates a second customer |

## Left out

- Templates, widgets and rendering are left out. `render`, `get_template` and
  the page context are presentation. A GET and a re-rendered form are both the
  response `FormPage`. `invoice_detail` only renders.
- `urls.py` is not part of this model. The edit key is taken as an optional
  natural number, and `if pk:` treats 0 as absent.
- `pisa.CreatePDF` is a foreign library. It is the opaque parameter `convert`.
  The template is the opaque parameter `render`, applied to what the template
  can reach: the invoice, its customer and its items.
- `uuid.uuid4()` is random. Its hex string is a parameter. Numbers are never
  retried on a collision, as in the code.
- Date parsing and e-mail validation are left out. Dates are day numbers and
  the contact fields are free text.
- `max_length` limits are checked only for the item description (255). The
  customer name (200), phone (20), number (50) and status (10) limits are not
  modelled.
- `CustomerForm` is built by the view but never validated or saved, so it is
  not modelled.
- The formset's management form, `max_num` and `absolute_max` are left out, and
  so are Django's form and ORM internals beyond the behaviour stated above.
- `print` logging, `get_absolute_url` and the `__str__` methods are left out.
- The status column's default (`Draft`, `invoices/models.py:31`) is not
  modelled. The view never relies on it, because the form requires a status.
- An exception from the get-or-create at `invoices/views.py:44` is raised
  outside the `try` block and reaches the caller. The model's get-or-create
  cannot fail, so that path is not modelled.
- Blank notes are stored as the empty text. Whether a database column gets NULL
  instead is not modelled.
- `Strip` follows `str.isspace()` for the characters it removes. Other Unicode
  normalisation done by the browser or by Django is not modelled.
- Concurrent requests are left out. The store is one sequential state, and the
  transaction is all-or-nothing over it.
- Database.Store.Rollback: it also restores the key counters. A database whose
  sequences survive a rollback would hand out different keys afterwards.
- A fault at write 0 is modelled as the header save followed by a rollback.
  The store ends up the same as if the save had raised.
- Views.ApplyExistingEffect, SubmitProperties.EditedItem and
  SubmitProperties.EmptyingAnInvoice assume that no two rows name the same
  item (`DistinctRowIds`). A formset rendered by
  the view never does that.
- Views.Submit carries no contract of its own. What it guarantees is stated by
  `SubmitValid` and the lemmas of `SubmitProperties`.
