/**
 * The request handlers: the invoice list, the combined create/edit
 * submission (customer get-or-create, validation gate, atomic commit of the
 * header and the item rows, rollback on any exception), and the shaping of
 * the PDF response around an opaque HTML-to-PDF converter.
 */
module Views {
  import opened Wrappers
  import opened Models
  import opened Forms
  import opened Database

  // ---------------------------------------------------------------------
  // invoice_list
  // ---------------------------------------------------------------------

  /** The invoice table as the database scans it: the rows with keys below
      `bound`, in strictly increasing key order, so each of them once
      (ScanOnce). */
  function Scan(invoices: map<Id, Invoice>, bound: nat): (r: seq<(Id, Invoice)>)
    ensures forall p :: p in r <==> p.0 < bound && p.0 in invoices && invoices[p.0] == p.1
    ensures forall i, j :: 0 <= i < j < |r| ==> r[i].0 < r[j].0
  {
    if bound == 0 then []
    else
      var k := bound - 1;
      var before := Scan(invoices, k);
      assert forall i :: 0 <= i < |before| ==> before[i] in before;
      before + (if k in invoices then [(k, invoices[k])] else [])
  }

  /** A listing whose keys strictly increase holds no entry twice. */
  lemma {:induction false} IncreasingKeysOnce(s: seq<(Id, Invoice)>, p: (Id, Invoice))
    requires forall i, j :: 0 <= i < j < |s| ==> s[i].0 < s[j].0
    ensures multiset(s)[p] == if p in s then 1 else 0
  {
    if s != [] {
      var tail := s[1..];
      assert forall i, j :: 0 <= i < j < |tail| ==> tail[i].0 < tail[j].0 by {
        forall i, j | 0 <= i < j < |tail|
          ensures tail[i].0 < tail[j].0
        {
          assert tail[i] == s[i + 1] && tail[j] == s[j + 1];
        }
      }
      IncreasingKeysOnce(tail, p);
      assert s == [s[0]] + tail;
      if s[0] == p {
        forall i | 0 <= i < |tail|
          ensures tail[i] != p
        {
          assert tail[i] == s[i + 1];
        }
      }
    }
  }

  /** The scan holds each row below the bound exactly once and nothing else. */
  lemma ScanOnce(invoices: map<Id, Invoice>, bound: nat, p: (Id, Invoice))
    ensures multiset(Scan(invoices, bound))[p]
         == if p.0 < bound && p.0 in invoices && invoices[p.0] == p.1 then 1 else 0
  {
    IncreasingKeysOnce(Scan(invoices, bound), p);
  }

  predicate SortedByIssueDateDesc(s: seq<(Id, Invoice)>) {
    forall i, j :: 0 <= i < j < |s| ==> s[i].1.issueDate >= s[j].1.issueDate
  }

  /** Prepending an entry no earlier than everything after it keeps the
      order. */
  lemma SortedCons(p: (Id, Invoice), s: seq<(Id, Invoice)>)
    requires SortedByIssueDateDesc(s)
    requires forall q :: q in s ==> q.1.issueDate <= p.1.issueDate
    ensures SortedByIssueDateDesc([p] + s)
  {
    var r := [p] + s;
    forall i, j | 0 <= i < j < |r|
      ensures r[i].1.issueDate >= r[j].1.issueDate
    {
      if i > 0 {
        assert r[i] == s[i - 1] && r[j] == s[j - 1];
      } else {
        assert r[j] in s;
      }
    }
  }

  /** In a sorted listing no entry is later than the first. */
  lemma HeadIsLatest(s: seq<(Id, Invoice)>)
    requires SortedByIssueDateDesc(s) && s != []
    ensures forall q :: q in s ==> q.1.issueDate <= s[0].1.issueDate
  {
    forall q | q in s
      ensures q.1.issueDate <= s[0].1.issueDate
    {
      var j :| 0 <= j < |s| && s[j] == q;
      if j > 0 {
        assert s[0].1.issueDate >= s[j].1.issueDate;
      }
    }
  }

  lemma SortedTail(s: seq<(Id, Invoice)>)
    requires SortedByIssueDateDesc(s) && s != []
    ensures SortedByIssueDateDesc(s[1..])
  {
    var tail := s[1..];
    forall i, j | 0 <= i < j < |tail|
      ensures tail[i].1.issueDate >= tail[j].1.issueDate
    {
      assert tail[i] == s[i + 1] && tail[j] == s[j + 1];
    }
  }

  /** Inserting an entry later than the head into the tail gives entries
      no later than the head. */
  lemma BelowHead(p: (Id, Invoice), s: seq<(Id, Invoice)>, rest: seq<(Id, Invoice)>)
    requires SortedByIssueDateDesc(s) && s != [] && p.1.issueDate < s[0].1.issueDate
    requires multiset(rest) == multiset(s[1..]) + multiset{p}
    ensures forall q :: q in rest ==> q.1.issueDate <= s[0].1.issueDate
    ensures multiset([s[0]] + rest) == multiset(s) + multiset{p}
  {
    HeadIsLatest(s);
    forall q | q in rest
      ensures q.1.issueDate <= s[0].1.issueDate
    {
      assert q in multiset(rest);
      if q != p {
        assert q in multiset(s[1..]);
        assert q in s[1..];
      }
    }
    assert s == [s[0]] + s[1..];
  }

  /** Places p in front of the first entry with an earlier issue date. */
  function InsertByDate(p: (Id, Invoice), s: seq<(Id, Invoice)>): (r: seq<(Id, Invoice)>)
    requires SortedByIssueDateDesc(s)
    ensures SortedByIssueDateDesc(r)
    ensures multiset(r) == multiset(s) + multiset{p}
  {
    if s == [] || p.1.issueDate >= s[0].1.issueDate then
      if s == [] then [p]
      else
        HeadIsLatest(s);
        SortedCons(p, s);
        [p] + s
    else
      var tail := s[1..];
      SortedTail(s);
      var rest := InsertByDate(p, tail);
      BelowHead(p, s, rest);
      SortedCons(s[0], rest);
      [s[0]] + rest
  }

  /** `order_by('-issue_date')`: the same entries, latest issue date first.
      Entries with equal dates may come in any order. */
  function OrderByIssueDateDesc(s: seq<(Id, Invoice)>): (r: seq<(Id, Invoice)>)
    ensures SortedByIssueDateDesc(r)
    ensures multiset(r) == multiset(s)
  {
    if s == [] then []
    else
      assert s == [s[0]] + s[1..];
      InsertByDate(s[0], OrderByIssueDateDesc(s[1..]))
  }

  /** `invoice_list`: every invoice of the store exactly once, latest issue
      date first. */
  function InvoiceList(t: Tables): (r: seq<(Id, Invoice)>)
    requires TablesValid(t)
    ensures SortedByIssueDateDesc(r)
    ensures forall p :: p in r <==> p.0 in t.invoices && t.invoices[p.0] == p.1
    ensures forall p: (Id, Invoice) :: multiset(r)[p] == if p.0 in t.invoices && t.invoices[p.0] == p.1 then 1 else 0
  {
    var scan := Scan(t.invoices, t.nextInvoiceId);
    var r := OrderByIssueDateDesc(scan);
    forall p: (Id, Invoice)
      ensures multiset(r)[p] == if p.0 in t.invoices && t.invoices[p.0] == p.1 then 1 else 0
      ensures p in r <==> p.0 in t.invoices && t.invoices[p.0] == p.1
    {
      ScanOnce(t.invoices, t.nextInvoiceId, p);
      assert multiset(r)[p] == multiset(scan)[p];
      assert p in r <==> p in multiset(r);
    }
    r
  }

  // ---------------------------------------------------------------------
  // invoice_pdf
  // ---------------------------------------------------------------------

  /** What the converter reports: an error flag and the bytes it wrote. */
  datatype Conversion = Conversion(err: bool, pdf: seq<bv8>)

  datatype Body = Bytes(data: seq<bv8>) | Text(text: string)

  datatype PdfResponse =
    | PdfNotFound
    | HttpResponse(contentType: string, disposition: Option<string>, body: Body)

  const PdfContentType: string := "application/pdf"
  const HtmlContentType: string := "text/html; charset=utf-8"
  const ErrorPrefix: string := "We had some errors <pre>"
  const ErrorSuffix: string := "</pre>"

  function Disposition(number: string): string {
    "inline; filename=\"invoice_" + number + ".pdf\""
  }

  /** What the PDF template can reach from `{'invoice': invoice}`: the row
      itself, its customer through the foreign key, and `invoice.items.all()`. */
  datatype PdfContext = PdfContext(invoice: Invoice, customer: Option<Customer>, items: seq<Item>)

  function ContextOf(t: Tables, pk: Id): (c: PdfContext)
    requires pk in t.invoices
    ensures c.invoice == t.invoices[pk]
    ensures forall x :: x in c.items ==> x.invoice == pk
  {
    var invoice := t.invoices[pk];
    PdfContext(invoice,
               if invoice.customer in t.customers then Some(t.customers[invoice.customer]) else None,
               ItemsOf(t.items, pk, t.nextItemId))
  }

  /** `invoice_pdf`: the page template (`render`) and the converter
      (`convert`) are opaque.  An unknown key is not found.  A successful
      conversion is served as an inline PDF named after the invoice number; a
      failed one as an HTML page that echoes the rendered HTML between the
      error prefix and suffix. */
  function InvoicePdf(t: Tables, pk: Id, render: PdfContext -> string, convert: string -> Conversion)
    : (r: PdfResponse)
    ensures r.PdfNotFound? <==> pk !in t.invoices
    ensures pk in t.invoices && !convert(render(ContextOf(t, pk))).err ==>
      && r.contentType == PdfContentType
      && r.disposition == Some(Disposition(t.invoices[pk].number))
      && r.body == Bytes(convert(render(ContextOf(t, pk))).pdf)
    ensures pk in t.invoices && convert(render(ContextOf(t, pk))).err ==>
      var html := render(ContextOf(t, pk));
      && r.contentType == HtmlContentType && r.disposition.None? && r.body.Text?
      && |r.body.text| == |ErrorPrefix| + |html| + |ErrorSuffix|
      && r.body.text[..|ErrorPrefix|] == ErrorPrefix
      && r.body.text[|ErrorPrefix|..|ErrorPrefix| + |html|] == html
      && r.body.text[|ErrorPrefix| + |html|..] == ErrorSuffix
  {
    if pk !in t.invoices then PdfNotFound
    else
      var invoice := t.invoices[pk];
      var html := render(ContextOf(t, pk));
      var status := convert(html);
      var text := ErrorPrefix + html + ErrorSuffix;
      assert text[..|ErrorPrefix|] == ErrorPrefix;
      assert text[|ErrorPrefix|..|ErrorPrefix| + |html|] == html;
      assert text[|ErrorPrefix| + |html|..] == ErrorSuffix;
      if status.err then HttpResponse(HtmlContentType, None, Text(text))
      else HttpResponse(PdfContentType, Some(Disposition(invoice.number)), Bytes(status.pdf))
  }

  /** The disposition always asks for inline display, never a download, and
      carries the invoice number. */
  lemma DispositionInline(number: string)
    ensures Disposition(number)[..8] == "inline; "
    ensures Disposition(number)[26..26 + |number|] == number
    ensures Disposition(number)[26 + |number|..] == ".pdf\""
  {
    var d := Disposition(number);
    assert d == "inline; filename=\"invoice_" + number + ".pdf\"";
    assert |"inline; filename=\"invoice_"| == 26;
  }

  // ---------------------------------------------------------------------
  // invoice_create_update: the item rows
  // ---------------------------------------------------------------------

  /** Every remaining item was there before and keeps its owning invoice. */
  ghost predicate KeepsOwners(before: map<Id, Item>, after: map<Id, Item>) {
    forall k :: k in after ==> k in before && after[k].invoice == before[k].invoice
  }

  /** What the view's formset does with one initial row when saving for
      invoice `inv`: delete it when marked, update it when changed, and skip
      it when it names no item of this invoice (any longer). */
  function ExistingStep(items: map<Id, Item>, inv: Id, row: ItemRow): map<Id, Item> {
    if row.id.Some? && row.id.value in items && items[row.id.value].invoice == inv then
      var k := row.id.value;
      if ShouldDelete(ViewItemFormset, row) then items - {k}
      else if items[k] != RowItem(inv, row) then items[k := RowItem(inv, row)]
      else items
    else items
  }

  /** The id of an initial row must be the key of a stored item, but need not
      be one of `inv`'s: such a row is judged on its other fields alone, and
      saving skips it. */
  lemma ForeignRow(items: map<Id, Item>, inv: Id, row: ItemRow)
    requires row.id.Some?
    ensures row.id.value !in items ==> !RowValid(row, items.Keys)
    ensures row.id.value in items ==> (RowValid(row, items.Keys) <==> RowValid(row.(id := None), items.Keys))
    ensures row.id.value in items && items[row.id.value].invoice != inv ==>
      ExistingStep(items, inv, row) == items && StepWrites(items, inv, row) == 0
  {
  }

  /** Number of writes (0 or 1) ExistingStep issues. */
  function StepWrites(items: map<Id, Item>, inv: Id, row: ItemRow): nat {
    if row.id.Some? && row.id.value in items && items[row.id.value].invoice == inv
       && (ShouldDelete(ViewItemFormset, row) || items[row.id.value] != RowItem(inv, row))
    then 1 else 0
  }

  /** `save_existing_objects`: the rows in submission order. */
  function ApplyExisting(items: map<Id, Item>, inv: Id, rows: seq<ItemRow>): map<Id, Item>
    decreases |rows|
  {
    if rows == [] then items
    else ApplyExisting(ExistingStep(items, inv, rows[0]), inv, rows[1..])
  }

  /** Saving the initial rows never adds an item and never moves one to
      another invoice. */
  lemma {:induction false} ApplyExistingKeepsOwners(items: map<Id, Item>, inv: Id, rows: seq<ItemRow>)
    ensures KeepsOwners(items, ApplyExisting(items, inv, rows))
    decreases |rows|
  {
    if rows != [] {
      ApplyExistingKeepsOwners(ExistingStep(items, inv, rows[0]), inv, rows[1..]);
    }
  }

  /** Number of writes ApplyExisting issues. */
  function ExistingWrites(items: map<Id, Item>, inv: Id, rows: seq<ItemRow>): nat
    decreases |rows|
  {
    if rows == [] then 0
    else StepWrites(items, inv, rows[0]) + ExistingWrites(ExistingStep(items, inv, rows[0]), inv, rows[1..])
  }

  /** Saving the initial rows leaves the items of other invoices alone:
      an item that remains is either untouched or belongs to `inv`. */
  lemma {:induction false} ApplyExistingOthers(items: map<Id, Item>, inv: Id, rows: seq<ItemRow>)
    ensures var r := ApplyExisting(items, inv, rows);
      && (forall k :: k in items && items[k].invoice != inv ==> k in r && r[k] == items[k])
      && (forall k :: k in r ==> k in items && (r[k] == items[k] || r[k].invoice == inv))
    decreases |rows|
  {
    if rows != [] {
      ApplyExistingOthers(ExistingStep(items, inv, rows[0]), inv, rows[1..]);
    }
  }

  /** No two rows name the same stored item (a well-formed formset). */
  predicate DistinctRowIds(rows: seq<ItemRow>) {
    forall i, j :: 0 <= i < j < |rows| && rows[i].id.Some? ==> rows[i].id != rows[j].id
  }

  /** The first row that names item k, if any. */
  function RowFor(rows: seq<ItemRow>, k: Id): (r: Option<ItemRow>)
    ensures r.None? <==> forall i :: 0 <= i < |rows| ==> rows[i].id != Some(k)
    ensures r.Some? ==> r.value.id == Some(k) && r.value in rows
  {
    if rows == [] then None
    else if rows[0].id == Some(k) then Some(rows[0])
    else
      var r := RowFor(rows[1..], k);
      assert forall i :: 1 <= i < |rows| ==> rows[i] == rows[1..][i - 1];
      r
  }

  /** What saving the initial rows does to one stored item of `inv`: the row
      naming it decides — gone when marked for deletion, the row's values
      otherwise — and an item no row names, or of another invoice, is left
      as it was. */
  lemma {:induction false} ApplyExistingEffect(items: map<Id, Item>, inv: Id, rows: seq<ItemRow>, k: Id)
    requires DistinctRowIds(rows)
    ensures var r := ApplyExisting(items, inv, rows);
      if k in items && items[k].invoice == inv && RowFor(rows, k).Some? then
        if RowFor(rows, k).value.delete then k !in r
        else k in r && r[k] == RowItem(inv, RowFor(rows, k).value)
      else (k in r <==> k in items) && (k in r ==> r[k] == items[k])
    decreases |rows|
  {
    if rows != [] {
      var rest := rows[1..];
      assert DistinctRowIds(rest) by {
        forall i, j | 0 <= i < j < |rest| && rest[i].id.Some?
          ensures rest[i].id != rest[j].id
        {
          assert rest[i] == rows[i + 1] && rest[j] == rows[j + 1];
        }
      }
      var items1 := ExistingStep(items, inv, rows[0]);
      ApplyExistingEffect(items1, inv, rest, k);
      if rows[0].id == Some(k) {
        assert RowFor(rest, k).None? by {
          forall i | 0 <= i < |rest|
            ensures rest[i].id != Some(k)
          {
            assert rest[i] == rows[i + 1];
          }
        }
      }
    }
  }

  /** An extra row that `save_new_objects` inserts: changed and not marked
      for deletion. */
  predicate Inserted(row: ItemRow) {
    row.id.None? && Live(ViewItemFormset, row)
  }

  /** The inserted rows, in submission order. */
  function NewRows(rows: seq<ItemRow>): seq<ItemRow> {
    if rows == [] then []
    else (if Inserted(rows[0]) then [rows[0]] else []) + NewRows(rows[1..])
  }

  /** NewRows keeps exactly the inserted rows. */
  lemma {:induction false} NewRowsMembers(rows: seq<ItemRow>)
    ensures forall row :: row in NewRows(rows) <==> row in rows && Inserted(row)
  {
    if rows != [] {
      NewRowsMembers(rows[1..]);
      assert rows == [rows[0]] + rows[1..];
    }
  }

  /** Rows none of which is inserted insert nothing. */
  lemma {:induction false} NoInsertedRows(rows: seq<ItemRow>)
    requires forall i :: 0 <= i < |rows| ==> !Inserted(rows[i])
    ensures NewRows(rows) == []
  {
    if rows != [] {
      assert forall i :: 1 <= i < |rows| ==> rows[1..][i - 1] == rows[i];
      NoInsertedRows(rows[1..]);
    }
  }

  ghost predicate KeysBelow(items: map<Id, Item>, next: nat) {
    forall k :: k in items ==> k < next
  }

  /** `save_new_objects`: each inserted row becomes an item of `inv` under
      the next key, counting from `next`, in submission order
      (ApplyNewItems). */
  function ApplyNew(items: map<Id, Item>, next: nat, inv: Id, rows: seq<ItemRow>): map<Id, Item>
    decreases |rows|
  {
    if rows == [] then items
    else if Inserted(rows[0]) then
      ApplyNew(items[next := RowItem(inv, rows[0])], next + 1, inv, rows[1..])
    else ApplyNew(items, next, inv, rows[1..])
  }

  /** The rows `inserted` stored, in order, as items of `inv` under the keys
      from `next` on. */
  predicate InsertedAt(items: map<Id, Item>, next: nat, inv: Id, inserted: seq<ItemRow>) {
    forall j :: 0 <= j < |inserted| ==> next + j in items && items[next + j] == RowItem(inv, inserted[j])
  }

  /** The items the inserted rows become, in submission order. */
  function StoredItems(inv: Id, rows: seq<ItemRow>): (r: seq<Item>)
    ensures |r| == |rows| && forall j :: 0 <= j < |rows| ==> r[j] == RowItem(inv, rows[j])
  {
    seq(|rows|, j requires 0 <= j < |rows| => RowItem(inv, rows[j]))
  }

  /** The inserts take exactly the keys from `next` on, one per inserted
      row in submission order, each owned by `inv`; every stored item stays
      as it was. */
  lemma {:induction false} ApplyNewItems(items: map<Id, Item>, next: nat, inv: Id, rows: seq<ItemRow>)
    requires KeysBelow(items, next)
    ensures var r := ApplyNew(items, next, inv, rows);
      && (forall k :: k in r <==> k in items || next <= k < next + |NewRows(rows)|)
      && (forall k :: k in items ==> r[k] == items[k])
      && InsertedAt(r, next, inv, NewRows(rows))
    decreases |rows|
  {
    if rows != [] {
      var nr := NewRows(rows);
      var r := ApplyNew(items, next, inv, rows);
      if Inserted(rows[0]) {
        var items1 := items[next := RowItem(inv, rows[0])];
        ApplyNewItems(items1, next + 1, inv, rows[1..]);
        assert r == ApplyNew(items1, next + 1, inv, rows[1..]);
        assert nr == [rows[0]] + NewRows(rows[1..]);
        assert next in items1;
        forall j | 0 <= j < |nr|
          ensures r[next + j] == RowItem(inv, nr[j])
        {
          if j > 0 {
            assert nr[j] == NewRows(rows[1..])[j - 1];
            assert next + j == (next + 1) + (j - 1);
          }
        }
      } else {
        ApplyNewItems(items, next, inv, rows[1..]);
        assert nr == NewRows(rows[1..]);
      }
    }
  }

  /** Every new item is owned by `inv`. */
  lemma NewItemsOwned(items: map<Id, Item>, next: nat, inv: Id, rows: seq<ItemRow>)
    requires KeysBelow(items, next)
    ensures var r := ApplyNew(items, next, inv, rows);
      forall k :: k in r && k !in items ==> k < next + |NewRows(rows)| && r[k].invoice == inv
  {
    ApplyNewItems(items, next, inv, rows);
    var r := ApplyNew(items, next, inv, rows);
    forall k | k in r && k !in items
      ensures k < next + |NewRows(rows)| && r[k].invoice == inv
    {
      assert r[next + (k - next)] == RowItem(inv, NewRows(rows)[k - next]);
    }
  }

  /** The tables after the item writes of a commit, the header saved as
      `t1`'s invoice `id`: the existing rows, then the new rows. */
  function ItemWrites(t1: Tables, id: Id, rows: seq<ItemRow>): (r: Tables)
    requires TablesValid(t1) && id in t1.invoices
    ensures r == t1.(items := r.items, nextItemId := r.nextItemId)
  {
    t1.(items := ApplyNew(ApplyExisting(t1.items, id, rows), t1.nextItemId, id, rows),
        nextItemId := t1.nextItemId + |NewRows(rows)|)
  }

  /** Number of writes a commit issues: the header, then the item writes. */
  function CommitWrites(t1: Tables, id: Id, rows: seq<ItemRow>): nat {
    1 + ExistingWrites(t1.items, id, rows) + |NewRows(rows)|
  }

  /** The tables after the item writes of a commit satisfy the schema. */
  lemma CommitValid(t1: Tables, id: Id, rows: seq<ItemRow>)
    requires TablesValid(t1) && id in t1.invoices
    ensures TablesValid(ItemWrites(t1, id, rows))
  {
    var kept := ApplyExisting(t1.items, id, rows);
    ApplyExistingKeepsOwners(t1.items, id, rows);
    assert KeysBelow(kept, t1.nextItemId);
    ApplyNewItems(kept, t1.nextItemId, id, rows);
    NewItemsOwned(kept, t1.nextItemId, id, rows);
  }

  // ---------------------------------------------------------------------
  // invoice_create_update: commit and the whole request
  // ---------------------------------------------------------------------

  /** The body of `transaction.atomic()`: save the header (numbering it when
      new), then the existing rows, then the new rows.  Storage may raise at
      the write numbered `failAt` (the header save is write 0); the header
      save also raises on a number clash or a missing customer.  Any
      exception yields None: the caller then keeps the tables from before
      the block. */
  function Commit(t: Tables, editId: Option<Id>, inst: Invoice, rows: seq<ItemRow>,
                  uuidHex: string, failAt: Option<nat>): (r: Option<(Tables, Id)>)
    requires TablesValid(t) && IsUuidHex(uuidHex)
    requires editId.Some? ==> editId.value in t.invoices
    ensures r.Some? ==> r.value.1 in r.value.0.invoices
    ensures r.Some? ==> r.value.0.customers == t.customers && r.value.0.nextCustomerId == t.nextCustomerId
  {
    var saved := Numbered(inst, uuidHex);
    if SaveRaises(t, editId, saved) then None
    else
      var (t1, id) := AfterSave(t, editId, saved);
      if failAt.Some? && failAt.value < CommitWrites(t1, id, rows) then None
      else Some((ItemWrites(t1, id, rows), id))
  }

  /** A submission: GET, or POST with the `new_customer_name` field (empty
      when absent), the invoice form fields and the item rows. */
  datatype Request =
    | Get
    | Post(newCustomerName: string, invoice: InvoiceFormData, rows: seq<ItemRow>)

  datatype Response = NotFound | FormPage | Redirect(invoice: Id)

  /** `if pk:` — a missing key and the key 0 both mean create mode. */
  predicate Editing(pk: Option<nat>) {
    pk.Some? && pk.value != 0
  }

  /** Tables after the customer step and the invoice form data it leaves. */
  function CustomerStep(t: Tables, req: Request): (r: (Tables, InvoiceFormData))
    requires TablesValid(t) && req.Post?
    ensures TablesValid(r.0)
    ensures r.0 == t.(customers := r.0.customers, nextCustomerId := r.0.nextCustomerId)
    ensures req.newCustomerName == "" ==> r == (t, req.invoice)
    ensures req.newCustomerName != "" ==>
      var (t1, c) := GetOrCreate(t, req.newCustomerName);
      r == (t1, req.invoice.(customer := Some(c)))
  {
    if req.newCustomerName != "" then
      var (t1, c) := GetOrCreate(t, req.newCustomerName);
      (t1, req.invoice.(customer := Some(c)))
    else (t, req.invoice)
  }

  /** The invoice being edited: `pk` when `if pk:` holds, none otherwise
      (in particular for the key 0). */
  function EditId(pk: Option<nat>): (r: Option<Id>)
    ensures r.Some? <==> Editing(pk)
    ensures r.Some? ==> r == pk
    ensures pk == Some(0) ==> r.None?
  {
    if Editing(pk) then pk else None
  }

  /** `invoice_form.is_valid() and formset.is_valid()`, judged after the
      customer step. */
  predicate Gate(t: Tables, pk: Option<nat>, req: Request)
    requires TablesValid(t) && req.Post?
  {
    var (t1, data) := CustomerStep(t, req);
    InvoiceFormValid(data, t1.customers) && FormsetValid(ViewItemFormset, req.rows, t1.items.Keys)
  }

  /** The invoice instance the view hands to `save()`: the form applied to
      the edited invoice (or a fresh one), its customer overridden by the
      typed-in name when one was given. */
  function FormInstance(t: Tables, pk: Option<nat>, req: Request): (r: Invoice)
    requires TablesValid(t) && req.Post? && Gate(t, pk, req)
    requires Editing(pk) ==> pk.value in t.invoices
    ensures var t1 := CustomerStep(t, req).0;
      && r.customer in t1.customers
      && (req.newCustomerName != "" ==> t1.customers[r.customer].name == req.newCustomerName)
      && (req.newCustomerName == "" ==> Some(r.customer) == req.invoice.customer)
      && r.number == (if Editing(pk) then t.invoices[pk.value].number else "")
      && StatusLabel(r.status) == req.invoice.status
      && Some(r.issueDate) == req.invoice.issueDate && Some(r.dueDate) == req.invoice.dueDate
      && r.notes == Strip(req.invoice.notes)
  {
    var (t1, data) := CustomerStep(t, req);
    var base := if Editing(pk) then Some(t.invoices[pk.value]) else None;
    var inst := ApplyInvoiceForm(base, data, t1.customers);
    if req.newCustomerName != "" then
      inst.(customer := CustomerNamed(t1.customers, req.newCustomerName).value)
    else inst
  }

  /** `invoice_create_update`, as a function of the store before the
      request: the store after it and the response. */
  function Submit(t: Tables, pk: Option<nat>, req: Request, uuidHex: string, failAt: Option<nat>)
    : (r: (Tables, Response))
    requires TablesValid(t) && IsUuidHex(uuidHex)
  {
    if Editing(pk) && pk.value !in t.invoices then (t, NotFound)
    else if req.Get? then (t, FormPage)
    else
      var t1 := CustomerStep(t, req).0;
      if !Gate(t, pk, req) then (t1, FormPage)
      else
        match Commit(t1, EditId(pk), FormInstance(t, pk, req), req.rows, uuidHex, failAt)
        case Some((t2, id)) => (t2, Redirect(id))
        case None => (t1, FormPage)
  }

  /** A committed block leaves a store that satisfies the schema. */
  lemma CommitKeepsValid(t: Tables, editId: Option<Id>, inst: Invoice, rows: seq<ItemRow>,
                         uuidHex: string, failAt: Option<nat>)
    requires TablesValid(t) && IsUuidHex(uuidHex)
    requires editId.Some? ==> editId.value in t.invoices
    ensures var r := Commit(t, editId, inst, rows, uuidHex, failAt);
      r.Some? ==> TablesValid(r.value.0)
  {
    var saved := Numbered(inst, uuidHex);
    if !SaveRaises(t, editId, saved) {
      var (t1, id) := AfterSave(t, editId, saved);
      CommitValid(t1, id, rows);
    }
  }

  /** Every submission leaves a store that satisfies the schema. */
  lemma SubmitValid(t: Tables, pk: Option<nat>, req: Request, uuidHex: string, failAt: Option<nat>)
    requires TablesValid(t) && IsUuidHex(uuidHex)
    ensures TablesValid(Submit(t, pk, req, uuidHex, failAt).0)
  {
    if !(Editing(pk) && pk.value !in t.invoices) && req.Post? {
      var t1 := CustomerStep(t, req).0;
      if Gate(t, pk, req) {
        CommitKeepsValid(t1, EditId(pk), FormInstance(t, pk, req), req.rows, uuidHex, failAt);
      }
    }
  }

  /** `save_existing_objects` against the store, one write per acting row;
      write number `first` is the first this loop issues.  It stops at the
      write numbered `failAt`, which raises. */
  method SaveExistingRows(db: Store, inv: Id, rows: seq<ItemRow>, first: nat, failAt: Option<nat>)
    returns (raised: bool, writes: nat)
    requires db.Valid()
    requires failAt.None? || failAt.value >= first
    modifies db
    ensures db.Valid()
    ensures db.State() == old(db.State()).(items := db.items)
    ensures !raised ==> db.items == ApplyExisting(old(db.items), inv, rows)
    ensures !raised ==> writes == first + ExistingWrites(old(db.items), inv, rows)
    ensures !raised ==> failAt.None? || failAt.value >= writes
    ensures raised ==> failAt.Some? && failAt.value < first + ExistingWrites(old(db.items), inv, rows)
  {
    ghost var t := db.State();
    writes := first;
    var i := 0;
    while i < |rows|
      invariant 0 <= i <= |rows|
      invariant db.Valid() && db.State() == t.(items := db.items)
      invariant ApplyExisting(db.items, inv, rows[i..]) == ApplyExisting(t.items, inv, rows)
      invariant writes + ExistingWrites(db.items, inv, rows[i..]) == first + ExistingWrites(t.items, inv, rows)
      invariant failAt.None? || failAt.value >= writes
    {
      var row := rows[i];
      assert rows[i..][0] == row && rows[i..][1..] == rows[i + 1..];
      var w := StepWrites(db.items, inv, row);
      if w == 1 && failAt == Some(writes) {
        return true, writes;
      }
      SaveExistingRow(db, inv, row);
      writes := writes + w;
      i := i + 1;
    }
    return false, writes;
  }

  /** One initial row of `save_existing_objects` against the store: a
      DELETE, an UPDATE, or nothing (ExistingStep). */
  method SaveExistingRow(db: Store, inv: Id, row: ItemRow)
    requires db.Valid()
    modifies db
    ensures db.Valid()
    ensures db.State() == old(db.State()).(items := ExistingStep(old(db.items), inv, row))
  {
    if row.id.Some? && row.id.value in db.items && db.items[row.id.value].invoice == inv {
      var k := row.id.value;
      var it := RowItem(inv, row);
      if ShouldDelete(ViewItemFormset, row) {
        db.DeleteItem(k);
      } else if db.items[k] != it {
        db.UpdateItem(k, it);
      }
    }
  }

  /** `save_new_objects` against the store: one insert per inserted row,
      numbered from `first`, stopping at the write numbered `failAt`. */
  method SaveNewRows(db: Store, inv: Id, rows: seq<ItemRow>, first: nat, failAt: Option<nat>)
    returns (raised: bool)
    requires db.Valid() && inv in db.invoices
    requires failAt.None? || failAt.value >= first
    modifies db
    ensures db.Valid()
    ensures !raised ==> db.State() == old(db.State()).(
      items := ApplyNew(old(db.items), old(db.nextItemId), inv, rows),
      nextItemId := old(db.nextItemId) + |NewRows(rows)|)
    ensures !raised ==> failAt.None? || failAt.value >= first + |NewRows(rows)|
    ensures raised ==> failAt.Some? && failAt.value < first + |NewRows(rows)|
  {
    ghost var t := db.State();
    var writes := first;
    var j := 0;
    while j < |rows|
      invariant 0 <= j <= |rows|
      invariant db.Valid() && db.State() == t.(items := db.items, nextItemId := db.nextItemId)
      invariant inv in db.invoices
      invariant ApplyNew(db.items, db.nextItemId, inv, rows[j..]) == ApplyNew(t.items, t.nextItemId, inv, rows)
      invariant db.nextItemId + |NewRows(rows[j..])| == t.nextItemId + |NewRows(rows)|
      invariant writes + |NewRows(rows[j..])| == first + |NewRows(rows)|
      invariant failAt.None? || failAt.value >= writes
    {
      var row := rows[j];
      assert rows[j..][0] == row && rows[j..][1..] == rows[j + 1..];
      if Inserted(row) {
        if failAt == Some(writes) {
          return true;
        }
        var k := db.InsertItem(RowItem(inv, row));
        writes := writes + 1;
      }
      j := j + 1;
    }
    return false;
  }

  /** The item writes of a commit, after the header save (write 0) of
      invoice `id`: the existing rows, then the new rows, stopping at the
      write numbered `failAt`. */
  method WriteItems(db: Store, id: Id, rows: seq<ItemRow>, failAt: Option<nat>) returns (raised: bool)
    requires db.Valid() && id in db.invoices
    requires failAt != Some(0)
    modifies db
    ensures db.Valid()
    ensures !raised ==> db.State() == ItemWrites(old(db.State()), id, rows)
    ensures !raised <==> failAt.None? || failAt.value >= CommitWrites(old(db.State()), id, rows)
  {
    ghost var t1 := db.State();
    var writes;
    raised, writes := SaveExistingRows(db, id, rows, 1, failAt);
    if !raised {
      raised := SaveNewRows(db, id, rows, writes, failAt);
    }
  }

  /** The block inside `transaction.atomic()`, against the store: the
      header save (write 0), then the item writes; on an exception the
      tables return to what they were before it. */
  method CommitToStore(db: Store, editId: Option<Id>, inst: Invoice, rows: seq<ItemRow>,
                       uuidHex: string, failAt: Option<nat>) returns (result: Option<Id>)
    requires db.Valid() && IsUuidHex(uuidHex)
    requires editId.Some? ==> editId.value in db.invoices
    modifies db
    ensures db.Valid()
    ensures result.Some? <==> Commit(old(db.State()), editId, inst, rows, uuidHex, failAt).Some?
    ensures result.Some? ==>
      (db.State(), result.value) == Commit(old(db.State()), editId, inst, rows, uuidHex, failAt).value
    ensures result.None? ==> db.State() == old(db.State())
  {
    var snapshot := db.State();
    var ok, id, saved := db.SaveInvoice(editId, inst, uuidHex);
    if !ok {
      return None;
    }
    ghost var t1 := db.State();
    assert (t1, id) == AfterSave(snapshot, editId, saved);
    var raised := true;
    if failAt != Some(0) {
      raised := WriteItems(db, id, rows, failAt);
    }
    if raised {
      db.Rollback(snapshot);
      return None;
    }
    return Some(id);
  }

  /** The customer step against the store: when a name was typed in, the
      customer is got or created and put into the form data. */
  method RunCustomerStep(db: Store, req: Request) returns (data: InvoiceFormData)
    requires db.Valid() && req.Post?
    modifies db
    ensures db.Valid()
    ensures (db.State(), data) == CustomerStep(old(db.State()), req)
  {
    data := req.invoice;
    if req.newCustomerName != "" {
      var c := db.GetOrCreateCustomer(req.newCustomerName);
      data := data.(customer := Some(c));
    }
  }

  /** `invoice_form.save(commit=False)`, then the customer looked up again
      by the typed-in name. */
  method BuildInstance(db: Store, base: Option<Invoice>, data: InvoiceFormData, req: Request)
    returns (inst: Invoice)
    requires db.Valid() && req.Post? && InvoiceFormValid(data, db.customers)
    requires req.newCustomerName != "" ==> exists c :: c in db.customers && db.customers[c].name == req.newCustomerName
    ensures var inst0 := ApplyInvoiceForm(base, data, db.customers);
      inst == if req.newCustomerName != "" then
        inst0.(customer := CustomerNamed(db.customers, req.newCustomerName).value)
      else inst0
  {
    inst := ApplyInvoiceForm(base, data, db.customers);
    if req.newCustomerName != "" {
      var c := db.GetCustomerByName(req.newCustomerName);
      inst := inst.(customer := c);
    }
  }

  /** The view: the customer is got or created before validation and
      outside the transaction; the rest runs inside it and is undone by any
      exception, which re-renders the form. */
  method InvoiceCreateUpdate(db: Store, pk: Option<nat>, req: Request, uuidHex: string, failAt: Option<nat>)
    returns (resp: Response)
    requires db.Valid() && IsUuidHex(uuidHex)
    modifies db
    ensures db.Valid()
    ensures (db.State(), resp) == Submit(old(db.State()), pk, req, uuidHex, failAt)
  {
    var editing := pk.Some? && pk.value != 0;
    if editing && pk.value !in db.invoices {
      return NotFound;
    }
    if req.Get? {
      return FormPage;
    }
    ghost var t := db.State();
    var base := if editing then Some(db.invoices[pk.value]) else None;

    var data := RunCustomerStep(db, req);
    if !(InvoiceFormValid(data, db.customers) && FormsetValid(ViewItemFormset, req.rows, db.items.Keys)) {
      return FormPage;
    }
    assert Gate(t, pk, req);

    var inst := BuildInstance(db, base, data, req);
    assert inst == FormInstance(t, pk, req);
    var result := CommitToStore(db, if editing then pk else None, inst, req.rows, uuidHex, failAt);
    if result.None? {
      return FormPage;
    }
    return Redirect(result.value);
  }
}
