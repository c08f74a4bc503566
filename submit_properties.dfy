/**
 * What a single create/edit submission guarantees about the store: what a
 * rejected or failed submission leaves behind, what a committed one writes
 * to the invoice and item tables, when a commit can fail at all, and how
 * the customer step behaves across submissions.
 */
module SubmitProperties {
  import opened Wrappers
  import opened Models
  import opened Forms
  import opened Database
  import opened Views

  /** The one path to a redirect, spelled out: a POST whose forms pass the
      gate, a header save that does not raise, and no storage fault among
      the commit's writes; the store is then the committed one. */
  lemma SubmitRedirect(t: Tables, pk: Option<nat>, req: Request, uuidHex: string, failAt: Option<nat>)
    requires TablesValid(t) && IsUuidHex(uuidHex)
    ensures var r := Submit(t, pk, req, uuidHex, failAt);
      r.1.Redirect? ==>
        && req.Post? && (Editing(pk) ==> pk.value in t.invoices) && Gate(t, pk, req)
        && var t1 := CustomerStep(t, req).0;
           var saved := Numbered(FormInstance(t, pk, req), uuidHex);
           && !SaveRaises(t1, EditId(pk), saved)
           && var (ts, id) := AfterSave(t1, EditId(pk), saved);
              && r == (ItemWrites(ts, id, req.rows), Redirect(id))
              && (failAt.None? || failAt.value >= CommitWrites(ts, id, req.rows))
  {
  }

  /** The same path stated through the block: a redirect carries exactly
      what the committed block returned for the instance the forms built. */
  lemma SubmitCommits(t: Tables, pk: Option<nat>, req: Request, uuidHex: string, failAt: Option<nat>)
    requires TablesValid(t) && IsUuidHex(uuidHex)
    ensures var r := Submit(t, pk, req, uuidHex, failAt);
      r.1.Redirect? ==>
        && req.Post? && (Editing(pk) ==> pk.value in t.invoices) && Gate(t, pk, req)
        && Commit(CustomerStep(t, req).0, EditId(pk), FormInstance(t, pk, req), req.rows, uuidHex, failAt)
           == Some((r.0, r.1.invoice))
  {
  }

  /** What a committed block wrote: the numbered instance under its key
      (the edited one, or the next free key), the existing rows' effect on
      the items followed by the inserted rows under fresh keys, and nothing
      else. */
  lemma CommitEffect(t: Tables, editId: Option<Id>, inst: Invoice, rows: seq<ItemRow>,
                     uuidHex: string, failAt: Option<nat>)
    requires TablesValid(t) && IsUuidHex(uuidHex)
    requires editId.Some? ==> editId.value in t.invoices
    ensures var r := Commit(t, editId, inst, rows, uuidHex, failAt);
      r.Some? ==>
        var (t2, id) := r.value;
        && t2.invoices == t.invoices[id := Numbered(inst, uuidHex)]
        && (editId.Some? ==> id == editId.value)
        && (editId.None? ==> id == t.nextInvoiceId && id !in t.invoices)
        && t2.items == ApplyNew(ApplyExisting(t.items, id, rows), t.nextItemId, id, rows)
        && t2.nextItemId == t.nextItemId + |NewRows(rows)|
  {
  }

  /** The invoice row a committed block wrote, stated on the block alone. */
  lemma CommitInvoice(t: Tables, editId: Option<Id>, inst: Invoice, rows: seq<ItemRow>,
                      uuidHex: string, failAt: Option<nat>)
    requires TablesValid(t) && IsUuidHex(uuidHex)
    requires editId.Some? ==> editId.value in t.invoices && inst.number == t.invoices[editId.value].number
    requires editId.None? ==> inst.number == ""
    ensures var r := Commit(t, editId, inst, rows, uuidHex, failAt);
      r.Some? ==>
        var (t2, id) := r.value;
        && id in t2.invoices
        && (forall k :: k in t.invoices && k != id ==> k in t2.invoices && t2.invoices[k] == t.invoices[k])
        && (forall k :: k in t2.invoices ==> k in t.invoices || k == id)
        && (editId.Some? ==> id == editId.value && t2.invoices[id].number == t.invoices[id].number)
        && (editId.None? ==> id == t.nextInvoiceId && id !in t.invoices && t2.invoices[id].number == GeneratedNumber(uuidHex))
  {
    CommitEffect(t, editId, inst, rows, uuidHex, failAt);
  }

  /** The inserted rows of a committed block, stated on the block alone. */
  lemma CommitNewItems(t: Tables, editId: Option<Id>, inst: Invoice, rows: seq<ItemRow>,
                       uuidHex: string, failAt: Option<nat>)
    requires TablesValid(t) && IsUuidHex(uuidHex)
    requires editId.Some? ==> editId.value in t.invoices
    ensures var r := Commit(t, editId, inst, rows, uuidHex, failAt);
      r.Some? ==>
        var (t2, id) := r.value;
        && t2.nextItemId == t.nextItemId + |NewRows(rows)|
        && InsertedAt(t2.items, t.nextItemId, id, NewRows(rows))
  {
    var r := Commit(t, editId, inst, rows, uuidHex, failAt);
    CommitEffect(t, editId, inst, rows, uuidHex, failAt);
    if r.Some? {
      var id := r.value.1;
      var kept := ApplyExisting(t.items, id, rows);
      ApplyExistingKeepsOwners(t.items, id, rows);
      assert KeysBelow(kept, t.nextItemId);
      ApplyNewItems(kept, t.nextItemId, id, rows);
    }
  }

  /** A block that creates an invoice leaves it with exactly the inserted
      rows as its items, in submission order. */
  lemma CommitCreatedItems(t: Tables, inst: Invoice, rows: seq<ItemRow>, uuidHex: string, failAt: Option<nat>)
    requires TablesValid(t) && IsUuidHex(uuidHex)
    ensures var r := Commit(t, None, inst, rows, uuidHex, failAt);
      r.Some? ==> ItemsOf(r.value.0.items, r.value.1, r.value.0.nextItemId) == StoredItems(r.value.1, NewRows(rows))
  {
    var r := Commit(t, None, inst, rows, uuidHex, failAt);
    CommitEffect(t, None, inst, rows, uuidHex, failAt);
    if r.Some? {
      var id := r.value.1;
      assert forall k :: k in t.items ==> t.items[k].invoice != id;
      assert KeysBelow(t.items, t.nextItemId);
      FreshInvoiceItems(t.items, t.nextItemId, id, rows);
    }
  }

  /** Item-level core of CommitCreatedItems: for an invoice that owned no
      item, the rows leave exactly the inserted ones as its items. */
  lemma FreshInvoiceItems(items: map<Id, Item>, next: nat, inv: Id, rows: seq<ItemRow>)
    requires KeysBelow(items, next) && forall k :: k in items ==> items[k].invoice != inv
    ensures ItemsOf(ApplyNew(ApplyExisting(items, inv, rows), next, inv, rows), inv, next + |NewRows(rows)|)
         == StoredItems(inv, NewRows(rows))
  {
    var kept := ApplyExisting(items, inv, rows);
    var after := ApplyNew(kept, next, inv, rows);
    var inserted := NewRows(rows);
    var owned := StoredItems(inv, inserted);
    ApplyExistingKeepsOwners(items, inv, rows);
    assert KeysBelow(kept, next);
    ApplyNewItems(kept, next, inv, rows);
    forall k | k in after && k < next
      ensures after[k].invoice != inv
    {
      assert k in kept && after[k] == kept[k];
    }
    assert InsertedAt(after, next, inv, inserted);
    forall j | 0 <= j < |owned|
      ensures Lookup(after, next + j) == Some(owned[j]) && owned[j].invoice == inv
    {
      assert after[next + j] == RowItem(inv, inserted[j]);
    }
    ItemsOfRange(after, inv, next, owned);
  }

  /** An unknown invoice key is answered with not-found and nothing is
      written; not-found is given for nothing else. */
  lemma UnknownInvoice(t: Tables, pk: Option<nat>, req: Request, uuidHex: string, failAt: Option<nat>)
    requires TablesValid(t) && IsUuidHex(uuidHex)
    ensures var r := Submit(t, pk, req, uuidHex, failAt);
      r.1.NotFound? <==> Editing(pk) && pk.value !in t.invoices
    ensures Editing(pk) && pk.value !in t.invoices ==> Submit(t, pk, req, uuidHex, failAt) == (t, NotFound)
  {
  }

  /** The customer step is not undone: after any submission that reaches
      it — rejected, rolled back or committed — the customer table is the
      one get-or-create left; otherwise it is unchanged. */
  lemma CustomerStepPersists(t: Tables, pk: Option<nat>, req: Request, uuidHex: string, failAt: Option<nat>)
    requires TablesValid(t) && IsUuidHex(uuidHex)
    ensures var r := Submit(t, pk, req, uuidHex, failAt);
      if req.Post? && !(Editing(pk) && pk.value !in t.invoices) && req.newCustomerName != "" then
        var t1 := GetOrCreate(t, req.newCustomerName).0;
        r.0.customers == t1.customers && r.0.nextCustomerId == t1.nextCustomerId
      else
        r.0.customers == t.customers && r.0.nextCustomerId == t.nextCustomerId
  {
  }

  /** Atomicity: a submission that does not redirect — not found, a form
      page, a rejected form, or an exception inside the transaction —
      leaves the invoice and item tables and their counters as they were. */
  lemma NoRedirectNoWrites(t: Tables, pk: Option<nat>, req: Request, uuidHex: string, failAt: Option<nat>)
    requires TablesValid(t) && IsUuidHex(uuidHex)
    ensures var r := Submit(t, pk, req, uuidHex, failAt);
      !r.1.Redirect? ==>
        && r.0.invoices == t.invoices && r.0.items == t.items
        && r.0.nextInvoiceId == t.nextInvoiceId && r.0.nextItemId == t.nextItemId
  {
  }

  /** A committed submission saves exactly one invoice: the edited one,
      keeping its number, or a new one under the next key, with a generated
      number; every other invoice is unchanged. */
  lemma RedirectInvoice(t: Tables, pk: Option<nat>, req: Request, uuidHex: string, failAt: Option<nat>)
    requires TablesValid(t) && IsUuidHex(uuidHex)
    ensures var r := Submit(t, pk, req, uuidHex, failAt);
      r.1.Redirect? ==>
        var id := r.1.invoice;
        && id in r.0.invoices
        && (forall k :: k in t.invoices && k != id ==> k in r.0.invoices && r.0.invoices[k] == t.invoices[k])
        && (forall k :: k in r.0.invoices ==> k in t.invoices || k == id)
        && (Editing(pk) ==> id == pk.value && id in t.invoices && r.0.invoices[id].number == t.invoices[id].number)
        && (!Editing(pk) ==>
              id == t.nextInvoiceId && id !in t.invoices && r.0.invoices[id].number == GeneratedNumber(uuidHex))
  {
    var r := Submit(t, pk, req, uuidHex, failAt);
    SubmitCommits(t, pk, req, uuidHex, failAt);
    if r.1.Redirect? {
      var t1 := CustomerStep(t, req).0;
      assert t1.invoices == t.invoices && t1.nextInvoiceId == t.nextInvoiceId;
      CommitInvoice(t1, EditId(pk), FormInstance(t, pk, req), req.rows, uuidHex, failAt);
    }
  }

  /** The invoice a committed submission saves carries the submitted status,
      dates and notes, and the customer chosen in the form or, when a name
      was typed in, the customer of that name. */
  lemma RedirectInvoiceFields(t: Tables, pk: Option<nat>, req: Request, uuidHex: string, failAt: Option<nat>)
    requires TablesValid(t) && IsUuidHex(uuidHex)
    ensures var r := Submit(t, pk, req, uuidHex, failAt);
      r.1.Redirect? ==>
        var id := r.1.invoice;
        && req.Post? && id in r.0.invoices
        && StatusLabel(r.0.invoices[id].status) == req.invoice.status
        && Some(r.0.invoices[id].issueDate) == req.invoice.issueDate
        && Some(r.0.invoices[id].dueDate) == req.invoice.dueDate
        && r.0.invoices[id].notes == Strip(req.invoice.notes)
        && r.0.invoices[id].customer in r.0.customers
        && (req.newCustomerName != "" ==> r.0.customers[r.0.invoices[id].customer].name == req.newCustomerName)
        && (req.newCustomerName == "" ==> Some(r.0.invoices[id].customer) == req.invoice.customer)
  {
    var r := Submit(t, pk, req, uuidHex, failAt);
    SubmitRedirect(t, pk, req, uuidHex, failAt);
    if r.1.Redirect? {
      var t1 := CustomerStep(t, req).0;
      var inst := FormInstance(t, pk, req);
      var saved := Numbered(inst, uuidHex);
      var (ts, id) := AfterSave(t1, EditId(pk), saved);
      assert r.0.invoices[id] == saved && r.0.customers == t1.customers;
    }
  }

  /** A committed submission writes items only for its own invoice: the
      items of every other invoice are untouched, and every item afterwards
      is an old one unchanged, an item of the saved invoice, or one under a
      new key. */
  lemma RedirectItems(t: Tables, pk: Option<nat>, req: Request, uuidHex: string, failAt: Option<nat>)
    requires TablesValid(t) && IsUuidHex(uuidHex)
    ensures var r := Submit(t, pk, req, uuidHex, failAt);
      r.1.Redirect? ==>
        var id := r.1.invoice;
        && (forall k :: k in t.items && t.items[k].invoice != id ==> k in r.0.items && r.0.items[k] == t.items[k])
        && (forall k :: k in r.0.items ==>
              || (k in t.items && (r.0.items[k] == t.items[k] || r.0.items[k].invoice == id))
              || (t.nextItemId <= k < r.0.nextItemId && r.0.items[k].invoice == id))
  {
    var r := Submit(t, pk, req, uuidHex, failAt);
    SubmitRedirect(t, pk, req, uuidHex, failAt);
    if r.1.Redirect? {
      var t1 := CustomerStep(t, req).0;
      var saved := Numbered(FormInstance(t, pk, req), uuidHex);
      var (ts, id) := AfterSave(t1, EditId(pk), saved);
      var kept := ApplyExisting(t.items, id, req.rows);
      ApplyExistingOthers(t.items, id, req.rows);
      assert KeysBelow(kept, t.nextItemId);
      ApplyNewItems(kept, t.nextItemId, id, req.rows);
      NewItemsOwned(kept, t.nextItemId, id, req.rows);
      assert r.0.items == ApplyNew(kept, t.nextItemId, id, req.rows);
      assert r.0.nextItemId == t.nextItemId + |NewRows(req.rows)|;
    }
  }

  /** The inserted rows of a committed submission take the keys from the old
      counter on, in submission order, each as an item of the saved
      invoice. */
  lemma RedirectNewItems(t: Tables, pk: Option<nat>, req: Request, uuidHex: string, failAt: Option<nat>)
    requires TablesValid(t) && IsUuidHex(uuidHex)
    ensures var r := Submit(t, pk, req, uuidHex, failAt);
      r.1.Redirect? ==>
        && req.Post?
        && r.0.nextItemId == t.nextItemId + |NewRows(req.rows)|
        && InsertedAt(r.0.items, t.nextItemId, r.1.invoice, NewRows(req.rows))
  {
    var r := Submit(t, pk, req, uuidHex, failAt);
    SubmitCommits(t, pk, req, uuidHex, failAt);
    if r.1.Redirect? {
      var t1 := CustomerStep(t, req).0;
      assert t1.items == t.items && t1.nextItemId == t.nextItemId;
      CommitNewItems(t1, EditId(pk), FormInstance(t, pk, req), req.rows, uuidHex, failAt);
    }
  }

  /** A committed create leaves the new invoice with exactly the inserted
      rows as its items, so its `total_amount` is the sum of their line
      totals. */
  lemma CreatedInvoiceTotal(t: Tables, pk: Option<nat>, req: Request, uuidHex: string, failAt: Option<nat>)
    requires TablesValid(t) && IsUuidHex(uuidHex)
    ensures var r := Submit(t, pk, req, uuidHex, failAt);
      r.1.Redirect? && !Editing(pk) ==>
        && req.Post?
        && ItemsOf(r.0.items, r.1.invoice, r.0.nextItemId) == StoredItems(r.1.invoice, NewRows(req.rows))
        && InvoiceTotal(r.0, r.1.invoice) == TotalAmount(StoredItems(r.1.invoice, NewRows(req.rows)))
  {
    var r := Submit(t, pk, req, uuidHex, failAt);
    SubmitCommits(t, pk, req, uuidHex, failAt);
    if r.1.Redirect? && !Editing(pk) {
      CommitCreatedItems(CustomerStep(t, req).0, FormInstance(t, pk, req), req.rows, uuidHex, failAt);
    }
  }

  /** Editing with distinct row ids: each item of the edited invoice ends up
      as the row naming it says — deleted when marked, holding the row's
      values otherwise — and an item no row names is left as it was. */
  lemma EditedItem(t: Tables, pk: Option<nat>, req: Request, uuidHex: string, failAt: Option<nat>, k: Id)
    requires TablesValid(t) && IsUuidHex(uuidHex)
    ensures var r := Submit(t, pk, req, uuidHex, failAt);
      r.1.Redirect? && Editing(pk) && k in t.items && t.items[k].invoice == pk.value ==>
        && req.Post?
        && (DistinctRowIds(req.rows) ==>
              match RowFor(req.rows, k)
              case None => k in r.0.items && r.0.items[k] == t.items[k]
              case Some(row) =>
                if row.delete then k !in r.0.items
                else k in r.0.items && r.0.items[k] == RowItem(pk.value, row))
  {
    var r := Submit(t, pk, req, uuidHex, failAt);
    SubmitRedirect(t, pk, req, uuidHex, failAt);
    if r.1.Redirect? && Editing(pk) && k in t.items && t.items[k].invoice == pk.value && DistinctRowIds(req.rows) {
      var t1 := CustomerStep(t, req).0;
      var saved := Numbered(FormInstance(t, pk, req), uuidHex);
      var (ts, id) := AfterSave(t1, EditId(pk), saved);
      assert id == pk.value && ts.items == t.items && ts.nextItemId == t.nextItemId;
      var kept := ApplyExisting(t.items, id, req.rows);
      ApplyExistingEffect(t.items, id, req.rows, k);
      ApplyExistingOthers(t.items, id, req.rows);
      assert KeysBelow(kept, t.nextItemId);
      ApplyNewItems(kept, t.nextItemId, id, req.rows);
      assert r.0.items == ApplyNew(kept, t.nextItemId, id, req.rows);
      assert k < t.nextItemId;
    }
  }

  /** When editing, only storage can make a commit fail: the invoice keeps
      its (unique) number and its customer exists, so a submission whose
      forms pass the gate is committed whenever no write raises. */
  lemma EditCommitsUnlessStorageFails(t: Tables, pk: Option<nat>, req: Request, uuidHex: string)
    requires TablesValid(t) && IsUuidHex(uuidHex)
    requires Editing(pk) && pk.value in t.invoices && req.Post? && Gate(t, pk, req)
    ensures Submit(t, pk, req, uuidHex, None).1 == Redirect(pk.value)
  {
    var t1 := CustomerStep(t, req).0;
    var inst := FormInstance(t, pk, req);
    var saved := Numbered(inst, uuidHex);
    assert saved == inst;
    assert !SaveRaises(t1, EditId(pk), saved) by {
      assert t1.invoices == t.invoices;
      forall k | k in t1.invoices && Some(k) != EditId(pk)
        ensures t1.invoices[k].number != saved.number
      {
        assert k != pk.value;
      }
    }
  }

  /** When creating, a generated number that is already taken raises in the
      header save: the form is shown again and no invoice is created. */
  lemma CreateFailsOnNumberClash(t: Tables, pk: Option<nat>, req: Request, uuidHex: string, failAt: Option<nat>, other: Id)
    requires TablesValid(t) && IsUuidHex(uuidHex)
    requires !Editing(pk) && req.Post? && Gate(t, pk, req)
    requires other in t.invoices && t.invoices[other].number == GeneratedNumber(uuidHex)
    ensures Submit(t, pk, req, uuidHex, failAt) == (CustomerStep(t, req).0, FormPage)
  {
    var t1 := CustomerStep(t, req).0;
    var saved := Numbered(FormInstance(t, pk, req), uuidHex);
    assert t1.invoices == t.invoices;
    assert saved.number == GeneratedNumber(uuidHex);
    assert SaveRaises(t1, EditId(pk), saved);
  }

  /** Rows that all mark items for deletion pass the view's formset and
      fail the declared one, and insert nothing. */
  lemma DeletionOnlyRows(t: Tables, pk: Option<nat>, req: Request)
    requires TablesValid(t) && req.Post? && req.newCustomerName == ""
    requires InvoiceFormValid(req.invoice, t.customers)
    requires forall i :: 0 <= i < |req.rows| ==> req.rows[i].delete
    ensures Gate(t, pk, req) && |NewRows(req.rows)| == 0
    ensures !FormsetValid(DeclaredItemFormset, req.rows, t.items.Keys)
  {
    var rows := req.rows;
    assert forall i :: 0 <= i < |rows| ==> !Live(ViewItemFormset, rows[i]);
    RemovingEverything(rows, t.items.Keys);
    NoInsertedRows(rows);
  }

  /** The view's formset has no minimum: an edit that marks every item of
      the invoice for deletion and adds none is committed and leaves the
      invoice without items, though the declared formset would reject the
      same rows. */
  lemma EmptyingAnInvoice(t: Tables, pk: Option<nat>, req: Request, uuidHex: string)
    requires TablesValid(t) && IsUuidHex(uuidHex)
    requires Editing(pk) && pk.value in t.invoices
    requires req.Post? && req.newCustomerName == "" && InvoiceFormValid(req.invoice, t.customers)
    requires DistinctRowIds(req.rows) && forall i :: 0 <= i < |req.rows| ==> req.rows[i].delete
    requires forall k :: k in t.items && t.items[k].invoice == pk.value ==>
      exists i :: 0 <= i < |req.rows| && req.rows[i].id == Some(k)
    ensures var r := Submit(t, pk, req, uuidHex, None);
      r.1 == Redirect(pk.value) && OwnedIds(r.0.items, pk.value) == {}
    ensures !FormsetValid(DeclaredItemFormset, req.rows, t.items.Keys)
  {
    var rows := req.rows;
    DeletionOnlyRows(t, pk, req);
    EditCommitsUnlessStorageFails(t, pk, req, uuidHex);
    var r := Submit(t, pk, req, uuidHex, None);
    SubmitCommits(t, pk, req, uuidHex, None);
    assert CustomerStep(t, req).0 == t;
    CommitEffect(t, EditId(pk), FormInstance(t, pk, req), rows, uuidHex, None);
    assert r.0.items == ApplyNew(ApplyExisting(t.items, pk.value, rows), t.nextItemId, pk.value, rows);
    assert KeysBelow(t.items, t.nextItemId);
    DeletingEveryItem(t.items, t.nextItemId, pk.value, rows);
  }

  /** Item-level core of EmptyingAnInvoice: rows that delete every item of
      `inv` and insert nothing leave `inv` without items. */
  lemma DeletingEveryItem(items: map<Id, Item>, next: nat, inv: Id, rows: seq<ItemRow>)
    requires KeysBelow(items, next) && |NewRows(rows)| == 0
    requires DistinctRowIds(rows) && forall i :: 0 <= i < |rows| ==> rows[i].delete
    requires forall k :: k in items && items[k].invoice == inv ==>
      exists i :: 0 <= i < |rows| && rows[i].id == Some(k)
    ensures OwnedIds(ApplyNew(ApplyExisting(items, inv, rows), next, inv, rows), inv) == {}
  {
    var kept := ApplyExisting(items, inv, rows);
    ApplyExistingKeepsOwners(items, inv, rows);
    assert KeysBelow(kept, next);
    ApplyNewItems(kept, next, inv, rows);
    var r := ApplyNew(kept, next, inv, rows);
    forall k | k in r
      ensures r[k].invoice != inv
    {
      ApplyExistingEffect(items, inv, rows, k);
    }
  }

  /** Submitting the same customer name twice creates the customer at most
      once: the second submission leaves the customer table as the first
      left it. */
  lemma ResubmitSameName(t: Tables, pk1: Option<nat>, req1: Request, pk2: Option<nat>, req2: Request,
                         uuid1: string, uuid2: string, fail1: Option<nat>, fail2: Option<nat>)
    requires TablesValid(t) && IsUuidHex(uuid1) && IsUuidHex(uuid2)
    requires req1.Post? && req2.Post? && req1.newCustomerName == req2.newCustomerName != ""
    requires !(Editing(pk1) && pk1.value !in t.invoices)
    ensures var r1 := Submit(t, pk1, req1, uuid1, fail1);
      TablesValid(r1.0) && Submit(r1.0, pk2, req2, uuid2, fail2).0.customers == r1.0.customers
  {
    var name := req1.newCustomerName;
    var r1 := Submit(t, pk1, req1, uuid1, fail1);
    SubmitValid(t, pk1, req1, uuid1, fail1);
    CustomerStepPersists(t, pk1, req1, uuid1, fail1);
    CustomerStepPersists(r1.0, pk2, req2, uuid2, fail2);
    var (g, c) := GetOrCreate(t, name);
    assert r1.0.customers == g.customers;
    assert CustomerNamed(r1.0.customers, name).Some?;
  }
}
