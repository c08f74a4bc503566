/**
 * The store behind the ORM: the customer, invoice and item tables with
 * their auto-increment keys, the unique constraints (customer name,
 * invoice number), the foreign keys with cascading deletes
 * (Customer -> Invoice -> InvoiceItem), and the writes the application
 * issues against them.
 */
module Database {
  import opened Wrappers
  import opened Models

  /** The contents of the store.  Keys start at 1, as the database's
      auto-increment keys do; `next*` is the key the next insert receives. */
  datatype Tables = Tables(
    customers: map<Id, Customer>,
    invoices: map<Id, Invoice>,
    items: map<Id, Item>,
    nextCustomerId: nat,
    nextInvoiceId: nat,
    nextItemId: nat)

  predicate NamesUnique(cs: map<Id, Customer>) {
    forall a, b :: a in cs && b in cs && cs[a].name == cs[b].name ==> a == b
  }

  predicate NumbersUnique(invs: map<Id, Invoice>) {
    forall a, b :: a in invs && b in invs && invs[a].number == invs[b].number ==> a == b
  }

  /** The constraints the schema enforces: keys below their counters, unique
      customer names and invoice numbers, every invoice owned by an existing
      customer, every item by an existing invoice; and, since `Invoice.save`
      always fills it, no invoice without a number. */
  predicate TablesValid(t: Tables) {
    && t.nextCustomerId > 0 && t.nextInvoiceId > 0 && t.nextItemId > 0
    && (forall id :: id in t.customers ==> 0 < id < t.nextCustomerId)
    && NamesUnique(t.customers)
    && (forall id :: id in t.invoices ==>
          0 < id < t.nextInvoiceId && t.invoices[id].customer in t.customers && t.invoices[id].number != "")
    && NumbersUnique(t.invoices)
    && (forall id :: id in t.items ==> 0 < id < t.nextItemId && t.items[id].invoice in t.invoices)
  }

  // ---------------------------------------------------------------------
  // Queries
  // ---------------------------------------------------------------------

  /** `Customer.objects.get(name=name)` as an optional result: the customer
      whose name is exactly `name`, if any. */
  function CustomerNamed(cs: map<Id, Customer>, name: string): (r: Option<Id>)
    requires NamesUnique(cs)
    ensures r.Some? ==> r.value in cs && cs[r.value].name == name
    ensures r.None? ==> forall id :: id in cs ==> cs[id].name != name
  {
    if exists id :: id in cs && cs[id].name == name then
      var id :| id in cs && cs[id].name == name; Some(id)
    else None
  }

  /** Keys of the items an invoice owns (`invoice.items`). */
  function OwnedIds(items: map<Id, Item>, inv: Id): (r: set<Id>)
    ensures forall k :: k in r <==> k in items && items[k].invoice == inv
  {
    set k | k in items && items[k].invoice == inv
  }

  /** `invoice.items.all()`: the invoice's items with keys below `bound`, in
      key order. */
  function ItemsOf(items: map<Id, Item>, inv: Id, bound: nat): (r: seq<Item>)
    ensures forall x :: x in r ==> x.invoice == inv
  {
    if bound == 0 then []
    else
      var k := bound - 1;
      ItemsOf(items, inv, k) + (if k in items && items[k].invoice == inv then [items[k]] else [])
  }

  /** `Invoice.total_amount` of invoice `inv` in the store: the sum of the
      line totals of its items (in any order: InvoiceTotalAnyOrder). */
  function InvoiceTotal(t: Tables, inv: Id): int {
    TotalAmount(ItemsOf(t.items, inv, t.nextItemId))
  }

  /** An invoice without items totals 0. */
  lemma InvoiceTotalNoItems(t: Tables, inv: Id)
    requires OwnedIds(t.items, inv) == {}
    ensures InvoiceTotal(t, inv) == 0
  {
    ItemsOfNoneOwned(t.items, inv, t.nextItemId);
  }

  /** No key occurs twice. */
  predicate Distinct(ks: seq<Id>) {
    forall i, j :: 0 <= i < j < |ks| ==> ks[i] != ks[j]
  }

  /** The rows stored under the keys `ks`, in that order. */
  function ValuesAt(items: map<Id, Item>, ks: seq<Id>): (r: seq<Item>)
    requires forall k :: k in ks ==> k in items
    ensures |r| == |ks| && forall j :: 0 <= j < |ks| ==> r[j] == items[ks[j]]
  {
    seq(|ks|, j requires 0 <= j < |ks| => items[ks[j]])
  }

  /** Every item of the invoice below the bound is in its listing. */
  lemma {:induction false} ItemsOfComplete(items: map<Id, Item>, inv: Id, bound: nat, k: Id)
    requires k in items && k < bound && items[k].invoice == inv
    ensures items[k] in ItemsOf(items, inv, bound)
  {
    if k < bound - 1 {
      ItemsOfComplete(items, inv, bound - 1, k);
    }
  }

  /** The listing holds each of the invoice's items below the bound exactly
      once: it has the same elements, counted with multiplicity, as the rows
      under any duplicate-free enumeration `ks` of the invoice's keys, in
      whatever order the enumeration takes them. */
  lemma {:induction false} ItemsOfEnumerates(items: map<Id, Item>, inv: Id, bound: nat, ks: seq<Id>)
    requires Distinct(ks)
    requires forall k :: k in ks <==> k in items && k < bound && items[k].invoice == inv
    ensures multiset(ItemsOf(items, inv, bound)) == multiset(ValuesAt(items, ks))
    decreases bound
  {
    if bound == 0 {
      // No key lies below 0, so the enumeration is empty.
      assert forall j :: 0 <= j < |ks| ==> ks[j] in ks;
    } else {
      var k := bound - 1;
      if k in items && items[k].invoice == inv {
        assert k in ks;
        var p :| 0 <= p < |ks| && ks[p] == k;
        var rest := ks[..p] + ks[p + 1..];
        DropKey(ks, p);
        ItemsOfEnumerates(items, inv, k, rest);
        ValuesAtDrop(items, ks, p);
      } else {
        ItemsOfEnumerates(items, inv, k, ks);
      }
    }
  }

  /** Dropping the key at position p from a duplicate-free enumeration leaves
      a duplicate-free enumeration of the other keys. */
  lemma DropKey(ks: seq<Id>, p: nat)
    requires Distinct(ks) && p < |ks|
    ensures var rest := ks[..p] + ks[p + 1..];
      && Distinct(rest)
      && (forall k :: k in rest <==> k in ks && k != ks[p])
  {
    var rest := ks[..p] + ks[p + 1..];
    assert forall i :: 0 <= i < |rest| ==> rest[i] == (if i < p then ks[i] else ks[i + 1]);
    forall k | k in ks && k != ks[p]
      ensures k in rest
    {
      var i :| 0 <= i < |ks| && ks[i] == k;
      assert rest[if i < p then i else i - 1] == k;
    }
  }

  lemma ValuesAtDrop(items: map<Id, Item>, ks: seq<Id>, p: nat)
    requires p < |ks| && forall k :: k in ks ==> k in items
    ensures var rest := ks[..p] + ks[p + 1..];
      multiset(ValuesAt(items, ks)) == multiset(ValuesAt(items, rest)) + multiset{items[ks[p]]}
  {
    var rest := ks[..p] + ks[p + 1..];
    var all := ValuesAt(items, ks);
    var without := ValuesAt(items, rest);
    assert all == all[..p] + [all[p]] + all[p + 1..];
    assert without == all[..p] + all[p + 1..];
  }

  /** `total_amount` sums the line totals of the invoice's items in whatever
      order the database hands them out: any duplicate-free enumeration of
      the invoice's item keys gives the same total. */
  lemma InvoiceTotalAnyOrder(t: Tables, inv: Id, ks: seq<Id>)
    requires TablesValid(t)
    requires Distinct(ks) && forall k :: k in ks <==> k in OwnedIds(t.items, inv)
    ensures InvoiceTotal(t, inv) == TotalAmount(ValuesAt(t.items, ks))
  {
    ItemsOfEnumerates(t.items, inv, t.nextItemId, ks);
    TotalPermutation(ItemsOf(t.items, inv, t.nextItemId), ValuesAt(t.items, ks));
  }

  /** Keys at or above the bound do not contribute to the listing. */
  lemma {:induction false} ItemsOfIgnoresAbove(items: map<Id, Item>, inv: Id, bound: nat, k: Id, it: Item)
    requires k >= bound
    ensures ItemsOf(items[k := it], inv, bound) == ItemsOf(items, inv, bound)
  {
    if bound > 0 {
      ItemsOfIgnoresAbove(items, inv, bound - 1, k, it);
    }
  }

  /** An invoice that owns no key below the bound lists no items. */
  lemma {:induction false} ItemsOfNoneOwned(items: map<Id, Item>, inv: Id, bound: nat)
    requires forall k :: k in items && k < bound ==> items[k].invoice != inv
    ensures ItemsOf(items, inv, bound) == []
  {
    if bound > 0 {
      ItemsOfNoneOwned(items, inv, bound - 1);
    }
  }

  /** The row under key k, if there is one. */
  function Lookup(items: map<Id, Item>, k: Id): Option<Item> {
    if k in items then Some(items[k]) else None
  }

  /** An invoice whose items are exactly `owned`, stored under the
      consecutive keys from `first` on, lists them in that order. */
  lemma {:induction false} ItemsOfRange(items: map<Id, Item>, inv: Id, first: nat, owned: seq<Item>)
    requires forall k :: k in items && k < first ==> items[k].invoice != inv
    requires forall j :: 0 <= j < |owned| ==> Lookup(items, first + j) == Some(owned[j])
    requires forall j :: 0 <= j < |owned| ==> owned[j].invoice == inv
    ensures ItemsOf(items, inv, first + |owned|) == owned
    decreases |owned|
  {
    if owned == [] {
      ItemsOfNoneOwned(items, inv, first);
    } else {
      var n := |owned| - 1;
      var prefix := owned[..n];
      forall j | 0 <= j < n
        ensures Lookup(items, first + j) == Some(prefix[j]) && prefix[j].invoice == inv
      {
        assert prefix[j] == owned[j];
      }
      ItemsOfRange(items, inv, first, prefix);
      var last := first + n;
      assert Lookup(items, last) == Some(owned[n]) && owned[n].invoice == inv;
      assert ItemsOf(items, inv, last + 1) == ItemsOf(items, inv, last) + [items[last]];
      assert prefix + [owned[n]] == owned;
    }
  }

  /** Inserting an item under the next key raises its invoice's total by
      exactly the item's line total and leaves every other invoice's total
      as it was. */
  lemma InsertItemTotal(t: Tables, it: Item, inv: Id)
    requires TablesValid(t)
    ensures var t' := t.(items := t.items[t.nextItemId := it], nextItemId := t.nextItemId + 1);
      InvoiceTotal(t', inv) == InvoiceTotal(t, inv) + (if it.invoice == inv then LineTotal(it) else 0)
  {
    var t' := t.(items := t.items[t.nextItemId := it], nextItemId := t.nextItemId + 1);
    ItemsOfIgnoresAbove(t.items, inv, t.nextItemId, t.nextItemId, it);
    assert ItemsOf(t'.items, inv, t'.nextItemId)
        == ItemsOf(t'.items, inv, t.nextItemId) + (if it.invoice == inv then [it] else []);
    if it.invoice == inv {
      TotalAppend(ItemsOf(t.items, inv, t.nextItemId), it);
    } else {
      assert ItemsOf(t.items, inv, t.nextItemId) + [] == ItemsOf(t.items, inv, t.nextItemId);
    }
  }

  /** Removing an item lowers its invoice's total by exactly its line total. */
  lemma {:induction false} RemoveItemTotal(items: map<Id, Item>, inv: Id, bound: nat, k: Id)
    requires k in items && items[k].invoice == inv && k < bound
    ensures TotalAmount(ItemsOf(items, inv, bound))
         == TotalAmount(ItemsOf(items - {k}, inv, bound)) + LineTotal(items[k])
  {
    var b := bound - 1;
    var before := ItemsOf(items, inv, b);
    var after := ItemsOf(items - {k}, inv, b);
    if b == k {
      ItemsOfWithout(items, inv, b, k);
      assert ItemsOf(items, inv, bound) == before + [items[k]];
      assert ItemsOf(items - {k}, inv, bound) == after + [];
      assert after + [] == before;
      TotalAppend(before, items[k]);
    } else {
      RemoveItemTotal(items, inv, b, k);
      var tail := if b in items && items[b].invoice == inv then [items[b]] else [];
      assert ItemsOf(items, inv, bound) == before + tail;
      assert ItemsOf(items - {k}, inv, bound) == after + tail;
      TotalConcat(before, tail);
      TotalConcat(after, tail);
    }
  }

  lemma {:induction false} ItemsOfWithout(items: map<Id, Item>, inv: Id, bound: nat, k: Id)
    requires k >= bound
    ensures ItemsOf(items - {k}, inv, bound) == ItemsOf(items, inv, bound)
  {
    if bound > 0 {
      ItemsOfWithout(items, inv, bound - 1, k);
    }
  }

  // ---------------------------------------------------------------------
  // Get-or-create
  // ---------------------------------------------------------------------

  /** `Customer.objects.get_or_create(name=name)`: the customer with exactly
      that name if there is one, otherwise a new customer with only the name
      set.  Returns the new tables and the customer's key. */
  function GetOrCreate(t: Tables, name: string): (r: (Tables, Id))
    requires TablesValid(t)
    ensures TablesValid(r.0)
    ensures r.1 in r.0.customers && r.0.customers[r.1].name == name
    ensures r.0.invoices == t.invoices && r.0.items == t.items
    ensures r.0.nextInvoiceId == t.nextInvoiceId && r.0.nextItemId == t.nextItemId
    ensures CustomerNamed(t.customers, name).Some? ==> r == (t, CustomerNamed(t.customers, name).value)
    ensures CustomerNamed(t.customers, name).None? ==>
      && r.1 == t.nextCustomerId
      && r.0.customers == t.customers[r.1 := Customer(name, None, None, None)]
      && r.0.nextCustomerId == t.nextCustomerId + 1
  {
    match CustomerNamed(t.customers, name)
    case Some(id) => (t, id)
    case None =>
      var id := t.nextCustomerId;
      assert id !in t.customers;
      (t.(customers := t.customers[id := Customer(name, None, None, None)], nextCustomerId := id + 1), id)
  }

  /** Get-or-create is idempotent: asking again for the same name finds the
      customer the first call returned and changes nothing. */
  lemma GetOrCreateIdempotent(t: Tables, name: string)
    requires TablesValid(t)
    ensures GetOrCreate(GetOrCreate(t, name).0, name) == GetOrCreate(t, name)
  {
    var (t1, id) := GetOrCreate(t, name);
    assert CustomerNamed(t1.customers, name) == Some(id);
  }

  /** Whatever the store held, afterwards exactly one customer has the name. */
  lemma GetOrCreateSingleCustomer(t: Tables, name: string)
    requires TablesValid(t)
    ensures var (t1, id) := GetOrCreate(t, name);
      forall c :: c in t1.customers && t1.customers[c].name == name ==> c == id
  {
  }

  // ---------------------------------------------------------------------
  // Invoice save
  // ---------------------------------------------------------------------

  /** The instance as `Invoice.save` writes it: the number assigned first
      when empty. */
  function Numbered(inst: Invoice, uuidHex: string): (r: Invoice)
    requires IsUuidHex(uuidHex)
    ensures r.number != "" && (inst.number != "" ==> r == inst)
    ensures r == inst.(number := r.number)
  {
    inst.(number := NumberOnSave(inst.number, uuidHex))
  }

  /** The row the save would write clashes with the unique constraint on the
      number or the foreign key to the customer: the database raises. */
  predicate SaveRaises(t: Tables, editId: Option<Id>, saved: Invoice) {
    || (exists k :: k in t.invoices && Some(k) != editId && t.invoices[k].number == saved.number)
    || saved.customer !in t.customers
  }

  /** The tables and key after a successful save: an UPDATE of row `editId`,
      or an INSERT under the next invoice key. */
  function AfterSave(t: Tables, editId: Option<Id>, saved: Invoice): (r: (Tables, Id))
    requires TablesValid(t) && saved.number != "" && !SaveRaises(t, editId, saved)
    requires editId.Some? ==> editId.value in t.invoices
    ensures TablesValid(r.0)
    ensures r.0.invoices == t.invoices[r.1 := saved]
    ensures editId.Some? ==> r.1 == editId.value && r.0.nextInvoiceId == t.nextInvoiceId
    ensures editId.None? ==> r.1 == t.nextInvoiceId && r.1 !in t.invoices && r.0.nextInvoiceId == t.nextInvoiceId + 1
    ensures r.0.customers == t.customers && r.0.items == t.items
    ensures r.0.nextCustomerId == t.nextCustomerId && r.0.nextItemId == t.nextItemId
  {
    match editId
    case Some(id) => (t.(invoices := t.invoices[id := saved]), id)
    case None =>
      var id := t.nextInvoiceId;
      (t.(invoices := t.invoices[id := saved], nextInvoiceId := id + 1), id)
  }

  // ---------------------------------------------------------------------
  // Cascading deletes
  // ---------------------------------------------------------------------

  /** Deleting an invoice deletes every item it owns. */
  function DeleteInvoiceCascade(t: Tables, inv: Id): (r: Tables)
    requires TablesValid(t)
    ensures TablesValid(r)
    ensures r.invoices.Keys == t.invoices.Keys - {inv}
    ensures forall k :: k in r.invoices ==> r.invoices[k] == t.invoices[k]
    ensures forall k :: k in r.items <==> k in t.items && t.items[k].invoice != inv
    ensures forall k :: k in r.items ==> r.items[k] == t.items[k]
    ensures OwnedIds(r.items, inv) == {}
    ensures r.customers == t.customers
    ensures r.nextCustomerId == t.nextCustomerId && r.nextInvoiceId == t.nextInvoiceId
         && r.nextItemId == t.nextItemId
  {
    var items := map k | k in t.items && t.items[k].invoice != inv :: t.items[k];
    t.(invoices := t.invoices - {inv}, items := items)
  }

  /** Deleting a customer deletes its invoices and, through them, their items. */
  function DeleteCustomerCascade(t: Tables, c: Id): (r: Tables)
    requires TablesValid(t)
    ensures TablesValid(r)
    ensures r.customers.Keys == t.customers.Keys - {c}
    ensures forall k :: k in r.invoices <==> k in t.invoices && t.invoices[k].customer != c
    ensures forall k :: k in r.items <==>
      k in t.items && t.items[k].invoice in t.invoices && t.invoices[t.items[k].invoice].customer != c
    ensures forall k :: k in r.customers ==> r.customers[k] == t.customers[k]
    ensures forall k :: k in r.invoices ==> r.invoices[k] == t.invoices[k]
    ensures forall k :: k in r.items ==> r.items[k] == t.items[k]
    ensures r.nextCustomerId == t.nextCustomerId && r.nextInvoiceId == t.nextInvoiceId
         && r.nextItemId == t.nextItemId
  {
    var invoices := map k | k in t.invoices && t.invoices[k].customer != c :: t.invoices[k];
    var items := map k | k in t.items && t.items[k].invoice in invoices :: t.items[k];
    t.(customers := t.customers - {c}, invoices := invoices, items := items)
  }

  // ---------------------------------------------------------------------
  // The store
  // ---------------------------------------------------------------------

  class Store {
    var customers: map<Id, Customer>
    var invoices: map<Id, Invoice>
    var items: map<Id, Item>
    var nextCustomerId: nat
    var nextInvoiceId: nat
    var nextItemId: nat

    function State(): Tables
      reads this
    {
      Tables(customers, invoices, items, nextCustomerId, nextInvoiceId, nextItemId)
    }

    ghost predicate Valid()
      reads this
    {
      TablesValid(State())
    }

    /** An empty store. */
    constructor ()
      ensures Valid()
      ensures State() == Tables(map[], map[], map[], 1, 1, 1)
    {
      customers, invoices, items := map[], map[], map[];
      nextCustomerId, nextInvoiceId, nextItemId := 1, 1, 1;
    }

    /** `Customer.objects.get_or_create(name=name)` against the store. */
    method GetOrCreateCustomer(name: string) returns (id: Id)
      requires Valid()
      modifies this
      ensures Valid()
      ensures (State(), id) == GetOrCreate(old(State()), name)
    {
      if exists c :: c in customers && customers[c].name == name {
        id :| id in customers && customers[id].name == name;
        assert CustomerNamed(customers, name) == Some(id);
      } else {
        id := nextCustomerId;
        customers := customers[id := Customer(name, None, None, None)];
        nextCustomerId := nextCustomerId + 1;
      }
    }

    /** `Customer.objects.get(name=name)`, for a name known to be present. */
    method GetCustomerByName(name: string) returns (id: Id)
      requires Valid()
      requires exists c :: c in customers && customers[c].name == name
      ensures id in customers && customers[id].name == name
      ensures Some(id) == CustomerNamed(customers, name)
    {
      id :| id in customers && customers[id].name == name;
    }

    /** `Invoice.save()`: the instance's number is filled in when empty, then
      the row is updated (edit) or inserted (create).  A clash with the unique
      number or a missing customer raises, and nothing is written. */
    method SaveInvoice(editId: Option<Id>, inst: Invoice, uuidHex: string)
      returns (ok: bool, id: Id, saved: Invoice)
      requires Valid() && IsUuidHex(uuidHex)
      requires editId.Some? ==> editId.value in invoices
      modifies this
      ensures Valid()
      ensures saved == Numbered(inst, uuidHex)
      ensures ok <==> !SaveRaises(old(State()), editId, saved)
      ensures ok ==> (State(), id) == AfterSave(old(State()), editId, saved)
      ensures !ok ==> State() == old(State())
    {
      saved := Numbered(inst, uuidHex);
      if (exists k :: k in invoices && Some(k) != editId && invoices[k].number == saved.number)
         || saved.customer !in customers
      {
        ok, id := false, 0;
        return;
      }
      ok := true;
      var after := AfterSave(State(), editId, saved);
      id := after.1;
      invoices := after.0.invoices;
      nextInvoiceId := after.0.nextInvoiceId;
    }

    /** DELETE of one item row. */
    method DeleteItem(k: Id)
      requires Valid()
      modifies this
      ensures Valid()
      ensures State() == old(State()).(items := old(items) - {k})
    {
      items := items - {k};
    }

    /** UPDATE of one existing item row, keeping its owning invoice. */
    method UpdateItem(k: Id, it: Item)
      requires Valid() && k in items && it.invoice == items[k].invoice
      modifies this
      ensures Valid()
      ensures State() == old(State()).(items := old(items)[k := it])
    {
      items := items[k := it];
    }

    /** INSERT of one item row under the next key. */
    method InsertItem(it: Item) returns (k: Id)
      requires Valid() && it.invoice in invoices
      modifies this
      ensures Valid()
      ensures k == old(nextItemId) && k !in old(items)
      ensures State() == old(State()).(items := old(items)[k := it], nextItemId := k + 1)
    {
      k := nextItemId;
      items := items[k := it];
      nextItemId := nextItemId + 1;
    }

    /** `invoice.delete()`: removes the invoice and, by the cascade, its items. */
    method DeleteInvoice(inv: Id)
      requires Valid()
      modifies this
      ensures Valid()
      ensures State() == DeleteInvoiceCascade(old(State()), inv)
    {
      var kept := map k | k in items && items[k].invoice != inv :: items[k];
      invoices := invoices - {inv};
      items := kept;
    }

    /** `customer.delete()`: removes the customer, its invoices and their items. */
    method DeleteCustomer(c: Id)
      requires Valid()
      modifies this
      ensures Valid()
      ensures State() == DeleteCustomerCascade(old(State()), c)
    {
      var keptInvoices := map k | k in invoices && invoices[k].customer != c :: invoices[k];
      var keptItems := map k | k in items && items[k].invoice in keptInvoices :: items[k];
      customers := customers - {c};
      invoices := keptInvoices;
      items := keptItems;
    }

    /** Rolling back a transaction: the tables return to the snapshot taken
        when it began. */
    method Rollback(snapshot: Tables)
      requires TablesValid(snapshot)
      modifies this
      ensures Valid() && State() == snapshot
    {
      customers, invoices, items := snapshot.customers, snapshot.invoices, snapshot.items;
      nextCustomerId, nextInvoiceId, nextItemId := snapshot.nextCustomerId, snapshot.nextInvoiceId, snapshot.nextItemId;
    }
  }
}
