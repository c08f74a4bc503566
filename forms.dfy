/**
 * The form layer: which fields an invoice edit and an item edit may touch,
 * when a submitted invoice header and a submitted set of item rows are
 * valid, and the two item-formset configurations of the application — the
 * one `forms.py` declares (`InvoiceItemFormSet`) and the one the
 * create/edit view builds for itself.
 */
module Forms {
  import opened Wrappers
  import opened Models
  import opened Decimals

  // ---------------------------------------------------------------------
  // Text cleaning
  // ---------------------------------------------------------------------

  /** The characters Python's `str.isspace()` accepts: the ASCII blanks and
      separators 0x09-0x0D and 0x1C-0x20, NEL, NO-BREAK SPACE and the Unicode
      space and line/paragraph separators. */
  predicate IsSpace(c: char) {
    || '\t' <= c <= '\r' || '\U{1C}' <= c <= ' '
    || c == '\U{85}' || c == '\U{A0}' || c == '\U{1680}'
    || '\U{2000}' <= c <= '\U{200A}' || c == '\U{2028}' || c == '\U{2029}'
    || c == '\U{202F}' || c == '\U{205F}' || c == '\U{3000}'
  }

  /** `s.lstrip()`: the suffix of `s` left once the leading spaces are gone
      (TrimStartFacts). */
  function TrimStart(s: string): (r: string)
    ensures |r| <= |s|
  {
    if s != [] && IsSpace(s[0]) then TrimStart(s[1..]) else s
  }

  /** `s.rstrip()`: the prefix of `s` left once the trailing spaces are gone
      (TrimEndFacts). */
  function TrimEnd(s: string): (r: string)
    ensures |r| <= |s|
  {
    if s != [] && IsSpace(s[|s| - 1]) then TrimEnd(s[..|s| - 1]) else s
  }

  /** `s.strip()`, which a form `CharField` applies to what it receives
      (`strip=True` is its default). */
  function Strip(s: string): (r: string)
    ensures |r| <= |s|
  {
    TrimEnd(TrimStart(s))
  }

  lemma {:induction false} TrimStartFacts(s: string)
    ensures var r := TrimStart(s);
      && r == s[|s| - |r|..]
      && (forall k :: 0 <= k < |s| - |r| ==> IsSpace(s[k]))
      && (r == [] || !IsSpace(r[0]))
  {
    if s != [] && IsSpace(s[0]) {
      TrimStartFacts(s[1..]);
      var r := TrimStart(s);
      forall k | 0 < k < |s| - |r|
        ensures IsSpace(s[k])
      {
        assert s[k] == s[1..][k - 1];
      }
    }
  }

  lemma {:induction false} TrimEndFacts(s: string)
    ensures var r := TrimEnd(s);
      && r == s[..|r|]
      && (forall k :: |r| <= k < |s| ==> IsSpace(s[k]))
      && (r == [] || !IsSpace(r[|r| - 1]))
  {
    if s != [] && IsSpace(s[|s| - 1]) {
      var p := s[..|s| - 1];
      TrimEndFacts(p);
      var r := TrimEnd(s);
      forall k | |r| <= k < |s| - 1
        ensures IsSpace(s[k])
      {
        assert s[k] == p[k];
      }
    }
  }

  /** Stripping keeps the text between the leading and the trailing spaces:
      the result is the slice of the input from its first to its last
      non-space character, and everything cut off is space. */
  lemma StripSlice(s: string)
    ensures var i, r := |s| - |TrimStart(s)|, Strip(s);
      && i + |r| <= |s| && r == s[i..i + |r|]
      && (forall k :: 0 <= k < i ==> IsSpace(s[k]))
      && (forall k :: i + |r| <= k < |s| ==> IsSpace(s[k]))
      && (r == [] || (!IsSpace(r[0]) && !IsSpace(r[|r| - 1])))
  {
    var a := TrimStart(s);
    TrimStartFacts(s);
    var r := TrimEnd(a);
    TrimEndFacts(a);
    var i := |s| - |a|;
    assert r == s[i..i + |r|];
    forall k | i + |r| <= k < |s|
      ensures IsSpace(s[k])
    {
      assert s[k] == a[k - i];
    }
    if r != [] {
      assert r[0] == a[0];
    }
  }

  /** Stripping twice is stripping once. */
  lemma StripIdempotent(s: string)
    ensures Strip(Strip(s)) == Strip(s)
  {
    var r := Strip(s);
    StripSlice(s);
    if r != [] {
      assert TrimStart(r) == r;
      TrimEndFacts(r);
      assert TrimEnd(r) == r;
    }
  }

  /** Stripping removes only space: a character that is not space occurs in
      the stripped text exactly when it occurs in the original. */
  lemma StripKeeps(s: string, c: char)
    requires !IsSpace(c)
    ensures c in Strip(s) <==> c in s
  {
    StripSlice(s);
    var i, r := |s| - |TrimStart(s)|, Strip(s);
    if c in s {
      var k :| 0 <= k < |s| && s[k] == c;
      assert r[k - i] == c;
    }
  }

  /** A text strips to nothing exactly when it is all space. */
  lemma StripEmpty(s: string)
    ensures Strip(s) == "" <==> forall k :: 0 <= k < |s| ==> IsSpace(s[k])
  {
    var a := TrimStart(s);
    TrimStartFacts(s);
    TrimEndFacts(a);
  }

  // ---------------------------------------------------------------------
  // Invoice header form
  // ---------------------------------------------------------------------

  /** The submitted `InvoiceForm` fields: customer, issue_date, due_date,
      status and notes.  `invoice_number` is not a form field. */
  datatype InvoiceFormData = InvoiceFormData(
    customer: Option<Id>,
    issueDate: Option<Date>,
    dueDate: Option<Date>,
    status: string,
    notes: string)

  /** `InvoiceForm.is_valid()`: customer, both dates and status are required,
      the customer must be an existing one and the status one of the choices;
      notes may be blank, but like every `CharField` value they must not hold
      a NUL character. */
  predicate InvoiceFormValid(data: InvoiceFormData, customers: map<Id, Customer>) {
    && data.customer.Some? && data.customer.value in customers
    && data.issueDate.Some? && data.dueDate.Some?
    && ParseStatus(data.status).Some?
    && '\0' !in Strip(data.notes)
  }

  /** `invoice_form.save(commit=False)`: the form's five fields written over
      the instance being edited (a fresh one, with an empty number, in create
      mode).  The invoice number is never touched by the form. */
  function ApplyInvoiceForm(base: Option<Invoice>, data: InvoiceFormData, customers: map<Id, Customer>): (r: Invoice)
    requires InvoiceFormValid(data, customers)
    ensures r.number == (if base.Some? then base.value.number else "")
    ensures r.customer == data.customer.value && r.customer in customers
    ensures StatusLabel(r.status) == data.status
    ensures r.issueDate == data.issueDate.value && r.dueDate == data.dueDate.value
    ensures r.notes == Strip(data.notes)
  {
    var number := if base.Some? then base.value.number else "";
    Invoice(data.customer.value, number, data.issueDate.value, data.dueDate.value,
            ParseStatus(data.status).value, Strip(data.notes))
  }

  // ---------------------------------------------------------------------
  // Item rows
  // ---------------------------------------------------------------------

  /** One submitted `InvoiceItemForm` of the formset: an existing item (its id
      is given) or an extra row for a new item (no id), the three editable
      fields, and the DELETE checkbox.  The owning invoice is not a field. */
  datatype ItemRow = ItemRow(
    id: Option<Id>,
    description: string,
    quantity: Option<DecimalInput>,
    unitPrice: Option<DecimalInput>,
    delete: bool)

  /** The parameters of `inlineformset_factory` that decide behaviour. */
  datatype FormsetConfig = FormsetConfig(extra: nat, canDelete: bool, minNum: nat, validateMin: bool)

  /** The formset the create/edit view builds (`extra=1, can_delete=True`,
      nothing else): no minimum number of items. */
  const ViewItemFormset: FormsetConfig := FormsetConfig(1, true, 0, false)

  /** `InvoiceItemFormSet` as declared (`extra=1, can_delete=True, min_num=1,
      validate_min=True`); the view does not use it. */
  const DeclaredItemFormset: FormsetConfig := FormsetConfig(1, true, 1, true)

  predicate ShouldDelete(cfg: FormsetConfig, row: ItemRow) {
    cfg.canDelete && row.delete
  }

  /** A decimal field still at its initial value 0 (the column default). */
  predicate AtZero(v: Option<DecimalInput>) {
    v.Some? && v.value.coefficient == 0
  }

  /** An extra row the user left as it was offered (`has_changed()` is false):
      it is neither validated nor saved. */
  predicate IsBlankExtra(cfg: FormsetConfig, row: ItemRow) {
    && row.id.None? && Strip(row.description) == ""
    && AtZero(row.quantity) && AtZero(row.unitPrice)
    && !ShouldDelete(cfg, row)
  }

  /** A row that is validated and that leaves an item behind after saving. */
  predicate Live(cfg: FormsetConfig, row: ItemRow) {
    !ShouldDelete(cfg, row) && !IsBlankExtra(cfg, row)
  }

  /** One item form's validation: the stripped description is required, at
      most 255 characters and free of NUL characters, each decimal, when
      given, fits its column, and an existing row's id is the key of a stored
      item.  The id field chooses among all stored items, not only the
      invoice's own; a row naming another invoice's item is valid, and saving
      skips it (ExistingStep). */
  predicate RowValid(row: ItemRow, stored: set<Id>) {
    && Strip(row.description) != "" && |Strip(row.description)| <= 255
    && '\0' !in Strip(row.description)
    && (row.quantity.Some? ==> FitsField(row.quantity.value))
    && (row.unitPrice.Some? ==> FitsField(row.unitPrice.value))
    && (row.id.Some? ==> row.id.value in stored)
  }

  /** A description of nothing but spaces is a missing description: the row
      is rejected, and as an extra row with zero amounts it is not even
      looked at. */
  lemma BlankDescription(row: ItemRow, stored: set<Id>)
    requires forall k :: 0 <= k < |row.description| ==> IsSpace(row.description[k])
    ensures !RowValid(row, stored)
    ensures row.id.None? && AtZero(row.quantity) && AtZero(row.unitPrice) && !row.delete ==>
      !Live(ViewItemFormset, row) && !Live(DeclaredItemFormset, row)
  {
    StripEmpty(row.description);
  }

  /** A NUL character anywhere in the notes or in a description makes the
      form invalid, wherever it stands among the spaces. */
  lemma NullCharacter(row: ItemRow, stored: set<Id>, data: InvoiceFormData, customers: map<Id, Customer>)
    ensures '\0' in row.description ==> !RowValid(row, stored)
    ensures '\0' in data.notes ==> !InvoiceFormValid(data, customers)
  {
    StripKeeps(row.description, '\0');
    StripKeeps(data.notes, '\0');
  }

  /** Number of rows that count towards `min_num`: total forms minus deleted
      forms minus unchanged extra forms. */
  function LiveCount(cfg: FormsetConfig, rows: seq<ItemRow>): (r: nat)
    ensures r <= |rows|
  {
    if rows == [] then 0
    else (if Live(cfg, rows[0]) then 1 else 0) + LiveCount(cfg, rows[1..])
  }

  /** `formset.is_valid()`: every live row is valid; every row at an index
      below `min_num` that is not deleted is valid too, since Django permits
      an unchanged form only at an index past both the initial forms and
      `min_num` (rows come in the order the formset renders them, initial
      forms first); and when `validate_min` is set there are at least
      `min_num` live rows. */
  predicate FormsetValid(cfg: FormsetConfig, rows: seq<ItemRow>, stored: set<Id>) {
    && (forall i :: 0 <= i < |rows| && Live(cfg, rows[i]) ==> RowValid(rows[i], stored))
    && (forall i :: 0 <= i < |rows| && i < cfg.minNum && !ShouldDelete(cfg, rows[i]) ==> RowValid(rows[i], stored))
    && (cfg.validateMin ==> LiveCount(cfg, rows) >= cfg.minNum)
  }

  /** Number of forms an unbound formset offers for an invoice with
      `initial` items: at least `min_num`, plus `extra` blank ones. */
  function OfferedFormCount(cfg: FormsetConfig, initial: nat): (r: nat)
    ensures r >= initial + cfg.extra && r >= cfg.minNum + cfg.extra
    ensures r == initial + cfg.extra || r == cfg.minNum + cfg.extra
  {
    (if initial < cfg.minNum then cfg.minNum else initial) + cfg.extra
  }

  /** The two configurations offer forms differently only for an invoice
      with no items: the view offers one blank row, the declared formset two. */
  lemma OfferedForms(initial: nat)
    ensures OfferedFormCount(ViewItemFormset, initial) == initial + 1
    ensures OfferedFormCount(DeclaredItemFormset, initial) == if initial == 0 then 2 else initial + 1
  {
  }

  /** LiveCount counts exactly the live rows: it is positive iff one exists. */
  lemma {:induction false} LiveCountPositive(cfg: FormsetConfig, rows: seq<ItemRow>)
    ensures LiveCount(cfg, rows) > 0 <==> exists i :: 0 <= i < |rows| && Live(cfg, rows[i])
  {
    if rows != [] {
      LiveCountPositive(cfg, rows[1..]);
      if exists i :: 0 <= i < |rows| && Live(cfg, rows[i]) {
        var i :| 0 <= i < |rows| && Live(cfg, rows[i]);
        if i > 0 {
          assert Live(cfg, rows[1..][i - 1]);
        }
      }
      if exists i :: 0 <= i < |rows[1..]| && Live(cfg, rows[1..][i]) {
        var i :| 0 <= i < |rows[1..]| && Live(cfg, rows[1..][i]);
        assert Live(cfg, rows[i + 1]);
      }
    }
  }

  /** The declared formset accepts a submission only if some row survives it. */
  lemma DeclaredFormsetKeepsAnItem(rows: seq<ItemRow>, stored: set<Id>)
    requires FormsetValid(DeclaredItemFormset, rows, stored)
    ensures exists i :: 0 <= i < |rows| && Live(DeclaredItemFormset, rows[i])
  {
    LiveCountPositive(DeclaredItemFormset, rows);
  }

  /** The two configurations differ on a submission that deletes every item
      and adds none: the view's formset accepts it, the declared one rejects
      it.  Both decide every other row alike. */
  lemma RemovingEverything(rows: seq<ItemRow>, stored: set<Id>)
    requires forall i :: 0 <= i < |rows| ==> !Live(ViewItemFormset, rows[i])
    ensures FormsetValid(ViewItemFormset, rows, stored)
    ensures !FormsetValid(DeclaredItemFormset, rows, stored)
  {
    assert forall i :: 0 <= i < |rows| ==> !Live(DeclaredItemFormset, rows[i]);
    LiveCountPositive(DeclaredItemFormset, rows);
  }

  /** The application's own two configurations differ in exactly two rules
      that both come from `min_num=1`: the declared formset needs a surviving
      row, and it validates its first form even when that form is an
      unchanged extra one. */
  lemma ConfigurationsDifferOnlyInMinimum(rows: seq<ItemRow>, stored: set<Id>)
    ensures FormsetValid(DeclaredItemFormset, rows, stored)
        <==> && FormsetValid(ViewItemFormset, rows, stored)
             && LiveCount(ViewItemFormset, rows) >= 1
             && (rows != [] && !ShouldDelete(ViewItemFormset, rows[0]) ==> RowValid(rows[0], stored))
  {
    assert forall r :: Live(ViewItemFormset, r) == Live(DeclaredItemFormset, r);
    LiveCountSameConfig(rows);
  }

  /** Under the declared formset an untouched first form is validated, and
      its missing description rejects the whole submission. */
  lemma FirstFormRequired(rows: seq<ItemRow>, stored: set<Id>)
    requires rows != [] && IsBlankExtra(DeclaredItemFormset, rows[0])
    ensures !FormsetValid(DeclaredItemFormset, rows, stored)
  {
    assert !RowValid(rows[0], stored);
  }

  /** A new invoice where only the second of the two offered forms is filled
      in: the view's formset accepts it, the declared one does not. */
  lemma SecondFormOnly()
    ensures var rows := [ItemRow(None, "", Some(DecimalInput(0, 0)), Some(DecimalInput(0, 0)), false),
                         ItemRow(None, "Widget", Some(DecimalInput(100, -2)), Some(DecimalInput(100, -2)), false)];
      FormsetValid(ViewItemFormset, rows, {}) && !FormsetValid(DeclaredItemFormset, rows, {})
  {
    var rows := [ItemRow(None, "", Some(DecimalInput(0, 0)), Some(DecimalInput(0, 0)), false),
                 ItemRow(None, "Widget", Some(DecimalInput(100, -2)), Some(DecimalInput(100, -2)), false)];
    assert Strip(rows[1].description) == "Widget";
    assert FitsField(DecimalInput(100, -2));
    assert RowValid(rows[1], {});
    FirstFormRequired(rows, {});
  }

  lemma {:induction false} LiveCountSameConfig(rows: seq<ItemRow>)
    ensures LiveCount(ViewItemFormset, rows) == LiveCount(DeclaredItemFormset, rows)
  {
    if rows != [] {
      LiveCountSameConfig(rows[1..]);
    }
  }

  /** The stored form of a row: its three cleaned fields as the item's columns, in
      hundredths, owned by `invoice`. */
  function RowItem(invoice: Id, row: ItemRow): (r: Item)
    ensures r.invoice == invoice && r.description == Strip(row.description)
    ensures r.quantity.Some? <==> row.quantity.Some?
    ensures r.unitPrice.Some? <==> row.unitPrice.Some?
  {
    Item(invoice, Strip(row.description),
         if row.quantity.Some? then Some(Hundredths(row.quantity.value)) else None,
         if row.unitPrice.Some? then Some(Hundredths(row.unitPrice.value)) else None)
  }

  /** A valid row is stored exactly and within the column bounds. */
  lemma RowItemExact(invoice: Id, row: ItemRow, stored: set<Id>)
    requires RowValid(row, stored)
    ensures var it := RowItem(invoice, row);
      && (row.quantity.Some? ==> (it.quantity.value as real) / 100.0 == Value(row.quantity.value))
      && (row.unitPrice.Some? ==> (it.unitPrice.value as real) / 100.0 == Value(row.unitPrice.value))
      && (it.quantity.Some? ==> -MaxFieldHundredths <= it.quantity.value <= MaxFieldHundredths)
      && (it.unitPrice.Some? ==> -MaxFieldHundredths <= it.unitPrice.value <= MaxFieldHundredths)
  {
    if row.quantity.Some? {
      HundredthsExact(row.quantity.value);
      HundredthsBound(row.quantity.value);
    }
    if row.unitPrice.Some? {
      HundredthsExact(row.unitPrice.value);
      HundredthsBound(row.unitPrice.value);
    }
  }
}
