/** The form data the admin "add food" page and "edit food" dialog share:
    the food's fields and its list of portion-size entries, the changes
    their inputs make, the add/remove/update operations on the entries, and
    the request the food controller receives for the form. */
module FoodForms {
  import opened Common
  import opened FormState
  import opened NumberInput
  import Schema
  import FoodValidation

  /** One portion-size entry: the id of the row it came from (the edit
      dialog only), the size name, the price and the optional sort order. */
  datatype SizeEntry = SizeEntry(id: Option<nat>, sizeName: string, price: real, sortOrder: Option<int>)

  datatype FoodForm = FoodForm(
    name: string,
    description: string,
    category: string,
    isActive: bool,
    sortOrder: int,
    sizes: seq<SizeEntry>)

  /** The first form data of both forms: empty, active, sort order 0, no sizes. */
  const EmptyForm := FoodForm("", "", "", true, 0, [])

  /** What one input writes; the sort order arrives as the input's text and
      is read with `parseInt(text) || 0`. */
  datatype Change =
    | NameTo(name: string)
    | DescriptionTo(description: string)
    | CategoryTo(category: string)
    | SortOrderTo(text: string)
    | ActiveTo(active: bool)

  /** The key the change writes, and whose error the edit dialog clears. */
  function ChangeKey(c: Change): string {
    match c
    case NameTo(_) => "name"
    case DescriptionTo(_) => "description"
    case CategoryTo(_) => "category"
    case SortOrderTo(_) => "sort_order"
    case ActiveTo(_) => "is_active"
  }

  /** `{ ...prev, [field]: value }`: one field takes the value, the others
      and the entries stay. */
  function Changed(form: FoodForm, c: Change): (r: FoodForm)
    ensures r.sizes == form.sizes
    ensures r.name == (if c.NameTo? then c.name else form.name)
    ensures r.description == (if c.DescriptionTo? then c.description else form.description)
    ensures r.category == (if c.CategoryTo? then c.category else form.category)
    ensures r.sortOrder == (if c.SortOrderTo? then IntOrZero(c.text) else form.sortOrder)
    ensures r.isActive == (if c.ActiveTo? then c.active else form.isActive)
  {
    match c
    case NameTo(v) => form.(name := v)
    case DescriptionTo(v) => form.(description := v)
    case CategoryTo(v) => form.(category := v)
    case SortOrderTo(text) => form.(sortOrder := IntOrZero(text))
    case ActiveTo(b) => form.(isActive := b)
  }

  // ---------------------------------------------------------------- entries

  /** `addPortionSize`: an empty entry, priced 0, whose sort order is the
      number of entries before it. */
  function AddedEntry(sizes: seq<SizeEntry>): (r: seq<SizeEntry>)
    ensures r == sizes + [SizeEntry(None, "", 0.0, Some(|sizes|))]
  {
    sizes + [SizeEntry(None, "", 0.0, Some(|sizes|))]
  }

  /** What one entry input writes; the price arrives as text and is read
      with `parseFloat(text) || 0`. */
  datatype SizeChange = SizeNameTo(sizeName: string) | PriceTo(text: string)

  function EntryChanged(c: SizeChange): SizeEntry -> SizeEntry {
    (e: SizeEntry) =>
      match c
      case SizeNameTo(v) => e.(sizeName := v)
      case PriceTo(text) => e.(price := FloatOrZero(text))
  }

  /** `updatePortionSize`: the entry at `index` takes the value. */
  function SizesUpdated(sizes: seq<SizeEntry>, index: int, c: SizeChange): (r: seq<SizeEntry>)
    ensures |r| == |sizes|
    ensures forall k :: 0 <= k < |sizes| && k != index ==> r[k] == sizes[k]
    ensures 0 <= index < |sizes| && c.SizeNameTo? ==> r[index] == sizes[index].(sizeName := c.sizeName)
    ensures 0 <= index < |sizes| && c.PriceTo? ==> r[index] == sizes[index].(price := FloatOrZero(c.text))
  {
    UpdatedAt(sizes, index, EntryChanged(c))
  }

  /** `removePortionSize`. */
  function SizesRemoved(sizes: seq<SizeEntry>, index: int): (r: seq<SizeEntry>)
    ensures 0 <= index < |sizes| ==> r == sizes[..index] + sizes[index + 1..]
    ensures !(0 <= index < |sizes|) ==> r == sizes
  {
    RemovedAtMeaning(sizes, index);
    RemovedAt(sizes, index)
  }

  /** `n` presses of "Add size". */
  function Adds(sizes: seq<SizeEntry>, n: nat): seq<SizeEntry> {
    if n == 0 then sizes else AddedEntry(Adds(sizes, n - 1))
  }

  /** From an empty list, added entries are numbered 0, 1, 2, … */
  lemma {:induction false} AddsNumberEntries(n: nat)
    ensures |Adds([], n)| == n
    ensures forall k :: 0 <= k < n ==> Adds([], n)[k] == SizeEntry(None, "", 0.0, Some(k))
  {
    if n > 0 {
      AddsNumberEntries(n - 1);
    }
  }

  /** After a removal the next entry can repeat a sort order: add, add,
      remove the first, add gives two entries with sort order 1. */
  lemma RemovalRepeatsSortOrder()
    ensures var sizes := AddedEntry(SizesRemoved(AddedEntry(AddedEntry([])), 0));
      |sizes| == 2 && sizes[0].sortOrder == sizes[1].sortOrder == Some(1)
  {
    var two := AddedEntry(AddedEntry([]));
    assert two[1..] == [SizeEntry(None, "", 0.0, Some(1))];
  }

  /** Sort orders the forms create are never negative. */
  predicate SortOrdersNatural(sizes: seq<SizeEntry>) {
    forall k :: 0 <= k < |sizes| ==> sizes[k].sortOrder.None? || sizes[k].sortOrder.value >= 0
  }

  /** Adding, removing and updating entries keep sort orders natural. */
  lemma EntryOpsKeepSortOrdersNatural(sizes: seq<SizeEntry>, index: int, c: SizeChange)
    requires SortOrdersNatural(sizes)
    ensures SortOrdersNatural(AddedEntry(sizes))
    ensures SortOrdersNatural(SizesRemoved(sizes, index))
    ensures SortOrdersNatural(SizesUpdated(sizes, index, c))
  {
    var r := SizesRemoved(sizes, index);
    if 0 <= index < |sizes| {
      forall k | 0 <= k < |r| ensures r[k].sortOrder.None? || r[k].sortOrder.value >= 0 {
        if k < index {
          assert r[k] == sizes[k];
        } else {
          assert r[k] == sizes[k + 1];
        }
      }
    }
  }

  // ---------------------------------------------------------------- request

  /** The entry as the controller receives it. */
  function SizeInputOf(e: SizeEntry): FoodValidation.SizeInput {
    FoodValidation.SizeInput(e.id, Received(e.sizeName), Some(e.price), e.sortOrder)
  }

  /** The request the food controller validates for the form and an image. */
  function InputOf(form: FoodForm, image: Option<string>): (input: FoodValidation.FoodInput)
    ensures |input.sizes| == |form.sizes|
    ensures forall k :: 0 <= k < |form.sizes| ==> input.sizes[k] == SizeInputOf(form.sizes[k])
  {
    FoodValidation.FoodInput(Received(form.name), Received(form.description), image, Received(form.category),
      Some(form.isActive), Some(form.sortOrder),
      seq(|form.sizes|, k requires 0 <= k < |form.sizes| => SizeInputOf(form.sizes[k])))
  }

  /** Which item rules the submitted entries fail: a size name fails when
      empty or too long, a price when negative, and a sort order never. */
  lemma EntryRules(form: FoodForm, image: Option<string>, action: FoodValidation.Action, t: Schema.Tables, k: nat)
    requires SortOrdersNatural(form.sizes) && k < |form.sizes|
    ensures FoodValidation.Fails(InputOf(form, image), action, t, FoodValidation.SizeName(k)) <==>
      form.sizes[k].sizeName == "" || |form.sizes[k].sizeName| > 255
    ensures FoodValidation.Fails(InputOf(form, image), action, t, FoodValidation.SizePrice(k)) <==>
      form.sizes[k].price < 0.0
    ensures !FoodValidation.Fails(InputOf(form, image), action, t, FoodValidation.SizeSortOrder(k))
  {
    assert InputOf(form, image).sizes[k] == SizeInputOf(form.sizes[k]);
  }

  /** Which food rules the submitted fields fail: the name and the category
      when empty or too long, the sort order when negative, the size list
      when empty. */
  lemma FieldRules(form: FoodForm, image: Option<string>, action: FoodValidation.Action, t: Schema.Tables)
    ensures FoodValidation.Fails(InputOf(form, image), action, t, FoodValidation.Name) <==>
      form.name == "" || |form.name| > 255
    ensures FoodValidation.Fails(InputOf(form, image), action, t, FoodValidation.Category) <==>
      form.category == "" || |form.category| > 255
    ensures FoodValidation.Fails(InputOf(form, image), action, t, FoodValidation.SortOrder) <==> form.sortOrder < 0
    ensures FoodValidation.Fails(InputOf(form, image), action, t, FoodValidation.PortionSizes) <==> form.sizes == []
  {
  }

  // ---------------------------------------------------------------- errors

  /** The key the controller's validation error for an attribute is stored under. */
  function FieldKey(f: FoodValidation.FoodField): string {
    match f
    case Name => "name"
    case Image => "image"
    case Category => "category"
    case SortOrder => "sort_order"
    case PortionSizes => "portion_sizes"
    case SizeId(i) => "portion_sizes." + NatText(i) + ".id"
    case SizeName(i) => "portion_sizes." + NatText(i) + ".size_name"
    case SizePrice(i) => "portion_sizes." + NatText(i) + ".price"
    case SizeSortOrder(i) => "portion_sizes." + NatText(i) + ".sort_order"
  }

  /** The keys both admin forms show an error under. */
  const FieldErrorKeys: set<string> := {"name", "category", "description", "image", "sort_order", "portion_sizes"}

  /** No form shows the error of a single entry: a rejected size name,
      price, sort order or id leaves no message next to the entry. */
  lemma EntryErrorsHidden(f: FoodValidation.FoodField)
    requires f.SizeId? || f.SizeName? || f.SizePrice? || f.SizeSortOrder?
    ensures FieldKey(f) !in FieldErrorKeys && FieldKey(f) != "general"
  {
    assert |FieldKey(f)| > |"portion_sizes"|;
  }
}
