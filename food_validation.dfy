/** The validation rules of the food controller's `store` and `update`. As
    for orders, a request is modelled after the ConvertEmptyStringsToNull
    middleware (an optional field is `None` when it was absent, null or
    empty; TrimStrings is not modelled) and values arrive typed. The uploaded image
    file of `store` is not modelled; `update` takes an image path. */
module FoodValidation {
  import opened Common
  import opened Schema
  import OrderValidation

  /** One `portion_sizes.*` entry as submitted. */
  datatype SizeInput = SizeInput(id: Option<nat>, sizeName: Option<string>, price: Option<real>, sortOrder: Option<int>)

  datatype FoodInput = FoodInput(
    name: Option<string>,
    description: Option<string>,
    image: Option<string>,
    category: Option<string>,
    isActive: Option<bool>,
    sortOrder: Option<int>,
    sizes: seq<SizeInput>)

  /** Which action's rules apply: only `update` checks an image path and size ids. */
  datatype Action = Create | Edit

  datatype FoodField =
    | Name
    | Image
    | Category
    | SortOrder
    | PortionSizes
    | SizeId(i: nat)
    | SizeName(i: nat)
    | SizePrice(i: nat)
    | SizeSortOrder(i: nat)

  /** `required|string|max:255`. */
  predicate RequiredName(v: Option<string>) {
    OrderValidation.Present(v) && |v.value| <= 255
  }

  /** Whether attribute `f` fails its rules; `exists:food_portion_sizes,id`
      looks at every portion-size row, whichever food it belongs to. */
  predicate Fails(input: FoodInput, action: Action, t: Tables, f: FoodField) {
    var sizes := input.sizes;
    match f
    case Name => !RequiredName(input.name)
    case Image => action == Edit && OrderValidation.TooLong(input.image, 255)   // nullable|string|max:255
    case Category => !RequiredName(input.category)
    case SortOrder => input.sortOrder.Some? && input.sortOrder.value < 0      // integer|min:0
    case PortionSizes => |sizes| == 0                                        // required|array|min:1
    case SizeId(i) =>                                                        // nullable|exists:...
      action == Edit && i < |sizes| && sizes[i].id.Some? && sizes[i].id.value !in t.sizes
    case SizeName(i) => i < |sizes| && !RequiredName(sizes[i].sizeName)
    case SizePrice(i) => i < |sizes| && (sizes[i].price.None? || sizes[i].price.value < 0.0)  // required|numeric|min:0
    case SizeSortOrder(i) => i < |sizes| && sizes[i].sortOrder.Some? && sizes[i].sortOrder.value < 0
  }

  /** The attributes the rules name for a request with `n` portion sizes. */
  function Attributes(n: nat): set<FoodField> {
    {Name, Image, Category, SortOrder, PortionSizes} +
    (set i: nat | i < n :: SizeId(i)) + (set i: nat | i < n :: SizeName(i)) +
    (set i: nat | i < n :: SizePrice(i)) + (set i: nat | i < n :: SizeSortOrder(i))
  }

  lemma FailingAttributeListed(input: FoodInput, action: Action, t: Tables, f: FoodField)
    requires Fails(input, action, t, f)
    ensures f in Attributes(|input.sizes|)
  {
    var n := |input.sizes|;
    match f
    case SizeId(i) => assert f in (set i: nat | i < n :: SizeId(i));
    case SizeName(i) => assert f in (set i: nat | i < n :: SizeName(i));
    case SizePrice(i) => assert f in (set i: nat | i < n :: SizePrice(i));
    case SizeSortOrder(i) => assert f in (set i: nat | i < n :: SizeSortOrder(i));
    case _ =>
  }

  /** Every attribute the rules reject. */
  function Errors(input: FoodInput, action: Action, t: Tables): (r: set<FoodField>)
    ensures forall f :: f in r <==> Fails(input, action, t, f)
  {
    assert forall f :: Fails(input, action, t, f) ==> f in Attributes(|input.sizes|) by {
      forall f | Fails(input, action, t, f)
        ensures f in Attributes(|input.sizes|)
      {
        FailingAttributeListed(input, action, t, f);
      }
    }
    set f | f in Attributes(|input.sizes|) && Fails(input, action, t, f)
  }

  /** An acceptable portion-size entry: a name of 1..255 characters and a
      price ≥ 0; a given sort order is ≥ 0 and, on update, a given id names
      an existing portion-size row. */
  predicate AcceptableSize(s: SizeInput, action: Action, t: Tables) {
    && s.sizeName.Some? && 1 <= |s.sizeName.value| <= 255
    && s.price.Some? && s.price.value >= 0.0
    && (s.sortOrder.Some? ==> s.sortOrder.value >= 0)
    && (action == Edit && s.id.Some? ==> s.id.value in t.sizes)
  }

  /** The requests the food controller accepts, stated positively. */
  predicate Acceptable(input: FoodInput, action: Action, t: Tables) {
    && input.name.Some? && 1 <= |input.name.value| <= 255
    && input.category.Some? && 1 <= |input.category.value| <= 255
    && (action == Edit && input.image.Some? ==> |input.image.value| <= 255)
    && (input.sortOrder.Some? ==> input.sortOrder.value >= 0)
    && |input.sizes| >= 1
    && (forall i :: 0 <= i < |input.sizes| ==> AcceptableSize(input.sizes[i], action, t))
  }

  lemma AcceptableFailsNothing(input: FoodInput, action: Action, t: Tables, f: FoodField)
    requires Acceptable(input, action, t)
    ensures !Fails(input, action, t, f)
  {
    match f
    case SizeId(i) =>
      if i < |input.sizes| { assert AcceptableSize(input.sizes[i], action, t); }
    case SizeName(i) =>
      if i < |input.sizes| { assert AcceptableSize(input.sizes[i], action, t); }
    case SizePrice(i) =>
      if i < |input.sizes| { assert AcceptableSize(input.sizes[i], action, t); }
    case SizeSortOrder(i) =>
      if i < |input.sizes| { assert AcceptableSize(input.sizes[i], action, t); }
    case _ =>
  }

  lemma NothingFailingIsAcceptable(input: FoodInput, action: Action, t: Tables)
    requires forall f :: !Fails(input, action, t, f)
    ensures Acceptable(input, action, t)
  {
    forall i | 0 <= i < |input.sizes|
      ensures AcceptableSize(input.sizes[i], action, t)
    {
      assert !Fails(input, action, t, SizeId(i)) && !Fails(input, action, t, SizeName(i));
      assert !Fails(input, action, t, SizePrice(i)) && !Fails(input, action, t, SizeSortOrder(i));
    }
    assert !Fails(input, action, t, Name) && !Fails(input, action, t, Category);
    assert !Fails(input, action, t, Image) && !Fails(input, action, t, SortOrder);
    assert !Fails(input, action, t, PortionSizes);
  }

  /** Validation passes exactly on acceptable requests. */
  lemma ErrorsEmptyIffAcceptable(input: FoodInput, action: Action, t: Tables)
    ensures Errors(input, action, t) == {} <==> Acceptable(input, action, t)
  {
    var r := Errors(input, action, t);
    if r == {} {
      NothingFailingIsAcceptable(input, action, t);
    }
    if Acceptable(input, action, t) {
      forall f ensures f !in r {
        AcceptableFailsNothing(input, action, t, f);
      }
    }
  }

  /** A validated portion-size entry. */
  datatype ValidSize = ValidSize(id: Option<nat>, sizeName: string, price: real, sortOrder: Option<int>)

  /** The validated attributes the controller goes on with. */
  datatype ValidFood = ValidFood(
    name: string,
    description: Option<string>,
    image: Option<string>,
    category: string,
    isActive: Option<bool>,
    sortOrder: Option<int>,
    sizes: seq<ValidSize>)

  /** The validated entries: `store` has no rule for `id`, so its entries carry none. */
  function ValidSizes(sizes: seq<SizeInput>, action: Action, t: Tables): (r: seq<ValidSize>)
    requires forall i :: 0 <= i < |sizes| ==> AcceptableSize(sizes[i], action, t)
    ensures |r| == |sizes|
    ensures forall i :: 0 <= i < |r| ==>
      && Some(r[i].sizeName) == sizes[i].sizeName && Some(r[i].price) == sizes[i].price
      && r[i].sortOrder == sizes[i].sortOrder
      && r[i].id == (if action == Edit then sizes[i].id else None)
  {
    if sizes == [] then []
    else
      var s := sizes[|sizes| - 1];
      assert AcceptableSize(s, action, t);
      ValidSizes(sizes[..|sizes| - 1], action, t) +
      [ValidSize(if action == Edit then s.id else None, s.sizeName.value, s.price.value, s.sortOrder)]
  }

  /** `$request->validate([...])`: the failing attributes, or the validated data. */
  function Validate(input: FoodInput, action: Action, t: Tables): (r: Result<ValidFood, set<FoodField>>)
    ensures r.Err? <==> !Acceptable(input, action, t)
    ensures r.Err? ==> r.error == Errors(input, action, t) && r.error != {}
    ensures r.Ok? ==>
      && Some(r.value.name) == input.name && Some(r.value.category) == input.category
      && r.value.description == OrderValidation.Given(input.description)
      && r.value.image == (if action == Edit then OrderValidation.Given(input.image) else None)
      && r.value.isActive == input.isActive && r.value.sortOrder == input.sortOrder
      && |r.value.sizes| == |input.sizes| >= 1
      && (forall i :: 0 <= i < |input.sizes| ==>
            && Some(r.value.sizes[i].sizeName) == input.sizes[i].sizeName
            && Some(r.value.sizes[i].price) == input.sizes[i].price && r.value.sizes[i].price >= 0.0
            && r.value.sizes[i].sortOrder == input.sizes[i].sortOrder
            && r.value.sizes[i].id == (if action == Edit then input.sizes[i].id else None))
      && (action == Edit ==> forall i :: 0 <= i < |input.sizes| && r.value.sizes[i].id.Some? ==>
            r.value.sizes[i].id.value in t.sizes)
  {
    ErrorsEmptyIffAcceptable(input, action, t);
    var errors := Errors(input, action, t);
    if errors != {} then Err(errors)
    else
      Ok(ValidFood(
        input.name.value, OrderValidation.Given(input.description),
        if action == Edit then OrderValidation.Given(input.image) else None,
        input.category.value, input.isActive, input.sortOrder,
        ValidSizes(input.sizes, action, t)))
  }

  /** A request with no portion sizes, or with a negative or missing price,
      is rejected before any write. */
  lemma ListedRejections(input: FoodInput, action: Action, t: Tables)
    requires
      || |input.sizes| == 0
      || (exists i :: 0 <= i < |input.sizes| && input.sizes[i].price.None?)
      || (exists i :: 0 <= i < |input.sizes| && input.sizes[i].price.Some? && input.sizes[i].price.value < 0.0)
    ensures Validate(input, action, t).Err?
  {
    if |input.sizes| > 0 {
      var i :| 0 <= i < |input.sizes| && (input.sizes[i].price.None? || input.sizes[i].price.value < 0.0);
      assert !AcceptableSize(input.sizes[i], action, t);
    }
  }
}
