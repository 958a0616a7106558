/** The admin "edit food" dialog: the form data it loads from a listed food,
    the changes its inputs make, and the `PUT /dashboard/foods/{id}` request
    it sends. The reply is a parameter; the network is outside the dialog. */
module EditFood {
  import opened Common
  import opened Schema
  import opened FormState
  import opened FoodForms
  import FoodValidation
  import FoodListing
  import FoodAdmin
  import OrderValidation

  /** The form data for a listed food: its fields, with an absent
      description blank, and one entry per size carrying the row's id and
      sort order 0. */
  function FormOf(food: FoodListing.AdminFood): (form: FoodForm)
    ensures form.name == food.name && form.category == food.category
    ensures form.description == OrEmpty(food.description)
    ensures form.isActive == food.isActive && form.sortOrder == food.sortOrder
    ensures |form.sizes| == |food.portionSizes|
    ensures forall k :: 0 <= k < |form.sizes| ==>
      form.sizes[k] == SizeEntry(Some(food.portionSizes[k].id), food.portionSizes[k].sizeName, food.portionSizes[k].price, Some(0))
  {
    var sizes := food.portionSizes;
    FoodForm(food.name, OrEmpty(food.description), food.category, food.isActive, food.sortOrder,
      seq(|sizes|, k requires 0 <= k < |sizes| => SizeEntry(Some(sizes[k].id), sizes[k].sizeName, sizes[k].price, Some(0))))
  }

  /** The request: the food's id from the route, and the JSON body. */
  datatype EditRequest = EditRequest(foodId: nat, form: FoodForm, image: string)

  /** What the controller receives for a request. */
  function RequestInput(req: EditRequest): FoodValidation.FoodInput {
    InputOf(req.form, Received(req.image))
  }

  /** What came back: the request or the JSON decoding threw, a non-success
      status with its body, or success. */
  datatype EditReply = SaveThrew | SaveFailed(data: FailureData) | Saved

  /** The fallback when a failed reply carries neither errors nor a message. */
  const UpdateFailure := "Failed to update food. Please try again."

  class EditFoodDialog {
    var form: FoodForm
    var image: string
    var errors: Record<string>
    var processing: bool

    constructor()
      ensures form == EmptyForm && image == "" && errors == [] && !processing
    {
      form, image, errors, processing := EmptyForm, "", [], false;
    }

    /** The effect on `food` and `open`: opening with a food loads it and
        resets errors and `processing`; closing resets only those two. */
    method Opened(food: Option<FoodListing.AdminFood>, open: bool)
      modifies this
      ensures food.Some? && open ==> form == FormOf(food.value) && image == OrEmpty(food.value.image)
      ensures !(food.Some? && open) ==> form == old(form) && image == old(image)
      ensures food.Some? || !open ==> errors == [] && !processing
      ensures food.None? && open ==> errors == old(errors) && processing == old(processing)
    {
      if food.Some? && open {
        form, image := FormOf(food.value), OrEmpty(food.value.image);
        errors, processing := [], false;
      } else if !open {
        errors, processing := [], false;
      }
    }

    /** `handleChange` for a food field: it takes the value and loses its error. */
    method HandleChange(c: Change)
      modifies this
      ensures form == Changed(old(form), c) && image == old(image)
      ensures errors == ClearedError(old(errors), ChangeKey(c)) && processing == old(processing)
    {
      form := Changed(form, c);
      errors := ClearedError(errors, ChangeKey(c));
    }

    /** `handleChange('image', …)`. */
    method HandleImageChange(value: string)
      modifies this
      ensures image == value && form == old(form)
      ensures errors == ClearedError(old(errors), "image") && processing == old(processing)
    {
      image := value;
      errors := ClearedError(errors, "image");
    }

    /** "Add Size". */
    method AddSize()
      modifies this
      ensures form == old(form).(sizes := AddedEntry(old(form).sizes))
      ensures image == old(image) && errors == old(errors) && processing == old(processing)
    {
      form := form.(sizes := AddedEntry(form.sizes));
    }

    /** The trash button of the entry at `index`. */
    method RemoveSize(index: int)
      modifies this
      ensures form == old(form).(sizes := SizesRemoved(old(form).sizes, index))
      ensures image == old(image) && errors == old(errors) && processing == old(processing)
    {
      form := form.(sizes := SizesRemoved(form.sizes, index));
    }

    /** An entry input; unlike `handleChange` it clears no error. */
    method UpdateSize(index: int, c: SizeChange)
      modifies this
      ensures form == old(form).(sizes := SizesUpdated(old(form).sizes, index, c))
      ensures image == old(image) && errors == old(errors) && processing == old(processing)
    {
      form := form.(sizes := SizesUpdated(form.sizes, index, c));
    }

    /** The submit button is disabled while a request runs and without sizes. */
    predicate SubmitDisabled()
      reads this
    {
      processing || form.sizes == []
    }

    /** `handleSubmit`: without a food nothing happens; otherwise the errors
        are cleared and the form goes to the food's endpoint; a thrown
        request shows the network message, a failed one its flattened errors
        or one general message, both ending the request; a successful one
        closes the dialog. */
    method Submit(food: Option<FoodListing.AdminFood>, reply: EditReply) returns (request: Option<EditRequest>, closed: bool)
      modifies this
      ensures form == old(form) && image == old(image)
      ensures food.None? ==> request.None? && !closed && errors == old(errors) && processing == old(processing)
      ensures food.Some? ==> request == Some(EditRequest(food.value.id, old(form), old(image)))
      ensures food.Some? && reply.SaveThrew? ==> errors == [("general", NetworkFailure)] && !processing && !closed
      ensures food.Some? && reply.SaveFailed? ==> errors == FailureErrors(reply.data, UpdateFailure) && !processing && !closed
      ensures food.Some? && reply.Saved? ==> errors == [] && processing && closed
    {
      if food.None? {
        return None, false;
      }
      errors := [];
      processing := true;
      request := Some(EditRequest(food.value.id, form, image));
      closed := false;
      match reply {
        case SaveThrew =>
          errors := [("general", NetworkFailure)];
          processing := false;
        case SaveFailed(data) =>
          if data.errors.Some? {
            errors := FormatErrors(data.errors.value);
          } else {
            errors := [("general", if data.message.Some? && data.message.value != "" then data.message.value else UpdateFailure)];
          }
          processing := false;
        case Saved =>
          closed := true;
      }
    }
  }

  /** When no request runs, the button is disabled exactly when the body it
      would send fails the controller's size rule. */
  lemma DisabledIffNoSizes(d: EditFoodDialog, foodId: nat, t: Tables)
    requires !d.processing
    ensures d.SubmitDisabled() <==>
      FoodValidation.Fails(RequestInput(EditRequest(foodId, d.form, d.image)), FoodValidation.Edit, t, FoodValidation.PortionSizes)
  {
    FieldRules(d.form, Received(d.image), FoodValidation.Edit, t);
  }

  // ------------------------------------------------------------ round trip

  /** The input the controller receives when a listed food is saved unchanged. */
  function UnchangedInput(food: FoodListing.AdminFood): FoodValidation.FoodInput {
    RequestInput(EditRequest(food.id, FormOf(food), OrEmpty(food.image)))
  }

  /** Saving a food unchanged gives back its own row (a blank description or
      image path is the one thing that cannot round-trip: it arrives as null),
      and every entry names its size row. */
  lemma UnchangedSaveKeepsFood(food: FoodListing.AdminFood, t: Tables)
    requires food.description != Some("") && food.image != Some("")
    requires FoodValidation.Validate(UnchangedInput(food), FoodValidation.Edit, t).Ok?
    ensures var v := FoodValidation.Validate(UnchangedInput(food), FoodValidation.Edit, t).value;
      && FoodAdmin.FoodRow(v, v.image) ==
         Food(food.name, food.description, food.image, food.category, food.isActive, food.sortOrder)
      && |v.sizes| == |food.portionSizes|
      && forall k :: 0 <= k < |v.sizes| ==>
           v.sizes[k] == FoodValidation.ValidSize(Some(food.portionSizes[k].id), food.portionSizes[k].sizeName,
                                                  food.portionSizes[k].price, Some(0))
  {
    var input := UnchangedInput(food);
    var v := FoodValidation.Validate(input, FoodValidation.Edit, t).value;
    var form := FormOf(food);
    forall k | 0 <= k < |v.sizes|
      ensures v.sizes[k] == FoodValidation.ValidSize(Some(food.portionSizes[k].id), food.portionSizes[k].sizeName,
                                                      food.portionSizes[k].price, Some(0))
    {
      assert input.sizes[k] == SizeInputOf(form.sizes[k]);
    }
  }

  /** Every entry loaded from a food is saved with sort order 0: editing a
      food resets the order of its existing sizes. */
  lemma LoadedSizesSortFirst(food: FoodListing.AdminFood, t: Tables, k: nat)
    requires FoodValidation.Validate(UnchangedInput(food), FoodValidation.Edit, t).Ok?
    requires k < |food.portionSizes|
    ensures var v := FoodValidation.Validate(UnchangedInput(food), FoodValidation.Edit, t).value;
      k < |v.sizes| && FoodAdmin.SizeRow(food.id, v.sizes[k], k).sortOrder == 0
  {
    var input := UnchangedInput(food);
    assert input.sizes[k] == SizeInputOf(FormOf(food).sizes[k]);
  }

  /** The form after "Add Size" and naming the new entry. */
  function AddedAndNamed(form: FoodForm, name: string): FoodForm {
    form.(sizes := SizesUpdated(AddedEntry(form.sizes), |form.sizes|, SizeNameTo(name)))
  }

  /** An entry added in the dialog after `n` entries, once named, is saved
      as a new row with sort order `n`. */
  lemma AddedSizeSortOrder(form: FoodForm, name: string, image: string, t: Tables)
    requires FoodValidation.Validate(InputOf(AddedAndNamed(form, name), Received(image)), FoodValidation.Edit, t).Ok?
    ensures var v := FoodValidation.Validate(InputOf(AddedAndNamed(form, name), Received(image)), FoodValidation.Edit, t).value;
      var n := |form.sizes|;
      && n < |v.sizes| && v.sizes[n].id.None? && v.sizes[n].sizeName == name
      && FoodAdmin.EntrySortOrder(v.sizes[n], n) == n
  {
    var f := AddedAndNamed(form, name);
    var n := |form.sizes|;
    assert InputOf(f, Received(image)).sizes[n] == SizeInputOf(f.sizes[n]);
  }
}
