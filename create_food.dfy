/** The admin "add food" page: the form data, the chosen image file, the
    submit button's guard, and the multipart `POST /dashboard/foods` it
    sends. The server's answer is a parameter; the page follows a redirect
    to the foods list on success and shows the errors it sent back
    otherwise. */
module CreateFood {
  import opened Common
  import opened Schema
  import opened FormState
  import opened FoodForms
  import FoodValidation
  import FoodAdmin
  import OrderValidation

  /** The request: the form data and the chosen file (by its name; the
      file's bytes are not modelled). */
  datatype CreateRequest = CreateRequest(form: FoodForm, file: Option<string>)

  /** What the controller validates for a request: the file is checked and
      stored apart from the other attributes. */
  function RequestInput(req: CreateRequest): FoodValidation.FoodInput {
    InputOf(req.form, None)
  }

  /** The answer: a redirect to the foods list, or back to the page with
      errors. */
  datatype CreateReply = Redirected | BackWithErrors(errors: Record<string>)

  /** The keys the page shows an error under; it has no place for `general`. */
  const CreatePageErrorKeys := FieldErrorKeys

  class CreateFoodPage {
    var form: FoodForm
    var file: Option<string>
    var preview: Option<string>
    var errors: Record<string>
    var processing: bool

    constructor()
      ensures form == EmptyForm && file.None? && preview.None? && errors == [] && !processing
    {
      form, file, preview, errors, processing := EmptyForm, None, None, [], false;
    }

    /** `setData(key, value)` for a food field. The checkbox writes
        `!!checked`, a boolean. */
    method SetData(c: Change)
      modifies this
      ensures form == Changed(old(form), c)
      ensures file == old(file) && preview == old(preview) && errors == old(errors) && processing == old(processing)
    {
      form := Changed(form, c);
    }

    /** `handleImageChange`: a chosen file replaces the current one; closing
        the picker without a file changes nothing. */
    method ImageChosen(chosen: Option<string>)
      modifies this
      ensures file == if chosen.Some? then chosen else old(file)
      ensures form == old(form) && preview == old(preview) && errors == old(errors) && processing == old(processing)
    {
      if chosen.Some? {
        file := chosen;
      }
    }

    /** The file reader's result: the preview to show. */
    method PreviewRead(dataUrl: string)
      modifies this
      ensures preview == Some(dataUrl)
      ensures form == old(form) && file == old(file) && errors == old(errors) && processing == old(processing)
    {
      preview := Some(dataUrl);
    }

    /** `removeImage`. */
    method RemoveImage()
      modifies this
      ensures file.None? && preview.None?
      ensures form == old(form) && errors == old(errors) && processing == old(processing)
    {
      file, preview := None, None;
    }

    method AddSize()
      modifies this
      ensures form == old(form).(sizes := AddedEntry(old(form).sizes))
      ensures file == old(file) && preview == old(preview) && errors == old(errors) && processing == old(processing)
    {
      form := form.(sizes := AddedEntry(form.sizes));
    }

    method RemoveSize(index: int)
      modifies this
      ensures form == old(form).(sizes := SizesRemoved(old(form).sizes, index))
      ensures file == old(file) && preview == old(preview) && errors == old(errors) && processing == old(processing)
    {
      form := form.(sizes := SizesRemoved(form.sizes, index));
    }

    method UpdateSize(index: int, c: SizeChange)
      modifies this
      ensures form == old(form).(sizes := SizesUpdated(old(form).sizes, index, c))
      ensures file == old(file) && preview == old(preview) && errors == old(errors) && processing == old(processing)
    {
      form := form.(sizes := SizesUpdated(form.sizes, index, c));
    }

    /** The submit button is enabled when no request runs and the form has
        a size, a name and a category. */
    predicate SubmitEnabled()
      reads this
    {
      !processing && form.sizes != [] && form.name != "" && form.category != ""
    }

    /** `handleSubmit`: the form and the file are posted; after a redirect
        the errors are cleared and the page visits the foods list, after a
        redirect back it shows the errors sent. */
    method Submit(reply: CreateReply) returns (request: CreateRequest, visitFoods: bool)
      modifies this
      ensures request == CreateRequest(old(form), old(file))
      ensures form == old(form) && file == old(file) && preview == old(preview) && !processing
      ensures reply.Redirected? ==> errors == [] && visitFoods
      ensures reply.BackWithErrors? ==> errors == reply.errors && !visitFoods
    {
      processing := true;
      request := CreateRequest(form, file);
      match reply {
        case Redirected =>
          errors, visitFoods := [], true;
        case BackWithErrors(es) =>
          errors, visitFoods := es, false;
      }
      processing := false;
    }
  }

  /** When no request runs, the button is enabled exactly when the request
      it sends passes the size rule and fails neither the name nor the
      category rule for a missing value. */
  lemma EnabledIffRequiredPresent(p: CreateFoodPage, t: Tables)
    requires !p.processing
    ensures var input := RequestInput(CreateRequest(p.form, p.file));
      p.SubmitEnabled() <==>
      && !FoodValidation.Fails(input, FoodValidation.Create, t, FoodValidation.PortionSizes)
      && !(FoodValidation.Fails(input, FoodValidation.Create, t, FoodValidation.Name) && p.form.name == "")
      && !(FoodValidation.Fails(input, FoodValidation.Create, t, FoodValidation.Category) && p.form.category == "")
  {
    FieldRules(p.form, None, FoodValidation.Create, t);
  }

  /** The guard does not catch a name longer than 255 characters. */
  lemma EnabledNameCanFail(t: Tables)
    ensures var form := EmptyForm.(name := seq(256, _ => 'a'), category := "Drinks",
                                   sizes := [SizeEntry(None, "Small", 1.0, Some(0))]);
      form.sizes != [] && form.name != "" && form.category != ""
      && FoodValidation.Fails(InputOf(form, None), FoodValidation.Create, t, FoodValidation.Name)
  {
    var form := EmptyForm.(name := seq(256, _ => 'a'), category := "Drinks",
                           sizes := [SizeEntry(None, "Small", 1.0, Some(0))]);
    FieldRules(form, None, FoodValidation.Create, t);
  }

  /** The page shows no `general` error: when the transaction rolls back,
      the message sent back has nowhere to appear. */
  lemma GeneralErrorHidden()
    ensures "general" !in CreatePageErrorKeys
  {
  }

  /** A food the page creates is stored with its fields (a blank
      description as null), the stored image path, and one row per entry in
      order, with the entry's name, price and sort order (the position
      when it has none). */
  lemma CreatedFromForm(t: Tables, req: CreateRequest, path: Option<string>)
    requires Consistent(t)
    requires FoodAdmin.StoreOutcome(t, RequestInput(req), path).1.Created?
    ensures var (t2, resp) := FoodAdmin.StoreOutcome(t, RequestInput(req), path);
      && t2.foods == t.foods[resp.foodId := Food(req.form.name, Received(req.form.description), path, req.form.category, req.form.isActive, req.form.sortOrder)]
      && forall i :: 0 <= i < |req.form.sizes| ==>
           var k := t.nextSize + i;
           && k in t2.sizes && t2.sizes[k].foodId == resp.foodId
           && t2.sizes[k].sizeName == req.form.sizes[i].sizeName && t2.sizes[k].price == req.form.sizes[i].price
           && t2.sizes[k].sortOrder == req.form.sizes[i].sortOrder.GetOr(i)
  {
    var form := req.form;
    var input := RequestInput(req);
    assert input == InputOf(form, None);
    var v := FoodValidation.Validate(input, FoodValidation.Create, t).value;
    var (t2, resp) := FoodAdmin.StoreOutcome(t, input, path);
    assert (t2, resp) == FoodAdmin.CreateFood(t, v, path);
    ValidatedForm(t, form, path);
    FoodAdmin.CreateFoodWrites(t, v, path);
    FoodAdmin.CreateFoodEntries(t, v, path);
  }

  /** What validation passes on from a form: its fields as the food row, and
      each entry's name, price and sort order. */
  lemma ValidatedForm(t: Tables, form: FoodForm, path: Option<string>)
    requires FoodValidation.Validate(InputOf(form, None), FoodValidation.Create, t).Ok?
    ensures var v := FoodValidation.Validate(InputOf(form, None), FoodValidation.Create, t).value;
      && FoodAdmin.FoodRow(v, path) == Food(form.name, Received(form.description), path, form.category, form.isActive, form.sortOrder)
      && |v.sizes| == |form.sizes|
      && forall i :: 0 <= i < |form.sizes| ==>
           && v.sizes[i].sizeName == form.sizes[i].sizeName && v.sizes[i].price == form.sizes[i].price
           && v.sizes[i].sortOrder == form.sizes[i].sortOrder
  {
    var input := InputOf(form, None);
    var v := FoodValidation.Validate(input, FoodValidation.Create, t).value;
    assert OrderValidation.Given(Received(form.description)) == Received(form.description);
    forall i | 0 <= i < |form.sizes|
      ensures v.sizes[i].sizeName == form.sizes[i].sizeName && v.sizes[i].price == form.sizes[i].price
      ensures v.sizes[i].sortOrder == form.sizes[i].sortOrder
    {
      assert input.sizes[i] == SizeInputOf(form.sizes[i]);
    }
  }
}
