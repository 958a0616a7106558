/** The checkout dialog: its form data (prefilled from the signed-in user),
    the amounts it shows, the request body it posts to the order endpoint,
    and how it reacts to each kind of reply. The reply is a parameter: the
    network and the server are outside the dialog. */
module Checkout {
  import opened Common
  import opened Schema
  import opened Pricing
  import opened Cart
  import opened FormState
  import OrderValidation

  /** The profile fields of the signed-in user, `None` when missing or null. */
  datatype Profile = Profile(name: Option<string>, email: Option<string>, phone: Option<string>)

  /** The form data, one string per input. */
  datatype CheckoutForm = CheckoutForm(
    kind: string,
    customerName: string,
    customerEmail: string,
    customerPhone: string,
    deliveryAddress: string,
    deliveryCity: string,
    deliveryState: string,
    deliveryPostalCode: string,
    scheduledDateTime: string,
    notes: string)

  /** The inputs that call `handleChange`, each with the key its value and
      its error are stored under. */
  datatype FormField =
    | KindField | NameField | EmailField | PhoneField | AddressField
    | CityField | StateField | PostalCodeField | ScheduleField | NotesField

  function FieldName(f: FormField): string {
    match f
    case KindField => "type"
    case NameField => "customer_name"
    case EmailField => "customer_email"
    case PhoneField => "customer_phone"
    case AddressField => "delivery_address"
    case CityField => "delivery_city"
    case StateField => "delivery_state"
    case PostalCodeField => "delivery_postal_code"
    case ScheduleField => "scheduled_date_time"
    case NotesField => "notes"
  }

  function Get(form: CheckoutForm, f: FormField): string {
    match f
    case KindField => form.kind
    case NameField => form.customerName
    case EmailField => form.customerEmail
    case PhoneField => form.customerPhone
    case AddressField => form.deliveryAddress
    case CityField => form.deliveryCity
    case StateField => form.deliveryState
    case PostalCodeField => form.deliveryPostalCode
    case ScheduleField => form.scheduledDateTime
    case NotesField => form.notes
  }

  /** `{ ...prev, [field]: value }`. */
  function With(form: CheckoutForm, f: FormField, value: string): (r: CheckoutForm)
    ensures forall g :: Get(r, g) == if g == f then value else Get(form, g)
  {
    match f
    case KindField => form.(kind := value)
    case NameField => form.(customerName := value)
    case EmailField => form.(customerEmail := value)
    case PhoneField => form.(customerPhone := value)
    case AddressField => form.(deliveryAddress := value)
    case CityField => form.(deliveryCity := value)
    case StateField => form.(deliveryState := value)
    case PostalCodeField => form.(deliveryPostalCode := value)
    case ScheduleField => form.(scheduledDateTime := value)
    case NotesField => form.(notes := value)
  }

  /** The first form data: a pickup order, the contact fields from the
      signed-in user (empty without one), everything else empty. */
  function InitialForm(user: Option<Profile>): (form: CheckoutForm)
    ensures form.kind == "pickup"
    ensures forall g :: g !in {KindField, NameField, EmailField, PhoneField} ==> Get(form, g) == ""
    ensures user.None? ==> forall g :: g != KindField ==> Get(form, g) == ""
    ensures user.Some? ==>
      && form.customerName == OrEmpty(user.value.name)
      && form.customerEmail == OrEmpty(user.value.email)
      && form.customerPhone == OrEmpty(user.value.phone)
  {
    var p := user.GetOr(Profile(None, None, None));
    CheckoutForm("pickup", OrEmpty(p.name), OrEmpty(p.email), OrEmpty(p.phone), "", "", "", "", "", "")
  }

  /** The effect run when the dialog opens for a signed-in user. */
  function Prefilled(form: CheckoutForm, u: Profile): (r: CheckoutForm)
    ensures r.customerName == OrEmpty(u.name) && r.customerEmail == OrEmpty(u.email) && r.customerPhone == OrEmpty(u.phone)
    ensures forall g :: g !in {NameField, EmailField, PhoneField} ==> Get(r, g) == Get(form, g)
  {
    form.(customerName := OrEmpty(u.name), customerEmail := OrEmpty(u.email), customerPhone := OrEmpty(u.phone))
  }

  // ---------------------------------------------------------------- amounts

  /** The amounts the dialog shows for the cart and the selected type. */
  function ShownAmounts(items: seq<CartItem>, kind: string): Amounts {
    var subtotal := CartTotal(items);
    var tax := subtotal * 0.1;
    var fee := if kind == "delivery" then 5.0 else 0.0;
    Amounts(subtotal, tax, fee, subtotal + tax + fee)
  }

  /** The lines the body carries: name, size, quantity and unit price of
      each cart line, in cart order. */
  function Payload(items: seq<CartItem>): (lines: seq<ItemLine>)
    ensures |lines| == |items|
    ensures forall i :: 0 <= i < |items| ==>
      lines[i] == ItemLine(items[i].name, items[i].size, items[i].quantity, items[i].unitPrice)
  {
    seq(|items|, i requires 0 <= i < |items| =>
      ItemLine(items[i].name, items[i].size, items[i].quantity, items[i].unitPrice))
  }

  /** The cart total is the subtotal of the lines sent. */
  lemma {:induction false} PayloadSubtotal(items: seq<CartItem>)
    ensures CartTotal(items) == Subtotal(Payload(items))
    decreases |items|
  {
    if items != [] {
      var n := |items| - 1;
      PayloadSubtotal(items[..n]);
      assert Payload(items)[..n] == Payload(items[..n]);
    }
  }

  /** For every order type, the dialog shows the amounts the order
      controller will store (before rounding to cents). */
  lemma ShownAmountsAreServerAmounts(items: seq<CartItem>, kind: OrderType)
    ensures ShownAmounts(items, TypeName(kind)) == ComputeAmounts(Payload(items), kind)
  {
    PayloadSubtotal(items);
  }

  // ---------------------------------------------------------------- request

  /** The JSON body: the lines, then every form field. */
  datatype Body = Body(items: seq<ItemLine>, form: CheckoutForm)

  /** The order request the controller validates for a body. */
  function RequestOf(body: Body): OrderValidation.OrderRequest {
    var f := body.form;
    OrderValidation.OrderRequest(body.items, f.kind, Received(f.scheduledDateTime), Received(f.notes),
      Received(f.customerName), Received(f.customerEmail), Received(f.customerPhone),
      Received(f.deliveryAddress), Received(f.deliveryCity), Received(f.deliveryState),
      Received(f.deliveryPostalCode))
  }

  /** A non-empty cart of good lines passes every item rule of the order
      controller. */
  lemma CartPassesItemRules(items: seq<CartItem>, form: CheckoutForm, isEmail: string -> bool, isDate: string -> bool, i: nat)
    requires items != []
    requires forall k :: 0 <= k < |items| ==> GoodLine(items[k])
    ensures var req := RequestOf(Body(Payload(items), form));
      && !OrderValidation.Fails(req, OrderValidation.Items, isEmail, isDate)
      && !OrderValidation.Fails(req, OrderValidation.ItemName(i), isEmail, isDate)
      && !OrderValidation.Fails(req, OrderValidation.ItemSize(i), isEmail, isDate)
      && !OrderValidation.Fails(req, OrderValidation.ItemQuantity(i), isEmail, isDate)
      && !OrderValidation.Fails(req, OrderValidation.ItemUnitPrice(i), isEmail, isDate)
  {
  }

  /** The order type the controller checks is the one selected, and with
      one of the three the select offers, the type rule passes. */
  lemma SelectedTypePasses(items: seq<CartItem>, form: CheckoutForm, kind: OrderType, isEmail: string -> bool, isDate: string -> bool)
    requires form.kind == TypeName(kind)
    ensures !OrderValidation.Fails(RequestOf(Body(Payload(items), form)), OrderValidation.Type, isEmail, isDate)
  {
    ParseTypeName(kind);
  }

  /** When no request runs, the button is disabled exactly when the body it
      would send fails the controller's `items` rule. */
  lemma DisabledIffEmptyCart(d: CheckoutDialog, items: seq<CartItem>, isEmail: string -> bool, isDate: string -> bool)
    requires !d.processing
    ensures d.SubmitDisabled(items) <==>
      OrderValidation.Fails(RequestOf(Body(Payload(items), d.form)), OrderValidation.Items, isEmail, isDate)
  {
  }

  // ---------------------------------------------------------------- dialog

  /** What came back from the order endpoint: the fetch or the JSON
      decoding threw, a non-success status with its body, or success with
      the order number when the body has one. */
  datatype Reply = Threw | Failed(data: FailureData) | Succeeded(orderNumber: Option<string>)

  /** The fallback when a failed reply carries neither errors nor a message. */
  const OrderFailure := "Failed to place order. Please try again."

  class CheckoutDialog {
    var form: CheckoutForm
    var errors: Record<string>
    var processing: bool

    constructor(user: Option<Profile>)
      ensures form == InitialForm(user) && errors == [] && !processing
    {
      form := InitialForm(user);
      errors := [];
      processing := false;
    }

    /** The effect on `open`: a signed-in user's contact fields are refreshed. */
    method Opened(open: bool, user: Option<Profile>)
      modifies this
      ensures form == if open && user.Some? then Prefilled(old(form), user.value) else old(form)
      ensures errors == old(errors) && processing == old(processing)
    {
      if open && user.Some? {
        form := Prefilled(form, user.value);
      }
    }

    /** `handleChange`: the field takes the value and loses its error. */
    method HandleChange(field: FormField, value: string)
      modifies this
      ensures form == With(old(form), field, value)
      ensures errors == ClearedError(old(errors), FieldName(field))
      ensures processing == old(processing)
    {
      form := With(form, field, value);
      errors := ClearedError(errors, FieldName(field));
    }

    /** The amounts on screen. */
    function Shown(items: seq<CartItem>): Amounts
      reads this
    {
      ShownAmounts(items, form.kind)
    }

    /** The submit button is disabled while a request runs and for an empty cart. */
    predicate SubmitDisabled(items: seq<CartItem>)
      reads this
    {
      processing || items == []
    }

    /** `handleSubmit`: the errors are cleared and the request starts with
        the cart's lines and the form; then a thrown request shows the
        network message, a failed one its flattened errors or one general
        message, both ending the request; a successful one closes the
        dialog and hands on the order number, leaving `processing` set. */
    method Submit(items: seq<CartItem>, reply: Reply) returns (body: Body, closed: bool, orderNumber: Option<string>)
      modifies this
      ensures body == Body(Payload(items), old(form)) && form == old(form)
      ensures reply.Threw? ==> errors == [("general", NetworkFailure)] && !processing && !closed
      ensures reply.Failed? ==> errors == FailureErrors(reply.data, OrderFailure) && !processing && !closed
      ensures reply.Succeeded? ==> errors == [] && processing && closed && orderNumber == reply.orderNumber
      ensures !reply.Succeeded? ==> orderNumber.None?
    {
      errors := [];
      processing := true;
      body := Body(Payload(items), form);
      closed, orderNumber := false, None;
      match reply {
        case Threw =>
          errors := [("general", NetworkFailure)];
          processing := false;
        case Failed(data) =>
          if data.errors.Some? {
            errors := FormatErrors(data.errors.value);
          } else {
            errors := [("general", if data.message.Some? && data.message.value != "" then data.message.value else OrderFailure)];
          }
          processing := false;
        case Succeeded(number) =>
          closed, orderNumber := true, number;
      }
    }
  }
}
