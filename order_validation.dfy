/** The validation rules of the order controller's `store`. A request is
    modelled as the controller receives it after Laravel's
    ConvertEmptyStringsToNull middleware: an optional field is `None` when it
    was absent, null or empty. Trimming by TrimStrings is not modelled (see
    "Left out" in README.md). Values arrive typed (a quantity is an integer,
    a unit price a number); `email` and `date` checks are parameters because
    they depend on PHP's filter and date-parsing functions. */
module OrderValidation {
  import opened Common
  import opened Schema
  import opened Pricing

  datatype OrderRequest = OrderRequest(
    items: seq<ItemLine>,
    kind: string,
    scheduledDateTime: Option<string>,
    notes: Option<string>,
    customerName: Option<string>,
    customerEmail: Option<string>,
    customerPhone: Option<string>,
    deliveryAddress: Option<string>,
    deliveryCity: Option<string>,
    deliveryState: Option<string>,
    deliveryPostalCode: Option<string>)

  /** A request attribute that validation can reject. */
  datatype Field =
    | Items
    | ItemName(i: nat)
    | ItemSize(i: nat)
    | ItemQuantity(i: nat)
    | ItemUnitPrice(i: nat)
    | Type
    | ScheduledDateTime
    | Notes
    | CustomerName
    | CustomerEmail
    | CustomerPhone
    | DeliveryAddress
    | DeliveryCity
    | DeliveryState
    | DeliveryPostalCode

  /** Whether a value is present for `required` (null and "" are not). */
  predicate Present(v: Option<string>) {
    v.Some? && v.value != ""
  }

  /** The validated value: `$validated[key] ?? null`. */
  function Given(v: Option<string>): (r: Option<string>)
    ensures r.Some? <==> Present(v)
    ensures r.Some? ==> r == v
  {
    if Present(v) then v else None
  }

  /** `nullable|string|max:n` fails only on a present value longer than `n`. */
  predicate TooLong(v: Option<string>, n: nat) {
    Present(v) && |v.value| > n
  }

  /** Whether attribute `f` fails its rules. */
  predicate Fails(req: OrderRequest, f: Field, isEmail: string -> bool, isDate: string -> bool) {
    match f
    case Items => |req.items| == 0                                    // required|array|min:1
    case ItemName(i) => i < |req.items| && req.items[i].name == ""    // required|string
    case ItemSize(i) => i < |req.items| && req.items[i].size == ""    // required|string
    case ItemQuantity(i) => i < |req.items| && req.items[i].quantity < 1          // integer|min:1
    case ItemUnitPrice(i) => i < |req.items| && req.items[i].unitPrice < 0.0      // numeric|min:0
    case Type => ParseType(req.kind).None?                           // required|in:...
    case ScheduledDateTime => Present(req.scheduledDateTime) && !isDate(req.scheduledDateTime.value)
    case Notes => TooLong(req.notes, 1000)
    case CustomerName => !Present(req.customerName) || |req.customerName.value| > 255
    case CustomerEmail =>
      !Present(req.customerEmail) || !isEmail(req.customerEmail.value) || |req.customerEmail.value| > 255
    case CustomerPhone => TooLong(req.customerPhone, 20)
    case DeliveryAddress =>                                          // required_if:type,delivery
      (req.kind == "delivery" && !Present(req.deliveryAddress)) || TooLong(req.deliveryAddress, 500)
    case DeliveryCity => TooLong(req.deliveryCity, 100)
    case DeliveryState => TooLong(req.deliveryState, 100)
    case DeliveryPostalCode => TooLong(req.deliveryPostalCode, 20)
  }

  /** The attributes the rules name for a request with `n` items. */
  function Attributes(n: nat): set<Field> {
    {Items, Type, ScheduledDateTime, Notes, CustomerName, CustomerEmail, CustomerPhone,
     DeliveryAddress, DeliveryCity, DeliveryState, DeliveryPostalCode} +
    (set i: nat | i < n :: ItemName(i)) + (set i: nat | i < n :: ItemSize(i)) +
    (set i: nat | i < n :: ItemQuantity(i)) + (set i: nat | i < n :: ItemUnitPrice(i))
  }

  lemma FailingAttributeListed(req: OrderRequest, f: Field, isEmail: string -> bool, isDate: string -> bool)
    requires Fails(req, f, isEmail, isDate)
    ensures f in Attributes(|req.items|)
  {
    var n := |req.items|;
    match f
    case ItemName(i) => assert f in (set i: nat | i < n :: ItemName(i));
    case ItemSize(i) => assert f in (set i: nat | i < n :: ItemSize(i));
    case ItemQuantity(i) => assert f in (set i: nat | i < n :: ItemQuantity(i));
    case ItemUnitPrice(i) => assert f in (set i: nat | i < n :: ItemUnitPrice(i));
    case _ =>
  }

  /** Every attribute the rules reject; Laravel checks all rules and reports
      every failing attribute. */
  function Errors(req: OrderRequest, isEmail: string -> bool, isDate: string -> bool): (r: set<Field>)
    ensures forall f :: f in r <==> Fails(req, f, isEmail, isDate)
  {
    assert forall f :: Fails(req, f, isEmail, isDate) ==> f in Attributes(|req.items|) by {
      forall f | Fails(req, f, isEmail, isDate)
        ensures f in Attributes(|req.items|)
      {
        FailingAttributeListed(req, f, isEmail, isDate);
      }
    }
    set f | f in Attributes(|req.items|) && Fails(req, f, isEmail, isDate)
  }

  /** The requests the order controller accepts, stated positively. */
  predicate Acceptable(req: OrderRequest, isEmail: string -> bool, isDate: string -> bool) {
    && |req.items| >= 1
    && (forall i :: 0 <= i < |req.items| ==>
          req.items[i].name != "" && req.items[i].size != "" &&
          req.items[i].quantity >= 1 && req.items[i].unitPrice >= 0.0)
    && req.kind in {"pickup", "delivery", "reservation"}
    && (req.scheduledDateTime.Some? && req.scheduledDateTime.value != "" ==> isDate(req.scheduledDateTime.value))
    && (req.notes.Some? ==> |req.notes.value| <= 1000)
    && req.customerName.Some? && 1 <= |req.customerName.value| <= 255
    && req.customerEmail.Some? && 1 <= |req.customerEmail.value| <= 255 && isEmail(req.customerEmail.value)
    && (req.customerPhone.Some? ==> |req.customerPhone.value| <= 20)
    && (req.kind == "delivery" ==> req.deliveryAddress.Some? && req.deliveryAddress.value != "")
    && (req.deliveryAddress.Some? ==> |req.deliveryAddress.value| <= 500)
    && (req.deliveryCity.Some? ==> |req.deliveryCity.value| <= 100)
    && (req.deliveryState.Some? ==> |req.deliveryState.value| <= 100)
    && (req.deliveryPostalCode.Some? ==> |req.deliveryPostalCode.value| <= 20)
  }

  lemma AcceptableFailsNothing(req: OrderRequest, f: Field, isEmail: string -> bool, isDate: string -> bool)
    requires Acceptable(req, isEmail, isDate)
    ensures !Fails(req, f, isEmail, isDate)
  {
  }

  lemma NothingFailingIsAcceptable(req: OrderRequest, isEmail: string -> bool, isDate: string -> bool)
    requires forall f :: !Fails(req, f, isEmail, isDate)
    ensures Acceptable(req, isEmail, isDate)
  {
    forall i | 0 <= i < |req.items|
      ensures req.items[i].name != "" && req.items[i].size != ""
      ensures req.items[i].quantity >= 1 && req.items[i].unitPrice >= 0.0
    {
      assert !Fails(req, ItemName(i), isEmail, isDate) && !Fails(req, ItemSize(i), isEmail, isDate);
      assert !Fails(req, ItemQuantity(i), isEmail, isDate) && !Fails(req, ItemUnitPrice(i), isEmail, isDate);
    }
    assert !Fails(req, Items, isEmail, isDate) && !Fails(req, Type, isEmail, isDate);
    assert !Fails(req, ScheduledDateTime, isEmail, isDate) && !Fails(req, Notes, isEmail, isDate);
    assert !Fails(req, CustomerName, isEmail, isDate) && !Fails(req, CustomerEmail, isEmail, isDate);
    assert !Fails(req, CustomerPhone, isEmail, isDate) && !Fails(req, DeliveryAddress, isEmail, isDate);
    assert !Fails(req, DeliveryCity, isEmail, isDate) && !Fails(req, DeliveryState, isEmail, isDate);
    assert !Fails(req, DeliveryPostalCode, isEmail, isDate);
  }

  /** Validation passes exactly on acceptable requests. */
  lemma ErrorsEmptyIffAcceptable(req: OrderRequest, isEmail: string -> bool, isDate: string -> bool)
    ensures Errors(req, isEmail, isDate) == {} <==> Acceptable(req, isEmail, isDate)
  {
    var r := Errors(req, isEmail, isDate);
    if r == {} {
      NothingFailingIsAcceptable(req, isEmail, isDate);
    }
    if Acceptable(req, isEmail, isDate) {
      forall f ensures f !in r {
        AcceptableFailsNothing(req, f, isEmail, isDate);
      }
    }
  }

  /** What an accepted request guarantees the rest of `store`. */
  lemma Accepted(req: OrderRequest, isEmail: string -> bool, isDate: string -> bool)
    requires Errors(req, isEmail, isDate) == {}
    ensures ParseType(req.kind).Some?
    ensures WellPriced(req.items) && |req.items| >= 1
    ensures Present(req.customerName) && Present(req.customerEmail)
  {
    ErrorsEmptyIffAcceptable(req, isEmail, isDate);
  }

  /** The validated attributes `store` goes on with. */
  datatype ValidOrder = ValidOrder(
    items: seq<ItemLine>,
    kind: OrderType,
    customerName: string,
    customerEmail: string,
    customerPhone: Option<string>,
    delivery: Address,
    scheduledDateTime: Option<string>,
    notes: Option<string>)

  /** `$request->validate([...])`: the failing attributes, or the validated data. */
  function Validate(req: OrderRequest, isEmail: string -> bool, isDate: string -> bool)
    : (r: Result<ValidOrder, set<Field>>)
    ensures r.Err? <==> !Acceptable(req, isEmail, isDate)
    ensures r.Err? ==> r.error == Errors(req, isEmail, isDate) && r.error != {}
    ensures r.Ok? ==>
      && r.value.items == req.items && WellPriced(req.items) && |req.items| >= 1
      && TypeName(r.value.kind) == req.kind
      && Some(r.value.customerName) == req.customerName && Present(req.customerName)
      && Some(r.value.customerEmail) == req.customerEmail && isEmail(r.value.customerEmail)
      && r.value.customerPhone == Given(req.customerPhone)
      && r.value.delivery == Address(Given(req.deliveryAddress), Given(req.deliveryCity),
                                     Given(req.deliveryState), Given(req.deliveryPostalCode))
      && (r.value.kind == Delivery ==> r.value.delivery.address.Some?)
      && r.value.scheduledDateTime == Given(req.scheduledDateTime)
      && r.value.notes == Given(req.notes)
  {
    ErrorsEmptyIffAcceptable(req, isEmail, isDate);
    var errors := Errors(req, isEmail, isDate);
    if errors != {} then Err(errors)
    else
      Accepted(req, isEmail, isDate);
      Ok(ValidOrder(
        req.items, ParseType(req.kind).value, req.customerName.value, req.customerEmail.value,
        Given(req.customerPhone),
        Address(Given(req.deliveryAddress), Given(req.deliveryCity), Given(req.deliveryState), Given(req.deliveryPostalCode)),
        Given(req.scheduledDateTime), Given(req.notes)))
  }

  /** Each rejection the source lists happens at validation, before any write. */
  lemma ListedRejections(req: OrderRequest, isEmail: string -> bool, isDate: string -> bool)
    requires
      || |req.items| == 0
      || (exists i :: 0 <= i < |req.items| && req.items[i].quantity < 1)
      || (exists i :: 0 <= i < |req.items| && req.items[i].unitPrice < 0.0)
      || req.kind !in {"pickup", "delivery", "reservation"}
      || (req.notes.Some? && |req.notes.value| > 1000)
      || (req.kind == "delivery" && !Present(req.deliveryAddress))
    ensures Validate(req, isEmail, isDate).Err?
  {
    if exists i :: 0 <= i < |req.items| && req.items[i].quantity < 1 {
      var i :| 0 <= i < |req.items| && req.items[i].quantity < 1;
      assert Fails(req, ItemQuantity(i), isEmail, isDate);
    } else if exists i :: 0 <= i < |req.items| && req.items[i].unitPrice < 0.0 {
      var i :| 0 <= i < |req.items| && req.items[i].unitPrice < 0.0;
      assert Fails(req, ItemUnitPrice(i), isEmail, isDate);
    }
  }
}
