/** The relational store the controllers write to: the rows of the users,
    foods, food_portion_sizes, orders and order_items tables, and the
    constraints the three migrations declare on them (unique order number,
    the status and type enums, non-null and restricting food_id on items,
    unique (food_id, size_name), cascading deletes). Each table is a map
    from row id to row; ids come from a per-table auto-increment counter.
    An insert or update that a constraint refuses yields `Err`, which the
    controllers turn into a rollback. */
module Schema {
  import opened Common

  // ---------------------------------------------------------------- enums

  datatype OrderStatus = Pending | Confirmed | Preparing | Ready | Completed | Cancelled
  datatype OrderType = Pickup | Delivery | Reservation

  function StatusName(s: OrderStatus): string {
    match s
    case Pending => "pending"
    case Confirmed => "confirmed"
    case Preparing => "preparing"
    case Ready => "ready"
    case Completed => "completed"
    case Cancelled => "cancelled"
  }

  /** The value an enum('status', ...) column accepts for a string. */
  function ParseStatus(s: string): (r: Option<OrderStatus>)
    ensures r.Some? ==> StatusName(r.value) == s
  {
    if s == "pending" then Some(Pending)
    else if s == "confirmed" then Some(Confirmed)
    else if s == "preparing" then Some(Preparing)
    else if s == "ready" then Some(Ready)
    else if s == "completed" then Some(Completed)
    else if s == "cancelled" then Some(Cancelled)
    else None
  }

  lemma ParseStatusName(s: OrderStatus)
    ensures ParseStatus(StatusName(s)) == Some(s)
  {
  }

  function TypeName(t: OrderType): string {
    match t
    case Pickup => "pickup"
    case Delivery => "delivery"
    case Reservation => "reservation"
  }

  /** The value an enum('type', ...) column (and the `in:` rule) accepts. */
  function ParseType(s: string): (r: Option<OrderType>)
    ensures r.Some? ==> TypeName(r.value) == s
    ensures r.None? <==> s != "pickup" && s != "delivery" && s != "reservation"
  {
    if s == "pickup" then Some(Pickup)
    else if s == "delivery" then Some(Delivery)
    else if s == "reservation" then Some(Reservation)
    else None
  }

  lemma ParseTypeName(t: OrderType)
    ensures ParseType(TypeName(t)) == Some(t)
  {
  }

  // ----------------------------------------------------------------- rows

  datatype User = User(name: string, email: string, phone: Option<string>, password: string)

  datatype Food = Food(
    name: string, description: Option<string>, image: Option<string>,
    category: string, isActive: bool, sortOrder: int)

  datatype PortionSize = PortionSize(foodId: nat, sizeName: string, price: real, sortOrder: int)

  datatype Address = Address(
    address: Option<string>, city: Option<string>, state: Option<string>, postalCode: Option<string>)

  datatype Order = Order(
    userId: nat, orderNumber: string, status: OrderStatus, kind: OrderType,
    subtotal: real, tax: real, deliveryFee: real, total: real,
    customerName: string, customerEmail: string, customerPhone: Option<string>,
    delivery: Address, scheduledDateTime: Option<string>, readyAt: Option<string>,
    notes: Option<string>, adminNotes: Option<string>)

  datatype OrderItem = OrderItem(
    orderId: nat, foodId: nat, foodName: string, sizeName: string,
    quantity: int, unitPrice: real, totalPrice: real)

  /** The column values of an orders INSERT; `None` leaves a column to its default. */
  datatype OrderInsert = OrderInsert(
    userId: nat, orderNumber: string, status: Option<OrderStatus>, kind: Option<OrderType>,
    subtotal: real, tax: Option<real>, deliveryFee: Option<real>, total: real,
    customerName: string, customerEmail: string, customerPhone: Option<string>,
    delivery: Address, scheduledDateTime: Option<string>, notes: Option<string>)

  /** Why the database refuses a write. */
  datatype Violation =
    | DuplicateOrderNumber   // orders.order_number is unique
    | DuplicateSizeName      // (food_id, size_name) is unique
    | NullFoodId             // order_items.food_id is not nullable
    | MissingReference       // a foreign key names no row
    | DeleteRestricted       // order_items.food_id restricts deleting its food

  datatype Tables = Tables(
    users: map<nat, User>, foods: map<nat, Food>, sizes: map<nat, PortionSize>,
    orders: map<nat, Order>, items: map<nat, OrderItem>,
    nextUser: nat, nextFood: nat, nextSize: nat, nextOrder: nat, nextItem: nat)

  // ----------------------------------------------------------- invariants

  predicate IdsBelowCounters(t: Tables) {
    && (forall k :: k in t.users ==> k < t.nextUser)
    && (forall k :: k in t.foods ==> k < t.nextFood)
    && (forall k :: k in t.sizes ==> k < t.nextSize)
    && (forall k :: k in t.orders ==> k < t.nextOrder)
    && (forall k :: k in t.items ==> k < t.nextItem)
  }

  predicate UniqueOrderNumbers(t: Tables) {
    forall a, b :: a in t.orders && b in t.orders && a != b ==>
      t.orders[a].orderNumber != t.orders[b].orderNumber
  }

  predicate UniqueSizeNames(t: Tables) {
    forall a, b :: a in t.sizes && b in t.sizes && a != b && t.sizes[a].foodId == t.sizes[b].foodId ==>
      t.sizes[a].sizeName != t.sizes[b].sizeName
  }

  /** Every foreign key names an existing row. */
  predicate References(t: Tables) {
    && (forall k :: k in t.orders ==> t.orders[k].userId in t.users)
    && (forall k :: k in t.items ==> t.items[k].orderId in t.orders && t.items[k].foodId in t.foods)
    && (forall k :: k in t.sizes ==> t.sizes[k].foodId in t.foods)
  }

  predicate Consistent(t: Tables) {
    IdsBelowCounters(t) && UniqueOrderNumbers(t) && UniqueSizeNames(t) && References(t)
  }

  function EmptyTables(): (t: Tables)
    ensures Consistent(t)
  {
    Tables(map[], map[], map[], map[], map[], 0, 0, 0, 0, 0)
  }

  // ------------------------------------------------------------ defaults

  const DefaultStatus: OrderStatus := Pending
  const DefaultType: OrderType := Pickup
  const DefaultTax: real := 0.0
  const DefaultDeliveryFee: real := 0.0
  const DefaultSortOrder: int := 0

  /** The row an INSERT stores: omitted columns take the migration's defaults,
      and ready_at and admin_notes start out null. */
  function OrderRow(ins: OrderInsert): (o: Order)
    ensures o.status == (if ins.status.Some? then ins.status.value else Pending)
    ensures o.kind == (if ins.kind.Some? then ins.kind.value else Pickup)
    ensures o.tax == (if ins.tax.Some? then ins.tax.value else 0.0)
    ensures o.deliveryFee == (if ins.deliveryFee.Some? then ins.deliveryFee.value else 0.0)
    ensures o.readyAt.None? && o.adminNotes.None?
    ensures o.orderNumber == ins.orderNumber && o.userId == ins.userId
  {
    Order(ins.userId, ins.orderNumber, ins.status.GetOr(DefaultStatus), ins.kind.GetOr(DefaultType),
          ins.subtotal, ins.tax.GetOr(DefaultTax), ins.deliveryFee.GetOr(DefaultDeliveryFee), ins.total,
          ins.customerName, ins.customerEmail, ins.customerPhone, ins.delivery,
          ins.scheduledDateTime, None, ins.notes, None)
  }

  // ----------------------------------------------------------- row writes

  function InsertUser(t: Tables, u: User): (r: (Tables, nat))
    ensures r.0 == t.(users := t.users[t.nextUser := u], nextUser := t.nextUser + 1) && r.1 == t.nextUser
    ensures Consistent(t) ==> Consistent(r.0) && r.1 !in t.users
  {
    (t.(users := t.users[t.nextUser := u], nextUser := t.nextUser + 1), t.nextUser)
  }

  function UpdateUser(t: Tables, id: nat, name: string, phone: Option<string>): (r: Tables)
    requires id in t.users
    ensures r.users.Keys == t.users.Keys
    ensures r.users[id] == t.users[id].(name := name, phone := phone)
    ensures forall k :: k in t.users && k != id ==> r.users[k] == t.users[k]
    ensures r == t.(users := r.users)
    ensures Consistent(t) ==> Consistent(r)
  {
    t.(users := t.users[id := t.users[id].(name := name, phone := phone)])
  }

  /** INSERT INTO orders: refused when the order number is taken or the user is missing. */
  function InsertOrder(t: Tables, ins: OrderInsert): (r: Result<(Tables, nat), Violation>)
    ensures r.Err? <==> ins.userId !in t.users || exists k :: k in t.orders && t.orders[k].orderNumber == ins.orderNumber
    ensures r.Ok? ==> (r.value.1 == t.nextOrder &&
      r.value.0 == t.(orders := t.orders[t.nextOrder := OrderRow(ins)], nextOrder := t.nextOrder + 1))
    ensures r.Ok? && Consistent(t) ==> Consistent(r.value.0) && r.value.1 !in t.orders
  {
    if ins.userId !in t.users then Err(MissingReference)
    else if exists k :: k in t.orders && t.orders[k].orderNumber == ins.orderNumber then Err(DuplicateOrderNumber)
    else
      OrderAddedConsistent(t, ins);
      Ok((t.(orders := t.orders[t.nextOrder := OrderRow(ins)], nextOrder := t.nextOrder + 1), t.nextOrder))
  }

  /** A new order with a free number and an existing user keeps the store consistent. */
  lemma OrderAddedConsistent(t: Tables, ins: OrderInsert)
    requires ins.userId in t.users && !exists k :: k in t.orders && t.orders[k].orderNumber == ins.orderNumber
    ensures Consistent(t) ==>
      var t2 := t.(orders := t.orders[t.nextOrder := OrderRow(ins)], nextOrder := t.nextOrder + 1);
      Consistent(t2) && t.nextOrder !in t.orders
  {
    if Consistent(t) {
      var t2 := t.(orders := t.orders[t.nextOrder := OrderRow(ins)], nextOrder := t.nextOrder + 1);
      forall a, b | a in t2.orders && b in t2.orders && a != b
        ensures t2.orders[a].orderNumber != t2.orders[b].orderNumber
      {
        if a == t.nextOrder {
          assert b in t.orders;
        } else if b == t.nextOrder {
          assert a in t.orders;
        }
      }
      assert UniqueOrderNumbers(t2);
      assert IdsBelowCounters(t2);
      assert References(t2);
    }
  }

  /** INSERT INTO order_items: a null food_id is refused by the NOT NULL column. */
  function InsertItem(t: Tables, orderId: nat, foodId: Option<nat>, foodName: string, sizeName: string,
                      quantity: int, unitPrice: real, totalPrice: real): (r: Result<(Tables, OrderItem), Violation>)
    ensures r.Err? <==> foodId.None? || foodId.value !in t.foods || orderId !in t.orders
    ensures foodId.None? ==> r == Err(NullFoodId)
    ensures r.Ok? ==>
      && r.value.1 == OrderItem(orderId, foodId.value, foodName, sizeName, quantity, unitPrice, totalPrice)
      && r.value.0 == t.(items := t.items[t.nextItem := r.value.1], nextItem := t.nextItem + 1)
  {
    if foodId.None? then Err(NullFoodId)
    else if foodId.value !in t.foods || orderId !in t.orders then Err(MissingReference)
    else
      var item := OrderItem(orderId, foodId.value, foodName, sizeName, quantity, unitPrice, totalPrice);
      Ok((t.(items := t.items[t.nextItem := item], nextItem := t.nextItem + 1), item))
  }

  function InsertFood(t: Tables, f: Food): (r: (Tables, nat))
    ensures r.1 == t.nextFood
    ensures r.0 == t.(foods := t.foods[t.nextFood := f], nextFood := t.nextFood + 1)
    ensures Consistent(t) ==> Consistent(r.0) && r.1 !in t.foods
  {
    (t.(foods := t.foods[t.nextFood := f], nextFood := t.nextFood + 1), t.nextFood)
  }

  function UpdateFood(t: Tables, id: nat, f: Food): (r: Tables)
    requires id in t.foods
    ensures r == t.(foods := t.foods[id := f])
    ensures Consistent(t) ==> Consistent(r)
  {
    t.(foods := t.foods[id := f])
  }

  /** Whether some row other than `except` already has this (food_id, size_name). */
  predicate SizeNameTaken(t: Tables, foodId: nat, sizeName: string, except: Option<nat>) {
    exists k :: k in t.sizes && Some(k) != except && t.sizes[k].foodId == foodId && t.sizes[k].sizeName == sizeName
  }

  /** INSERT INTO food_portion_sizes; sort_order defaults to 0. */
  function InsertSize(t: Tables, foodId: nat, sizeName: string, price: real, sortOrder: Option<int>)
    : (r: Result<(Tables, nat), Violation>)
    ensures r.Err? <==> foodId !in t.foods || SizeNameTaken(t, foodId, sizeName, None)
    ensures r.Ok? ==> (r.value.1 == t.nextSize &&
      r.value.0 == t.(sizes := t.sizes[t.nextSize := PortionSize(foodId, sizeName, price, sortOrder.GetOr(0))],
                      nextSize := t.nextSize + 1))
  {
    if foodId !in t.foods then Err(MissingReference)
    else if SizeNameTaken(t, foodId, sizeName, None) then Err(DuplicateSizeName)
    else
      var row := PortionSize(foodId, sizeName, price, sortOrder.GetOr(DefaultSortOrder));
      Ok((t.(sizes := t.sizes[t.nextSize := row], nextSize := t.nextSize + 1), t.nextSize))
  }

  /** UPDATE food_portion_sizes SET size_name, price, sort_order WHERE id. */
  function UpdateSize(t: Tables, id: nat, sizeName: string, price: real, sortOrder: int)
    : (r: Result<Tables, Violation>)
    requires id in t.sizes
    ensures r.Err? <==> SizeNameTaken(t, t.sizes[id].foodId, sizeName, Some(id))
    ensures r.Ok? ==> r.value == t.(sizes := t.sizes[id := t.sizes[id].(sizeName := sizeName, price := price, sortOrder := sortOrder)])
  {
    if SizeNameTaken(t, t.sizes[id].foodId, sizeName, Some(id)) then Err(DuplicateSizeName)
    else Ok(t.(sizes := t.sizes[id := t.sizes[id].(sizeName := sizeName, price := price, sortOrder := sortOrder)]))
  }

  /** DELETE FROM food_portion_sizes WHERE id IN ids. */
  function DeleteSizes(t: Tables, ids: set<nat>): (r: Tables)
    ensures r == t.(sizes := t.sizes - ids)
  {
    t.(sizes := t.sizes - ids)
  }

  /** The portion-size writes keep the store consistent; in particular an
      accepted INSERT or UPDATE never breaks the unique (food_id, size_name)
      pair. */
  lemma InsertSizeKeepsConsistent(t: Tables, foodId: nat, sizeName: string, price: real, sortOrder: Option<int>)
    requires Consistent(t) && InsertSize(t, foodId, sizeName, price, sortOrder).Ok?
    ensures Consistent(InsertSize(t, foodId, sizeName, price, sortOrder).value.0)
  {
  }

  lemma UpdateSizeKeepsConsistent(t: Tables, id: nat, sizeName: string, price: real, sortOrder: int)
    requires Consistent(t) && id in t.sizes && UpdateSize(t, id, sizeName, price, sortOrder).Ok?
    ensures Consistent(UpdateSize(t, id, sizeName, price, sortOrder).value)
  {
  }

  lemma DeleteSizesKeepsConsistent(t: Tables, ids: set<nat>)
    requires Consistent(t)
    ensures Consistent(DeleteSizes(t, ids))
  {
  }

  // ------------------------------------------------------------- deletes

  /** Deleting an order cascades to its items. */
  function DeleteOrder(t: Tables, orderId: nat): (r: Tables)
    ensures orderId !in r.orders
    ensures forall k :: k in t.orders && k != orderId ==> k in r.orders && r.orders[k] == t.orders[k]
    ensures forall k :: k in r.items ==> k in t.items && r.items[k] == t.items[k] && r.items[k].orderId != orderId
    ensures forall k :: k in t.items && t.items[k].orderId != orderId ==> k in r.items
    ensures Consistent(t) ==> Consistent(r)
  {
    t.(orders := t.orders - {orderId},
       items := map k | k in t.items && t.items[k].orderId != orderId :: t.items[k])
  }

  /** Deleting a user cascades to the user's orders and, through them, to their items. */
  function DeleteUser(t: Tables, userId: nat): (r: Tables)
    ensures userId !in r.users
    ensures forall k :: k in r.orders ==> k in t.orders && r.orders[k] == t.orders[k] && r.orders[k].userId != userId
    ensures forall k :: k in t.orders && t.orders[k].userId != userId ==> k in r.orders
    ensures forall k :: k in r.items ==>
      (k in t.items && r.items[k] == t.items[k] &&
       (r.items[k].orderId in t.orders ==> t.orders[r.items[k].orderId].userId != userId))
    ensures Consistent(t) ==> Consistent(r)
  {
    var gone := set k | k in t.orders && t.orders[k].userId == userId;
    var r := t.(users := t.users - {userId},
                orders := t.orders - gone,
                items := map k | k in t.items && t.items[k].orderId !in gone :: t.items[k]);
    UserRemovedConsistent(t, userId, gone, r);
    r
  }

  /** Removing a user with its orders and their items keeps the store consistent. */
  lemma UserRemovedConsistent(t: Tables, userId: nat, gone: set<nat>, r: Tables)
    requires forall k :: k in gone <==> k in t.orders && t.orders[k].userId == userId
    requires r == t.(users := t.users - {userId},
                     orders := t.orders - gone,
                     items := map k | k in t.items && t.items[k].orderId !in gone :: t.items[k])
    ensures Consistent(t) ==> Consistent(r)
  {
    if Consistent(t) {
      assert IdsBelowCounters(r);
      assert UniqueOrderNumbers(r);
      assert UniqueSizeNames(r);
      forall k | k in r.orders
        ensures r.orders[k].userId in r.users
      {
        assert k !in gone;
      }
      assert References(r);
    }
  }

  predicate FoodOrdered(t: Tables, foodId: nat) {
    exists k :: k in t.items && t.items[k].foodId == foodId
  }

  /** Deleting a food is refused while an order item references it; otherwise
      it cascades to the food's portion sizes. */
  function DeleteFood(t: Tables, foodId: nat): (r: Result<Tables, Violation>)
    ensures r.Err? <==> FoodOrdered(t, foodId)
    ensures r.Ok? ==> foodId !in r.value.foods && r.value.items == t.items && r.value.orders == t.orders
    ensures r.Ok? ==> forall k :: k in r.value.sizes <==> k in t.sizes && t.sizes[k].foodId != foodId
    ensures r.Ok? && Consistent(t) ==> Consistent(r.value)
  {
    if FoodOrdered(t, foodId) then Err(DeleteRestricted)
    else Ok(t.(foods := t.foods - {foodId},
               sizes := map k | k in t.sizes && t.sizes[k].foodId != foodId :: t.sizes[k]))
  }

  // ------------------------------------------------------- id-ordered reads

  /** `Foods::where('name', name)->first()`: the lowest-id food with that name. */
  function FirstFoodNamed(t: Tables, name: string): (r: Option<nat>)
    ensures r.Some? ==> r.value in t.foods && t.foods[r.value].name == name
    ensures r.Some? ==> (forall k :: k < r.value && k in t.foods ==> t.foods[k].name != name)
    ensures r.None? && IdsBelowCounters(t) ==> forall k :: k in t.foods ==> t.foods[k].name != name
  {
    FirstNamedBelow(t.foods, name, 0, t.nextFood)
  }

  function FirstNamedBelow(foods: map<nat, Food>, name: string, from: nat, to: nat): (r: Option<nat>)
    ensures r.Some? ==> r.value in foods && foods[r.value].name == name && from <= r.value < to
    ensures r.Some? ==> (forall k :: from <= k < r.value && k in foods ==> foods[k].name != name)
    ensures r.None? ==> (forall k :: from <= k < to && k in foods ==> foods[k].name != name)
    decreases if from <= to then to - from else 0
  {
    if from >= to then None
    else if from in foods && foods[from].name == name then Some(from)
    else FirstNamedBelow(foods, name, from + 1, to)
  }

  /** `User::where('email', email)->first()`: an exact, case-sensitive match. */
  function FirstUserWithEmail(t: Tables, email: string): (r: Option<nat>)
    ensures r.Some? ==> r.value in t.users && t.users[r.value].email == email
    ensures r.Some? ==> (forall k :: k < r.value && k in t.users ==> t.users[k].email != email)
    ensures r.None? && IdsBelowCounters(t) ==> forall k :: k in t.users ==> t.users[k].email != email
  {
    FirstEmailBelow(t.users, email, 0, t.nextUser)
  }

  function FirstEmailBelow(users: map<nat, User>, email: string, from: nat, to: nat): (r: Option<nat>)
    ensures r.Some? ==> r.value in users && users[r.value].email == email && from <= r.value < to
    ensures r.Some? ==> (forall k :: from <= k < r.value && k in users ==> users[k].email != email)
    ensures r.None? ==> (forall k :: from <= k < to && k in users ==> users[k].email != email)
    decreases if from <= to then to - from else 0
  {
    if from >= to then None
    else if from in users && users[from].email == email then Some(from)
    else FirstEmailBelow(users, email, from + 1, to)
  }

  /** A food's portion-size rows, in id order (the relation carries no orderBy). */
  function SizesOf(t: Tables, foodId: nat): (r: seq<(nat, PortionSize)>)
    ensures forall i :: 0 <= i < |r| ==> r[i].0 in t.sizes && t.sizes[r[i].0] == r[i].1 && r[i].1.foodId == foodId
    ensures IdsBelowCounters(t) ==> forall k :: k in t.sizes && t.sizes[k].foodId == foodId ==> (k, t.sizes[k]) in r
  {
    Filter(InIdOrder(t.sizes, t.nextSize), (row: (nat, PortionSize)) => row.1.foodId == foodId)
  }

  // ------------------------------------------------------------ database

  /** The database connection the controllers write through. */
  class Database {
    var tables: Tables

    constructor ()
      ensures tables == EmptyTables()
    {
      tables := EmptyTables();
    }
  }
}
