/** `OrderController::store` and `OrderController::orders`.

    `Place` is the transaction as one function of the tables before it:
    validate, resolve the user, price the cart, number the order, insert the
    order and one item row per cart line, and either commit every write or,
    when a write is refused, roll all of them back. `Store` is the same
    procedure written step by step over a `Database` whose `tables` it
    updates, with the item loop, and then the two best-effort emails. */
module OrderPlacement {
  import opened Common
  import opened Schema
  import opened Pricing
  import opened OrderNumbers
  import opened OrderValidation

  /** What `store` takes from outside the request. */
  datatype Context = Context(
    auth: Option<nat>,      // the id of the authenticated user, if any
    token: string,          // the draw of Str::random(8)
    today: Date,            // the clock, for date('Ymd')
    passwordHash: string)   // Hash::make(Str::random(32)) for a new user

  predicate ContextFits(t: Tables, c: Context) {
    (c.auth.Some? ==> c.auth.value in t.users) && IsRandomToken(c.token) && ValidDate(c.today)
  }

  /** What `store` answers. `Failed` records which constraint refused a write;
      the client sees it only in debug mode (see `Render`). */
  datatype Response =
    | Placed(orderId: nat, order: Order, items: seq<OrderItem>)
    | Invalid(fields: set<Field>)
    | Failed(cause: Violation)

  // ------------------------------------------------------ user resolution

  /** The authenticated user; else the first user with exactly this email,
      renamed and given the submitted phone if there is one; else a new user. */
  function ResolveUser(t: Tables, auth: Option<nat>, name: string, email: string,
                       phone: Option<string>, passwordHash: string): (r: (Tables, nat))
    requires auth.Some? ==> auth.value in t.users
    ensures r.1 in r.0.users
    ensures r.0 == t.(users := r.0.users, nextUser := r.0.nextUser)
    ensures auth.Some? ==> r == (t, auth.value)
    ensures auth.None? && IdsBelowCounters(t) && (exists k :: k in t.users && t.users[k].email == email) ==>
      && r.0.users.Keys == t.users.Keys && r.0.nextUser == t.nextUser
      && t.users[r.1].email == email
      && (forall k :: k in t.users && k < r.1 ==> t.users[k].email != email)
      && r.0.users[r.1] == t.users[r.1].(name := name, phone := if phone.Some? then phone else t.users[r.1].phone)
      && (forall k :: k in t.users && k != r.1 ==> r.0.users[k] == t.users[k])
    ensures auth.None? && IdsBelowCounters(t) && (forall k :: k in t.users ==> t.users[k].email != email) ==>
      && r.1 !in t.users
      && r.0.users == t.users[r.1 := User(name, email, phone, passwordHash)]
    ensures Consistent(t) ==> Consistent(r.0)
  {
    if auth.Some? then (t, auth.value)
    else
      match FirstUserWithEmail(t, email)
      case Some(id) =>
        var existing := t.users[id];
        (UpdateUser(t, id, name, if phone.Some? then phone else existing.phone), id)
      case None => InsertUser(t, User(name, email, phone, passwordHash))
  }

  // ------------------------------------------------------------ item rows

  /** The row stored for one cart line of order `orderId`. */
  function ItemRow(orderId: nat, foodId: nat, l: ItemLine): OrderItem {
    OrderItem(orderId, foodId, l.name, l.size, l.quantity, l.unitPrice, LineTotal(l))
  }

  function ItemsTotal(rows: seq<OrderItem>): real {
    if rows == [] then 0.0 else ItemsTotal(rows[..|rows| - 1]) + rows[|rows| - 1].totalPrice
  }

  /** The foreach over the cart lines: each looks up the first food with the
      line's name and inserts an item row; the first refused insert stops it. */
  function InsertItems(t: Tables, orderId: nat, lines: seq<ItemLine>): Result<(Tables, seq<OrderItem>), Violation>
    decreases |lines|
  {
    if lines == [] then Ok((t, []))
    else
      var l := lines[|lines| - 1];
      match InsertItems(t, orderId, lines[..|lines| - 1])
      case Err(v) => Err(v)
      case Ok((t1, rows)) =>
        match InsertItem(t1, orderId, FirstFoodNamed(t1, l.name), l.name, l.size, l.quantity, l.unitPrice, LineTotal(l))
        case Err(v) => Err(v)
        case Ok((t2, row)) => Ok((t2, rows + [row]))
  }

  /** One step of the loop: the last line's insert on the tables the
      earlier lines left. */
  lemma InsertItemsStep(t: Tables, orderId: nat, lines: seq<ItemLine>)
    requires lines != [] && InsertItems(t, orderId, lines[..|lines| - 1]).Ok?
    ensures var (t1, rows) := InsertItems(t, orderId, lines[..|lines| - 1]).value;
      var l := lines[|lines| - 1];
      var step := InsertItem(t1, orderId, FirstFoodNamed(t1, l.name), l.name, l.size, l.quantity, l.unitPrice, LineTotal(l));
      && (step.Err? ==> InsertItems(t, orderId, lines) == Err(step.error))
      && (step.Ok? ==> InsertItems(t, orderId, lines) == Ok((step.value.0, rows + [step.value.1])))
  {
  }

  /** The loop writes no table but the items, and one row per line. */
  lemma {:induction false} InsertItemsKeepsOthers(t: Tables, orderId: nat, lines: seq<ItemLine>)
    requires InsertItems(t, orderId, lines).Ok?
    ensures var (t', rows) := InsertItems(t, orderId, lines).value;
      t'.foods == t.foods && t'.nextFood == t.nextFood && t'.orders == t.orders && |rows| == |lines|
    decreases |lines|
  {
    if lines != [] {
      var init := lines[..|lines| - 1];
      InsertItemsKeepsOthers(t, orderId, init);
      InsertItemsStep(t, orderId, lines);
    }
  }

  /** The loop only adds item rows, at consecutive fresh ids, one per line. */
  lemma {:induction false} InsertItemsWritesOnlyItems(t: Tables, orderId: nat, lines: seq<ItemLine>)
    requires InsertItems(t, orderId, lines).Ok?
    ensures var (t', rows) := InsertItems(t, orderId, lines).value;
      && t' == t.(items := t'.items, nextItem := t.nextItem + |lines|)
      && |rows| == |lines|
      && (forall k :: k in t'.items <==> k in t.items || t.nextItem <= k < t.nextItem + |lines|)
      && (forall j :: 0 <= j < |lines| ==> t'.items[t.nextItem + j] == rows[j])
      && (forall k :: k in t.items && k < t.nextItem ==> t'.items[k] == t.items[k])
    decreases |lines|
  {
    if lines != [] {
      var init := lines[..|lines| - 1];
      var l := lines[|lines| - 1];
      InsertItemsWritesOnlyItems(t, orderId, init);
      InsertItemsStep(t, orderId, lines);
      var (t1, rows1) := InsertItems(t, orderId, init).value;
      var step := InsertItem(t1, orderId, FirstFoodNamed(t1, l.name), l.name, l.size, l.quantity, l.unitPrice, LineTotal(l));
      var (t2, row) := step.value;
      var rows := rows1 + [row];
      assert t1.nextItem == t.nextItem + |init|;
      assert t2.items == t1.items[t1.nextItem := row];
      assert InsertItems(t, orderId, lines).value == (t2, rows);
      forall j | 0 <= j < |lines|
        ensures t2.items[t.nextItem + j] == rows[j]
      {
        if j < |init| {
          assert t2.items[t.nextItem + j] == t1.items[t.nextItem + j];
          assert rows[j] == rows1[j];
        } else {
          assert t.nextItem + j == t1.nextItem;
        }
      }
      forall k | k in t.items && k < t.nextItem
        ensures t2.items[k] == t.items[k]
      {
        assert t2.items[k] == t1.items[k];
      }
    }
  }

  /** The loop fails exactly when some line names no food, and then on the
      NOT NULL food_id column. */
  lemma {:induction false} InsertItemsFailsOnUnknownFood(t: Tables, orderId: nat, lines: seq<ItemLine>)
    requires orderId in t.orders
    ensures InsertItems(t, orderId, lines).Ok? <==>
      forall i :: 0 <= i < |lines| ==> FirstFoodNamed(t, lines[i].name).Some?
    ensures InsertItems(t, orderId, lines).Err? ==> InsertItems(t, orderId, lines).error == NullFoodId
    decreases |lines|
  {
    if lines != [] {
      var init := lines[..|lines| - 1];
      var n := |lines| - 1;
      var l := lines[n];
      InsertItemsFailsOnUnknownFood(t, orderId, init);
      if InsertItems(t, orderId, init).Ok? {
        InsertItemsKeepsOthers(t, orderId, init);
        InsertItemsStep(t, orderId, lines);
        var t1 := InsertItems(t, orderId, init).value.0;
        assert FirstFoodNamed(t1, l.name) == FirstFoodNamed(t, l.name);
        if FirstFoodNamed(t, l.name).Some? {
          forall i | 0 <= i < |lines|
            ensures FirstFoodNamed(t, lines[i].name).Some?
          {
            if i < n {
              assert lines[i] == init[i];
            }
          }
        }
      } else {
        assert InsertItems(t, orderId, lines) == InsertItems(t, orderId, init);
        var i :| 0 <= i < |init| && FirstFoodNamed(t, init[i].name).None?;
        assert lines[i] == init[i];
      }
    }
  }

  /** Row i stores line i: the first food with its name, its snapshot name
      and size, its quantity and unit price, and unit price × quantity. */
  lemma {:induction false} InsertItemsRows(t: Tables, orderId: nat, lines: seq<ItemLine>)
    requires InsertItems(t, orderId, lines).Ok?
    ensures var rows := InsertItems(t, orderId, lines).value.1;
      && |rows| == |lines|
      && forall i :: 0 <= i < |lines| ==>
           FirstFoodNamed(t, lines[i].name).Some? &&
           rows[i] == ItemRow(orderId, FirstFoodNamed(t, lines[i].name).value, lines[i])
    decreases |lines|
  {
    InsertItemsKeepsOthers(t, orderId, lines);
    if lines != [] {
      var init := lines[..|lines| - 1];
      var l := lines[|lines| - 1];
      assert InsertItems(t, orderId, init).Ok?;
      InsertItemsRows(t, orderId, init);
      InsertItemsKeepsOthers(t, orderId, init);
      InsertItemsStep(t, orderId, lines);
      var (t1, rows1) := InsertItems(t, orderId, init).value;
      assert FirstFoodNamed(t1, l.name) == FirstFoodNamed(t, l.name);
      var step := InsertItem(t1, orderId, FirstFoodNamed(t1, l.name), l.name, l.size, l.quantity, l.unitPrice, LineTotal(l));
      var rows := InsertItems(t, orderId, lines).value.1;
      var row := step.value.1;
      assert rows == rows1 + [row];
      assert row == ItemRow(orderId, FirstFoodNamed(t, l.name).value, l);
      forall i | 0 <= i < |lines|
        ensures FirstFoodNamed(t, lines[i].name).Some? &&
                rows[i] == ItemRow(orderId, FirstFoodNamed(t, lines[i].name).value, lines[i])
      {
        if i < |init| {
          assert lines[i] == init[i] && rows[i] == rows1[i];
        } else {
          assert lines[i] == l && rows[i] == row;
        }
      }
    }
  }

  /** Σ total_price over rows that store the lines is the lines' subtotal. */
  lemma {:induction false} ItemsTotalIsSubtotal(rows: seq<OrderItem>, lines: seq<ItemLine>)
    requires |rows| == |lines|
    requires forall i :: 0 <= i < |lines| ==> rows[i].totalPrice == LineTotal(lines[i])
    ensures ItemsTotal(rows) == Subtotal(lines)
    decreases |lines|
  {
    if lines != [] {
      ItemsTotalIsSubtotal(rows[..|rows| - 1], lines[..|lines| - 1]);
    }
  }

  lemma {:induction false} InsertItemsConsistent(t: Tables, orderId: nat, lines: seq<ItemLine>)
    requires InsertItems(t, orderId, lines).Ok? && Consistent(t)
    ensures Consistent(InsertItems(t, orderId, lines).value.0)
    decreases |lines|
  {
    if lines != [] {
      InsertItemsConsistent(t, orderId, lines[..|lines| - 1]);
    }
  }

  /** Once a prefix of the lines fails, the whole loop fails the same way. */
  lemma {:induction false} InsertItemsStopsAtFirstFailure(t: Tables, orderId: nat, lines: seq<ItemLine>, i: nat)
    requires i <= |lines| && InsertItems(t, orderId, lines[..i]).Err?
    ensures InsertItems(t, orderId, lines) == InsertItems(t, orderId, lines[..i])
    decreases |lines| - i
  {
    if i < |lines| {
      assert lines[..|lines| - 1][..i] == lines[..i];
      InsertItemsStopsAtFirstFailure(t, orderId, lines[..|lines| - 1], i);
    } else {
      assert lines[..i] == lines;
    }
  }

  /** The loop over the lines, one line further, as the `store` loop body
      computes it. */
  lemma InsertItemsExtends(t: Tables, orderId: nat, lines: seq<ItemLine>, i: nat, t1: Tables, rows: seq<OrderItem>)
    requires i < |lines| && InsertItems(t, orderId, lines[..i]) == Ok((t1, rows))
    ensures var l := lines[i];
      InsertItems(t, orderId, lines[..i + 1]) ==
        match InsertItem(t1, orderId, FirstFoodNamed(t1, l.name), l.name, l.size, l.quantity, l.unitPrice, LineTotal(l))
        case Err(x) => Err(x)
        case Ok((t2, row)) => Ok((t2, rows + [row]))
  {
    assert lines[..i + 1][..i] == lines[..i];
    assert lines[..i + 1][i] == lines[i];
  }

  // ---------------------------------------------------------- transaction

  /** The orders INSERT `store` issues. */
  function NewOrder(v: ValidOrder, userId: nat, number: string): OrderInsert {
    var a := ComputeAmounts(v.items, v.kind);
    OrderInsert(
      userId, number, Some(Pending), Some(v.kind), a.subtotal, Some(a.tax), Some(a.deliveryFee), a.total,
      v.customerName, v.customerEmail, v.customerPhone, v.delivery, v.scheduledDateTime, v.notes)
  }

  /** The user resolution step of `store`. */
  function OrderUser(t: Tables, v: ValidOrder, c: Context): (Tables, nat)
    requires ContextFits(t, c)
  {
    ResolveUser(t, c.auth, v.customerName, v.customerEmail, v.customerPhone, c.passwordHash)
  }

  /** The try block of `store`: every write, or none of them. */
  function Transact(t: Tables, v: ValidOrder, c: Context): (r: (Tables, Response))
    requires ContextFits(t, c)
    ensures !r.1.Invalid?
    ensures !r.1.Placed? ==> r.0 == t
  {
    var (t1, userId) := OrderUser(t, v, c);
    match InsertOrder(t1, NewOrder(v, userId, OrderNumber(c.token, c.today)))
    case Err(e) => (t, Failed(e))
    case Ok((t2, orderId)) =>
      match InsertItems(t2, orderId, v.items)
      case Err(e) => (t, Failed(e))
      case Ok((t3, rows)) => (t3, Placed(orderId, t3.orders[orderId], rows))
  }

  /** `store` as a function of the tables before it: the tables after it and the response. */
  function Place(t: Tables, req: OrderRequest, isEmail: string -> bool, isDate: string -> bool, c: Context)
    : (r: (Tables, Response))
    requires ContextFits(t, c)
    ensures r.1.Invalid? <==> !Acceptable(req, isEmail, isDate)
    ensures r.1.Invalid? ==> r.1.fields == Errors(req, isEmail, isDate)
    ensures !r.1.Placed? ==> r.0 == t
  {
    match Validate(req, isEmail, isDate)
    case Err(fields) => (t, Invalid(fields))
    case Ok(v) => Transact(t, v, c)
  }

  /** A valid request is the transaction on its validated values. */
  lemma PlaceValid(t: Tables, req: OrderRequest, isEmail: string -> bool, isDate: string -> bool, c: Context,
                   v: ValidOrder)
    requires ContextFits(t, c) && Validate(req, isEmail, isDate) == Ok(v)
    ensures Place(t, req, isEmail, isDate, c) == Transact(t, v, c)
  {
  }

  /** The transaction when the orders INSERT fails: the tables as they were. */
  lemma OrderRolledBack(t: Tables, v: ValidOrder, c: Context, r: (Tables, nat), e: Violation)
    requires ContextFits(t, c) && r == OrderUser(t, v, c)
    requires InsertOrder(r.0, NewOrder(v, r.1, OrderNumber(c.token, c.today))) == Err(e)
    ensures Transact(t, v, c) == (t, Failed(e))
  {
  }

  /** The transaction when an item INSERT fails: the tables as they were. */
  lemma ItemsRolledBack(t: Tables, v: ValidOrder, c: Context, r: (Tables, nat), t2: Tables, orderId: nat)
    requires ContextFits(t, c) && r == OrderUser(t, v, c)
    requires InsertOrder(r.0, NewOrder(v, r.1, OrderNumber(c.token, c.today))) == Ok((t2, orderId))
    requires InsertItems(t2, orderId, v.items).Err?
    ensures Transact(t, v, c) == (t, Failed(InsertItems(t2, orderId, v.items).error))
  {
  }

  /** The transaction when every INSERT succeeds: the order and its rows. */
  lemma OrderCommitted(t: Tables, v: ValidOrder, c: Context, r: (Tables, nat), t2: Tables, orderId: nat,
                       t3: Tables, rows: seq<OrderItem>)
    requires ContextFits(t, c) && r == OrderUser(t, v, c)
    requires InsertOrder(r.0, NewOrder(v, r.1, OrderNumber(c.token, c.today))) == Ok((t2, orderId))
    requires InsertItems(t2, orderId, v.items) == Ok((t3, rows))
    ensures orderId in t3.orders && Transact(t, v, c) == (t3, Placed(orderId, t3.orders[orderId], rows))
  {
  }

  /** The order row a placed order writes: status pending; the request's
      type, amounts and customer fields (not the user record's); the drawn
      order number. Only the user, the orders and the items change. */
  lemma PlacedOrderRow(t: Tables, v: ValidOrder, c: Context)
    requires ContextFits(t, c) && Consistent(t)
    requires Transact(t, v, c).1.Placed?
    ensures var (t', resp) := Transact(t, v, c);
      var o := resp.order;
      var (t1, userId) := OrderUser(t, v, c);
      && t' == t1.(orders := t'.orders, nextOrder := t.nextOrder + 1, items := t'.items, nextItem := t'.nextItem)
      && resp.orderId == t.nextOrder && resp.orderId !in t.orders
      && t'.orders == t.orders[resp.orderId := o]
      && o.userId == userId
      && o.status == Pending && o.kind == v.kind
      && o.orderNumber == OrderNumber(c.token, c.today) && WellFormed(o.orderNumber)
      && Amounts(o.subtotal, o.tax, o.deliveryFee, o.total) == ComputeAmounts(v.items, v.kind)
      && o.customerName == v.customerName && o.customerEmail == v.customerEmail
      && o.customerPhone == v.customerPhone && o.delivery == v.delivery
      && o.scheduledDateTime == v.scheduledDateTime && o.notes == v.notes
      && o.readyAt.None? && o.adminNotes.None?
  {
    var (t1, userId) := OrderUser(t, v, c);
    var (t2, orderId) := InsertOrder(t1, NewOrder(v, userId, OrderNumber(c.token, c.today))).value;
    InsertItemsWritesOnlyItems(t2, orderId, v.items);
  }

  /** The item rows a placed order writes: one per line, naming the first
      food of the line's name, whose totals add up to the subtotal; the
      tables stay consistent. */
  lemma PlacedOrderItems(t: Tables, v: ValidOrder, c: Context)
    requires ContextFits(t, c) && Consistent(t)
    requires Transact(t, v, c).1.Placed?
    ensures var (t', resp) := Transact(t, v, c);
      && |resp.items| == |v.items|
      && (forall i :: 0 <= i < |v.items| ==>
            FirstFoodNamed(t, v.items[i].name).Some? &&
            resp.items[i] == ItemRow(resp.orderId, FirstFoodNamed(t, v.items[i].name).value, v.items[i]))
      && ItemsTotal(resp.items) == resp.order.subtotal
      && Consistent(t')
  {
    var (t1, userId) := OrderUser(t, v, c);
    var (t2, orderId) := InsertOrder(t1, NewOrder(v, userId, OrderNumber(c.token, c.today))).value;
    InsertItemsWritesOnlyItems(t2, orderId, v.items);
    InsertItemsRows(t2, orderId, v.items);
    InsertItemsConsistent(t2, orderId, v.items);
    var (t3, rows) := InsertItems(t2, orderId, v.items).value;
    forall i | 0 <= i < |v.items|
      ensures FirstFoodNamed(t2, v.items[i].name) == FirstFoodNamed(t, v.items[i].name)
    {
    }
    ItemsTotalIsSubtotal(rows, v.items);
  }

  /** What a placed order holds: its order row and its item rows, as the
      two lemmas above state. Nothing but the user, the new order and its
      items is written. */
  lemma PlacedOrder(t: Tables, v: ValidOrder, c: Context)
    requires ContextFits(t, c) && Consistent(t)
    requires Transact(t, v, c).1.Placed?
    ensures var (t', resp) := Transact(t, v, c);
      var o := resp.order;
      var (t1, userId) := OrderUser(t, v, c);
      && t' == t1.(orders := t'.orders, nextOrder := t.nextOrder + 1, items := t'.items, nextItem := t'.nextItem)
      && resp.orderId == t.nextOrder && resp.orderId !in t.orders
      && t'.orders == t.orders[resp.orderId := o]
      && o.userId == userId
      && o.status == Pending && o.kind == v.kind
      && o.orderNumber == OrderNumber(c.token, c.today) && WellFormed(o.orderNumber)
      && Amounts(o.subtotal, o.tax, o.deliveryFee, o.total) == ComputeAmounts(v.items, v.kind)
      && o.customerName == v.customerName && o.customerEmail == v.customerEmail
      && o.customerPhone == v.customerPhone && o.delivery == v.delivery
      && o.scheduledDateTime == v.scheduledDateTime && o.notes == v.notes
      && o.readyAt.None? && o.adminNotes.None?
      && |resp.items| == |v.items|
      && (forall i :: 0 <= i < |v.items| ==>
            FirstFoodNamed(t, v.items[i].name).Some? &&
            resp.items[i] == ItemRow(resp.orderId, FirstFoodNamed(t, v.items[i].name).value, v.items[i]))
      && ItemsTotal(resp.items) == o.subtotal
      && Consistent(t')
  {
    PlacedOrderRow(t, v, c);
    PlacedOrderItems(t, v, c);
  }

  /** Some food has this name. */
  predicate NamesFood(t: Tables, name: string) {
    exists k :: k in t.foods && t.foods[k].name == name
  }

  /** The lookup by name finds a food exactly when one has that name. */
  lemma FoundIffNamed(t: Tables, name: string)
    requires IdsBelowCounters(t)
    ensures FirstFoodNamed(t, name).Some? <==> NamesFood(t, name)
  {
    var r := FirstFoodNamed(t, name);
    if r.Some? {
      assert r.value in t.foods && t.foods[r.value].name == name;
    }
  }

  /** On tables with the same foods, every line names a food exactly when
      its lookup finds one. */
  lemma LinesNameFoods(t: Tables, t2: Tables, lines: seq<ItemLine>)
    requires t2.foods == t.foods && t2.nextFood == t.nextFood && IdsBelowCounters(t)
    ensures (forall i :: 0 <= i < |lines| ==> FirstFoodNamed(t2, lines[i].name).Some?) <==>
            (forall i :: 0 <= i < |lines| ==> NamesFood(t, lines[i].name))
  {
    forall i | 0 <= i < |lines|
      ensures FirstFoodNamed(t2, lines[i].name).Some? <==> NamesFood(t, lines[i].name)
    {
      assert FirstFoodNamed(t2, lines[i].name) == FirstFoodNamed(t, lines[i].name);
      FoundIffNamed(t, lines[i].name);
    }
  }

  /** Which validated orders are placed: those whose drawn order number is
      free and each of whose lines names an existing food. */
  lemma PlacedIff(t: Tables, v: ValidOrder, c: Context)
    requires ContextFits(t, c) && Consistent(t)
    ensures Transact(t, v, c).1.Placed? <==>
      && (forall k :: k in t.orders ==> t.orders[k].orderNumber != OrderNumber(c.token, c.today))
      && (forall i :: 0 <= i < |v.items| ==> NamesFood(t, v.items[i].name))
  {
    var (t1, userId) := OrderUser(t, v, c);
    assert t1.orders == t.orders && t1.foods == t.foods && t1.nextFood == t.nextFood && userId in t1.users;
    var inserted := InsertOrder(t1, NewOrder(v, userId, OrderNumber(c.token, c.today)));
    if inserted.Ok? {
      var (t2, orderId) := inserted.value;
      InsertItemsFailsOnUnknownFood(t2, orderId, v.items);
      LinesNameFoods(t, t2, v.items);
    }
  }

  /** A line naming no food stores nothing: its food_id would be null, which
      the NOT NULL column refuses, and the whole order rolls back. */
  lemma UnknownFoodRollsBack(t: Tables, v: ValidOrder, c: Context, i: nat)
    requires ContextFits(t, c) && Consistent(t)
    requires forall k :: k in t.orders ==> t.orders[k].orderNumber != OrderNumber(c.token, c.today)
    requires i < |v.items| && forall k :: k in t.foods ==> t.foods[k].name != v.items[i].name
    ensures Transact(t, v, c) == (t, Failed(NullFoodId))
  {
    var (t1, userId) := OrderUser(t, v, c);
    var (t2, orderId) := InsertOrder(t1, NewOrder(v, userId, OrderNumber(c.token, c.today))).value;
    InsertItemsFailsOnUnknownFood(t2, orderId, v.items);
    assert FirstFoodNamed(t2, v.items[i].name) == FirstFoodNamed(t, v.items[i].name);
  }

  /** A drawn order number that is already taken rolls the order back,
      including any user created or updated before it. */
  lemma TakenNumberRollsBack(t: Tables, v: ValidOrder, c: Context, k: nat)
    requires ContextFits(t, c)
    requires k in t.orders && t.orders[k].orderNumber == OrderNumber(c.token, c.today)
    ensures Transact(t, v, c) == (t, Failed(DuplicateOrderNumber))
  {
    var (t1, userId) := OrderUser(t, v, c);
    assert t1.orders == t.orders && userId in t1.users;
  }

  /** The users table a placed order leaves, and the order's user, are
      those of the user resolution step. */
  lemma PlacedUserIsResolved(t: Tables, v: ValidOrder, c: Context)
    requires ContextFits(t, c) && Consistent(t)
    requires Transact(t, v, c).1.Placed?
    ensures Transact(t, v, c).0.users == OrderUser(t, v, c).0.users
    ensures Transact(t, v, c).1.order.userId == OrderUser(t, v, c).1
  {
    PlacedOrder(t, v, c);
  }

  /** An authenticated user is neither created nor modified. */
  lemma PlacedUserAuthenticated(t: Tables, v: ValidOrder, c: Context)
    requires ContextFits(t, c) && Consistent(t)
    requires Transact(t, v, c).1.Placed? && c.auth.Some?
    ensures Transact(t, v, c).0.users == t.users
    ensures Transact(t, v, c).1.order.userId == c.auth.value
  {
    PlacedUserIsResolved(t, v, c);
  }

  /** A guest whose email matches a user reuses the first such user: renamed,
      with the phone replaced only when one was submitted; no user is added
      and no other user changes. */
  lemma PlacedUserByEmail(t: Tables, v: ValidOrder, c: Context)
    requires ContextFits(t, c) && Consistent(t)
    requires Transact(t, v, c).1.Placed? && c.auth.None?
    requires exists k :: k in t.users && t.users[k].email == v.customerEmail
    ensures var users, u := Transact(t, v, c).0.users, Transact(t, v, c).1.order.userId;
      && users.Keys == t.users.Keys
      && u in t.users && t.users[u].email == v.customerEmail
      && (forall k :: k in t.users && k < u ==> t.users[k].email != v.customerEmail)
      && users[u] == t.users[u].(name := v.customerName,
                                 phone := if v.customerPhone.Some? then v.customerPhone else t.users[u].phone)
      && (forall k :: k in t.users && k != u ==> users[k] == t.users[k])
  {
    PlacedUserIsResolved(t, v, c);
  }

  /** Any other guest gets exactly one new user with the submitted name, email and phone. */
  lemma PlacedUserCreated(t: Tables, v: ValidOrder, c: Context)
    requires ContextFits(t, c) && Consistent(t)
    requires Transact(t, v, c).1.Placed? && c.auth.None?
    requires forall k :: k in t.users ==> t.users[k].email != v.customerEmail
    ensures var users, u := Transact(t, v, c).0.users, Transact(t, v, c).1.order.userId;
      && u !in t.users
      && users == t.users[u := User(v.customerName, v.customerEmail, v.customerPhone, c.passwordHash)]
  {
    PlacedUserIsResolved(t, v, c);
  }

  /** Placing an order, or refusing one, keeps every schema invariant. */
  lemma PlaceKeepsConsistent(t: Tables, req: OrderRequest, isEmail: string -> bool, isDate: string -> bool, c: Context)
    requires ContextFits(t, c) && Consistent(t)
    ensures Consistent(Place(t, req, isEmail, isDate, c).0)
  {
    var r := Validate(req, isEmail, isDate);
    if r.Ok? && Transact(t, r.value, c).1.Placed? {
      PlacedOrder(t, r.value, c);
    }
  }

  // ---------------------------------------------------------------- reply

  /** The JSON reply: 200 with the order, 422 with the failing attributes,
      or 500 with a generic message and, in debug mode only, the cause.
      `validate()` runs before the `try`, so a 422 is the framework's own
      `{message, errors}` body, without a `success` key; `success` is false
      here for it. The client reads only `response.ok` and `errors`, so the
      two behave alike. */
  datatype Reply = Reply(status: int, success: bool, general: Option<string>, debugError: Option<Violation>)

  const FailureMessage := "Failed to place order. Please try again."

  function Render(resp: Response, debug: bool): (r: Reply)
    ensures r.success <==> resp.Placed?
    ensures r.status == (if resp.Placed? then 200 else if resp.Invalid? then 422 else 500)
    ensures r.general.Some? <==> resp.Failed?
    ensures r.debugError.Some? <==> resp.Failed? && debug
    ensures r.debugError.Some? ==> r.debugError == Some(resp.cause)
  {
    match resp
    case Placed(_, _, _) => Reply(200, true, None, None)
    case Invalid(_) => Reply(422, false, None, None)
    case Failed(cause) => Reply(500, false, Some(FailureMessage), if debug then Some(cause) else None)
  }

  // --------------------------------------------------------- step by step

  datatype Mail = CustomerConfirmation | AdminNotification

  /** One send attempt; `delivered` is the mail transport's outcome. */
  datatype MailAttempt = MailAttempt(to: string, mail: Mail, delivered: bool)

  const DefaultAdminEmail := "admin@example.com"

  /** The sends after commit: one to the customer, then one to ADMIN_EMAIL
      (by default admin@example.com), each tried whatever the other's
      outcome. */
  function Mails(resp: Response, customerDelivered: bool, adminDelivered: bool, adminEmail: Option<string>)
    : (ms: seq<MailAttempt>)
    ensures resp.Placed? ==> |ms| == 2
    ensures resp.Placed? ==> ms[0].to == resp.order.customerEmail && ms[0].mail == CustomerConfirmation
    ensures resp.Placed? ==> ms[1].to == adminEmail.GetOr(DefaultAdminEmail) && ms[1].mail == AdminNotification
    ensures resp.Placed? ==> ms[0].delivered == customerDelivered && ms[1].delivered == adminDelivered
    ensures !resp.Placed? ==> ms == []
  {
    if resp.Placed? then
      [MailAttempt(resp.order.customerEmail, CustomerConfirmation, customerDelivered),
       MailAttempt(adminEmail.GetOr(DefaultAdminEmail), AdminNotification, adminDelivered)]
    else []
  }

  /** The `foreach` over the lines inside `store`'s transaction: one
      order_items INSERT per line, stopping at the first that fails. */
  method InsertLines(db: Database, orderId: nat, lines: seq<ItemLine>) returns (result: Result<seq<OrderItem>, Violation>)
    modifies db
    ensures result.Err? <==> InsertItems(old(db.tables), orderId, lines).Err?
    ensures result.Err? ==> result.error == InsertItems(old(db.tables), orderId, lines).error
    ensures result.Ok? ==> InsertItems(old(db.tables), orderId, lines) == Ok((db.tables, result.value))
  {
    var start := db.tables;
    var rows: seq<OrderItem> := [];
    for i := 0 to |lines|
      invariant InsertItems(start, orderId, lines[..i]) == Ok((db.tables, rows))
    {
      var line := lines[i];
      InsertItemsExtends(start, orderId, lines, i, db.tables, rows);
      var item := InsertItem(db.tables, orderId, FirstFoodNamed(db.tables, line.name), line.name, line.size,
                             line.quantity, line.unitPrice, LineTotal(line));
      if item.Err? {
        InsertItemsStopsAtFirstFailure(start, orderId, lines, i + 1);
        return Err(item.error);
      }
      db.tables, rows := item.value.0, rows + [item.value.1];
    }
    assert lines[..|lines|] == lines;
    return Ok(rows);
  }

  /** `store`. Each email's outcome is caught on its own after commit, so
      neither the tables nor the response depend on `customerDelivered` or
      `adminDelivered`. */
  method Store(db: Database, req: OrderRequest, isEmail: string -> bool, isDate: string -> bool, c: Context,
               customerDelivered: bool, adminDelivered: bool, adminEmail: Option<string>)
    returns (resp: Response, mails: seq<MailAttempt>)
    requires ContextFits(db.tables, c)
    modifies db
    ensures (db.tables, resp) == Place(old(db.tables), req, isEmail, isDate, c)
    ensures mails == Mails(resp, customerDelivered, adminDelivered, adminEmail)
  {
    var validated := Validate(req, isEmail, isDate);
    if validated.Err? {
      return Invalid(validated.error), [];
    }
    var v := validated.value;
    PlaceValid(db.tables, req, isEmail, isDate, c, v);
    var snapshot := db.tables;                       // beginTransaction
    var resolved := OrderUser(db.tables, v, c);
    db.tables := resolved.0;
    var inserted := InsertOrder(db.tables, NewOrder(v, resolved.1, OrderNumber(c.token, c.today)));
    if inserted.Err? {
      OrderRolledBack(snapshot, v, c, resolved, inserted.error);
      db.tables := snapshot;                         // rollBack
      return Failed(inserted.error), [];
    }
    db.tables := inserted.value.0;
    var orderId := inserted.value.1;
    var start := db.tables;
    var written := InsertLines(db, orderId, v.items);
    if written.Err? {
      ItemsRolledBack(snapshot, v, c, resolved, start, orderId);
      db.tables := snapshot;                         // rollBack
      return Failed(written.error), [];
    }
    var rows := written.value;
    OrderCommitted(snapshot, v, c, resolved, start, orderId, db.tables, rows);
    // commit
    resp := Placed(orderId, db.tables.orders[orderId], rows);
    mails := [MailAttempt(resp.order.customerEmail, CustomerConfirmation, customerDelivered),
              MailAttempt(adminEmail.GetOr(DefaultAdminEmail), AdminNotification, adminDelivered)];
  }

  // ------------------------------------------------------- orders listing

  /** The `orders` filters: a status or type parameter other than "all"
      keeps only the orders whose column equals it. */
  predicate Listed(o: Order, status: Option<string>, kind: Option<string>) {
    && (status.None? || status.value == "all" || StatusName(o.status) == status.value)
    && (kind.None? || kind.value == "all" || TypeName(o.kind) == kind.value)
  }

  function ListOrders(t: Tables, status: Option<string>, kind: Option<string>): (rows: seq<(nat, Order)>)
    ensures forall i :: 0 <= i < |rows| ==> rows[i].0 in t.orders && rows[i].1 == t.orders[rows[i].0]
    ensures forall i :: 0 <= i < |rows| ==> Listed(rows[i].1, status, kind)
    ensures IdsBelowCounters(t) ==>
      forall k :: k in t.orders && Listed(t.orders[k], status, kind) ==> (k, t.orders[k]) in rows
  {
    Filter(InIdOrder(t.orders, t.nextOrder), (row: (nat, Order)) => Listed(row.1, status, kind))
  }

  /** A filter value naming no status or type ("", a typo) lists nothing. */
  lemma UnknownFilterListsNothing(o: Order, status: string)
    requires ParseStatus(status).None? && status != "all"
    ensures !Listed(o, Some(status), None)
  {
    ParseStatusName(o.status);
  }

  /** Each order's status column. */
  function Statuses(orders: map<nat, Order>): (m: map<nat, OrderStatus>)
    ensures m.Keys == orders.Keys
    ensures forall k :: k in m ==> m[k] == orders[k].status
  {
    map k | k in orders :: orders[k].status
  }

  /** `statusCounts[s]`: `Order::where('status', s)->count()`. */
  function CountWithStatus(orders: map<nat, Order>, s: OrderStatus): nat {
    |KeysWith(Statuses(orders), s)|
  }

  /** The six per-status counts, added up. */
  function StatusCountsTotal(orders: map<nat, Order>): nat {
    CountWithStatus(orders, Pending) + CountWithStatus(orders, Confirmed) + CountWithStatus(orders, Preparing) +
    CountWithStatus(orders, Ready) + CountWithStatus(orders, Completed) + CountWithStatus(orders, Cancelled)
  }

  /** The six status counts add up to the `all` count. */
  lemma StatusCountsSumToAll(orders: map<nat, Order>)
    ensures StatusCountsTotal(orders) == |orders|
  {
    var m := Statuses(orders);
    SixStatusesPartition(m);
    assert |m.Keys| == |orders.Keys|;
  }

  lemma {:induction false} SixStatusesPartition(m: map<nat, OrderStatus>)
    ensures |KeysWith(m, Pending)| + |KeysWith(m, Confirmed)| + |KeysWith(m, Preparing)| +
            |KeysWith(m, Ready)| + |KeysWith(m, Completed)| + |KeysWith(m, Cancelled)| == |m|
    decreases |m|
  {
    if m != map[] {
      var k :| k in m;
      var rest := m - {k};
      SixStatusesPartition(rest);
      KeysWithoutOne(m, k, Pending);
      KeysWithoutOne(m, k, Confirmed);
      KeysWithoutOne(m, k, Preparing);
      KeysWithoutOne(m, k, Ready);
      KeysWithoutOne(m, k, Completed);
      KeysWithoutOne(m, k, Cancelled);
      assert |rest| == |m| - 1;
      match m[k]
      case Pending =>
      case Confirmed =>
      case Preparing =>
      case Ready =>
      case Completed =>
      case Cancelled =>
    }
  }
}
