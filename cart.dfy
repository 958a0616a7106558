/** The browser's cart store: an ordered list of lines, one per
    (food name, size) pair, each with an id, a unit price and a quantity.
    A store action replaces the list with a new one computed from the old. */
module Cart {
  import opened Common

  datatype CartItem = CartItem(id: string, name: string, category: string, size: string, unitPrice: real, quantity: int)

  /** What `addItem` receives: a line without its id. */
  datatype NewLine = NewLine(name: string, category: string, size: string, unitPrice: real, quantity: int)

  /** A line the order controller's item rules accept: a name and a size,
      quantity at least 1, unit price not negative. */
  predicate GoodLine(l: CartItem) {
    l.name != "" && l.size != "" && l.quantity >= 1 && l.unitPrice >= 0.0
  }

  predicate GoodNewLine(item: NewLine) {
    item.name != "" && item.size != "" && item.quantity >= 1 && item.unitPrice >= 0.0
  }

  predicate SameProduct(l: CartItem, item: NewLine) {
    l.name == item.name && l.size == item.size
  }

  /** `find`: the first line for the same name and size, or `|items|`. */
  function FindLine(items: seq<CartItem>, item: NewLine): (i: nat)
    ensures i <= |items|
    ensures i < |items| ==> SameProduct(items[i], item)
    ensures forall k :: 0 <= k < i ==> !SameProduct(items[k], item)
  {
    if items == [] then 0
    else if SameProduct(items[0], item) then 0
    else 1 + FindLine(items[1..], item)
  }

  /** A new line's id: name, size and a random token, joined by colons. */
  function LineId(name: string, size: string, token: string): string {
    name + ":" + size + ":" + token
  }

  function LineOf(item: NewLine, token: string): CartItem {
    CartItem(LineId(item.name, item.size, token), item.name, item.category, item.size, item.unitPrice, item.quantity)
  }

  /** `addItem`: merged into the first line for the same product, or appended. */
  function Added(items: seq<CartItem>, item: NewLine, token: string): seq<CartItem> {
    var i := FindLine(items, item);
    if i < |items| then items[i := items[i].(quantity := items[i].quantity + item.quantity)]
    else items + [LineOf(item, token)]
  }

  /** `updateQuantity`: every line with that id gets the quantity. */
  function QuantitySet(items: seq<CartItem>, id: string, quantity: int): seq<CartItem> {
    seq(|items|, k requires 0 <= k < |items| => if items[k].id == id then items[k].(quantity := quantity) else items[k])
  }

  function OtherId(id: string): CartItem -> bool {
    (l: CartItem) => l.id != id
  }

  /** `removeItem`: the lines with another id. */
  function Removed(items: seq<CartItem>, id: string): seq<CartItem> {
    Filter(items, OtherId(id))
  }

  /** `unitPrice * quantity`. */
  function Price(unitPrice: real, quantity: int): real {
    unitPrice * quantity as real
  }

  function LineTotal(l: CartItem): real {
    Price(l.unitPrice, l.quantity)
  }

  /** `total`: Σ unitPrice × quantity, reduced from the left starting at 0. */
  function CartTotal(items: seq<CartItem>): real {
    if items == [] then 0.0 else CartTotal(items[..|items| - 1]) + LineTotal(items[|items| - 1])
  }

  // ------------------------------------------------------------ addItem

  /** Adding a product already in the cart keeps the line count and adds the
      quantity to that line alone, which keeps its id, category and unit price. */
  lemma AddToExistingLine(items: seq<CartItem>, item: NewLine, token: string, i: nat)
    requires i < |items| && SameProduct(items[i], item)
    requires forall k :: 0 <= k < i ==> !SameProduct(items[k], item)
    ensures |Added(items, item, token)| == |items|
    ensures Added(items, item, token)[i] == items[i].(quantity := items[i].quantity + item.quantity)
    ensures forall k :: 0 <= k < |items| && k != i ==> Added(items, item, token)[k] == items[k]
  {
    assert FindLine(items, item) == i;
  }

  /** Adding a product not in the cart appends exactly one line with the
      given fields and the new id. */
  lemma AddNewLine(items: seq<CartItem>, item: NewLine, token: string)
    requires forall k :: 0 <= k < |items| ==> !SameProduct(items[k], item)
    ensures Added(items, item, token) == items + [CartItem(LineId(item.name, item.size, token),
      item.name, item.category, item.size, item.unitPrice, item.quantity)]
  {
    assert FindLine(items, item) == |items|;
  }

  /** The total after an add grows by the added quantity at the price of the
      line it lands on: the existing line's price when merged. */
  lemma {:induction false} AddedTotal(items: seq<CartItem>, item: NewLine, token: string)
    ensures FindLine(items, item) < |items| ==>
      CartTotal(Added(items, item, token)) == CartTotal(items) + Price(items[FindLine(items, item)].unitPrice, item.quantity)
    ensures FindLine(items, item) == |items| ==>
      CartTotal(Added(items, item, token)) == CartTotal(items) + Price(item.unitPrice, item.quantity)
  {
    var i := FindLine(items, item);
    var r := Added(items, item, token);
    if i < |items| {
      TotalQuantityAt(items, i, item.quantity);
    } else {
      assert r == items + [LineOf(item, token)];
      assert r[..|items|] == items;
    }
  }

  /** The cart total after `d` is added to one line's quantity. */
  lemma TotalQuantityAt(items: seq<CartItem>, i: nat, d: int)
    requires i < |items|
    ensures CartTotal(items[i := items[i].(quantity := items[i].quantity + d)]) ==
      CartTotal(items) + Price(items[i].unitPrice, d)
  {
    TotalUpdateAt(items, i, items[i].(quantity := items[i].quantity + d));
    QuantityChangeTotal(items[i], d);
  }

  /** A line's total after `d` is added to its quantity. */
  lemma QuantityChangeTotal(l: CartItem, d: int)
    ensures LineTotal(l.(quantity := l.quantity + d)) == LineTotal(l) + Price(l.unitPrice, d)
  {
  }

  lemma {:induction false} TotalUpdateAt(items: seq<CartItem>, i: nat, l: CartItem)
    requires i < |items|
    ensures CartTotal(items[i := l]) == CartTotal(items) - LineTotal(items[i]) + LineTotal(l)
    decreases |items|
  {
    var n := |items| - 1;
    assert items[i := l][..n] == if i == n then items[..n] else items[..n][i := l];
    if i < n {
      TotalUpdateAt(items[..n], i, l);
    }
  }

  // ----------------------------------------------------- updateQuantity

  /** An id no line carries changes nothing. */
  lemma QuantitySetUnknownId(items: seq<CartItem>, id: string, quantity: int)
    requires forall k :: 0 <= k < |items| ==> items[k].id != id
    ensures QuantitySet(items, id, quantity) == items
  {
  }

  /** With distinct ids, only the quantity of the one line with that id changes. */
  lemma QuantitySetOneLine(items: seq<CartItem>, id: string, quantity: int, i: nat)
    requires DistinctIds(items)
    requires i < |items| && items[i].id == id
    ensures QuantitySet(items, id, quantity) == items[i := items[i].(quantity := quantity)]
  {
  }

  lemma {:induction false} QuantitySetTotal(items: seq<CartItem>, id: string, quantity: int, i: nat)
    requires DistinctIds(items)
    requires i < |items| && items[i].id == id
    ensures CartTotal(QuantitySet(items, id, quantity)) ==
      CartTotal(items) + Price(items[i].unitPrice, quantity - items[i].quantity)
  {
    QuantitySetOneLine(items, id, quantity, i);
    var d := quantity - items[i].quantity;
    assert items[i].(quantity := quantity) == items[i].(quantity := items[i].quantity + d);
    TotalQuantityAt(items, i, d);
  }

  // --------------------------------------------------------- removeItem

  predicate DistinctIds(items: seq<CartItem>) {
    forall i, j :: 0 <= i < j < |items| ==> items[i].id != items[j].id
  }

  lemma RemovedUnknownId(items: seq<CartItem>, id: string)
    requires forall k :: 0 <= k < |items| ==> items[k].id != id
    ensures Removed(items, id) == items
  {
    FilterAll(items, OtherId(id));
  }

  /** With distinct ids, removing a line's id removes exactly that line and
      keeps the rest in order. */
  lemma {:induction false} RemovedExactly(items: seq<CartItem>, id: string, i: nat)
    requires DistinctIds(items)
    requires i < |items| && items[i].id == id
    ensures Removed(items, id) == items[..i] + items[i + 1..]
    decreases |items|
  {
    var n := |items| - 1;
    if i == n {
      RemovedLastLine(items, id);
    } else {
      var front := items[..n];
      assert DistinctIds(front);
      assert front[i] == items[i];
      RemovedExactly(front, id, i);
      assert front[..i] == items[..i];
      assert front[i + 1..] == items[i + 1..n];
      assert Removed(front, id) == items[..i] + items[i + 1..n];
      assert items[n].id != items[i].id;
      RemovedStep(items, id, i);
    }
  }

  /** Removing the id of the last line, which no other line carries. */
  lemma RemovedLastLine(items: seq<CartItem>, id: string)
    requires DistinctIds(items)
    requires |items| > 0 && items[|items| - 1].id == id
    ensures Removed(items, id) == items[..|items| - 1]
  {
    var n := |items| - 1;
    assert Removed(items, id) == Removed(items[..n], id);
    RemovedUnknownId(items[..n], id);
  }

  lemma RemovedStep(items: seq<CartItem>, id: string, i: nat)
    requires i < |items| - 1 && items[|items| - 1].id != id
    requires Removed(items[..|items| - 1], id) == items[..i] + items[i + 1..|items| - 1]
    ensures Removed(items, id) == items[..i] + items[i + 1..]
  {
    var n := |items| - 1;
    assert Removed(items, id) == Removed(items[..n], id) + [items[n]];
    assert items[i + 1..n] + [items[n]] == items[i + 1..];
  }

  // --------------------------------------------------------- invariants

  /** No two lines are for the same name and size. */
  predicate UniqueProducts(items: seq<CartItem>) {
    forall i, j :: 0 <= i < j < |items| ==> items[i].name != items[j].name || items[i].size != items[j].size
  }

  lemma AddedKeepsUnique(items: seq<CartItem>, item: NewLine, token: string)
    requires UniqueProducts(items)
    ensures UniqueProducts(Added(items, item, token))
  {
  }

  lemma QuantitySetKeepsUnique(items: seq<CartItem>, id: string, quantity: int)
    requires UniqueProducts(items)
    ensures UniqueProducts(QuantitySet(items, id, quantity))
  {
  }

  /** Keeping part of a list keeps its products unique. */
  lemma RemovedKeepsUnique(items: seq<CartItem>, id: string)
    requires UniqueProducts(items)
    ensures UniqueProducts(Removed(items, id))
  {
    FilterKeepsPairs(items, OtherId(id), (a: CartItem, b: CartItem) => a.name != b.name || a.size != b.size);
  }

  /** A fresh token keeps the ids distinct. */
  lemma AddedKeepsIdsDistinct(items: seq<CartItem>, item: NewLine, token: string)
    requires DistinctIds(items)
    requires forall k :: 0 <= k < |items| ==> items[k].id != LineId(item.name, item.size, token)
    ensures DistinctIds(Added(items, item, token))
  {
  }

  lemma RemovedKeepsIdsDistinct(items: seq<CartItem>, id: string)
    requires DistinctIds(items)
    ensures DistinctIds(Removed(items, id))
  {
    FilterKeepsPairs(items, OtherId(id), (a: CartItem, b: CartItem) => a.id != b.id);
  }

  /** A store action, with the random token of an add. */
  datatype Action = Add(item: NewLine, token: string) | SetQuantity(id: string, quantity: int) | Remove(id: string) | Empty

  function Apply(items: seq<CartItem>, a: Action): seq<CartItem> {
    match a
    case Add(item, token) => Added(items, item, token)
    case SetQuantity(id, q) => QuantitySet(items, id, q)
    case Remove(id) => Removed(items, id)
    case Empty => []
  }

  function Run(items: seq<CartItem>, actions: seq<Action>): seq<CartItem>
    decreases |actions|
  {
    if actions == [] then items else Run(Apply(items, actions[0]), actions[1..])
  }

  /** Whatever the actions, the cart never holds two lines for one product. */
  lemma {:induction false} RunKeepsUnique(items: seq<CartItem>, actions: seq<Action>)
    requires UniqueProducts(items)
    ensures UniqueProducts(Run(items, actions))
    decreases |actions|
  {
    if actions != [] {
      match actions[0] {
        case Add(item, token) => AddedKeepsUnique(items, item, token);
        case SetQuantity(id, q) => QuantitySetKeepsUnique(items, id, q);
        case Remove(id) => RemovedKeepsUnique(items, id);
        case Empty =>
      }
      RunKeepsUnique(Apply(items, actions[0]), actions[1..]);
    }
  }

  lemma FromEmptyUnique(actions: seq<Action>)
    ensures UniqueProducts(Run([], actions))
  {
    RunKeepsUnique([], actions);
  }

  // -------------------------------------------------------------- store

  /** The store: its `items` state, replaced by each action. */
  class CartStore {
    var items: seq<CartItem>

    constructor()
      ensures items == []
    {
      items := [];
    }

    method AddItem(item: NewLine, token: string)
      modifies this
      ensures items == Added(old(items), item, token)
    {
      items := Added(items, item, token);
    }

    method UpdateQuantity(id: string, quantity: int)
      modifies this
      ensures items == QuantitySet(old(items), id, quantity)
    {
      items := QuantitySet(items, id, quantity);
    }

    method RemoveItem(id: string)
      modifies this
      ensures items == Removed(old(items), id)
    {
      items := Removed(items, id);
    }

    method Clear()
      modifies this
      ensures items == []
    {
      items := [];
    }

    function Total(): real
      reads this
    {
      CartTotal(items)
    }
  }

  /** The empty cart totals 0, and a total is the sum of its parts. */
  lemma {:induction false} TotalAppend(a: seq<CartItem>, b: seq<CartItem>)
    ensures CartTotal([]) == 0.0
    ensures CartTotal(a + b) == CartTotal(a) + CartTotal(b)
    decreases |b|
  {
    if b == [] {
      assert a + b == a;
    } else {
      var n := |b| - 1;
      assert (a + b)[..|a + b| - 1] == a + b[..n];
      TotalAppend(a, b[..n]);
    }
  }
}
