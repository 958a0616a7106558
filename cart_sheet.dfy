/** The cart sheet: per line a minus, a plus and a trash button, and a
    clear button for the whole cart. Together with the add-to-cart dialog
    these are the only ways the cart changes. */
module CartSheet {
  import opened Common
  import opened Cart

  /** A button press: on the line at a position of the list shown, on the
      clear button, or an add from the dialog (with its random token). */
  datatype Button = Minus(i: nat) | Plus(i: nat) | Trash(i: nat) | ClearAll | DialogAdd(item: NewLine, token: string)

  /** The store action a press runs; a position with no line has no button. */
  function ActionOf(items: seq<CartItem>, p: Button): Option<Cart.Action> {
    match p
    case Minus(i) => if i < |items| then Some(SetQuantity(items[i].id, Max(1, items[i].quantity - 1))) else None
    case Plus(i) => if i < |items| then Some(SetQuantity(items[i].id, items[i].quantity + 1)) else None
    case Trash(i) => if i < |items| then Some(Remove(items[i].id)) else None
    case ClearAll => Some(Empty)
    case DialogAdd(item, token) => Some(Add(item, token))
  }

  function Pressed(items: seq<CartItem>, p: Button): seq<CartItem> {
    match ActionOf(items, p)
    case Some(a) => Apply(items, a)
    case None => items
  }

  function Presses(items: seq<CartItem>, ps: seq<Button>): seq<CartItem>
    decreases |ps|
  {
    if ps == [] then items else Presses(Pressed(items, ps[0]), ps[1..])
  }

  /** The adds the dialog makes are of good lines. */
  predicate DialogAddsGood(ps: seq<Button>) {
    forall k :: 0 <= k < |ps| && ps[k].DialogAdd? ==> GoodNewLine(ps[k].item)
  }

  predicate AllGood(items: seq<CartItem>) {
    forall k :: 0 <= k < |items| ==> GoodLine(items[k])
  }

  /** One press keeps every line good. */
  lemma PressKeepsGood(items: seq<CartItem>, p: Button)
    requires AllGood(items)
    requires p.DialogAdd? ==> GoodNewLine(p.item)
    ensures AllGood(Pressed(items, p))
  {
    match p
    case Trash(i) =>
      if i < |items| {
        var r := Removed(items, items[i].id);
        forall k | 0 <= k < |r| ensures GoodLine(r[k]) {
          var j :| 0 <= j < |items| && items[j] == r[k];
        }
      }
    case _ =>
  }

  /** Every line a cart reaches from the empty one, or from any good one,
      through the sheet and the dialog has a name, a size, a quantity of at least 1 and a
      non-negative unit price. */
  lemma {:induction false} PressesKeepGood(items: seq<CartItem>, ps: seq<Button>)
    requires AllGood(items) && DialogAddsGood(ps)
    ensures AllGood(Presses(items, ps))
    decreases |ps|
  {
    if ps != [] {
      PressKeepsGood(items, ps[0]);
      assert DialogAddsGood(ps[1..]) by {
        forall k | 0 <= k < |ps[1..]| && ps[1..][k].DialogAdd? ensures GoodNewLine(ps[1..][k].item) {
          assert ps[1..][k] == ps[k + 1];
        }
      }
      PressesKeepGood(Pressed(items, ps[0]), ps[1..]);
    }
  }

  /** The minus button on a line of quantity 1 changes nothing: it never
      removes a line. */
  lemma MinusAtOneKeepsCart(items: seq<CartItem>, i: nat)
    requires DistinctIds(items) && i < |items| && items[i].quantity == 1
    ensures Pressed(items, Minus(i)) == items
  {
    QuantitySetOneLine(items, items[i].id, 1, i);
    assert items[i].(quantity := 1) == items[i];
  }

  /** Plus changes only its own line, by one, and the total by that
      line's unit price. */
  lemma PlusChangesOneLine(items: seq<CartItem>, i: nat)
    requires DistinctIds(items) && i < |items|
    ensures Pressed(items, Plus(i)) == items[i := items[i].(quantity := items[i].quantity + 1)]
    ensures CartTotal(Pressed(items, Plus(i))) == CartTotal(items) + Price(items[i].unitPrice, 1)
  {
    PlusSetsQuantity(items, i);
    QuantitySetOneLine(items, items[i].id, items[i].quantity + 1, i);
    PlusTotal(items, i);
  }

  lemma PlusSetsQuantity(items: seq<CartItem>, i: nat)
    requires i < |items|
    ensures Pressed(items, Plus(i)) == QuantitySet(items, items[i].id, items[i].quantity + 1)
  {
  }

  lemma PlusTotal(items: seq<CartItem>, i: nat)
    requires DistinctIds(items) && i < |items|
    ensures CartTotal(QuantitySet(items, items[i].id, items[i].quantity + 1)) == CartTotal(items) + Price(items[i].unitPrice, 1)
  {
    QuantitySetTotal(items, items[i].id, items[i].quantity + 1, i);
  }

  /** Above 1, minus changes only its own line, by one, and the total by
      that line's unit price. */
  lemma {:induction false} MinusChangesOneLine(items: seq<CartItem>, i: nat)
    requires DistinctIds(items) && i < |items| && items[i].quantity > 1
    ensures Pressed(items, Minus(i)) == items[i := items[i].(quantity := items[i].quantity - 1)]
    ensures CartTotal(Pressed(items, Minus(i))) == CartTotal(items) + Price(items[i].unitPrice, -1)
  {
    var id, q := items[i].id, items[i].quantity;
    assert Max(1, q - 1) == q - 1;
    QuantitySetOneLine(items, id, q - 1, i);
    QuantitySetTotal(items, id, q - 1, i);
  }

  /** The trash button removes exactly its line. */
  lemma TrashRemovesLine(items: seq<CartItem>, i: nat)
    requires DistinctIds(items) && i < |items|
    ensures Pressed(items, Trash(i)) == items[..i] + items[i + 1..]
  {
    RemovedExactly(items, items[i].id, i);
  }
}
