/** The add-to-cart dialog of one menu food: a selected portion size and a
    quantity, the price it shows, and the line it adds to the cart. The
    food's name, category and size prices are the dialog's properties. */
module AddToCart {
  import opened Common
  import opened Cart

  /** `Object.keys(portion_sizes)[0] ?? ''`. */
  function FirstSize(portionSizes: Record<real>): (s: string)
    ensures portionSizes == [] ==> s == ""
    ensures portionSizes != [] ==> s == portionSizes[0].0 && s in Keys(portionSizes)
  {
    if portionSizes == [] then "" else portionSizes[0].0
  }

  class AddToCartDialog {
    const name: string
    const category: string
    const portionSizes: Record<real>
    var selectedSize: string
    var quantity: int

    /** The quantity is at least one and the selection is empty or a listed size. */
    predicate Valid()
      reads this
    {
      quantity >= 1 && (selectedSize == "" || selectedSize in Keys(portionSizes))
    }

    constructor(name: string, category: string, portionSizes: Record<real>)
      ensures this.name == name && this.category == category && this.portionSizes == portionSizes
      ensures selectedSize == FirstSize(portionSizes) && quantity == 1
      ensures Valid()
    {
      this.name, this.category, this.portionSizes := name, category, portionSizes;
      selectedSize, quantity := FirstSize(portionSizes), 1;
    }

    /** The effect on opening: the first size and quantity 1 again. */
    method Opened(open: bool)
      requires Valid()
      modifies this
      ensures open ==> selectedSize == FirstSize(portionSizes) && quantity == 1
      ensures !open ==> selectedSize == old(selectedSize) && quantity == old(quantity)
      ensures Valid()
    {
      if open {
        selectedSize, quantity := FirstSize(portionSizes), 1;
      }
    }

    /** The effect that selects the first size while nothing is selected. */
    method SelectFirstIfNone()
      requires Valid()
      modifies this
      ensures selectedSize == if old(selectedSize) == "" && portionSizes != [] then portionSizes[0].0 else old(selectedSize)
      ensures quantity == old(quantity)
      ensures Valid()
    {
      if selectedSize == "" && |portionSizes| > 0 {
        selectedSize := portionSizes[0].0;
      }
    }

    /** A radio button: one of the listed sizes. */
    method Select(size: string)
      requires Valid() && size in Keys(portionSizes)
      modifies this
      ensures selectedSize == size && quantity == old(quantity)
      ensures Valid()
    {
      selectedSize := size;
    }

    /** The minus button never goes below 1. */
    method Decrement()
      requires Valid()
      modifies this
      ensures quantity == Max(1, old(quantity) - 1) && selectedSize == old(selectedSize)
      ensures Valid()
    {
      quantity := Max(1, quantity - 1);
    }

    method Increment()
      requires Valid()
      modifies this
      ensures quantity == old(quantity) + 1 && selectedSize == old(selectedSize)
      ensures Valid()
    {
      quantity := quantity + 1;
    }

    /** `selectedSize ? portion_sizes[selectedSize] : 0`. */
    function Base(): (b: real)
      reads this
      requires Valid()
      ensures selectedSize == "" ==> b == 0.0
      ensures selectedSize != "" ==> (selectedSize, b) in portionSizes
    {
      if selectedSize == "" then 0.0 else Lookup(portionSizes, selectedSize).value
    }

    /** The total on the dialog: base price times quantity. */
    function Shown(): real
      reads this
      requires Valid()
    {
      Price(Base(), quantity)
    }

    /** The line the button adds. */
    function Line(): NewLine
      reads this
      requires Valid()
    {
      NewLine(name, category, selectedSize, Base(), quantity)
    }

    /** "Add To Cart": without a selected size nothing happens; otherwise the
        line goes to the cart and the dialog asks to close. */
    method AddTo(cart: CartStore, token: string) returns (closed: bool)
      requires Valid()
      modifies cart
      ensures selectedSize == "" ==> cart.items == old(cart.items) && !closed
      ensures selectedSize != "" ==> cart.items == Added(old(cart.items), Line(), token) && closed
    {
      if selectedSize == "" {
        return false;
      }
      cart.AddItem(Line(), token);
      closed := true;
    }
  }

  /** A line the dialog can add, for a food with a name and no negative
      price, passes the item rules. */
  lemma DialogLineIsGood(d: AddToCartDialog)
    requires d.Valid() && d.selectedSize != "" && d.name != ""
    requires forall i :: 0 <= i < |d.portionSizes| ==> d.portionSizes[i].1 >= 0.0
    ensures GoodNewLine(d.Line())
  {
    var b := d.Base();
    var i :| 0 <= i < |d.portionSizes| && d.portionSizes[i] == (d.selectedSize, b);
  }

  /** On opening a food with sizes, the dialog shows the first size's price
      (an empty size name counts as no selection). */
  lemma OpenedShowsFirstPrice(d: AddToCartDialog)
    requires d.Valid() && d.portionSizes != [] && DistinctKeys(d.portionSizes) && d.portionSizes[0].0 != ""
    requires d.selectedSize == FirstSize(d.portionSizes) && d.quantity == 1
    ensures d.Shown() == d.portionSizes[0].1
  {
    LookupAt(d.portionSizes, 0);
    assert d.Base() == d.portionSizes[0].1;
  }
}
