/** The customer menu pages: the foods grouped by category become one list
    of cards, each tagged with its group's category, filtered by the
    selected category button ("All" shows everything); the card price; and
    when the floating cart button shows. The home page takes the groups
    from the `index` action, the welcome and dashboard pages from a fixed
    list of the same shape. */
module Menu {
  import opened Common
  import opened Grouping
  import opened Schema
  import opened Cart
  import FoodListing
  import AddToCart

  type MenuFood = FoodListing.MenuFood

  /** The label of the button that shows every category. */
  const AllMenu := "All"

  /** `{ ...item, category }` for each item of a group. */
  function Tagged(items: seq<MenuFood>, category: string): (r: seq<MenuFood>)
    ensures |r| == |items|
    ensures forall j :: 0 <= j < |r| ==> r[j] == items[j].(category := category)
  {
    seq(|items|, j requires 0 <= j < |items| => items[j].(category := category))
  }

  /** The rows of every group, group after group, each group in its own order. */
  function Rows(foods: Record<seq<MenuFood>>): seq<MenuFood>
    decreases |foods|
  {
    if foods == [] then []
    else
      var n := |foods| - 1;
      Rows(foods[..n]) + Tagged(foods[n].1, foods[n].0)
  }

  function CategoryIs(c: string): MenuFood -> bool {
    (m: MenuFood) => m.category == c
  }

  /** The rows a selected button shows. */
  function Selected(rows: seq<MenuFood>, selected: string): seq<MenuFood> {
    if selected == AllMenu then rows else Filter(rows, CategoryIs(selected))
  }

  /** `filteredFoods`: no groups give no rows; otherwise every group's
      items, tagged, then the selection. The groups are visited in key
      order (a JavaScript object's own keys, for which `foods[category]` is
      the group itself). */
  method FilteredFoods(foods: Option<Record<seq<MenuFood>>>, selected: string) returns (r: seq<MenuFood>)
    ensures foods.None? ==> r == []
    ensures foods.Some? ==> r == Selected(Rows(foods.value), selected)
  {
    if foods.None? {
      return [];
    }
    var groups := foods.value;
    var rows: seq<MenuFood> := [];
    for i := 0 to |groups|
      invariant rows == Rows(groups[..i])
    {
      var category, items := groups[i].0, groups[i].1;
      for j := 0 to |items|
        invariant rows == Rows(groups[..i]) + Tagged(items[..j], category)
      {
        rows := rows + [items[j].(category := category)];
      }
      assert items[..|items|] == items;
      assert groups[..i + 1][..i] == groups[..i];
    }
    assert groups[..|groups|] == groups;
    r := if selected == AllMenu then rows else Filter(rows, CategoryIs(selected));
  }

  // ------------------------------------------------------------ properties

  /** The rows of two runs of groups are those of the first, then those of
      the second: the page keeps the group order. */
  lemma {:induction false} RowsAppend(a: Record<seq<MenuFood>>, b: Record<seq<MenuFood>>)
    ensures Rows(a + b) == Rows(a) + Rows(b)
    decreases |b|
  {
    if b == [] {
      assert a + b == a;
    } else {
      var n := |b| - 1;
      var ab := a + b;
      assert ab[..|ab| - 1] == a + b[..n];
      assert ab[|ab| - 1] == b[n];
      RowsAppend(a, b[..n]);
      assert Rows(ab) == Rows(a + b[..n]) + Tagged(b[n].1, b[n].0);
      assert Rows(b) == Rows(b[..n]) + Tagged(b[n].1, b[n].0);
    }
  }

  /** A group's rows, once tagged, all carry its category. */
  lemma TaggedSelection(items: seq<MenuFood>, k: string, c: string)
    ensures Filter(Tagged(items, k), CategoryIs(c)) == if k == c then Tagged(items, k) else []
  {
    var r := Tagged(items, k);
    if k == c {
      FilterAll(r, CategoryIs(c));
    } else {
      FilterNone(r, CategoryIs(c));
    }
  }

  /** One step of the rows: the last group's rows come last. */
  lemma RowsStep(foods: Record<seq<MenuFood>>)
    requires foods != []
    ensures Rows(foods) == Rows(foods[..|foods| - 1]) + Tagged(foods[|foods| - 1].1, foods[|foods| - 1].0)
  {
  }

  /** Selecting a category shows exactly that category's group, tagged, and
      nothing for a category without one. */
  lemma {:induction false} SelectedIsGroup(foods: Record<seq<MenuFood>>, c: string)
    requires DistinctKeys(foods) && c != AllMenu
    ensures Filter(Rows(foods), CategoryIs(c)) == Tagged(Lookup(foods, c).GetOr([]), c)
    decreases |foods|
  {
    if foods == [] {
      assert Filter([], CategoryIs(c)) == [];
    } else {
      var n := |foods| - 1;
      var front, last := foods[..n], foods[n];
      assert DistinctKeys(front);
      SelectedIsGroup(front, c);
      RowsStep(foods);
      FilterAppend(Rows(front), Tagged(last.1, last.0), CategoryIs(c));
      TaggedSelection(last.1, last.0, c);
      if last.0 == c {
        LookupAt(foods, n);
        assert c !in Keys(front);
      } else {
        LookupLast(foods, c);
      }
    }
  }

  /** Tagging a group whose items already carry its category changes nothing. */
  lemma TaggedKeeps(items: seq<MenuFood>, c: string)
    requires forall j :: 0 <= j < |items| ==> items[j].category == c
    ensures Tagged(items, c) == items
  {
  }

  /** The foods of `index` in category `c`: its group, or none. */
  function IndexCategory(t: Tables, p: FoodListing.Param, c: string): seq<MenuFood> {
    FoodListing.MenuGroup(t, Filter(FoodListing.MenuRows(t, p), HasKey(FoodListing.RowCategory, c)))
  }

  /** `index` lists category `c` under its own key, or not at all. */
  lemma IndexLookup(t: Tables, p: FoodListing.Param, c: string)
    ensures Lookup(FoodListing.Index(t, p), c).GetOr([]) == IndexCategory(t, p, c)
  {
    FoodListing.GroupedLookup(t, FoodListing.MenuRows(t, p), c);
  }

  /** The mapped rows of category `c` carry that category. */
  lemma {:induction false} GroupCarriesCategory(t: Tables, rows: seq<(nat, Food)>, c: string)
    ensures forall j :: 0 <= j < |FoodListing.MenuGroup(t, Filter(rows, HasKey(FoodListing.RowCategory, c)))| ==>
      FoodListing.MenuGroup(t, Filter(rows, HasKey(FoodListing.RowCategory, c)))[j].category == c
  {
    var picked := Filter(rows, HasKey(FoodListing.RowCategory, c));
    var group := FoodListing.MenuGroup(t, picked);
    forall j | 0 <= j < |group|
      ensures group[j].category == c
    {
      assert group[j] == FoodListing.MenuFoodOf(t, picked[j]);
      assert HasKey(FoodListing.RowCategory, c)(picked[j]);
    }
  }

  /** The foods `index` sends in category `c` carry that category. */
  lemma IndexCategoryCarriesIt(t: Tables, p: FoodListing.Param, c: string)
    ensures forall j :: 0 <= j < |IndexCategory(t, p, c)| ==> IndexCategory(t, p, c)[j].category == c
  {
    var rows := FoodListing.MenuRows(t, p);
    GroupCarriesCategory(t, rows, c);
    assert IndexCategory(t, p, c) == FoodListing.MenuGroup(t, Filter(rows, HasKey(FoodListing.RowCategory, c)));
  }

  /** On the home page, a category button shows the active foods of that
      category, in the order `index` sends them. */
  lemma IndexPageCategory(t: Tables, p: FoodListing.Param, c: string)
    requires c != AllMenu
    ensures Selected(Rows(FoodListing.Index(t, p)), c) == IndexCategory(t, p, c)
  {
    FoodListing.IndexGroups(t, p);
    SelectedIsGroup(FoodListing.Index(t, p), c);
    IndexLookup(t, p, c);
    IndexCategoryCarriesIt(t, p, c);
    TaggedKeeps(IndexCategory(t, p, c), c);
  }

  // ----------------------------------------------------------------- cards

  /** `getPrimaryPrice`: the first size's price, or 0 without sizes. The
      first size is the one the card's dialog selects on opening. */
  function PrimaryPrice(portions: Record<real>): (r: real)
    ensures portions == [] ==> r == 0.0
    ensures portions != [] ==> Lookup(portions, AddToCart.FirstSize(portions)) == Some(r)
  {
    if portions == [] then 0.0 else portions[0].1
  }

  /** With numeric prices, as the welcome and dashboard pages have, a card's
      price is the total its add-to-cart dialog shows on opening. */
  lemma CardPriceIsDialogPrice(d: AddToCart.AddToCartDialog)
    requires d.Valid() && d.portionSizes != [] && DistinctKeys(d.portionSizes) && d.portionSizes[0].0 != ""
    requires d.selectedSize == AddToCart.FirstSize(d.portionSizes) && d.quantity == 1
    ensures d.Shown() == PrimaryPrice(d.portionSizes)
  {
    AddToCart.OpenedShowsFirstPrice(d);
  }

  /** The home page's floating cart button: rows shown, a card opened once,
      and a non-empty cart. */
  predicate HomeShowsCartButton(rows: seq<MenuFood>, dialogFood: Option<MenuFood>, items: seq<CartItem>) {
    |rows| > 0 && dialogFood.Some? && |items| > 0
  }

  /** After adding from a card's dialog, the home page shows the cart button
      as long as the selection shows a row. */
  lemma AddShowsCartButton(rows: seq<MenuFood>, food: MenuFood, items: seq<CartItem>, line: NewLine, token: string)
    requires rows != []
    ensures HomeShowsCartButton(rows, Some(food), Added(items, line, token))
  {
  }

  /** The page state: the groups it was given, the selected button and the
      card whose dialog is open. */
  class MenuPage {
    const foods: Option<Record<seq<MenuFood>>>
    var selected: string
    var dialogFood: Option<MenuFood>
    var dialogOpen: bool

    constructor(foods: Option<Record<seq<MenuFood>>>)
      ensures this.foods == foods && selected == AllMenu && dialogFood.None? && !dialogOpen
    {
      this.foods := foods;
      selected, dialogFood, dialogOpen := AllMenu, None, false;
    }

    /** The category buttons: "All", then `Object.keys(foods)`. */
    function Buttons(): (r: seq<string>)
      reads this
      ensures foods.None? ==> r == [AllMenu]
      ensures foods.Some? ==> r == [AllMenu] + Keys(foods.value)
    {
      [AllMenu] + (if foods.None? then [] else Keys(foods.value))
    }

    method Select(category: string)
      modifies this
      ensures selected == category && dialogFood == old(dialogFood) && dialogOpen == old(dialogOpen)
    {
      selected := category;
    }

    /** A click on a card opens its dialog. */
    method OpenCard(food: MenuFood)
      modifies this
      ensures dialogFood == Some(food) && dialogOpen && selected == old(selected)
    {
      dialogFood, dialogOpen := Some(food), true;
    }

    /** The dialog's `onOpenChange`; the last food stays set. */
    method DialogOpenChange(open: bool)
      modifies this
      ensures dialogOpen == open && dialogFood == old(dialogFood) && selected == old(selected)
    {
      dialogOpen := open;
    }
  }
}
