/** The admin foods page: the listed foods grouped into one card per
    category, the filter selects that reload the page with new query
    parameters, and the food whose edit dialog is open. */
module FoodsPage {
  import opened Common
  import opened Grouping
  import opened Schema
  import FoodListing

  type AdminFood = FoodListing.AdminFood

  function FoodCategory(f: AdminFood): string {
    f.category
  }

  /** The grouping as an object: each category, in first-occurrence order,
      with its foods in list order. */
  function CategoryGroups(foods: seq<AdminFood>): (r: Record<seq<AdminFood>>)
    ensures |r| == |GroupBy(foods, FoodCategory).keys|
  {
    GroupByKeys(foods, FoodCategory);
    ToRecord(GroupBy(foods, FoodCategory))
  }

  /** One push of `foodsByCategory` on the object of a grouping: a new
      category gets an empty list first, then the food is appended to its
      category's list. */
  function Pushed(grouped: Record<seq<AdminFood>>, food: AdminFood): Record<seq<AdminFood>> {
    var k := food.category;
    var ready := if Lookup(grouped, k).None? then Put(grouped, k, []) else grouped;
    Put(ready, k, Lookup(ready, k).GetOr([]) + [food])
  }

  /** A push onto a listed category appends to its list in place. */
  lemma PushedListed(r: Record<seq<AdminFood>>, food: AdminFood, i: nat)
    requires DistinctKeys(r) && i < |r| && r[i].0 == food.category
    ensures Pushed(r, food) == r[i := (r[i].0, r[i].1 + [food])]
  {
    LookupAt(r, i);
    IndexOfIs(r, food.category, i);
  }

  /** A push onto a new category adds its list at the end. */
  lemma PushedNew(r: Record<seq<AdminFood>>, food: AdminFood)
    requires food.category !in Keys(r)
    ensures Pushed(r, food) == r + [(food.category, [food])]
  {
    var k := food.category;
    assert Lookup(r, k).None?;
    var ready := r + [(k, [])];
    assert Put(r, k, []) == ready;
    assert forall j :: 0 <= j < |r| ==> ready[j].0 == Keys(r)[j];
    IndexOfIs(ready, k, |r|);
    assert Lookup(ready, k) == Some([]);
    assert IndexOf(ready, k) == |r|;
    assert Lookup(ready, k).GetOr([]) + [food] == [food];
    assert Put(ready, k, [food]) == ready[|r| := (k, [food])] == r + [(k, [food])];
  }

  /** The object of a grouping after one more food. */
  lemma {:induction false} GroupsStep(foods: seq<AdminFood>, food: AdminFood)
    ensures var r := CategoryGroups(foods);
      var g := GroupBy(foods, FoodCategory);
      && DistinctKeys(r) && Keys(r) == g.keys && (forall k :: k in g.keys <==> k in g.members)
      && CategoryGroups(foods + [food]) ==
         if food.category in g.members then r[IndexOf(r, food.category) := (food.category, g.members[food.category] + [food])]
         else r + [(food.category, [food])]
  {
    var g := GroupBy(foods, FoodCategory);
    GroupByKeys(foods, FoodCategory);
    GroupByStep(foods, FoodCategory, food);
    var r := CategoryGroups(foods);
    assert Keys(r) == g.keys;
  }

  /** Pushing onto the object of a grouping gives the object of the grouping
      with the food added. */
  lemma PushedIsAdd(foods: seq<AdminFood>, food: AdminFood)
    ensures Pushed(CategoryGroups(foods), food) == CategoryGroups(foods + [food])
  {
    var g := GroupBy(foods, FoodCategory);
    var r := CategoryGroups(foods);
    GroupsStep(foods, food);
    GroupByKeys(foods, FoodCategory);
    if food.category in g.members {
      PushedListed(r, food, IndexOf(r, food.category));
    } else {
      PushedNew(r, food);
    }
  }

  /** `foodsByCategory`: the foods grouped into an object by category. */
  method FoodsByCategory(foods: seq<AdminFood>) returns (grouped: Record<seq<AdminFood>>)
    ensures grouped == CategoryGroups(foods)
  {
    grouped := [];
    for i := 0 to |foods|
      invariant grouped == CategoryGroups(foods[..i])
    {
      var food := foods[i];
      if Lookup(grouped, food.category).None? {
        grouped := Put(grouped, food.category, []);
      }
      grouped := Put(grouped, food.category, Lookup(grouped, food.category).GetOr([]) + [food]);
      PushedIsAdd(foods[..i], food);
      assert foods[..i + 1] == foods[..i] + [food];
    }
    assert foods[..|foods|] == foods;
  }

  /** Each card holds exactly its category's foods, in list order, and is
      never empty. */
  lemma CategoryGroupsFilters(foods: seq<AdminFood>)
    ensures forall i :: 0 <= i < |CategoryGroups(foods)| ==>
      && CategoryGroups(foods)[i].1 == Filter(foods, HasKey(FoodCategory, CategoryGroups(foods)[i].0))
      && CategoryGroups(foods)[i].1 != []
  {
    var r := CategoryGroups(foods);
    GroupByKeys(foods, FoodCategory);
    NoEmptyGroup(foods, FoodCategory);
    forall i | 0 <= i < |r|
      ensures r[i].1 == Filter(foods, HasKey(FoodCategory, r[i].0)) && r[i].1 != []
    {
      GroupIsFilter(foods, FoodCategory, r[i].0);
    }
  }

  /** Every food's category has a card. */
  lemma CategoryGroupsCover(foods: seq<AdminFood>)
    ensures forall f :: f in foods ==> f.category in Keys(CategoryGroups(foods))
  {
    var r := CategoryGroups(foods);
    GroupByKeys(foods, FoodCategory);
    forall f | f in foods
      ensures f.category in Keys(r)
    {
      var x :| 0 <= x < |foods| && foods[x] == f;
      GroupOfElement(foods, FoodCategory, x, f.category);
    }
  }

  /** Each category appears once, with exactly its foods in list order,
      never an empty card, and every food is on some card. */
  lemma CategoryGroupsShape(foods: seq<AdminFood>)
    ensures DistinctKeys(CategoryGroups(foods))
    ensures forall i :: 0 <= i < |CategoryGroups(foods)| ==>
      && CategoryGroups(foods)[i].1 == Filter(foods, HasKey(FoodCategory, CategoryGroups(foods)[i].0))
      && CategoryGroups(foods)[i].1 != []
    ensures forall f :: f in foods ==> f.category in Keys(CategoryGroups(foods))
  {
    GroupByKeys(foods, FoodCategory);
    CategoryGroupsFilters(foods);
    CategoryGroupsCover(foods);
  }

  /** Foods listed in the order of sorted rows: of two foods of different
      categories, the earlier one's category is the lower. */
  lemma ListedCategoriesAscend(rows: seq<(nat, Food)>, foods: seq<AdminFood>, a: nat, b: nat)
    requires FoodListing.Sorted(rows) && |foods| == |rows|
    requires forall i :: 0 <= i < |foods| ==> foods[i].category == rows[i].1.category
    requires a < b < |foods| && foods[a].category != foods[b].category
    ensures FoodListing.Below(foods[a].category, foods[b].category)
  {
    assert FoodListing.NotAfter(rows[a], rows[b]);
  }

  /** Foods listed in the order of sorted rows give cards in ascending
      category order. */
  lemma SortedCardsAscend(rows: seq<(nat, Food)>, foods: seq<AdminFood>)
    requires FoodListing.Sorted(rows) && |foods| == |rows|
    requires forall i :: 0 <= i < |foods| ==> foods[i].category == rows[i].1.category
    ensures var r := CategoryGroups(foods);
      forall i, j :: 0 <= i < j < |r| ==> FoodListing.Below(r[i].0, r[j].0)
  {
    var g := GroupBy(foods, FoodCategory);
    KeysInFirstOccurrenceOrder(foods, FoodCategory);
    GroupByKeys(foods, FoodCategory);
    var r := CategoryGroups(foods);
    forall i, j | 0 <= i < j < |r|
      ensures FoodListing.Below(r[i].0, r[j].0)
    {
      var a := FirstIndex(foods, FoodCategory, g.keys[i]);
      var b := FirstIndex(foods, FoodCategory, g.keys[j]);
      assert a < |foods| && foods[a].category == g.keys[i];
      assert b < |foods| && foods[b].category == g.keys[j];
      ListedCategoriesAscend(rows, foods, a, b);
    }
  }

  /** The page's foods come sorted by category, so its cards are in
      ascending category order. */
  lemma CardsInCategoryOrder(t: Tables, category: FoodListing.Param, status: FoodListing.Param)
    ensures var r := CategoryGroups(FoodListing.Foods(t, category, status).foods);
      forall i, j :: 0 <= i < j < |r| ==> FoodListing.Below(r[i].0, r[j].0)
  {
    FoodListing.FoodsInRowOrder(t, category, status);
    SortedCardsAscend(FoodListing.AdminRows(t, category, status), FoodListing.Foods(t, category, status).foods);
  }

  // --------------------------------------------------------------- filters

  datatype FilterKey = CategoryFilter | StatusFilter

  /** `{ ...filters, [key]: value }`. */
  function Requested(filters: FoodListing.Filters, key: FilterKey, value: string): (r: FoodListing.Filters)
    ensures key == CategoryFilter ==> r == filters.(category := Some(value))
    ensures key == StatusFilter ==> r == filters.(status := Some(value))
  {
    match key
    case CategoryFilter => filters.(category := Some(value))
    case StatusFilter => filters.(status := Some(value))
  }

  /** A filter as the query parameter the request carries: a null or empty
      value is sent empty and arrives as null. */
  function ParamOf(v: Option<string>): (p: FoodListing.Param)
    ensures p.Absent? == false
    ensures v.Some? && v.value != "" ==> p == FoodListing.Text(v.value)
    ensures v.None? || v == Some("") ==> p == FoodListing.Blank
  {
    if v.Some? && v.value != "" then FoodListing.Text(v.value) else FoodListing.Blank
  }

  /** The page a filter change loads. */
  function Reloaded(t: Tables, filters: FoodListing.Filters, key: FilterKey, value: string): FoodListing.FoodsPage {
    var q := Requested(filters, key, value);
    FoodListing.Foods(t, ParamOf(q.category), ParamOf(q.status))
  }

  /** The reloaded page echoes the filters it was asked for: the changed
      one with its new value, the other as it was. */
  lemma ReloadEchoesFilters(t: Tables, filters: FoodListing.Filters, key: FilterKey, value: string)
    requires value != "" && filters.category != Some("") && filters.status != Some("")
    ensures Reloaded(t, filters, key, value).filters == Requested(filters, key, value)
  {
  }

  /** A null filter, once sent, matches no food: the reloaded page is
      empty whatever the other filter says. */
  lemma NullCategoryListsNothing(t: Tables, filters: FoodListing.Filters, value: string)
    requires filters.category.None?
    ensures Reloaded(t, filters, StatusFilter, value).foods == []
  {
    var q := Requested(filters, StatusFilter, value);
    var rows := FoodListing.AdminRows(t, ParamOf(q.category), ParamOf(q.status));
    FoodListing.QueryRowsAreFoods(t, FoodListing.AdminFilter(ParamOf(q.category), ParamOf(q.status)));
  }

  // ------------------------------------------------------------ edit dialog

  /** Which food the edit dialog shows, and whether it is open. */
  class FoodsPageState {
    var selectedFood: Option<AdminFood>
    var editOpen: bool

    constructor()
      ensures selectedFood.None? && !editOpen
    {
      selectedFood, editOpen := None, false;
    }

    /** `handleEdit`. */
    method HandleEdit(food: AdminFood)
      modifies this
      ensures selectedFood == Some(food) && editOpen
    {
      selectedFood, editOpen := Some(food), true;
    }

    /** The dialog's `onOpenChange`; the food stays selected. */
    method EditOpenChange(open: bool)
      modifies this
      ensures editOpen == open && selectedFood == old(selectedFood)
    {
      editOpen := open;
    }
  }
}
