/** The food controller's listings: `index`, the public menu of active foods
    grouped by category with each food's prices keyed by size name, and
    `foods`, the admin list with its category and status filters, the
    distinct categories and the counts. Text columns are compared by
    character code; rows that tie on every ORDER BY column keep id order. */
module FoodListing {
  import opened Common
  import opened Schema
  import opened Grouping

  // ------------------------------------------------------------ ordering

  /** Strict lexicographic order of strings by character code. */
  predicate Below(a: string, b: string) {
    if a == [] then b != []
    else if b == [] then false
    else a[0] < b[0] || (a[0] == b[0] && Below(a[1..], b[1..]))
  }

  lemma {:induction false} BelowIrreflexive(a: string)
    ensures !Below(a, a)
    decreases |a|
  {
    if a != [] {
      BelowIrreflexive(a[1..]);
    }
  }

  lemma {:induction false} BelowTransitive(a: string, b: string, c: string)
    requires Below(a, b) && Below(b, c)
    ensures Below(a, c)
    decreases |a|
  {
    if a != [] && a[0] == b[0] && b[0] == c[0] {
      BelowTransitive(a[1..], b[1..], c[1..]);
    }
  }

  lemma {:induction false} BelowTotal(a: string, b: string)
    ensures a == b || Below(a, b) || Below(b, a)
    decreases |a|
  {
    if a != [] && b != [] && a[0] == b[0] {
      BelowTotal(a[1..], b[1..]);
      if a[1..] == b[1..] {
        assert a == [a[0]] + a[1..] && b == [b[0]] + b[1..];
      }
    }
  }

  lemma {:induction false} BelowAsymmetric(a: string, b: string)
    requires Below(a, b)
    ensures !Below(b, a)
    decreases |a|
  {
    if a != [] && a[0] == b[0] {
      BelowAsymmetric(a[1..], b[1..]);
    }
  }

  /** `ORDER BY category, sort_order`: `x` may come before `y`. */
  predicate NotAfter(x: (nat, Food), y: (nat, Food)) {
    Below(x.1.category, y.1.category) || (x.1.category == y.1.category && x.1.sortOrder <= y.1.sortOrder)
  }

  lemma NotAfterTotal(x: (nat, Food), y: (nat, Food))
    ensures NotAfter(x, y) || NotAfter(y, x)
  {
    BelowTotal(x.1.category, y.1.category);
  }

  lemma NotAfterTransitive(x: (nat, Food), y: (nat, Food), z: (nat, Food))
    requires NotAfter(x, y) && NotAfter(y, z)
    ensures NotAfter(x, z)
  {
    if Below(x.1.category, y.1.category) && Below(y.1.category, z.1.category) {
      BelowTransitive(x.1.category, y.1.category, z.1.category);
    }
  }

  predicate Sorted(s: seq<(nat, Food)>) {
    forall i, j :: 0 <= i < j < |s| ==> NotAfter(s[i], s[j])
  }

  /** Insert `x` before the first row that must come after it. */
  function Insert(x: (nat, Food), s: seq<(nat, Food)>): (r: seq<(nat, Food)>)
    ensures multiset(r) == multiset(s) + multiset{x}
  {
    if s == [] then [x]
    else if !NotAfter(s[0], x) then [x] + s
    else
      assert s == [s[0]] + s[1..];
      [s[0]] + Insert(x, s[1..])
  }

  lemma {:induction false} InsertSorted(x: (nat, Food), s: seq<(nat, Food)>)
    requires Sorted(s)
    ensures Sorted(Insert(x, s))
    decreases |s|
  {
    if s != [] {
      if !NotAfter(s[0], x) {
        NotAfterTotal(s[0], x);
        forall j | 0 <= j < |s|
          ensures NotAfter(x, s[j])
        {
          if j > 0 { NotAfterTransitive(x, s[0], s[j]); }
        }
      } else {
        InsertSorted(x, s[1..]);
        var rest := Insert(x, s[1..]);
        forall e | e in rest
          ensures NotAfter(s[0], e)
        {
          assert e in multiset(rest);
          if e != x {
            assert e in s[1..];
          }
        }
      }
    }
  }

  /** The rows in ORDER BY order: an insertion sort, stable on ties
      (SortKeepsTieOrder). */
  function Sort(s: seq<(nat, Food)>): (r: seq<(nat, Food)>)
    ensures multiset(r) == multiset(s)
  {
    if s == [] then []
    else
      var n := |s| - 1;
      assert s == s[..n] + [s[n]];
      Insert(s[n], Sort(s[..n]))
  }

  lemma {:induction false} SortSorted(s: seq<(nat, Food)>)
    ensures Sorted(Sort(s))
    decreases |s|
  {
    if s != [] {
      SortSorted(s[..|s| - 1]);
      InsertSorted(s[|s| - 1], Sort(s[..|s| - 1]));
    }
  }

  /** `x` and `y` agree on every ORDER BY column. */
  predicate Tie(x: (nat, Food), y: (nat, Food)) {
    x.1.category == y.1.category && x.1.sortOrder == y.1.sortOrder
  }

  /** Rows that tie come in ascending id order. */
  predicate TiesInIdOrder(s: seq<(nat, Food)>) {
    forall i, j :: 0 <= i < j < |s| && Tie(s[i], s[j]) ==> s[i].0 < s[j].0
  }

  predicate IdsAscending(s: seq<(nat, Food)>) {
    forall i, j :: 0 <= i < j < |s| ==> s[i].0 < s[j].0
  }

  /** A row that must come before the first row ties with none of a sorted list. */
  lemma TieOrderAtFront(x: (nat, Food), s: seq<(nat, Food)>)
    requires Sorted(s) && TiesInIdOrder(s) && s != [] && !NotAfter(s[0], x)
    ensures TiesInIdOrder([x] + s)
  {
    forall j | 0 <= j < |s|
      ensures !Tie(x, s[j])
    {
      if j > 0 {
        assert NotAfter(s[0], s[j]);
      }
    }
    var r := [x] + s;
    forall i, j | 0 <= i < j < |r|
      ensures Tie(r[i], r[j]) ==> r[i].0 < r[j].0
    {
      assert r[j] == s[j - 1];
      if i > 0 {
        assert r[i] == s[i - 1];
      }
    }
  }

  /** Putting the first row back in front of the rest with `x` inserted. */
  lemma TieOrderPassed(x: (nat, Food), s: seq<(nat, Food)>, rest: seq<(nat, Food)>)
    requires TiesInIdOrder(s) && s != []
    requires forall i :: 0 <= i < |s| && Tie(s[i], x) ==> s[i].0 < x.0
    requires TiesInIdOrder(rest) && multiset(rest) == multiset(s[1..]) + multiset{x}
    ensures TiesInIdOrder([s[0]] + rest)
  {
    var r := [s[0]] + rest;
    forall i, j | 0 <= i < j < |r|
      ensures Tie(r[i], r[j]) ==> r[i].0 < r[j].0
    {
      assert r[j] == rest[j - 1];
      if i > 0 {
        assert r[i] == rest[i - 1];
      } else if rest[j - 1] != x {
        assert rest[j - 1] in multiset(rest);
        var k :| 0 <= k < |s[1..]| && s[1..][k] == rest[j - 1];
        assert s[k + 1] == rest[j - 1];
      }
    }
  }

  /** Inserting passes over every row that ties with the new one, so a row
      with a higher id than its ties keeps ties in id order. */
  lemma {:induction false} InsertKeepsTieOrder(x: (nat, Food), s: seq<(nat, Food)>)
    requires Sorted(s) && TiesInIdOrder(s)
    requires forall i :: 0 <= i < |s| && Tie(s[i], x) ==> s[i].0 < x.0
    ensures TiesInIdOrder(Insert(x, s))
    decreases |s|
  {
    if s != [] {
      if !NotAfter(s[0], x) {
        TieOrderAtFront(x, s);
      } else {
        InsertKeepsTieOrder(x, s[1..]);
        TieOrderPassed(x, s, Insert(x, s[1..]));
      }
    }
  }

  /** Sorting keeps every id below a bound that each row's id is below. */
  lemma SortedBelow(s: seq<(nat, Food)>, x: (nat, Food))
    requires forall i :: 0 <= i < |s| ==> s[i].0 < x.0
    ensures forall i :: 0 <= i < |Sort(s)| ==> Sort(s)[i].0 < x.0
  {
    SortKeepsRows(s);
    forall i | 0 <= i < |Sort(s)|
      ensures Sort(s)[i].0 < x.0
    {
      assert Sort(s)[i] in s;
    }
  }

  /** The sort is stable: rows given in ascending id order keep id order
      among ties. */
  lemma {:induction false} SortKeepsTieOrder(s: seq<(nat, Food)>)
    requires IdsAscending(s)
    ensures TiesInIdOrder(Sort(s))
    decreases |s|
  {
    if s != [] {
      var n := |s| - 1;
      var sorted := Sort(s[..n]);
      SortKeepsTieOrder(s[..n]);
      SortSorted(s[..n]);
      SortedBelow(s[..n], s[n]);
      InsertKeepsTieOrder(s[n], sorted);
    }
  }

  /** Keeping part of a sorted list keeps it sorted. */
  lemma FilterSorted(s: seq<(nat, Food)>, p: ((nat, Food)) -> bool)
    requires Sorted(s)
    ensures Sorted(Filter(s, p))
  {
    FilterKeepsPairs(s, p, NotAfter);
  }

  /** The rows of `foods` in id order that satisfy `p`, sorted. */
  function Query(t: Tables, p: ((nat, Food)) -> bool): seq<(nat, Food)> {
    Sort(Filter(InIdOrder(t.foods, t.nextFood), p))
  }

  lemma QuerySorted(t: Tables, p: ((nat, Food)) -> bool)
    ensures Sorted(Query(t, p))
  {
    SortSorted(Filter(InIdOrder(t.foods, t.nextFood), p));
  }

  /** Rows of a query that agree on category and sort order come in id
      order, as the table lists them. */
  lemma QueryTiesInIdOrder(t: Tables, p: ((nat, Food)) -> bool)
    ensures forall i, j :: 0 <= i < j < |Query(t, p)| && Tie(Query(t, p)[i], Query(t, p)[j]) ==>
      Query(t, p)[i].0 < Query(t, p)[j].0
  {
    var rows := InIdOrder(t.foods, t.nextFood);
    FilterKeepsPairs(rows, p, (x: (nat, Food), y: (nat, Food)) => x.0 < y.0);
    SortKeepsTieOrder(Filter(rows, p));
  }

  /** A query's rows are rows of the table. */
  lemma QueryRowsAreFoods(t: Tables, p: ((nat, Food)) -> bool)
    ensures forall row :: row in Query(t, p) ==> row.0 in t.foods && t.foods[row.0] == row.1 && p(row)
  {
    var s := Filter(InIdOrder(t.foods, t.nextFood), p);
    forall row | row in Query(t, p)
      ensures row in s
    {
      assert row in multiset(Query(t, p));
    }
  }

  /** Sorting neither adds nor drops a row. */
  lemma SortKeepsRows(s: seq<(nat, Food)>)
    ensures forall x :: x in Sort(s) <==> x in s
  {
    forall x
      ensures x in Sort(s) <==> x in s
    {
      assert x in Sort(s) <==> x in multiset(Sort(s));
      assert x in s <==> x in multiset(s);
    }
  }

  /** The rows kept before sorting are the table's rows satisfying the condition. */
  lemma FilteredRows(t: Tables, p: ((nat, Food)) -> bool)
    requires IdsBelowCounters(t)
    ensures forall k, f :: (k, f) in Filter(InIdOrder(t.foods, t.nextFood), p) <==> k in t.foods && f == t.foods[k] && p((k, f))
  {
    var rows := InIdOrder(t.foods, t.nextFood);
    forall k, f
      ensures (k, f) in Filter(rows, p) <==> k in t.foods && f == t.foods[k] && p((k, f))
    {
      FilterMember(rows, p, (k, f));
      if (k, f) in rows {
        var i :| 0 <= i < |rows| && rows[i] == (k, f);
      }
    }
  }

  /** A query holds exactly the rows that satisfy its condition, in ORDER BY order. */
  lemma QueryContents(t: Tables, p: ((nat, Food)) -> bool)
    requires IdsBelowCounters(t)
    ensures Sorted(Query(t, p))
    ensures forall k, f :: (k, f) in Query(t, p) <==> k in t.foods && f == t.foods[k] && p((k, f))
  {
    var s := Filter(InIdOrder(t.foods, t.nextFood), p);
    SortSorted(s);
    SortKeepsRows(s);
    FilteredRows(t, p);
  }

  // --------------------------------------------------------------- index

  /** A query parameter: absent, present but empty (the request then holds
      null), or a non-empty text. */
  datatype Param = Absent | Blank | Text(value: string)

  /** `$request->get(name, default)`: the default only when the parameter is absent. */
  function GetParam(p: Param, default: string): (r: Option<string>)
    ensures p.Absent? ==> r == Some(default)
    ensures p.Blank? ==> r.None?
    ensures p.Text? ==> r == Some(p.value)
  {
    match p
    case Absent => Some(default)
    case Blank => None
    case Text(v) => Some(v)
  }

  /** `where category = ?`: null matches no row, categories being required. */
  predicate CategoryMatches(f: Food, category: Param) {
    match category
    case Absent => true
    case Blank => false
    case Text(c) => f.category == c
  }

  /** `where is_active = true`, and the category condition when the parameter is present. */
  predicate OnMenu(f: Food, category: Param) {
    f.isActive && CategoryMatches(f, category)
  }

  /** `pluck('price', 'size_name')`: later rows overwrite an earlier size name. */
  function Pluck(rows: seq<(nat, PortionSize)>): Record<real> {
    if rows == [] then []
    else
      var last := rows[|rows| - 1].1;
      Put(Pluck(rows[..|rows| - 1]), last.sizeName, last.price)
  }

  /** A food's prices keyed by size name, in id order. */
  function PriceMap(t: Tables, foodId: nat): Record<real> {
    Pluck(SizesOf(t, foodId))
  }

  /** With no size name repeated, the price map lists every row's name and price. */
  lemma {:induction false} PluckDistinct(rows: seq<(nat, PortionSize)>)
    requires forall i, j :: 0 <= i < j < |rows| ==> rows[i].1.sizeName != rows[j].1.sizeName
    ensures Pluck(rows) == seq(|rows|, i requires 0 <= i < |rows| => (rows[i].1.sizeName, rows[i].1.price))
    decreases |rows|
  {
    if rows != [] {
      var n := |rows| - 1;
      var front, last := rows[..n], rows[n].1;
      PluckDistinct(front);
      var r := Pluck(front);
      assert |r| == n;
      assert last.sizeName !in Keys(r) by {
        forall i | 0 <= i < n
          ensures Keys(r)[i] != last.sizeName
        {
          assert r[i].0 == front[i].1.sizeName == rows[i].1.sizeName;
        }
      }
      assert Pluck(rows) == r + [(last.sizeName, last.price)];
    }
  }

  /** In a consistent store a food's price map has one entry per portion
      size, in id order: its name and its price. */
  lemma PriceMapOfSizes(t: Tables, foodId: nat)
    requires Consistent(t)
    ensures var rows := SizesOf(t, foodId);
      PriceMap(t, foodId) == seq(|rows|, i requires 0 <= i < |rows| => (rows[i].1.sizeName, rows[i].1.price))
  {
    var rows := SizesOf(t, foodId);
    SizesOfDistinct(t, foodId);
    forall i, j | 0 <= i < j < |rows|
      ensures rows[i].1.sizeName != rows[j].1.sizeName
    {
      assert rows[i].0 != rows[j].0;
    }
    PluckDistinct(rows);
  }

  lemma SizesOfDistinct(t: Tables, foodId: nat)
    ensures var rows := SizesOf(t, foodId); forall i, j :: 0 <= i < j < |rows| ==> rows[i].0 < rows[j].0
  {
    FilterKeepsPairs(InIdOrder(t.sizes, t.nextSize), (row: (nat, PortionSize)) => row.1.foodId == foodId,
                     (a: (nat, PortionSize), b: (nat, PortionSize)) => a.0 < b.0);
  }

  /** One food of the menu as the page receives it. */
  datatype MenuFood = MenuFood(
    id: nat, name: string, description: Option<string>, image: Option<string>,
    category: string, portionSizes: Record<real>)

  function MenuFoodOf(t: Tables, row: (nat, Food)): MenuFood {
    MenuFood(row.0, row.1.name, row.1.description, row.1.image, row.1.category, PriceMap(t, row.0))
  }

  function RowCategory(row: (nat, Food)): string {
    row.1.category
  }

  function MenuFilter(category: Param): ((nat, Food)) -> bool {
    (row: (nat, Food)) => OnMenu(row.1, category)
  }

  /** The rows `index` fetches. */
  function MenuRows(t: Tables, category: Param): seq<(nat, Food)> {
    Query(t, MenuFilter(category))
  }

  /** One group's rows, each mapped to what the page receives. */
  function MenuGroup(t: Tables, rows: seq<(nat, Food)>): (r: seq<MenuFood>)
    ensures |r| == |rows| && forall i :: 0 <= i < |r| ==> r[i] == MenuFoodOf(t, rows[i])
  {
    seq(|rows|, i requires 0 <= i < |rows| => MenuFoodOf(t, rows[i]))
  }

  /** The rows grouped by category, the categories in first-occurrence
      order, each group mapped to what the page receives. */
  function Grouped(t: Tables, rows: seq<(nat, Food)>): (r: Record<seq<MenuFood>>)
    ensures forall k :: k in GroupBy(rows, RowCategory).keys ==> k in GroupBy(rows, RowCategory).members
    ensures |r| == |GroupBy(rows, RowCategory).keys|
    ensures forall i :: 0 <= i < |r| ==>
      r[i] == (GroupBy(rows, RowCategory).keys[i],
               MenuGroup(t, GroupBy(rows, RowCategory).members[GroupBy(rows, RowCategory).keys[i]]))
  {
    var g := GroupBy(rows, RowCategory);
    GroupByKeys(rows, RowCategory);
    seq(|g.keys|, i requires 0 <= i < |g.keys| => (g.keys[i], MenuGroup(t, g.members[g.keys[i]])))
  }

  /** `index`: the fetched rows grouped by category, then each group mapped. */
  function Index(t: Tables, category: Param): Record<seq<MenuFood>> {
    Grouped(t, MenuRows(t, category))
  }

  /** No category is listed twice. */
  lemma GroupedDistinct(t: Tables, rows: seq<(nat, Food)>)
    ensures DistinctKeys(Grouped(t, rows))
  {
    GroupByKeys(rows, RowCategory);
  }

  /** Every group is a non-empty list of foods of its own category, and no
      category is listed twice. */
  lemma GroupedShape(t: Tables, rows: seq<(nat, Food)>)
    ensures DistinctKeys(Grouped(t, rows))
    ensures forall i :: 0 <= i < |Grouped(t, rows)| ==> Grouped(t, rows)[i].1 != []
    ensures forall i, j :: 0 <= i < |Grouped(t, rows)| && 0 <= j < |Grouped(t, rows)[i].1| ==>
      Grouped(t, rows)[i].1[j].category == Grouped(t, rows)[i].0
  {
    var g := GroupBy(rows, RowCategory);
    var r := Grouped(t, rows);
    GroupedDistinct(t, rows);
    NoEmptyGroup(rows, RowCategory);
    forall i, j | 0 <= i < |r| && 0 <= j < |r[i].1|
      ensures r[i].1[j].category == r[i].0
    {
      var k := g.keys[i];
      GroupIsFilter(rows, RowCategory, k);
      assert r[i].1[j] == MenuFoodOf(t, g.members[k][j]);
      assert HasKey(RowCategory, k)(g.members[k][j]);
    }
  }

  /** Category `c` is listed with the mapped rows of that category, or not
      at all when no row has it. */
  lemma {:induction false} GroupedLookup(t: Tables, rows: seq<(nat, Food)>, c: string)
    ensures Lookup(Grouped(t, rows), c).GetOr([]) == MenuGroup(t, Filter(rows, HasKey(RowCategory, c)))
  {
    var r := Grouped(t, rows);
    var g := GroupBy(rows, RowCategory);
    var picked := Filter(rows, HasKey(RowCategory, c));
    GroupIsFilter(rows, RowCategory, c);
    GroupByKeys(rows, RowCategory);
    if c in g.members {
      assert g.members[c] == picked;
      var i :| 0 <= i < |g.keys| && g.keys[i] == c;
      assert r[i] == (c, MenuGroup(t, picked));
      GroupedDistinct(t, rows);
      LookupAt(r, i);
    } else {
      assert picked == [];
      assert c !in Keys(r) by {
        forall i | 0 <= i < |r| ensures r[i].0 != c {
          assert r[i].0 == g.keys[i];
        }
      }
      assert Lookup(r, c) == None;
    }
  }

  /** A food in some group is one of the rows, as the page receives it. */
  lemma GroupedFoodIsRow(t: Tables, rows: seq<(nat, Food)>, i: nat, j: nat)
    requires i < |Grouped(t, rows)| && j < |Grouped(t, rows)[i].1|
    ensures exists x :: 0 <= x < |rows| && Grouped(t, rows)[i].1[j] == MenuFoodOf(t, rows[x])
  {
    var g := GroupBy(rows, RowCategory);
    var k := g.keys[i];
    GroupIsFilter(rows, RowCategory, k);
    var row := g.members[k][j];
    assert Grouped(t, rows)[i].1[j] == MenuFoodOf(t, row);
    assert row in rows;
    var x :| 0 <= x < |rows| && rows[x] == row;
  }

  /** Every row appears in the group of its category. */
  lemma RowInGrouped(t: Tables, rows: seq<(nat, Food)>, x: nat)
    requires x < |rows|
    ensures exists i, j ::
      0 <= i < |Grouped(t, rows)| && 0 <= j < |Grouped(t, rows)[i].1| && Grouped(t, rows)[i].1[j] == MenuFoodOf(t, rows[x])
  {
    var g := GroupBy(rows, RowCategory);
    var c := RowCategory(rows[x]);
    GroupOfElement(rows, RowCategory, x, c);
    GroupByKeys(rows, RowCategory);
    var i :| 0 <= i < |g.keys| && g.keys[i] == c;
    var y :| 0 <= y < |g.members[c]| && g.members[c][y] == rows[x];
    assert Grouped(t, rows)[i].1[y] == MenuFoodOf(t, rows[x]);
  }

  /** Sorted rows give their categories in ascending order. */
  lemma GroupedCategoryOrder(t: Tables, rows: seq<(nat, Food)>)
    requires Sorted(rows)
    ensures forall i, j :: 0 <= i < j < |Grouped(t, rows)| ==> Below(Grouped(t, rows)[i].0, Grouped(t, rows)[j].0)
  {
    var g := GroupBy(rows, RowCategory);
    KeysInFirstOccurrenceOrder(rows, RowCategory);
    GroupByKeys(rows, RowCategory);
    forall i, j | 0 <= i < j < |g.keys|
      ensures Below(g.keys[i], g.keys[j])
    {
      var a, b := FirstIndex(rows, RowCategory, g.keys[i]), FirstIndex(rows, RowCategory, g.keys[j]);
      assert NotAfter(rows[a], rows[b]);
    }
  }

  /** A group of sorted rows is in ascending sort order. */
  lemma {:induction false} GroupSortOrder(rows: seq<(nat, Food)>, k: string)
    requires Sorted(rows)
    requires k in GroupBy(rows, RowCategory).members
    ensures forall a :: 0 <= a < |GroupBy(rows, RowCategory).members[k]| ==> GroupBy(rows, RowCategory).members[k][a] in rows
    ensures forall a, b :: 0 <= a < b < |GroupBy(rows, RowCategory).members[k]| ==>
      GroupBy(rows, RowCategory).members[k][a].1.sortOrder <= GroupBy(rows, RowCategory).members[k][b].1.sortOrder
  {
    var group := GroupBy(rows, RowCategory).members[k];
    GroupKeepsPairs(rows, RowCategory, k, NotAfter);
    GroupIsFilter(rows, RowCategory, k);
    BelowIrreflexive(k);
    forall a, b | 0 <= a < b < |group|
      ensures group[a].1.sortOrder <= group[b].1.sortOrder
    {
      assert HasKey(RowCategory, k)(group[a]) && HasKey(RowCategory, k)(group[b]);
      assert NotAfter(group[a], group[b]);
    }
  }

  /** Sorted rows of the table give groups in ascending sort order. */
  lemma GroupedSortOrder(t: Tables, rows: seq<(nat, Food)>, i: nat)
    requires Sorted(rows)
    requires forall row :: row in rows ==> row.0 in t.foods && t.foods[row.0] == row.1
    requires i < |Grouped(t, rows)|
    ensures forall a :: 0 <= a < |Grouped(t, rows)[i].1| ==> Grouped(t, rows)[i].1[a].id in t.foods
    ensures forall a, b :: 0 <= a < b < |Grouped(t, rows)[i].1| ==>
      t.foods[Grouped(t, rows)[i].1[a].id].sortOrder <= t.foods[Grouped(t, rows)[i].1[b].id].sortOrder
  {
    var g := GroupBy(rows, RowCategory);
    var group := g.members[g.keys[i]];
    var foods := Grouped(t, rows)[i].1;
    GroupSortOrder(rows, g.keys[i]);
    assert forall a :: 0 <= a < |foods| ==> foods[a] == MenuFoodOf(t, group[a]) && group[a] in rows;
  }

  /** Every group of `index` is a non-empty list of foods of its own
      category, and no category is listed twice. */
  lemma IndexGroups(t: Tables, category: Param)
    ensures DistinctKeys(Index(t, category))
    ensures forall i :: 0 <= i < |Index(t, category)| ==> Index(t, category)[i].1 != []
    ensures forall i, j :: 0 <= i < |Index(t, category)| && 0 <= j < |Index(t, category)[i].1| ==>
      Index(t, category)[i].1[j].category == Index(t, category)[i].0
  {
    GroupedShape(t, MenuRows(t, category));
  }

  /** A food in some group of `index` is a fetched row, as the page receives it. */
  lemma IndexFoodIsRow(t: Tables, category: Param, i: nat, j: nat)
    requires i < |Index(t, category)| && j < |Index(t, category)[i].1|
    ensures exists x :: 0 <= x < |MenuRows(t, category)| && Index(t, category)[i].1[j] == MenuFoodOf(t, MenuRows(t, category)[x])
  {
    GroupedFoodIsRow(t, MenuRows(t, category), i, j);
  }

  /** A fetched row appears in the group of its category. */
  lemma RowInIndex(t: Tables, category: Param, x: nat)
    requires x < |MenuRows(t, category)|
    ensures exists i, j ::
      0 <= i < |Index(t, category)| && 0 <= j < |Index(t, category)[i].1| &&
      Index(t, category)[i].1[j] == MenuFoodOf(t, MenuRows(t, category)[x])
  {
    var rows := MenuRows(t, category);
    RowInGrouped(t, rows, x);
    var i, j :| 0 <= i < |Grouped(t, rows)| && 0 <= j < |Grouped(t, rows)[i].1| &&
      Grouped(t, rows)[i].1[j] == MenuFoodOf(t, rows[x]);
    assert Index(t, category)[i].1[j] == MenuFoodOf(t, rows[x]);
  }

  /** Every food `index` lists is an active food (of the requested
      category), as its own row with its own price map. */
  lemma IndexFoodsAreActive(t: Tables, category: Param)
    ensures forall i, j :: 0 <= i < |Index(t, category)| && 0 <= j < |Index(t, category)[i].1| ==>
      var m := Index(t, category)[i].1[j];
      m.id in t.foods && OnMenu(t.foods[m.id], category) && m == MenuFoodOf(t, (m.id, t.foods[m.id]))
  {
    var rows := MenuRows(t, category);
    var r := Index(t, category);
    QueryRowsAreFoods(t, MenuFilter(category));
    forall i, j | 0 <= i < |r| && 0 <= j < |r[i].1|
      ensures var m := r[i].1[j];
        m.id in t.foods && OnMenu(t.foods[m.id], category) && m == MenuFoodOf(t, (m.id, t.foods[m.id]))
    {
      GroupedFoodIsRow(t, rows, i, j);
      var x :| 0 <= x < |rows| && r[i].1[j] == MenuFoodOf(t, rows[x]);
      var row := rows[x];
      assert row in rows;
      assert row.0 in t.foods && t.foods[row.0] == row.1 && MenuFilter(category)(row);
    }
  }

  /** `index` lists exactly the active foods (of the requested category),
      each as its own row with its own price map. */
  lemma IndexListsActiveFoods(t: Tables, category: Param, k: nat)
    requires IdsBelowCounters(t)
    ensures (exists i, j ::
               0 <= i < |Index(t, category)| && 0 <= j < |Index(t, category)[i].1| && Index(t, category)[i].1[j].id == k)
      <==> k in t.foods && OnMenu(t.foods[k], category)
    ensures forall i, j :: 0 <= i < |Index(t, category)| && 0 <= j < |Index(t, category)[i].1| ==>
      var m := Index(t, category)[i].1[j];
      m.id in t.foods && OnMenu(t.foods[m.id], category) && m == MenuFoodOf(t, (m.id, t.foods[m.id]))
  {
    var rows := MenuRows(t, category);
    var r := Index(t, category);
    IndexFoodsAreActive(t, category);
    if k in t.foods && OnMenu(t.foods[k], category) {
      QueryContents(t, MenuFilter(category));
      assert MenuFilter(category)((k, t.foods[k]));
      assert (k, t.foods[k]) in rows;
      var x :| 0 <= x < |rows| && rows[x] == (k, t.foods[k]);
      RowInGrouped(t, rows, x);
      var i, j :| 0 <= i < |r| && 0 <= j < |r[i].1| && r[i].1[j] == MenuFoodOf(t, rows[x]);
      assert r[i].1[j].id == k;
    }
  }

  /** Categories come in ascending order. */
  lemma IndexOrder(t: Tables, category: Param)
    ensures forall i, j :: 0 <= i < j < |Index(t, category)| ==> Below(Index(t, category)[i].0, Index(t, category)[j].0)
  {
    QuerySorted(t, MenuFilter(category));
    GroupedCategoryOrder(t, MenuRows(t, category));
  }

  /** Within a group, foods come in ascending sort order. */
  lemma IndexGroupSortOrder(t: Tables, category: Param, i: nat)
    requires i < |Index(t, category)|
    ensures forall a :: 0 <= a < |Index(t, category)[i].1| ==> Index(t, category)[i].1[a].id in t.foods
    ensures forall a, b :: 0 <= a < b < |Index(t, category)[i].1| ==>
      t.foods[Index(t, category)[i].1[a].id].sortOrder <= t.foods[Index(t, category)[i].1[b].id].sortOrder
  {
    QuerySorted(t, MenuFilter(category));
    QueryRowsAreFoods(t, MenuFilter(category));
    GroupedSortOrder(t, MenuRows(t, category), i);
  }

  // --------------------------------------------------------------- foods

  /** The admin filters: a category other than "all", and a status of
      "active" or "inactive" (any other status lists every food). */
  predicate AdminListed(f: Food, category: Param, status: Param) {
    && (category == Text("all") || CategoryMatches(f, category))
    && (status == Text("active") ==> f.isActive)
    && (status == Text("inactive") ==> !f.isActive)
  }

  datatype AdminSize = AdminSize(id: nat, sizeName: string, price: real)

  datatype AdminFood = AdminFood(
    id: nat, name: string, description: Option<string>, image: Option<string>,
    category: string, isActive: bool, sortOrder: int, portionSizes: seq<AdminSize>)

  datatype Counts = Counts(total: nat, active: nat, inactive: nat)

  /** The filters echoed back to the page, "all" when absent. */
  datatype Filters = Filters(category: Option<string>, status: Option<string>)

  datatype FoodsPage = FoodsPage(foods: seq<AdminFood>, categories: seq<string>, counts: Counts, filters: Filters)

  function AdminSizes(t: Tables, foodId: nat): (r: seq<AdminSize>)
    ensures var rows := SizesOf(t, foodId);
      |r| == |rows| && forall i :: 0 <= i < |r| ==> r[i] == AdminSize(rows[i].0, rows[i].1.sizeName, rows[i].1.price)
  {
    var rows := SizesOf(t, foodId);
    seq(|rows|, i requires 0 <= i < |rows| => AdminSize(rows[i].0, rows[i].1.sizeName, rows[i].1.price))
  }

  function AdminFoodOf(t: Tables, row: (nat, Food)): AdminFood {
    var f := row.1;
    AdminFood(row.0, f.name, f.description, f.image, f.category, f.isActive, f.sortOrder, AdminSizes(t, row.0))
  }

  /** Insert a category into an ascending list without repeating it. */
  function InsertCategory(c: string, s: seq<string>): (r: seq<string>)
    ensures forall x :: x in r <==> x == c || x in s
  {
    if s == [] then [c]
    else if c == s[0] then s
    else if Below(c, s[0]) then [c] + s
    else [s[0]] + InsertCategory(c, s[1..])
  }

  predicate Ascending(s: seq<string>) {
    forall i, j :: 0 <= i < j < |s| ==> Below(s[i], s[j])
  }

  lemma {:induction false} InsertCategoryAscending(c: string, s: seq<string>)
    requires Ascending(s)
    ensures Ascending(InsertCategory(c, s))
    decreases |s|
  {
    if s != [] && c != s[0] {
      if Below(c, s[0]) {
        forall j | 0 < j < |s|
          ensures Below(c, s[j])
        {
          BelowTransitive(c, s[0], s[j]);
        }
      } else {
        InsertCategoryAscending(c, s[1..]);
        BelowTotal(c, s[0]);
        var rest := InsertCategory(c, s[1..]);
        forall x | x in rest
          ensures Below(s[0], x)
        {
          if x != c {
            var j :| 1 <= j < |s| && s[j] == x;
          }
        }
      }
    }
  }

  /** `select distinct category order by category`. */
  function Categories(rows: seq<(nat, Food)>): seq<string> {
    if rows == [] then []
    else InsertCategory(rows[|rows| - 1].1.category, Categories(rows[..|rows| - 1]))
  }

  lemma {:induction false} CategoriesListed(rows: seq<(nat, Food)>)
    ensures Ascending(Categories(rows))
    ensures forall c :: c in Categories(rows) <==> exists i :: 0 <= i < |rows| && rows[i].1.category == c
    decreases |rows|
  {
    if rows != [] {
      var n := |rows| - 1;
      var front := rows[..n];
      CategoriesListed(front);
      InsertCategoryAscending(rows[n].1.category, Categories(front));
      assert Categories(rows) == InsertCategory(rows[n].1.category, Categories(front));
      forall c
        ensures c in Categories(rows) <==> exists i :: 0 <= i < |rows| && rows[i].1.category == c
      {
        if c in Categories(front) {
          var i :| 0 <= i < |front| && front[i].1.category == c;
          assert rows[i] == front[i];
        }
        if exists i :: 0 <= i < |rows| && rows[i].1.category == c {
          var i :| 0 <= i < |rows| && rows[i].1.category == c;
          if i < n {
            assert front[i] == rows[i];
          }
        }
      }
    }
  }

  /** The ids of the active foods. */
  function ActiveIds(t: Tables): set<nat> {
    set k | k in t.foods && t.foods[k].isActive
  }

  /** The ids of the inactive foods. */
  function InactiveIds(t: Tables): set<nat> {
    set k | k in t.foods && !t.foods[k].isActive
  }

  function FoodCounts(t: Tables): Counts {
    Counts(|t.foods|, |ActiveIds(t)|, |InactiveIds(t)|)
  }

  /** Every food is counted as active or inactive, never both. */
  lemma CountsAddUp(t: Tables)
    ensures FoodCounts(t).active + FoodCounts(t).inactive == FoodCounts(t).total
  {
    var active, inactive := ActiveIds(t), InactiveIds(t);
    assert active + inactive == t.foods.Keys;
    assert active * inactive == {};
    assert |t.foods| == |t.foods.Keys|;
    DisjointSizes(active, inactive);
  }

  lemma DisjointSizes(a: set<nat>, b: set<nat>)
    requires a * b == {}
    ensures |a + b| == |a| + |b|
  {
    assert |a + b| + |a * b| == |a| + |b|;
  }

  function AdminFilter(category: Param, status: Param): ((nat, Food)) -> bool {
    (row: (nat, Food)) => AdminListed(row.1, category, status)
  }

  function AdminRows(t: Tables, category: Param, status: Param): seq<(nat, Food)> {
    Query(t, AdminFilter(category, status))
  }

  /** `foods`: the filtered list, the categories of all foods, the counts and the filters. */
  function Foods(t: Tables, category: Param, status: Param): (page: FoodsPage)
    ensures |page.foods| == |AdminRows(t, category, status)|
    ensures forall i :: 0 <= i < |page.foods| ==> page.foods[i] == AdminFoodOf(t, AdminRows(t, category, status)[i])
    ensures page.categories == Categories(InIdOrder(t.foods, t.nextFood))
    ensures page.counts == FoodCounts(t)
    ensures page.filters == Filters(GetParam(category, "all"), GetParam(status, "all"))
  {
    var rows := AdminRows(t, category, status);
    FoodsPage(seq(|rows|, i requires 0 <= i < |rows| => AdminFoodOf(t, rows[i])),
              Categories(InIdOrder(t.foods, t.nextFood)), FoodCounts(t),
              Filters(GetParam(category, "all"), GetParam(status, "all")))
  }

  /** The admin list follows its sorted rows, food by food. */
  lemma FoodsInRowOrder(t: Tables, category: Param, status: Param)
    ensures var rows := AdminRows(t, category, status);
      var foods := Foods(t, category, status).foods;
      && Sorted(rows) && |foods| == |rows|
      && forall i :: 0 <= i < |foods| ==> foods[i].category == rows[i].1.category
  {
    QuerySorted(t, AdminFilter(category, status));
  }

  /** The admin list holds exactly the foods the filters keep, in ORDER BY
      order; "active" keeps only active foods, "inactive" only inactive ones,
      and any other status keeps every food of the category. */
  lemma FoodsListed(t: Tables, category: Param, status: Param)
    requires IdsBelowCounters(t)
    ensures var rows := AdminRows(t, category, status);
      && Sorted(rows)
      && forall k, f :: (k, f) in rows <==> k in t.foods && f == t.foods[k] && AdminListed(f, category, status)
    ensures status != Text("active") && status != Text("inactive") ==>
      forall k :: k in t.foods && (category == Text("all") || CategoryMatches(t.foods[k], category)) ==>
        (k, t.foods[k]) in AdminRows(t, category, status)
  {
    var p := AdminFilter(category, status);
    var rows := AdminRows(t, category, status);
    QueryContents(t, p);
    assert rows == Query(t, p);
    forall k, f
      ensures (k, f) in rows <==> k in t.foods && f == t.foods[k] && AdminListed(f, category, status)
    {
      assert p((k, f)) == AdminListed(f, category, status);
    }
  }

  /** The categories offered as filters are every food's category, once each, ascending. */
  lemma FoodsCategories(t: Tables, category: Param, status: Param)
    requires IdsBelowCounters(t)
    ensures var cs := Foods(t, category, status).categories;
      Ascending(cs) && forall c :: c in cs <==> exists k :: k in t.foods && t.foods[k].category == c
  {
    var rows := InIdOrder(t.foods, t.nextFood);
    CategoriesListed(rows);
    forall k | k in t.foods
      ensures (k, t.foods[k]) in rows
    {
    }
  }
}
