/** The food controller's `store` and `update`. `store` inserts a food and
    one portion-size row per submitted entry; `update` rewrites the food,
    reconciles the submitted entries with the food's existing rows by id
    (update in place, or create), and then deletes the rows no entry named.
    Each runs inside one transaction: a refused write rolls back everything.
    The uploaded image of `store` is an input (the path the upload was moved
    to); moving and deleting the file are not modelled. */
module FoodAdmin {
  import opened Common
  import opened Schema
  import opened FoodValidation

  /** The foods row both actions write: is_active defaults to true and
      sort_order to 0. */
  function FoodRow(v: ValidFood, image: Option<string>): (f: Food)
    ensures f.name == v.name && f.category == v.category && f.description == v.description && f.image == image
    ensures f.isActive <==> v.isActive != Some(false)
    ensures v.sortOrder.None? ==> f.sortOrder == 0
    ensures v.sortOrder.Some? ==> f.sortOrder == v.sortOrder.value
  {
    Food(v.name, v.description, image, v.category, v.isActive.GetOr(true), v.sortOrder.GetOr(DefaultSortOrder))
  }

  /** The sort order of the entry at `index`: its own, or else its position. */
  function EntrySortOrder(e: ValidSize, index: nat): int {
    e.sortOrder.GetOr(index)
  }

  /** The row the entry at `index` describes for food `foodId`. */
  function SizeRow(foodId: nat, e: ValidSize, index: nat): PortionSize {
    PortionSize(foodId, e.sizeName, e.price, EntrySortOrder(e, index))
  }

  /** A food's portion-size ids. */
  function ExistingIds(t: Tables, foodId: nat): (ids: set<nat>)
    ensures forall k :: k in ids <==> k in t.sizes && t.sizes[k].foodId == foodId
  {
    set k | k in t.sizes && t.sizes[k].foodId == foodId
  }

  function Elements(ids: seq<nat>): (r: set<nat>)
    ensures forall k :: k in r <==> k in ids
  {
    set k | k in ids
  }

  // ----------------------------------------------------------------- store

  /** The `store` loop: one INSERT per entry, in order, stopping at the first refusal. */
  function CreateSizes(t: Tables, foodId: nat, sizes: seq<ValidSize>): Result<(Tables, seq<nat>), Violation>
    decreases |sizes|
  {
    if sizes == [] then Ok((t, []))
    else
      var n := |sizes| - 1;
      match CreateSizes(t, foodId, sizes[..n])
      case Err(e) => Err(e)
      case Ok((t1, ids)) =>
        match InsertSize(t1, foodId, sizes[n].sizeName, sizes[n].price, Some(EntrySortOrder(sizes[n], n)))
        case Err(e) => Err(e)
        case Ok((t2, id)) => Ok((t2, ids + [id]))
  }

  /** No two entries share a size name. */
  predicate DistinctSizeNames(sizes: seq<ValidSize>) {
    forall i, j :: 0 <= i < j < |sizes| ==> sizes[i].sizeName != sizes[j].sizeName
  }

  /** What the `store` loop writes for a food that has no rows yet: rows
      numbered from the size counter on, one per entry, in order. */
  ghost predicate CreatedRows(t: Tables, foodId: nat, sizes: seq<ValidSize>, t2: Tables, ids: seq<nat>) {
    && t2 == t.(sizes := t2.sizes, nextSize := t.nextSize + |sizes|)
    && |ids| == |sizes|
    && (forall i :: 0 <= i < |ids| ==> ids[i] == t.nextSize + i)
    && (forall k :: k in t2.sizes <==> k in t.sizes || t.nextSize <= k < t.nextSize + |sizes|)
    && (forall k :: k in t.sizes ==> t2.sizes[k] == t.sizes[k])
    && (forall k :: t.nextSize <= k < t.nextSize + |sizes| ==>
          k in t2.sizes && t2.sizes[k] == SizeRow(foodId, sizes[k - t.nextSize], k - t.nextSize))
  }

  /** A successful `store` loop changes only food_portion_sizes and its
      counter, and allocates the next ids in order. */
  lemma {:induction false} CreateSizesFrame(t: Tables, foodId: nat, sizes: seq<ValidSize>)
    requires CreateSizes(t, foodId, sizes).Ok?
    ensures var (t2, ids) := CreateSizes(t, foodId, sizes).value;
      && t2 == t.(sizes := t2.sizes, nextSize := t.nextSize + |sizes|)
      && |ids| == |sizes|
      && (forall i :: 0 <= i < |ids| ==> ids[i] == t.nextSize + i)
    decreases |sizes|
  {
    if sizes != [] {
      var n := |sizes| - 1;
      var prefix := sizes[..n];
      CreateSizesFrame(t, foodId, prefix);
      var (t1, ids) := CreateSizes(t, foodId, prefix).value;
      var e := sizes[n];
      var inserted := InsertSize(t1, foodId, e.sizeName, e.price, Some(EntrySortOrder(e, n)));
      var (t2, id) := inserted.value;
      assert CreateSizes(t, foodId, sizes).value == (t2, ids + [id]);
      assert forall i :: 0 <= i < n ==> (ids + [id])[i] == ids[i];
    }
  }

  lemma {:induction false} CreateSizesKeys(t: Tables, foodId: nat, sizes: seq<ValidSize>)
    requires forall k :: k in t.sizes ==> k < t.nextSize
    requires CreateSizes(t, foodId, sizes).Ok?
    ensures var t2 := CreateSizes(t, foodId, sizes).value.0;
      && (forall k :: k in t2.sizes <==> k in t.sizes || t.nextSize <= k < t.nextSize + |sizes|)
      && (forall k :: k in t.sizes ==> t2.sizes[k] == t.sizes[k])
    decreases |sizes|
  {
    if sizes != [] {
      var n := |sizes| - 1;
      var prefix := sizes[..n];
      CreateSizesKeys(t, foodId, prefix);
      CreateSizesFrame(t, foodId, prefix);
      var (t1, ids) := CreateSizes(t, foodId, prefix).value;
      var e := sizes[n];
      var inserted := InsertSize(t1, foodId, e.sizeName, e.price, Some(EntrySortOrder(e, n)));
      var (t2, id) := inserted.value;
      assert CreateSizes(t, foodId, sizes).value.0 == t2;
      assert id == t.nextSize + n && t2.sizes == t1.sizes[id := t2.sizes[id]];
    }
  }

  /** One step of the `store` loop: the next entry's row under the next id. */
  lemma {:induction false} CreateSizesStep(t: Tables, foodId: nat, sizes: seq<ValidSize>)
    requires sizes != [] && CreateSizes(t, foodId, sizes).Ok?
    ensures var n := |sizes| - 1;
      && CreateSizes(t, foodId, sizes[..n]).Ok?
      && CreateSizes(t, foodId, sizes).value.0.sizes ==
           CreateSizes(t, foodId, sizes[..n]).value.0.sizes[t.nextSize + n := SizeRow(foodId, sizes[n], n)]
  {
    var n := |sizes| - 1;
    CreateSizesFrame(t, foodId, sizes[..n]);
  }

  /** The rows of `sizes`, entry `i` under id `base + i`. */
  ghost predicate RowsFrom(s: map<nat, PortionSize>, base: nat, foodId: nat, sizes: seq<ValidSize>) {
    forall k :: base <= k < base + |sizes| ==> k in s && s[k] == SizeRow(foodId, sizes[k - base], k - base)
  }

  /** The rows written after one more entry: those before it, and its own. */
  lemma RowsFromStep(s1: map<nat, PortionSize>, s2: map<nat, PortionSize>, base: nat, foodId: nat,
                     sizes: seq<ValidSize>, n: nat)
    requires n + 1 == |sizes| && RowsFrom(s1, base, foodId, sizes[..n])
    requires s2 == s1[base + n := SizeRow(foodId, sizes[n], n)]
    ensures RowsFrom(s2, base, foodId, sizes)
  {
    forall k | base <= k < base + |sizes|
      ensures k in s2 && s2[k] == SizeRow(foodId, sizes[k - base], k - base)
    {
      if k < base + n {
        assert sizes[..n][k - base] == sizes[k - base];
      }
    }
  }

  lemma {:induction false} CreateSizesRowsFrom(t: Tables, foodId: nat, sizes: seq<ValidSize>)
    requires CreateSizes(t, foodId, sizes).Ok?
    ensures RowsFrom(CreateSizes(t, foodId, sizes).value.0.sizes, t.nextSize, foodId, sizes)
    decreases |sizes|
  {
    if sizes != [] {
      var n := |sizes| - 1;
      CreateSizesStep(t, foodId, sizes);
      CreateSizesRowsFrom(t, foodId, sizes[..n]);
      RowsFromStep(CreateSizes(t, foodId, sizes[..n]).value.0.sizes, CreateSizes(t, foodId, sizes).value.0.sizes,
                   t.nextSize, foodId, sizes, n);
    }
  }

  lemma CreateSizesRowsAt(t: Tables, foodId: nat, sizes: seq<ValidSize>)
    requires CreateSizes(t, foodId, sizes).Ok?
    ensures var t2 := CreateSizes(t, foodId, sizes).value.0;
      forall k :: t.nextSize <= k < t.nextSize + |sizes| ==>
        k in t2.sizes && t2.sizes[k] == SizeRow(foodId, sizes[k - t.nextSize], k - t.nextSize)
  {
    CreateSizesRowsFrom(t, foodId, sizes);
  }

  lemma CreateSizesShape(t: Tables, foodId: nat, sizes: seq<ValidSize>)
    requires IdsBelowCounters(t)
    requires CreateSizes(t, foodId, sizes).Ok?
    ensures var (t2, ids) := CreateSizes(t, foodId, sizes).value; CreatedRows(t, foodId, sizes, t2, ids)
  {
    CreateSizesFrame(t, foodId, sizes);
    CreateSizesKeys(t, foodId, sizes);
    CreateSizesRowsAt(t, foodId, sizes);
  }

  /** The next entry is inserted exactly when its name is still free for this food. */
  lemma {:induction false} CreateSizesStepOk(t: Tables, foodId: nat, sizes: seq<ValidSize>)
    requires sizes != [] && foodId in t.foods
    ensures var n := |sizes| - 1;
      CreateSizes(t, foodId, sizes).Ok? <==>
        && CreateSizes(t, foodId, sizes[..n]).Ok?
        && !SizeNameTaken(CreateSizes(t, foodId, sizes[..n]).value.0, foodId, sizes[n].sizeName, None)
  {
    var n := |sizes| - 1;
    if CreateSizes(t, foodId, sizes[..n]).Ok? {
      CreateSizesFrame(t, foodId, sizes[..n]);
    }
  }

  /** For a food with no rows yet, a name is taken after the first `n`
      entries exactly when one of them has it. */
  lemma CreatedNamesTaken(t: Tables, foodId: nat, sizes: seq<ValidSize>, name: string)
    requires forall k :: k in t.sizes ==> k < t.nextSize
    requires ExistingIds(t, foodId) == {} && CreateSizes(t, foodId, sizes).Ok?
    ensures SizeNameTaken(CreateSizes(t, foodId, sizes).value.0, foodId, name, None) <==>
      exists i :: 0 <= i < |sizes| && sizes[i].sizeName == name
  {
    var (t2, ids) := CreateSizes(t, foodId, sizes).value;
    CreateSizesFrame(t, foodId, sizes);
    CreateSizesKeys(t, foodId, sizes);
    CreateSizesRowsAt(t, foodId, sizes);
    assert forall k :: k in t.sizes ==> t.sizes[k].foodId != foodId by {
      forall k | k in t.sizes ensures t.sizes[k].foodId != foodId {
        assert k !in ExistingIds(t, foodId);
      }
    }
    RowsNamesTaken(t, foodId, sizes, t2, ids, name);
  }

  /** The size names a food has after the `store` loop wrote its rows. */
  lemma RowsNamesTaken(t: Tables, foodId: nat, sizes: seq<ValidSize>, t2: Tables, ids: seq<nat>, name: string)
    requires forall k :: k in t.sizes ==> t.sizes[k].foodId != foodId
    requires CreatedRows(t, foodId, sizes, t2, ids)
    ensures SizeNameTaken(t2, foodId, name, None) <==> exists i :: 0 <= i < |sizes| && sizes[i].sizeName == name
  {
    if SizeNameTaken(t2, foodId, name, None) {
      var k :| k in t2.sizes && t2.sizes[k].foodId == foodId && t2.sizes[k].sizeName == name;
      TakenRowIsEntry(t, foodId, sizes, t2, ids, k);
    } else {
      forall i | 0 <= i < |sizes|
        ensures sizes[i].sizeName != name
      {
        EntryRowWritten(t, foodId, sizes, t2, ids, i);
      }
    }
  }

  /** A row of the food is the row of one of its entries. */
  lemma TakenRowIsEntry(t: Tables, foodId: nat, sizes: seq<ValidSize>, t2: Tables, ids: seq<nat>, k: nat)
    requires forall k :: k in t.sizes ==> t.sizes[k].foodId != foodId
    requires CreatedRows(t, foodId, sizes, t2, ids)
    requires k in t2.sizes && t2.sizes[k].foodId == foodId
    ensures t.nextSize <= k < t.nextSize + |sizes| && t2.sizes[k] == SizeRow(foodId, sizes[k - t.nextSize], k - t.nextSize)
  {
    assert k !in t.sizes;
  }

  /** Each entry's row is written under its id. */
  lemma EntryRowWritten(t: Tables, foodId: nat, sizes: seq<ValidSize>, t2: Tables, ids: seq<nat>, i: nat)
    requires CreatedRows(t, foodId, sizes, t2, ids)
    requires i < |sizes|
    ensures t.nextSize + i in t2.sizes && t2.sizes[t.nextSize + i] == SizeRow(foodId, sizes[i], i)
  {
    var k := t.nextSize + i;
    assert k - t.nextSize == i;
  }

  /** For a food with no rows yet, the `store` loop succeeds exactly when no
      two entries share a size name; a repeated name breaks the unique
      (food_id, size_name) constraint. */
  lemma {:induction false} CreateSizesOkIff(t: Tables, foodId: nat, sizes: seq<ValidSize>)
    requires IdsBelowCounters(t) && foodId in t.foods && ExistingIds(t, foodId) == {}
    ensures CreateSizes(t, foodId, sizes).Ok? <==> DistinctSizeNames(sizes)
    decreases |sizes|
  {
    if sizes != [] {
      var n := |sizes| - 1;
      var prefix := sizes[..n];
      CreateSizesOkIff(t, foodId, prefix);
      CreateSizesStepOk(t, foodId, sizes);
      if CreateSizes(t, foodId, prefix).Ok? {
        CreatedNamesTaken(t, foodId, prefix, sizes[n].sizeName);
        assert forall i :: 0 <= i < n ==> prefix[i] == sizes[i];
      }
      assert DistinctSizeNames(sizes) <==>
        DistinctSizeNames(prefix) && forall i :: 0 <= i < n ==> sizes[i].sizeName != sizes[n].sizeName;
    }
  }

  lemma {:induction false} CreateSizesStopsAtFirstFailure(t: Tables, foodId: nat, sizes: seq<ValidSize>, i: nat)
    requires i <= |sizes| && CreateSizes(t, foodId, sizes[..i]).Err?
    ensures CreateSizes(t, foodId, sizes).Err?
    decreases |sizes| - i
  {
    if i < |sizes| {
      assert sizes[..|sizes| - 1][..i] == sizes[..i];
      CreateSizesStopsAtFirstFailure(t, foodId, sizes[..|sizes| - 1], i);
    } else {
      assert sizes[..i] == sizes;
    }
  }

  /** The outcome of `store`: a redirect to the food list with a success
      message, the failing attributes, or a redirect back with one general
      error. */
  datatype StoreResponse = Created(foodId: nat) | StoreRejected(fields: set<FoodField>) | StoreFailed(general: string)

  const CreatedMessage := "Food created successfully!"
  const CreateFailedMessage := "Failed to create food. Please try again."

  /** The try block of `store`. */
  function CreateFood(t: Tables, v: ValidFood, image: Option<string>): (r: (Tables, StoreResponse))
    ensures !r.1.StoreRejected?
    ensures !r.1.Created? ==> r.0 == t && r.1 == StoreFailed(CreateFailedMessage)
  {
    var (t1, foodId) := InsertFood(t, FoodRow(v, image));
    match CreateSizes(t1, foodId, v.sizes)
    case Err(_) => (t, StoreFailed(CreateFailedMessage))
    case Ok((t2, _)) => (t2, Created(foodId))
  }

  /** `store`: validation, then the transaction. */
  function StoreOutcome(t: Tables, input: FoodInput, image: Option<string>): (r: (Tables, StoreResponse))
    ensures r.1.StoreRejected? <==> !Acceptable(input, Create, t)
    ensures r.1.StoreRejected? ==> r.1.fields == Errors(input, Create, t)
    ensures !r.1.Created? ==> r.0 == t
  {
    match Validate(input, Create, t)
    case Err(fields) => (t, StoreRejected(fields))
    case Ok(v) => CreateFood(t, v, image)
  }

  /** The new food has no portion sizes before the loop runs. */
  lemma NewFoodHasNoSizes(t: Tables, f: Food)
    requires Consistent(t)
    ensures var (t1, foodId) := InsertFood(t, f); ExistingIds(t1, foodId) == {} && foodId in t1.foods
  {
    var (t1, foodId) := InsertFood(t, f);
    forall k | k in t1.sizes
      ensures t1.sizes[k].foodId != foodId
    {
      assert t.sizes[k].foodId in t.foods;
    }
  }

  /** `store` rolls back exactly when two entries share a size name. */
  lemma CreateFoodOkIff(t: Tables, v: ValidFood, image: Option<string>)
    requires Consistent(t)
    ensures CreateFood(t, v, image).1.Created? <==> DistinctSizeNames(v.sizes)
  {
    var (t1, foodId) := InsertFood(t, FoodRow(v, image));
    NewFoodHasNoSizes(t, FoodRow(v, image));
    CreateSizesOkIff(t1, foodId, v.sizes);
  }

  /** A successful `store` creates the food with its defaults and changes no
      other food, user, order, item or existing portion size. */
  lemma CreateFoodWrites(t: Tables, v: ValidFood, image: Option<string>)
    requires Consistent(t) && CreateFood(t, v, image).1.Created?
    ensures var (t2, resp) := CreateFood(t, v, image);
      && resp.foodId == t.nextFood && resp.foodId !in t.foods
      && t2.foods == t.foods[resp.foodId := FoodRow(v, image)]
      && t2.users == t.users && t2.orders == t.orders && t2.items == t.items
      && (forall k :: k in t.sizes ==> k in t2.sizes && t2.sizes[k] == t.sizes[k])
  {
    var (t1, foodId) := InsertFood(t, FoodRow(v, image));
    CreateSizesFrame(t1, foodId, v.sizes);
    CreateSizesKeys(t1, foodId, v.sizes);
  }

  /** The food `store` creates has exactly one row per entry, numbered in
      order, whose sort_order is the entry's own or else its position. */
  lemma CreateFoodRows(t: Tables, v: ValidFood, image: Option<string>)
    requires Consistent(t) && CreateFood(t, v, image).1.Created?
    ensures var (t2, resp) := CreateFood(t, v, image);
      && (forall k :: k in ExistingIds(t2, resp.foodId) <==> t.nextSize <= k < t.nextSize + |v.sizes|)
      && (forall k :: t.nextSize <= k < t.nextSize + |v.sizes| ==>
            k in t2.sizes && t2.sizes[k] == SizeRow(resp.foodId, v.sizes[k - t.nextSize], k - t.nextSize))
  {
    var (t1, foodId) := InsertFood(t, FoodRow(v, image));
    NewFoodHasNoSizes(t, FoodRow(v, image));
    CreatedSizesAreTheFoods(t1, foodId, v.sizes);
    CreateSizesRowsAt(t1, foodId, v.sizes);
  }

  /** Entry `i` of a created food is stored under the `i`-th fresh id. */
  lemma CreateFoodEntries(t: Tables, v: ValidFood, image: Option<string>)
    requires Consistent(t) && CreateFood(t, v, image).1.Created?
    ensures var (t2, resp) := CreateFood(t, v, image);
      forall i :: 0 <= i < |v.sizes| ==>
        t.nextSize + i in t2.sizes && t2.sizes[t.nextSize + i] == SizeRow(resp.foodId, v.sizes[i], i)
  {
    var (t2, resp) := CreateFood(t, v, image);
    CreateFoodRows(t, v, image);
    forall i | 0 <= i < |v.sizes|
      ensures t.nextSize + i in t2.sizes && t2.sizes[t.nextSize + i] == SizeRow(resp.foodId, v.sizes[i], i)
    {
      var k := t.nextSize + i;
      assert k - t.nextSize == i;
    }
  }

  lemma {:induction false} CreatedSizesAreTheFoods(t: Tables, foodId: nat, sizes: seq<ValidSize>)
    requires forall k :: k in t.sizes ==> k < t.nextSize
    requires ExistingIds(t, foodId) == {} && CreateSizes(t, foodId, sizes).Ok?
    ensures var t2 := CreateSizes(t, foodId, sizes).value.0;
      forall k :: k in ExistingIds(t2, foodId) <==> t.nextSize <= k < t.nextSize + |sizes|
  {
    CreateSizesKeys(t, foodId, sizes);
    CreateSizesRowsAt(t, foodId, sizes);
    var t2 := CreateSizes(t, foodId, sizes).value.0;
    forall k
      ensures k in ExistingIds(t2, foodId) <==> t.nextSize <= k < t.nextSize + |sizes|
    {
      if k in t.sizes {
        assert k !in ExistingIds(t, foodId);
      }
    }
  }

  /** Rows written for a food that had none, with distinct names, keep the
      store consistent. */
  lemma CreatedRowsConsistent(t1: Tables, foodId: nat, sizes: seq<ValidSize>, t2: Tables, ids: seq<nat>)
    requires Consistent(t1) && foodId in t1.foods && ExistingIds(t1, foodId) == {}
    requires DistinctSizeNames(sizes) && CreatedRows(t1, foodId, sizes, t2, ids)
    ensures Consistent(t2)
  {
    forall a, b | a in t2.sizes && b in t2.sizes && a != b && t2.sizes[a].foodId == t2.sizes[b].foodId
      ensures t2.sizes[a].sizeName != t2.sizes[b].sizeName
    {
      if a !in t1.sizes && b !in t1.sizes {
        var i, j := a - t1.nextSize, b - t1.nextSize;
        if i < j {
          assert sizes[i].sizeName != sizes[j].sizeName;
        } else {
          assert sizes[j].sizeName != sizes[i].sizeName;
        }
      }
    }
    assert UniqueSizeNames(t2);
    assert References(t2);
  }

  lemma CreateFoodKeepsConsistent(t: Tables, v: ValidFood, image: Option<string>)
    requires Consistent(t)
    ensures Consistent(CreateFood(t, v, image).0)
  {
    var (t1, foodId) := InsertFood(t, FoodRow(v, image));
    if CreateFood(t, v, image).1.Created? {
      NewFoodHasNoSizes(t, FoodRow(v, image));
      CreateFoodOkIff(t, v, image);
      CreateSizesShape(t1, foodId, v.sizes);
      var (t2, ids) := CreateSizes(t1, foodId, v.sizes).value;
      CreatedRowsConsistent(t1, foodId, v.sizes, t2, ids);
    }
  }

  // ---------------------------------------------------------------- update

  /** Whether an entry names one of the food's rows: `isset($id) && in_array($id, $existingIds)`. */
  predicate Targets(existing: set<nat>, e: ValidSize) {
    e.id.Some? && e.id.value in existing
  }

  /** One iteration of the `update` loop: update the named row in place, or
      create a new row for this food. */
  function ReconcileEntry(t: Tables, foodId: nat, existing: set<nat>, e: ValidSize, index: nat)
    : (r: Result<(Tables, nat), Violation>)
    requires existing <= t.sizes.Keys
    ensures r.Ok? ==> var (t2, id) := r.value;
      && t2 == t.(sizes := t2.sizes, nextSize := t2.nextSize)
      && id in t2.sizes && t2.sizes == t.sizes[id := t2.sizes[id]]
      && (Targets(existing, e) ==>
            id == e.id.value && t2.nextSize == t.nextSize &&
            t2.sizes[id] == SizeRow(t.sizes[id].foodId, e, index))
      && (!Targets(existing, e) ==>
            id == t.nextSize && t2.nextSize == t.nextSize + 1 && t2.sizes[id] == SizeRow(foodId, e, index))
  {
    if Targets(existing, e) then
      match UpdateSize(t, e.id.value, e.sizeName, e.price, EntrySortOrder(e, index))
      case Err(v) => Err(v)
      case Ok(t1) => Ok((t1, e.id.value))
    else
      InsertSize(t, foodId, e.sizeName, e.price, Some(EntrySortOrder(e, index)))
  }

  /** The `update` loop over the entries, collecting `$updatedIds`. */
  function Reconcile(t: Tables, foodId: nat, existing: set<nat>, sizes: seq<ValidSize>)
    : (r: Result<(Tables, seq<nat>), Violation>)
    requires existing <= t.sizes.Keys
    ensures r.Ok? ==> t.sizes.Keys <= r.value.0.sizes.Keys
    decreases |sizes|
  {
    if sizes == [] then Ok((t, []))
    else
      var n := |sizes| - 1;
      match Reconcile(t, foodId, existing, sizes[..n])
      case Err(e) => Err(e)
      case Ok((t1, ids)) =>
        match ReconcileEntry(t1, foodId, existing, sizes[n], n)
        case Err(e) => Err(e)
        case Ok((t2, id)) => Ok((t2, ids + [id]))
  }

  lemma {:induction false} ReconcileStopsAtFirstFailure(t: Tables, foodId: nat, existing: set<nat>,
                                                        sizes: seq<ValidSize>, i: nat)
    requires existing <= t.sizes.Keys
    requires i <= |sizes| && Reconcile(t, foodId, existing, sizes[..i]).Err?
    ensures Reconcile(t, foodId, existing, sizes).Err?
    decreases |sizes| - i
  {
    if i < |sizes| {
      assert sizes[..|sizes| - 1][..i] == sizes[..i];
      ReconcileStopsAtFirstFailure(t, foodId, existing, sizes[..|sizes| - 1], i);
    } else {
      assert sizes[..i] == sizes;
    }
  }

  /** One step of the `update` loop. */
  lemma ReconcileStep(t: Tables, foodId: nat, existing: set<nat>, sizes: seq<ValidSize>)
    requires existing <= t.sizes.Keys
    requires sizes != [] && Reconcile(t, foodId, existing, sizes).Ok?
    ensures var n := |sizes| - 1;
      && Reconcile(t, foodId, existing, sizes[..n]).Ok?
      && var (t1, ids) := Reconcile(t, foodId, existing, sizes[..n]).value;
         && ReconcileEntry(t1, foodId, existing, sizes[n], n).Ok?
         && var (t2, id) := ReconcileEntry(t1, foodId, existing, sizes[n], n).value;
            Reconcile(t, foodId, existing, sizes).value == (t2, ids + [id])
  {
  }

  /** A successful loop changes only food_portion_sizes and its counter, and
      yields one id per entry. */
  lemma {:induction false} ReconcileFrame(t: Tables, foodId: nat, existing: set<nat>, sizes: seq<ValidSize>)
    requires existing <= t.sizes.Keys
    requires Reconcile(t, foodId, existing, sizes).Ok?
    ensures var (t2, ids) := Reconcile(t, foodId, existing, sizes).value;
      && t2 == t.(sizes := t2.sizes, nextSize := t2.nextSize)
      && t.nextSize <= t2.nextSize
      && |ids| == |sizes|
    decreases |sizes|
  {
    if sizes != [] {
      ReconcileStep(t, foodId, existing, sizes);
      ReconcileFrame(t, foodId, existing, sizes[..|sizes| - 1]);
    }
  }

  /** The rows after a successful loop: the old ones, plus every id the
      counter handed out, each of which some entry received. */
  lemma {:induction false} ReconcileKeys(t: Tables, foodId: nat, existing: set<nat>, sizes: seq<ValidSize>)
    requires existing <= t.sizes.Keys
    requires Reconcile(t, foodId, existing, sizes).Ok?
    ensures var (t2, ids) := Reconcile(t, foodId, existing, sizes).value;
      && (forall k :: k in t2.sizes <==> k in t.sizes || t.nextSize <= k < t2.nextSize)
      && (forall k :: t.nextSize <= k < t2.nextSize ==> k in ids)
    decreases |sizes|
  {
    if sizes != [] {
      var n := |sizes| - 1;
      ReconcileStep(t, foodId, existing, sizes);
      ReconcileKeys(t, foodId, existing, sizes[..n]);
      ReconcileFrame(t, foodId, existing, sizes[..n]);
    }
  }

  /** An entry that targets one of the food's rows receives that row's id. */
  lemma {:induction false} ReconcileTargetIds(t: Tables, foodId: nat, existing: set<nat>, sizes: seq<ValidSize>)
    requires existing <= t.sizes.Keys
    requires Reconcile(t, foodId, existing, sizes).Ok?
    ensures var (t2, ids) := Reconcile(t, foodId, existing, sizes).value;
      && |ids| == |sizes|
      && (forall i :: 0 <= i < |sizes| && Targets(existing, sizes[i]) ==> ids[i] == sizes[i].id.value)
    decreases |sizes|
  {
    if sizes != [] {
      var n := |sizes| - 1;
      var prefix := sizes[..n];
      ReconcileStep(t, foodId, existing, sizes);
      ReconcileTargetIds(t, foodId, existing, prefix);
      var (t1, ids) := Reconcile(t, foodId, existing, prefix).value;
      var (t2, id) := ReconcileEntry(t1, foodId, existing, sizes[n], n).value;
      TargetsAfterEntry(existing, sizes, ids, id);
    }
  }

  /** Targeting entries keep their rows' ids one entry further. */
  lemma TargetsAfterEntry(existing: set<nat>, sizes: seq<ValidSize>, ids: seq<nat>, id: nat)
    requires |sizes| == |ids| + 1
    requires forall i :: 0 <= i < |ids| && Targets(existing, sizes[..|ids|][i]) ==> ids[i] == sizes[..|ids|][i].id.value
    requires Targets(existing, sizes[|ids|]) ==> id == sizes[|ids|].id.value
    ensures var all := ids + [id];
      forall i :: 0 <= i < |sizes| && Targets(existing, sizes[i]) ==> all[i] == sizes[i].id.value
  {
    var n := |ids|;
    var all := ids + [id];
    forall i | 0 <= i < |sizes| && Targets(existing, sizes[i])
      ensures all[i] == sizes[i].id.value
    {
      if i < n {
        assert sizes[..n][i] == sizes[i] && all[i] == ids[i];
      } else {
        assert all[i] == id;
      }
    }
  }

  /** Any other entry receives a fresh id from the counter. */
  lemma {:induction false} ReconcileFreshRange(t: Tables, foodId: nat, existing: set<nat>, sizes: seq<ValidSize>)
    requires existing <= t.sizes.Keys
    requires Reconcile(t, foodId, existing, sizes).Ok?
    ensures var (t2, ids) := Reconcile(t, foodId, existing, sizes).value;
      && |ids| == |sizes|
      && (forall i :: 0 <= i < |sizes| && !Targets(existing, sizes[i]) ==> t.nextSize <= ids[i] < t2.nextSize)
    decreases |sizes|
  {
    if sizes != [] {
      var n := |sizes| - 1;
      var prefix := sizes[..n];
      ReconcileStep(t, foodId, existing, sizes);
      ReconcileFreshRange(t, foodId, existing, prefix);
      ReconcileFrame(t, foodId, existing, prefix);
      var (t1, ids) := Reconcile(t, foodId, existing, prefix).value;
      var (t2, id) := ReconcileEntry(t1, foodId, existing, sizes[n], n).value;
      FreshRangeAfterEntry(existing, sizes, ids, id, t.nextSize, t1.nextSize, t2.nextSize);
    }
  }

  /** The fresh ids stay in the counter's range one entry further. */
  lemma FreshRangeAfterEntry(existing: set<nat>, sizes: seq<ValidSize>, ids: seq<nat>, id: nat,
                             low: nat, middle: nat, high: nat)
    requires |sizes| == |ids| + 1
    requires forall i :: 0 <= i < |ids| && !Targets(existing, sizes[..|ids|][i]) ==> low <= ids[i] < middle
    requires middle <= high && (!Targets(existing, sizes[|ids|]) ==> low <= id < high)
    ensures var all := ids + [id];
      forall i :: 0 <= i < |sizes| && !Targets(existing, sizes[i]) ==> low <= all[i] < high
  {
    var n := |ids|;
    var all := ids + [id];
    forall i | 0 <= i < |sizes| && !Targets(existing, sizes[i])
      ensures low <= all[i] < high
    {
      if i < n {
        assert sizes[..n][i] == sizes[i] && all[i] == ids[i];
      } else {
        assert all[i] == id;
      }
    }
  }

  /** Fresh ids ascend with the entries. */
  lemma {:induction false} ReconcileFreshAscending(t: Tables, foodId: nat, existing: set<nat>, sizes: seq<ValidSize>)
    requires existing <= t.sizes.Keys
    requires Reconcile(t, foodId, existing, sizes).Ok?
    ensures var (t2, ids) := Reconcile(t, foodId, existing, sizes).value;
      && |ids| == |sizes|
      && (forall i, j :: 0 <= i < j < |sizes| && !Targets(existing, sizes[i]) && !Targets(existing, sizes[j]) ==>
            ids[i] < ids[j])
    decreases |sizes|
  {
    if sizes != [] {
      var n := |sizes| - 1;
      var prefix := sizes[..n];
      ReconcileStep(t, foodId, existing, sizes);
      ReconcileFreshAscending(t, foodId, existing, prefix);
      ReconcileFrame(t, foodId, existing, prefix);
      var (t1, ids) := Reconcile(t, foodId, existing, prefix).value;
      var (t2, id) := ReconcileEntry(t1, foodId, existing, sizes[n], n).value;
      ReconcileFreshRange(t, foodId, existing, prefix);
      FreshAfterEntry(existing, sizes, ids, id, t1.nextSize);
    }
  }

  /** The fresh ids stay ascending one entry further, when the new id comes
      from the counter every earlier fresh id is below. */
  lemma FreshAfterEntry(existing: set<nat>, sizes: seq<ValidSize>, ids: seq<nat>, id: nat, counter: nat)
    requires |sizes| == |ids| + 1
    requires forall i, j :: 0 <= i < j < |ids| && !Targets(existing, sizes[..|ids|][i]) && !Targets(existing, sizes[..|ids|][j]) ==>
      ids[i] < ids[j]
    requires forall i :: 0 <= i < |ids| && !Targets(existing, sizes[..|ids|][i]) ==> ids[i] < counter
    requires !Targets(existing, sizes[|ids|]) ==> id == counter
    ensures var all := ids + [id];
      forall i, j :: 0 <= i < j < |sizes| && !Targets(existing, sizes[i]) && !Targets(existing, sizes[j]) ==>
        all[i] < all[j]
  {
    var n := |ids|;
    var all := ids + [id];
    forall i, j | 0 <= i < j < |sizes| && !Targets(existing, sizes[i]) && !Targets(existing, sizes[j])
      ensures all[i] < all[j]
    {
      assert sizes[..n][i] == sizes[i] && all[i] == ids[i];
      if j < n {
        assert sizes[..n][j] == sizes[j] && all[j] == ids[j];
      } else {
        assert all[j] == id;
      }
    }
  }

  /** Rows no entry reaches keep their values, and every row keeps its food. */
  lemma {:induction false} ReconcileUnreached(t: Tables, foodId: nat, existing: set<nat>, sizes: seq<ValidSize>)
    requires existing == ExistingIds(t, foodId)
    requires forall k :: k in t.sizes ==> k < t.nextSize
    requires Reconcile(t, foodId, existing, sizes).Ok?
    ensures var (t2, ids) := Reconcile(t, foodId, existing, sizes).value;
      && (forall k :: k in t.sizes ==> t2.sizes[k].foodId == t.sizes[k].foodId)
      && (forall k :: k in t.sizes && k !in ids ==> t2.sizes[k] == t.sizes[k])
    decreases |sizes|
  {
    if sizes != [] {
      var n := |sizes| - 1;
      var prefix := sizes[..n];
      ReconcileStep(t, foodId, existing, sizes);
      ReconcileUnreached(t, foodId, existing, prefix);
      ReconcileFrame(t, foodId, existing, prefix);
      var (t1, ids) := Reconcile(t, foodId, existing, prefix).value;
      var (t2, id) := ReconcileEntry(t1, foodId, existing, sizes[n], n).value;
      assert forall k :: k in ids + [id] <==> k in ids || k == id;
      if Targets(existing, sizes[n]) {
        assert t1.sizes[id].foodId == foodId;
      }
    }
  }

  /** A row some entry reaches holds the values of the last entry that reaches it. */
  lemma {:induction false} ReconcileRows(t: Tables, foodId: nat, existing: set<nat>, sizes: seq<ValidSize>)
    requires existing == ExistingIds(t, foodId)
    requires forall k :: k in t.sizes ==> k < t.nextSize
    requires Reconcile(t, foodId, existing, sizes).Ok?
    ensures var (t2, ids) := Reconcile(t, foodId, existing, sizes).value;
      && |ids| == |sizes|
      && (forall i :: 0 <= i < |sizes| && (forall j :: i < j < |sizes| ==> ids[j] != ids[i]) ==>
            ids[i] in t2.sizes && t2.sizes[ids[i]] == SizeRow(foodId, sizes[i], i))
    decreases |sizes|
  {
    if sizes != [] {
      var n := |sizes| - 1;
      var prefix := sizes[..n];
      ReconcileStep(t, foodId, existing, sizes);
      ReconcileRows(t, foodId, existing, prefix);
      ReconcileFrame(t, foodId, existing, prefix);
      var (t1, ids) := Reconcile(t, foodId, existing, prefix).value;
      var (t2, id) := ReconcileEntry(t1, foodId, existing, sizes[n], n).value;
      if Targets(existing, sizes[n]) {
        assert t1.sizes[id].foodId == foodId by {
          ReconcileUnreached(t, foodId, existing, prefix);
        }
      }
      RowsAfterEntry(t1, t2, foodId, sizes, ids, id);
    }
  }

  /** The rows the entries reach, one entry further: the new entry's row is
      written, and every other row keeps what the earlier step left. */
  lemma RowsAfterEntry(t1: Tables, t2: Tables, foodId: nat, sizes: seq<ValidSize>, ids: seq<nat>, id: nat)
    requires |sizes| == |ids| + 1
    requires forall i :: 0 <= i < |ids| && (forall j :: i < j < |ids| ==> ids[j] != ids[i]) ==>
      ids[i] in t1.sizes && t1.sizes[ids[i]] == SizeRow(foodId, sizes[..|ids|][i], i)
    requires id in t2.sizes && t2.sizes == t1.sizes[id := t2.sizes[id]]
    requires t2.sizes[id] == SizeRow(foodId, sizes[|ids|], |ids|)
    ensures var all := ids + [id];
      forall i :: 0 <= i < |sizes| && (forall j :: i < j < |sizes| ==> all[j] != all[i]) ==>
        all[i] in t2.sizes && t2.sizes[all[i]] == SizeRow(foodId, sizes[i], i)
  {
    var n := |ids|;
    var all := ids + [id];
    forall i | 0 <= i < |sizes| && (forall j :: i < j < |sizes| ==> all[j] != all[i])
      ensures all[i] in t2.sizes && t2.sizes[all[i]] == SizeRow(foodId, sizes[i], i)
    {
      if i < n {
        assert all[i] == ids[i] && all[n] == id;
        forall j | i < j < n
          ensures ids[j] != ids[i]
        {
          assert all[j] == ids[j];
        }
        assert t1.sizes[ids[i]] == SizeRow(foodId, sizes[..n][i], i);
        assert sizes[..n][i] == sizes[i];
      } else {
        assert all[i] == id;
      }
    }
  }

  /** The outcome of `update`: a JSON success, the failing attributes (422),
      one general error (500), or no such food (404). */
  datatype UpdateResponse = Updated | UpdateRejected(fields: set<FoodField>) | UpdateFailed(general: string) | NotFound

  const UpdatedMessage := "Food updated successfully!"
  const UpdateFailedMessage := "Failed to update food. Please try again."

  /** The try block of `update`. */
  function ReviseFood(t: Tables, foodId: nat, v: ValidFood): (r: (Tables, UpdateResponse))
    requires foodId in t.foods
    ensures r.1 == Updated || (r.0 == t && r.1 == UpdateFailed(UpdateFailedMessage))
  {
    var t1 := UpdateFood(t, foodId, FoodRow(v, v.image));
    var existing := ExistingIds(t1, foodId);
    match Reconcile(t1, foodId, existing, v.sizes)
    case Err(_) => (t, UpdateFailed(UpdateFailedMessage))
    case Ok((t2, ids)) => (DeleteSizes(t2, existing - Elements(ids)), Updated)
  }

  /** `update`: the route's food, validation, then the transaction. */
  function UpdateOutcome(t: Tables, foodId: nat, input: FoodInput): (r: (Tables, UpdateResponse))
    ensures r.1 == NotFound <==> foodId !in t.foods
    ensures r.1.UpdateRejected? <==> foodId in t.foods && !Acceptable(input, Edit, t)
    ensures r.1.UpdateRejected? ==> r.1.fields == Errors(input, Edit, t)
    ensures r.1 != Updated ==> r.0 == t
  {
    if foodId !in t.foods then (t, NotFound)
    else
      match Validate(input, Edit, t)
      case Err(fields) => (t, UpdateRejected(fields))
      case Ok(v) => ReviseFood(t, foodId, v)
  }

  // ------------------------------------------------------- update results

  /** The pieces of a successful `update`: the food rewritten, the ids it
      compared against, the loop's result and the ids it deleted. */
  lemma {:induction false} RevisedParts(t: Tables, foodId: nat, v: ValidFood)
    requires Consistent(t) && foodId in t.foods && ReviseFood(t, foodId, v).1 == Updated
    ensures var t1 := UpdateFood(t, foodId, FoodRow(v, v.image));
      var existing := ExistingIds(t1, foodId);
      && t1.sizes == t.sizes && t1.nextSize == t.nextSize && existing == ExistingIds(t, foodId)
      && Reconcile(t1, foodId, existing, v.sizes).Ok?
      && var (t2, ids) := Reconcile(t1, foodId, existing, v.sizes).value;
         ReviseFood(t, foodId, v).0 == DeleteSizes(t2, existing - Elements(ids))
  {
  }

  /** Everything a successful loop guarantees, gathered for the lemmas below. */
  lemma {:induction false} ReconcileFacts(t: Tables, foodId: nat, sizes: seq<ValidSize>)
    requires forall k :: k in t.sizes ==> k < t.nextSize
    requires Reconcile(t, foodId, ExistingIds(t, foodId), sizes).Ok?
    ensures var existing := ExistingIds(t, foodId);
      var (t2, ids) := Reconcile(t, foodId, existing, sizes).value;
      && t2 == t.(sizes := t2.sizes, nextSize := t2.nextSize) && t.nextSize <= t2.nextSize
      && |ids| == |sizes|
      && (forall k :: k in t2.sizes <==> k in t.sizes || t.nextSize <= k < t2.nextSize)
      && (forall k :: t.nextSize <= k < t2.nextSize ==> k in ids)
      && (forall i :: 0 <= i < |sizes| && Targets(existing, sizes[i]) ==> ids[i] == sizes[i].id.value)
      && (forall i :: 0 <= i < |sizes| && !Targets(existing, sizes[i]) ==> t.nextSize <= ids[i] < t2.nextSize)
      && (forall i, j :: 0 <= i < j < |sizes| && !Targets(existing, sizes[i]) && !Targets(existing, sizes[j]) ==>
            ids[i] < ids[j])
      && (forall k :: k in t.sizes ==> t2.sizes[k].foodId == t.sizes[k].foodId)
      && (forall k :: k in t.sizes && k !in ids ==> t2.sizes[k] == t.sizes[k])
      && (forall i :: 0 <= i < |sizes| && (forall j :: i < j < |sizes| ==> ids[j] != ids[i]) ==>
            ids[i] in t2.sizes && t2.sizes[ids[i]] == SizeRow(foodId, sizes[i], i))
  {
    var existing := ExistingIds(t, foodId);
    ReconcileFrame(t, foodId, existing, sizes);
    ReconcileKeys(t, foodId, existing, sizes);
    ReconcileTargetIds(t, foodId, existing, sizes);
    ReconcileFreshRange(t, foodId, existing, sizes);
    ReconcileFreshAscending(t, foodId, existing, sizes);
    ReconcileUnreached(t, foodId, existing, sizes);
    ReconcileRows(t, foodId, existing, sizes);
  }

  /** A successful `update` rewrites the food with its defaults and leaves
      every other food, every other food's portion sizes, and the users,
      orders and items as they were; an entry carrying another food's size id
      does not touch that row. */
  lemma UpdateKeepsOthers(t: Tables, foodId: nat, v: ValidFood)
    requires Consistent(t) && foodId in t.foods && ReviseFood(t, foodId, v).1 == Updated
    ensures var r := ReviseFood(t, foodId, v).0;
      && r.foods == t.foods[foodId := FoodRow(v, v.image)]
      && r.users == t.users && r.orders == t.orders && r.items == t.items
      && (forall k :: k in t.sizes && t.sizes[k].foodId != foodId ==> k in r.sizes && r.sizes[k] == t.sizes[k])
  {
    RevisedParts(t, foodId, v);
    var t1 := UpdateFood(t, foodId, FoodRow(v, v.image));
    ReconcileFacts(t1, foodId, v.sizes);
    var existing := ExistingIds(t1, foodId);
  }

  /** An entry naming one of the food's rows updates that row in place with
      its name, price and sort order (the last such entry wins). */
  lemma UpdateInPlace(t: Tables, foodId: nat, v: ValidFood, i: nat)
    requires Consistent(t) && foodId in t.foods && ReviseFood(t, foodId, v).1 == Updated
    requires i < |v.sizes| && Targets(ExistingIds(t, foodId), v.sizes[i])
    requires forall j :: i < j < |v.sizes| ==> v.sizes[j].id != v.sizes[i].id
    ensures var r := ReviseFood(t, foodId, v).0; var k := v.sizes[i].id.value;
      k in r.sizes && r.sizes[k] == SizeRow(foodId, v.sizes[i], i)
  {
    RevisedParts(t, foodId, v);
    var t1 := UpdateFood(t, foodId, FoodRow(v, v.image));
    ReconcileFacts(t1, foodId, v.sizes);
    var existing := ExistingIds(t1, foodId);
    var (t2, ids) := Reconcile(t1, foodId, existing, v.sizes).value;
    assert ids[i] == v.sizes[i].id.value;
    forall j | i < j < |v.sizes|
      ensures ids[j] != ids[i]
    {
      if !Targets(existing, v.sizes[j]) {
        assert ids[i] < t1.nextSize <= ids[j];
      }
    }
  }

  /** An entry without an id, or with the id of another food's row, creates a
      new row for this food. */
  lemma UpdateCreates(t: Tables, foodId: nat, v: ValidFood, i: nat)
    requires Consistent(t) && foodId in t.foods && ReviseFood(t, foodId, v).1 == Updated
    requires i < |v.sizes| && !Targets(ExistingIds(t, foodId), v.sizes[i])
    ensures var r := ReviseFood(t, foodId, v).0;
      exists k :: k !in t.sizes && k in r.sizes && r.sizes[k] == SizeRow(foodId, v.sizes[i], i)
  {
    RevisedParts(t, foodId, v);
    var t1 := UpdateFood(t, foodId, FoodRow(v, v.image));
    ReconcileFacts(t1, foodId, v.sizes);
    var existing := ExistingIds(t1, foodId);
    var (t2, ids) := Reconcile(t1, foodId, existing, v.sizes).value;
    forall j | i < j < |v.sizes|
      ensures ids[j] != ids[i]
    {
      if Targets(existing, v.sizes[j]) {
        assert ids[j] in t.sizes;
      }
    }
    assert ids[i] !in t.sizes;
    assert ids[i] !in existing;
  }

  /** A row of the food that no entry names is deleted. */
  lemma UpdateDeletesUnsubmitted(t: Tables, foodId: nat, v: ValidFood, k: nat)
    requires Consistent(t) && foodId in t.foods && ReviseFood(t, foodId, v).1 == Updated
    requires k in ExistingIds(t, foodId) && forall i :: 0 <= i < |v.sizes| ==> v.sizes[i].id != Some(k)
    ensures k !in ReviseFood(t, foodId, v).0.sizes
  {
    RevisedParts(t, foodId, v);
    var t1 := UpdateFood(t, foodId, FoodRow(v, v.image));
    ReconcileFacts(t1, foodId, v.sizes);
    var existing := ExistingIds(t1, foodId);
  }

  lemma {:induction false} DistinctElements(ids: seq<nat>)
    requires forall i, j :: 0 <= i < j < |ids| ==> ids[i] != ids[j]
    ensures |Elements(ids)| == |ids|
    decreases |ids|
  {
    if ids != [] {
      var n := |ids| - 1;
      DistinctElements(ids[..n]);
      assert Elements(ids) == Elements(ids[..n]) + {ids[n]};
      assert ids[n] !in Elements(ids[..n]);
    }
  }

  /** After a successful `update` the food's rows are exactly the rows its
      entries reached. */
  lemma {:induction false} UpdateRowsAreReached(t: Tables, foodId: nat, v: ValidFood)
    requires Consistent(t) && foodId in t.foods && ReviseFood(t, foodId, v).1 == Updated
    ensures var t1 := UpdateFood(t, foodId, FoodRow(v, v.image));
      var ids := Reconcile(t1, foodId, ExistingIds(t1, foodId), v.sizes).value.1;
      ExistingIds(ReviseFood(t, foodId, v).0, foodId) == Elements(ids)
  {
    RevisedRowsReached(t, foodId, v);
    ReachedRowsRemain(t, foodId, v);
  }

  lemma {:induction false} RevisedRowsReached(t: Tables, foodId: nat, v: ValidFood)
    requires Consistent(t) && foodId in t.foods && ReviseFood(t, foodId, v).1 == Updated
    ensures var t1 := UpdateFood(t, foodId, FoodRow(v, v.image));
      var ids := Reconcile(t1, foodId, ExistingIds(t1, foodId), v.sizes).value.1;
      ExistingIds(ReviseFood(t, foodId, v).0, foodId) <= Elements(ids)
  {
    RevisedParts(t, foodId, v);
    var t1 := UpdateFood(t, foodId, FoodRow(v, v.image));
    var existing := ExistingIds(t1, foodId);
    ReconcileKeys(t1, foodId, existing, v.sizes);
    ReconcileUnreached(t1, foodId, existing, v.sizes);
  }

  lemma {:induction false} ReachedRowsRemain(t: Tables, foodId: nat, v: ValidFood)
    requires Consistent(t) && foodId in t.foods && ReviseFood(t, foodId, v).1 == Updated
    ensures var t1 := UpdateFood(t, foodId, FoodRow(v, v.image));
      var ids := Reconcile(t1, foodId, ExistingIds(t1, foodId), v.sizes).value.1;
      Elements(ids) <= ExistingIds(ReviseFood(t, foodId, v).0, foodId)
  {
    RevisedParts(t, foodId, v);
    var t1 := UpdateFood(t, foodId, FoodRow(v, v.image));
    ReconciledRowsBelong(t1, foodId, ExistingIds(t1, foodId), v.sizes);
  }

  /** Every row an entry reached belongs to the food. */
  lemma {:induction false} ReconciledRowsBelong(t: Tables, foodId: nat, existing: set<nat>, sizes: seq<ValidSize>)
    requires existing == ExistingIds(t, foodId)
    requires forall k :: k in t.sizes ==> k < t.nextSize
    requires Reconcile(t, foodId, existing, sizes).Ok?
    ensures var (t2, ids) := Reconcile(t, foodId, existing, sizes).value;
      forall k :: k in ids ==> k in t2.sizes && t2.sizes[k].foodId == foodId
  {
    ReconcileRows(t, foodId, existing, sizes);
    var (t2, ids) := Reconcile(t, foodId, existing, sizes).value;
    forall k | k in ids
      ensures k in t2.sizes && t2.sizes[k].foodId == foodId
    {
      LastWriterBelongs(ids, t2.sizes, foodId, sizes, k);
    }
  }

  lemma LastWriterBelongs(ids: seq<nat>, rows: map<nat, PortionSize>, foodId: nat, sizes: seq<ValidSize>, k: nat)
    requires |ids| == |sizes| && k in ids
    requires forall i :: 0 <= i < |sizes| && (forall j :: i < j < |sizes| ==> ids[j] != ids[i]) ==>
      ids[i] in rows && rows[ids[i]] == SizeRow(foodId, sizes[i], i)
    ensures k in rows && rows[k].foodId == foodId
  {
    var i :| 0 <= i < |ids| && ids[i] == k;
    var last := LastReaching(ids, i);
    assert ids[last] == k;
    assert forall j :: last < j < |sizes| ==> ids[j] != ids[last];
    assert ids[last] in rows && rows[ids[last]] == SizeRow(foodId, sizes[last], last);
  }

  /** Entries that name distinct existing rows, and fresh ids allocated in
      ascending order above every existing one, never share an id. */
  lemma TargetsAndFreshDistinct(sizes: seq<ValidSize>, existing: set<nat>, ids: seq<nat>, lo: nat, hi: nat)
    requires |ids| == |sizes|
    requires forall i, j :: 0 <= i < j < |sizes| && sizes[i].id.Some? ==> sizes[i].id != sizes[j].id
    requires forall x :: x in existing ==> x < lo
    requires forall i :: 0 <= i < |sizes| && Targets(existing, sizes[i]) ==> ids[i] == sizes[i].id.value
    requires forall i :: 0 <= i < |sizes| && !Targets(existing, sizes[i]) ==> lo <= ids[i] < hi
    requires forall i, j :: 0 <= i < j < |sizes| && !Targets(existing, sizes[i]) && !Targets(existing, sizes[j]) ==>
      ids[i] < ids[j]
    ensures forall i, j :: 0 <= i < j < |ids| ==> ids[i] != ids[j]
  {
    forall i, j | 0 <= i < j < |ids|
      ensures ids[i] != ids[j]
    {
      if Targets(existing, sizes[i]) && !Targets(existing, sizes[j]) {
        assert ids[i] < lo <= ids[j];
      } else if !Targets(existing, sizes[i]) && Targets(existing, sizes[j]) {
        assert ids[j] < lo <= ids[i];
      }
    }
  }

  /** With no id submitted twice, every entry reaches a different row. */
  lemma {:induction false} UpdateIdsDistinct(t: Tables, foodId: nat, v: ValidFood)
    requires Consistent(t) && foodId in t.foods && ReviseFood(t, foodId, v).1 == Updated
    requires forall i, j :: 0 <= i < j < |v.sizes| && v.sizes[i].id.Some? ==> v.sizes[i].id != v.sizes[j].id
    ensures var t1 := UpdateFood(t, foodId, FoodRow(v, v.image));
      var ids := Reconcile(t1, foodId, ExistingIds(t1, foodId), v.sizes).value.1;
      forall i, j :: 0 <= i < j < |ids| ==> ids[i] != ids[j]
  {
    RevisedParts(t, foodId, v);
    var t1 := UpdateFood(t, foodId, FoodRow(v, v.image));
    var existing := ExistingIds(t1, foodId);
    ReconcileTargetIds(t1, foodId, existing, v.sizes);
    ReconcileFreshRange(t1, foodId, existing, v.sizes);
    ReconcileFreshAscending(t1, foodId, existing, v.sizes);
    var (t2, ids) := Reconcile(t1, foodId, existing, v.sizes).value;
    assert forall x :: x in existing ==> x < t1.nextSize;
    TargetsAndFreshDistinct(v.sizes, existing, ids, t1.nextSize, t2.nextSize);
  }

  /** When no id is submitted twice, `update` leaves the food one row per entry. */
  lemma UpdateOneRowPerEntry(t: Tables, foodId: nat, v: ValidFood)
    requires Consistent(t) && foodId in t.foods && ReviseFood(t, foodId, v).1 == Updated
    requires forall i, j :: 0 <= i < j < |v.sizes| && v.sizes[i].id.Some? ==> v.sizes[i].id != v.sizes[j].id
    ensures |ExistingIds(ReviseFood(t, foodId, v).0, foodId)| == |v.sizes|
  {
    RevisedParts(t, foodId, v);
    var t1 := UpdateFood(t, foodId, FoodRow(v, v.image));
    var existing := ExistingIds(t1, foodId);
    ReconcileFrame(t1, foodId, existing, v.sizes);
    UpdateRowsAreReached(t, foodId, v);
    UpdateIdsDistinct(t, foodId, v);
    DistinctElements(Reconcile(t1, foodId, existing, v.sizes).value.1);
  }

  /** The last position holding the same id as position `i`. */
  function LastReaching(ids: seq<nat>, i: nat): (j: nat)
    requires i < |ids|
    ensures i <= j < |ids| && ids[j] == ids[i]
    ensures forall m :: j < m < |ids| ==> ids[m] != ids[i]
    decreases |ids| - i
  {
    if exists m :: i < m < |ids| && ids[m] == ids[i] then
      var m :| i < m < |ids| && ids[m] == ids[i];
      LastReaching(ids, m)
    else i
  }

  /** The `update` loop keeps the store consistent. */
  lemma {:induction false} ReconcileKeepsConsistent(t: Tables, foodId: nat, existing: set<nat>, sizes: seq<ValidSize>)
    requires Consistent(t) && existing <= t.sizes.Keys
    requires Reconcile(t, foodId, existing, sizes).Ok?
    ensures Consistent(Reconcile(t, foodId, existing, sizes).value.0)
    decreases |sizes|
  {
    if sizes != [] {
      var n := |sizes| - 1;
      ReconcileStep(t, foodId, existing, sizes);
      ReconcileKeepsConsistent(t, foodId, existing, sizes[..n]);
      var (t1, ids) := Reconcile(t, foodId, existing, sizes[..n]).value;
      var e := sizes[n];
      if Targets(existing, e) {
        UpdateSizeKeepsConsistent(t1, e.id.value, e.sizeName, e.price, EntrySortOrder(e, n));
      } else {
        InsertSizeKeepsConsistent(t1, foodId, e.sizeName, e.price, Some(EntrySortOrder(e, n)));
      }
    }
  }

  /** A successful `update` keeps the store consistent: in particular no two
      rows of a food share a size name afterwards. */
  lemma UpdateKeepsConsistent(t: Tables, foodId: nat, v: ValidFood)
    requires Consistent(t) && foodId in t.foods
    ensures Consistent(ReviseFood(t, foodId, v).0)
  {
    var t1 := UpdateFood(t, foodId, FoodRow(v, v.image));
    var existing := ExistingIds(t1, foodId);
    if Reconcile(t1, foodId, existing, v.sizes).Ok? {
      ReconcileKeepsConsistent(t1, foodId, existing, v.sizes);
      var (t2, ids) := Reconcile(t1, foodId, existing, v.sizes).value;
      DeleteSizesKeepsConsistent(t2, existing - Elements(ids));
    }
  }

  // ------------------------------------------------- rollbacks by example

  /** A food (id 0) with rows 0 "Small" and 1 "Large". */
  function TwoSizes(): (t: Tables)
    ensures Consistent(t)
  {
    Tables(map[], map[0 := Food("Jollof", None, None, "Rice", true, 0)],
           map[0 := PortionSize(0, "Small", 5.0, 0), 1 := PortionSize(0, "Large", 8.0, 1)],
           map[], map[], 0, 1, 2, 0, 0)
  }

  /** Swapping the names of two existing sizes in one request rolls back:
      the first in-place UPDATE renames row 0 to a name row 1 still holds. */
  lemma SwappedNamesRollBack()
    ensures var v := ValidFood("Jollof", None, None, "Rice", None, None,
                               [ValidSize(Some(0), "Large", 8.0, None), ValidSize(Some(1), "Small", 5.0, None)]);
      ReviseFood(TwoSizes(), 0, v) == (TwoSizes(), UpdateFailed(UpdateFailedMessage))
  {
    var v := ValidFood("Jollof", None, None, "Rice", None, None,
                       [ValidSize(Some(0), "Large", 8.0, None), ValidSize(Some(1), "Small", 5.0, None)]);
    var t1 := UpdateFood(TwoSizes(), 0, FoodRow(v, v.image));
    var existing := ExistingIds(t1, 0);
    assert 0 in existing && 1 in existing;
    assert SizeNameTaken(t1, 0, "Large", Some(0)) by { assert t1.sizes[1].sizeName == "Large"; }
    assert Reconcile(t1, 0, existing, v.sizes[..1]).Err? by {
      assert v.sizes[..1][..0] == [];
    }
    ReconcileStopsAtFirstFailure(t1, 0, existing, v.sizes, 1);
  }

  /** Removing a size and re-adding its name as a new entry rolls back: the
      INSERT runs before the old row is deleted. */
  lemma ReaddedNameRollsBack()
    ensures var v := ValidFood("Jollof", None, None, "Rice", None, None, [ValidSize(None, "Small", 6.0, None)]);
      ReviseFood(TwoSizes(), 0, v) == (TwoSizes(), UpdateFailed(UpdateFailedMessage))
  {
    var v := ValidFood("Jollof", None, None, "Rice", None, None, [ValidSize(None, "Small", 6.0, None)]);
    var t1 := UpdateFood(TwoSizes(), 0, FoodRow(v, v.image));
    var existing := ExistingIds(t1, 0);
    assert SizeNameTaken(t1, 0, "Small", None) by { assert t1.sizes[0].sizeName == "Small"; }
    assert v.sizes[..0] == [];
    assert Reconcile(t1, 0, existing, v.sizes[..0]) == Ok((t1, []));
    assert ReconcileEntry(t1, 0, existing, v.sizes[0], 0).Err?;
    assert Reconcile(t1, 0, existing, v.sizes).Err?;
    RevisedFailure(TwoSizes(), 0, v);
  }

  // --------------------------------------------------------------- methods

  /** `store`, over the database connection. */
  method Store(db: Database, input: FoodInput, image: Option<string>) returns (resp: StoreResponse)
    modifies db
    ensures (db.tables, resp) == StoreOutcome(old(db.tables), input, image)
  {
    var validated := Validate(input, Create, db.tables);
    if validated.Err? {
      return StoreRejected(validated.error);
    }
    var v := validated.value;
    StoreOutcomeValid(db.tables, input, image, v);
    var snapshot := db.tables;                       // beginTransaction
    var (t1, foodId) := InsertFood(db.tables, FoodRow(v, image));
    db.tables := t1;
    var ids: seq<nat> := [];
    for i := 0 to |v.sizes|
      invariant CreateSizes(t1, foodId, v.sizes[..i]) == Ok((db.tables, ids))
    {
      var e := v.sizes[i];
      CreateSizesExtends(t1, foodId, v.sizes, i, db.tables, ids);
      var inserted := InsertSize(db.tables, foodId, e.sizeName, e.price, Some(EntrySortOrder(e, i)));
      if inserted.Err? {
        CreateSizesStopsAtFirstFailure(t1, foodId, v.sizes, i + 1);
        CreatedFailure(snapshot, v, image);
        db.tables := snapshot;                       // rollBack
        return StoreFailed(CreateFailedMessage);
      }
      db.tables, ids := inserted.value.0, ids + [inserted.value.1];
    }
    assert v.sizes[..|v.sizes|] == v.sizes;
    CreatedSuccess(snapshot, v, image, db.tables, ids);
    // commit
    resp := Created(foodId);
  }

  /** `update`, over the database connection. */
  method Update(db: Database, foodId: nat, input: FoodInput) returns (resp: UpdateResponse)
    modifies db
    ensures (db.tables, resp) == UpdateOutcome(old(db.tables), foodId, input)
  {
    if foodId !in db.tables.foods {
      return NotFound;
    }
    var validated := Validate(input, Edit, db.tables);
    if validated.Err? {
      return UpdateRejected(validated.error);
    }
    var v := validated.value;
    UpdateOutcomeValid(db.tables, foodId, input, v);
    var snapshot := db.tables;                       // beginTransaction
    db.tables := UpdateFood(db.tables, foodId, FoodRow(v, v.image));
    var start := db.tables;
    var existingIds := ExistingIds(db.tables, foodId);
    var updatedIds: seq<nat> := [];
    for i := 0 to |v.sizes|
      invariant existingIds <= start.sizes.Keys
      invariant Reconcile(start, foodId, existingIds, v.sizes[..i]) == Ok((db.tables, updatedIds))
    {
      var e := v.sizes[i];
      ReconcileExtends(start, foodId, existingIds, v.sizes, i, db.tables, updatedIds);
      if e.id.Some? && e.id.value in existingIds {
        var updated := UpdateSize(db.tables, e.id.value, e.sizeName, e.price, EntrySortOrder(e, i));
        if updated.Err? {
          ReconcileStopsAtFirstFailure(start, foodId, existingIds, v.sizes, i + 1);
          RevisedFailure(snapshot, foodId, v);
          db.tables := snapshot;                     // rollBack
          return UpdateFailed(UpdateFailedMessage);
        }
        db.tables, updatedIds := updated.value, updatedIds + [e.id.value];
      } else {
        var created := InsertSize(db.tables, foodId, e.sizeName, e.price, Some(EntrySortOrder(e, i)));
        if created.Err? {
          ReconcileStopsAtFirstFailure(start, foodId, existingIds, v.sizes, i + 1);
          RevisedFailure(snapshot, foodId, v);
          db.tables := snapshot;                     // rollBack
          return UpdateFailed(UpdateFailedMessage);
        }
        db.tables, updatedIds := created.value.0, updatedIds + [created.value.1];
      }
    }
    assert v.sizes[..|v.sizes|] == v.sizes;
    RevisedSuccess(snapshot, foodId, v, db.tables, updatedIds);
    db.tables := DeleteSizes(db.tables, existingIds - Elements(updatedIds));
    // commit
    resp := Updated;
  }

  /** A valid `store` request is the transaction on its validated values. */
  lemma StoreOutcomeValid(t: Tables, input: FoodInput, image: Option<string>, v: ValidFood)
    requires Validate(input, Create, t) == Ok(v)
    ensures StoreOutcome(t, input, image) == CreateFood(t, v, image)
  {
  }

  /** The `store` loop, one entry further, as the loop body computes it. */
  lemma CreateSizesExtends(t: Tables, foodId: nat, sizes: seq<ValidSize>, i: nat, t1: Tables, ids: seq<nat>)
    requires i < |sizes| && CreateSizes(t, foodId, sizes[..i]) == Ok((t1, ids))
    ensures CreateSizes(t, foodId, sizes[..i + 1]) ==
      match InsertSize(t1, foodId, sizes[i].sizeName, sizes[i].price, Some(EntrySortOrder(sizes[i], i)))
      case Err(x) => Err(x)
      case Ok((t2, id)) => Ok((t2, ids + [id]))
  {
    assert sizes[..i + 1][..i] == sizes[..i];
    assert sizes[..i + 1][i] == sizes[i];
  }

  /** A `store` loop that fails leaves the tables as they were. */
  lemma CreatedFailure(t: Tables, v: ValidFood, image: Option<string>)
    requires var (t1, foodId) := InsertFood(t, FoodRow(v, image)); CreateSizes(t1, foodId, v.sizes).Err?
    ensures CreateFood(t, v, image) == (t, StoreFailed(CreateFailedMessage))
  {
  }

  /** A `store` loop that succeeds commits what it wrote. */
  lemma CreatedSuccess(t: Tables, v: ValidFood, image: Option<string>, t2: Tables, ids: seq<nat>)
    requires var (t1, foodId) := InsertFood(t, FoodRow(v, image)); CreateSizes(t1, foodId, v.sizes) == Ok((t2, ids))
    ensures CreateFood(t, v, image) == (t2, Created(InsertFood(t, FoodRow(v, image)).1))
  {
  }

  /** A valid `update` request is the transaction on its validated values. */
  lemma UpdateOutcomeValid(t: Tables, foodId: nat, input: FoodInput, v: ValidFood)
    requires foodId in t.foods && Validate(input, Edit, t) == Ok(v)
    ensures UpdateOutcome(t, foodId, input) == ReviseFood(t, foodId, v)
  {
  }

  /** The loop over the entries, one entry further, as the `update` loop
      body computes it. */
  lemma ReconcileExtends(t: Tables, foodId: nat, existing: set<nat>, sizes: seq<ValidSize>, i: nat,
                         t1: Tables, ids: seq<nat>)
    requires existing <= t.sizes.Keys && i < |sizes|
    requires Reconcile(t, foodId, existing, sizes[..i]) == Ok((t1, ids))
    ensures existing <= t1.sizes.Keys
    ensures var e := sizes[i];
      Reconcile(t, foodId, existing, sizes[..i + 1]) ==
        if e.id.Some? && e.id.value in existing then
          match UpdateSize(t1, e.id.value, e.sizeName, e.price, EntrySortOrder(e, i))
          case Err(x) => Err(x)
          case Ok(t2) => Ok((t2, ids + [e.id.value]))
        else
          match InsertSize(t1, foodId, e.sizeName, e.price, Some(EntrySortOrder(e, i)))
          case Err(x) => Err(x)
          case Ok((t2, id)) => Ok((t2, ids + [id]))
  {
    assert sizes[..i + 1][..i] == sizes[..i];
    assert sizes[..i + 1][i] == sizes[i];
  }

  /** A loop that fails leaves the tables as they were. */
  lemma RevisedFailure(t: Tables, foodId: nat, v: ValidFood)
    requires foodId in t.foods
    requires var t1 := UpdateFood(t, foodId, FoodRow(v, v.image));
      Reconcile(t1, foodId, ExistingIds(t1, foodId), v.sizes).Err?
    ensures ReviseFood(t, foodId, v) == (t, UpdateFailed(UpdateFailedMessage))
  {
  }

  /** A loop that succeeds ends with the stale sizes deleted. */
  lemma RevisedSuccess(t: Tables, foodId: nat, v: ValidFood, t2: Tables, ids: seq<nat>)
    requires foodId in t.foods
    requires var t1 := UpdateFood(t, foodId, FoodRow(v, v.image));
      Reconcile(t1, foodId, ExistingIds(t1, foodId), v.sizes) == Ok((t2, ids))
    ensures var t1 := UpdateFood(t, foodId, FoodRow(v, v.image));
      ReviseFood(t, foodId, v) == (DeleteSizes(t2, ExistingIds(t1, foodId) - Elements(ids)), Updated)
  {
  }
}
