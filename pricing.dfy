/** Order pricing as the order controller computes it (and as the checkout
    dialog recomputes it in the browser): subtotal is the sum of unit price
    times quantity, tax is ten percent of the subtotal, a flat 5.00 fee is
    charged for delivery orders only, and total is their sum. Amounts are
    exact reals; the order model's `decimal:2` casts then read each one
    back with two decimals (as would a decimal(10,2) column on an engine
    that rounds), which `RoundCents` models. */
module Pricing {
  import opened Schema

  /** One line of an order request: the shape both the checkout payload and
      the order controller's `items.*` rules use. */
  datatype ItemLine = ItemLine(name: string, size: string, quantity: int, unitPrice: real)

  const TaxRate: real := 0.1
  const DeliveryFlatFee: real := 5.0

  function LineTotal(l: ItemLine): real {
    l.unitPrice * l.quantity as real
  }

  /** Σ unitPrice × quantity, summed from the left as a reduce does. */
  function Subtotal(lines: seq<ItemLine>): real {
    if lines == [] then 0.0 else Subtotal(lines[..|lines| - 1]) + LineTotal(lines[|lines| - 1])
  }

  lemma {:induction false} SubtotalAppend(a: seq<ItemLine>, b: seq<ItemLine>)
    ensures Subtotal(a + b) == Subtotal(a) + Subtotal(b)
    decreases |b|
  {
    if b == [] {
      assert a + b == a;
    } else {
      var n := |b| - 1;
      assert (a + b)[..|a + b| - 1] == a + b[..n];
      assert (a + b)[|a + b| - 1] == b[n];
      SubtotalAppend(a, b[..n]);
    }
  }

  /** Lines the order controller's rules accept: quantity ≥ 1, unit price ≥ 0. */
  predicate WellPriced(lines: seq<ItemLine>) {
    forall i :: 0 <= i < |lines| ==> lines[i].quantity >= 1 && lines[i].unitPrice >= 0.0
  }

  lemma {:induction false} SubtotalNonNegative(lines: seq<ItemLine>)
    requires WellPriced(lines)
    ensures Subtotal(lines) >= 0.0
    decreases |lines|
  {
    if lines != [] {
      var last := lines[|lines| - 1];
      SubtotalNonNegative(lines[..|lines| - 1]);
      assert last.unitPrice * last.quantity as real >= 0.0;
    }
  }

  datatype Amounts = Amounts(subtotal: real, tax: real, deliveryFee: real, total: real)

  function DeliveryFee(kind: OrderType): (fee: real)
    ensures fee > 0.0 <==> kind == Delivery
    ensures kind == Delivery ==> fee == 5.0
    ensures kind != Delivery ==> fee == 0.0
  {
    if kind == Delivery then DeliveryFlatFee else 0.0
  }

  /** The amounts stored on a new order. */
  function ComputeAmounts(lines: seq<ItemLine>, kind: OrderType): (a: Amounts)
    ensures a.subtotal == Subtotal(lines)
    ensures a.tax == a.subtotal / 10.0
    ensures a.deliveryFee == (if kind == Delivery then 5.0 else 0.0)
    ensures a.total == a.subtotal + a.tax + a.deliveryFee
  {
    var subtotal := Subtotal(lines);
    var tax := subtotal * TaxRate;
    var fee := DeliveryFee(kind);
    Amounts(subtotal, tax, fee, subtotal + tax + fee)
  }

  /** Valid lines never price an order below its delivery fee. */
  lemma AmountsNonNegative(lines: seq<ItemLine>, kind: OrderType)
    requires WellPriced(lines)
    ensures var a := ComputeAmounts(lines, kind);
      a.subtotal >= 0.0 && a.tax >= 0.0 && a.total >= a.deliveryFee >= 0.0
  {
    SubtotalNonNegative(lines);
  }

  /** Two Full Pans of Jollof Rice at 80.00, picked up: 160.00 + 16.00 = 176.00. */
  lemma JollofRicePickup()
    ensures ComputeAmounts([ItemLine("Jollof Rice", "Full Pan", 2, 80.0)], Pickup) == Amounts(160.0, 16.0, 0.0, 176.0)
  {
    var lines := [ItemLine("Jollof Rice", "Full Pan", 2, 80.0)];
    assert lines[..0] == [];
  }

  /** The same cart delivered: 160.00 + 16.00 + 5.00 = 181.00. */
  lemma JollofRiceDelivery()
    ensures ComputeAmounts([ItemLine("Jollof Rice", "Full Pan", 2, 80.0)], Delivery) == Amounts(160.0, 16.0, 5.0, 181.0)
  {
    var lines := [ItemLine("Jollof Rice", "Full Pan", 2, 80.0)];
    assert lines[..0] == [];
  }

  // ------------------------------------------------------ decimal:2 casts

  /** Whether `x` has at most two decimals. */
  predicate IsCents(x: real) {
    (x * 100.0).Floor as real == x * 100.0
  }

  /** `x` in hundredths, rounded half away from zero. */
  function Cents(x: real): int {
    if x >= 0.0 then (x * 100.0 + 0.5).Floor else -((-x) * 100.0 + 0.5).Floor
  }

  /** What the `decimal:2` cast reads back of `x`: two decimals, rounded
      half away from zero. */
  function RoundCents(x: real): real {
    Cents(x) as real / 100.0
  }

  lemma HundredthsAreCents(k: int)
    ensures IsCents(k as real / 100.0)
  {
    assert (k as real / 100.0) * 100.0 == k as real;
  }

  lemma RoundCentsIsCents(x: real)
    ensures IsCents(RoundCents(x))
  {
    HundredthsAreCents(Cents(x));
  }

  /** Rounding moves a value by at most half a cent. */
  lemma RoundCentsError(x: real)
    ensures -0.005 <= RoundCents(x) - x <= 0.005
  {
    var k := Cents(x);
    if x >= 0.0 {
      assert k as real <= x * 100.0 + 0.5 < k as real + 1.0;
    } else {
      assert -k as real <= (-x) * 100.0 + 0.5 < -k as real + 1.0;
    }
  }

  lemma RoundCentsOfCents(x: real)
    requires IsCents(x)
    ensures RoundCents(x) == x
  {
    var k := (x * 100.0).Floor;
    if x >= 0.0 {
      assert (x * 100.0 + 0.5).Floor == k;
    } else {
      assert ((-x) * 100.0 + 0.5).Floor == -k;
    }
    assert Cents(x) == k;
  }

  lemma CentsAdd(a: real, b: real)
    requires IsCents(a) && IsCents(b)
    ensures IsCents(a + b)
  {
    var ka, kb := (a * 100.0).Floor, (b * 100.0).Floor;
    assert (a + b) * 100.0 == (ka + kb) as real;
  }

  lemma CentsTimesInt(a: real, n: int)
    requires IsCents(a)
    ensures IsCents(a * n as real)
  {
    var ka := (a * 100.0).Floor;
    assert a * n as real * 100.0 == (a * 100.0) * n as real;
    assert a * n as real * 100.0 == (ka * n) as real;
  }

  /** Rounding commutes with adding a non-negative amount that already has two decimals. */
  lemma RoundCentsShift(a: real, b: real)
    requires IsCents(a) && a >= 0.0 && b >= 0.0
    ensures RoundCents(a + b) == a + RoundCents(b)
  {
    var ka := (a * 100.0).Floor;
    assert (a + b) * 100.0 + 0.5 == ka as real + (b * 100.0 + 0.5);
    assert ((a + b) * 100.0 + 0.5).Floor == ka + (b * 100.0 + 0.5).Floor;
    assert Cents(a + b) == ka + Cents(b);
  }

  lemma {:induction false} SubtotalIsCents(lines: seq<ItemLine>)
    requires forall i :: 0 <= i < |lines| ==> IsCents(lines[i].unitPrice)
    ensures IsCents(Subtotal(lines))
    decreases |lines|
  {
    if lines == [] {
      assert (0.0 * 100.0).Floor == 0;
    } else {
      var last := lines[|lines| - 1];
      SubtotalIsCents(lines[..|lines| - 1]);
      var price, quantity := last.unitPrice, last.quantity;
      CentsTimesInt(price, quantity);
      assert LineTotal(last) == price * quantity as real;
      CentsAdd(Subtotal(lines[..|lines| - 1]), price * quantity as real);
    }
  }

  /** The amounts of an order as its `decimal:2` casts read them back. */
  function StoredAmounts(a: Amounts): (s: Amounts)
    ensures IsCents(s.subtotal) && IsCents(s.tax) && IsCents(s.deliveryFee) && IsCents(s.total)
  {
    RoundCentsIsCents(a.subtotal);
    RoundCentsIsCents(a.tax);
    RoundCentsIsCents(a.deliveryFee);
    RoundCentsIsCents(a.total);
    Amounts(RoundCents(a.subtotal), RoundCents(a.tax), RoundCents(a.deliveryFee), RoundCents(a.total))
  }

  /** Rounding each amount separately keeps total = subtotal + tax +
      delivery_fee when subtotal and fee already have two decimals. */
  lemma StoredAmountsAddUp(a: Amounts)
    requires IsCents(a.subtotal) && IsCents(a.deliveryFee)
    requires a.subtotal >= 0.0 && a.tax >= 0.0 && a.deliveryFee >= 0.0
    requires a.total == a.subtotal + a.tax + a.deliveryFee
    ensures var s := StoredAmounts(a);
      s.total == s.subtotal + s.tax + s.deliveryFee && s.subtotal == a.subtotal
  {
    var base := a.subtotal + a.deliveryFee;
    CentsAdd(a.subtotal, a.deliveryFee);
    RoundCentsOfCents(a.subtotal);
    RoundCentsOfCents(a.deliveryFee);
    assert a.total == base + a.tax;
    RoundCentsShift(base, a.tax);
  }

  lemma FeeIsCents(kind: OrderType)
    ensures IsCents(DeliveryFee(kind))
  {
    if kind == Delivery {
      assert (5.0 * 100.0).Floor == 500;
    } else {
      assert (0.0 * 100.0).Floor == 0;
    }
  }

  /** With unit prices in whole cents, as the portion-size column delivers
      them, total = subtotal + tax + delivery_fee still holds of the stored
      two-decimal values. */
  lemma StoredTotalAddsUp(lines: seq<ItemLine>, kind: OrderType)
    requires WellPriced(lines)
    requires forall i :: 0 <= i < |lines| ==> IsCents(lines[i].unitPrice)
    ensures var s := StoredAmounts(ComputeAmounts(lines, kind));
      s.total == s.subtotal + s.tax + s.deliveryFee && s.subtotal == Subtotal(lines)
  {
    SubtotalIsCents(lines);
    SubtotalNonNegative(lines);
    FeeIsCents(kind);
    StoredAmountsAddUp(ComputeAmounts(lines, kind));
  }

  /** The request rules accept any non-negative unit price, and then the
      stored total can differ from the stored parts: one item at 0.0049
      stores subtotal 0.00, tax 0.00, fee 0.00 and total 0.01. */
  lemma StoredTotalDriftsWithSubCentPrices()
    ensures var s := StoredAmounts(ComputeAmounts([ItemLine("Tea", "Cup", 1, 0.0049)], Pickup));
      s == Amounts(0.0, 0.0, 0.0, 0.01) && s.total != s.subtotal + s.tax + s.deliveryFee
  {
    var lines := [ItemLine("Tea", "Cup", 1, 0.0049)];
    assert lines[..0] == [];
    var a := ComputeAmounts(lines, Pickup);
    assert a == Amounts(0.0049, 0.00049, 0.0, 0.00539);
    assert (0.0049 * 100.0 + 0.5).Floor == 0;
    assert (0.00049 * 100.0 + 0.5).Floor == 0;
    assert (0.00539 * 100.0 + 0.5).Floor == 1;
  }
}
