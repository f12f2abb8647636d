/** Pricing a recovered slice of an order's fills (`_delta_fill_price`).

An order fills in time order, so the units the cursor already counted are the oldest executions and
a recovered slice is the next ones.
*/
module FillPrice {
  import opened Common

  /** One execution: its volume and price. */
  datatype Fill = Fill(units: nat, price: real)

  /** Units of the first `n` executions. */
  function Units(fills: seq<Fill>, n: nat): (units: int)
    requires n <= |fills|
    ensures units >= 0
  {
    if n == 0 then 0 else Units(fills, n - 1) + fills[n - 1].units
  }

  /** How many of the order's units `[from, to)` execution `i` covers. */
  function Overlap(fills: seq<Fill>, i: nat, from: int, to: int): (units: nat)
    requires i < |fills|
  {
    Max(0, Min(to, Units(fills, i + 1)) - Max(from, Units(fills, i)))
  }

  /** What `units` cost at the price. */
  function Times(price: real, units: nat): real {
    if units == 0 then 0.0 else Times(price, units - 1) + price
  }

  lemma {:induction false} TimesIsProduct(price: real, units: nat)
    ensures Times(price, units) == price * (units as real)
  {
    if units > 0 {
      TimesIsProduct(price, units - 1);
    }
  }

  /** What the units `[from, to)` cost, as far as the first `n` executions cover them. */
  function Notional(fills: seq<Fill>, n: nat, from: int, to: int): real
    requires n <= |fills|
  {
    if n == 0 then 0.0
    else Notional(fills, n - 1, from, to) + Times(fills[n - 1].price, Overlap(fills, n - 1, from, to))
  }

  /** How many of the units `[from, to)` the first `n` executions cover. */
  function Covered(fills: seq<Fill>, n: nat, from: int, to: int): nat
    requires n <= |fills|
  {
    Max(0, Min(to, Units(fills, n)) - from)
  }

  lemma {:induction false} TimesAdds(price: real, a: nat, b: nat)
    ensures Times(price, a + b) == Times(price, a) + Times(price, b)
  {
    if b > 0 {
      TimesAdds(price, a, b - 1);
      assert Times(price, a + b) == Times(price, a + (b - 1)) + price;
    }
  }

  lemma {:induction false} TimesMonotone(low: real, high: real, units: nat)
    requires units > 0 ==> low <= high
    ensures Times(low, units) <= Times(high, units)
    ensures low < high && units > 0 ==> Times(low, units) < Times(high, units)
  {
    if units > 0 {
      TimesMonotone(low, high, units - 1);
    }
  }

  /** Dividing the notional by the quantity gives it back. */
  lemma TimesQuotient(notional: real, units: nat)
    requires units > 0
    ensures Times(notional / (units as real), units) == notional
  {
    TimesIsProduct(notional / (units as real), units);
  }

  /** The price at which `qty` units after the first `booked` cost what their executions cost. */
  function DeltaPrice(fills: seq<Fill>, booked: int, qty: nat): (price: real)
    requires qty > 0
    ensures Times(price, qty) == Notional(fills, |fills|, booked, booked + qty)
  {
    TimesQuotient(Notional(fills, |fills|, booked, booked + qty), qty);
    Notional(fills, |fills|, booked, booked + qty) / (qty as real)
  }

  method Cost(price: real, units: nat) returns (cost: real)
    ensures cost == Times(price, units)
  {
    TimesIsProduct(price, units);
    cost := price * (units as real);
  }

  /** `_delta_fill_price`: `None` exactly when the deals do not cover the slice. */
  method DeltaFillPrice(fills: seq<Fill>, booked: nat, qty: nat) returns (price: Option<real>)
    requires qty > 0
    ensures price == if Units(fills, |fills|) < booked + qty then None else Some(DeltaPrice(fills, booked, qty))
  {
    var skip: int, taken: int, notional := booked, 0, 0.0;
    var i := 0;
    while i < |fills| && taken < qty
      invariant 0 <= i <= |fills|
      invariant skip == Max(0, booked - Units(fills, i))
      invariant taken == Covered(fills, i, booked, booked + qty)
      invariant notional == Notional(fills, i, booked, booked + qty)
    {
      var units, part := fills[i].units, 0;
      if skip >= units {
        skip := skip - units;
      } else {
        part := Min(units - skip, qty - taken);
        skip := 0;
        var cost := Cost(fills[i].price, part);
        notional := notional + cost;
        taken := taken + part;
      }
      assert part == Overlap(fills, i, booked, booked + qty);
      i := i + 1;
    }
    LaterFillsDoNotCount(fills, i, |fills|, booked, booked + qty);
    if taken < qty {
      price := None;
    } else {
      price := Some(notional / (taken as real));
    }
  }

  /** Executions after the range is covered add nothing to it. */
  lemma {:induction false} LaterFillsDoNotCount(fills: seq<Fill>, i: nat, n: nat, from: int, to: int)
    requires i <= n <= |fills|
    ensures Units(fills, i) <= Units(fills, n)
    ensures to <= Units(fills, i) ==> Notional(fills, n, from, to) == Notional(fills, i, from, to)
  {
    if i < n {
      LaterFillsDoNotCount(fills, i, n - 1, from, to);
    }
  }

  /** Prices telescope: consecutive ranges cost together what the whole range costs. */
  lemma {:induction false} NotionalTelescopes(fills: seq<Fill>, n: nat, from: int, mid: int, to: int)
    requires n <= |fills| && from <= mid <= to
    ensures Notional(fills, n, from, mid) + Notional(fills, n, mid, to) == Notional(fills, n, from, to)
  {
    if n > 0 {
      NotionalTelescopes(fills, n - 1, from, mid, to);
      TimesAdds(fills[n - 1].price, Overlap(fills, n - 1, from, mid), Overlap(fills, n - 1, mid, to));
    }
  }

  /** Where a slicing into consecutive deltas from `from` on ends. */
  function SlicesEnd(from: int, slices: seq<nat>): int {
    if slices == [] then from else SlicesEnd(from, slices[..|slices| - 1]) + slices[|slices| - 1]
  }

  /** The sum of the deltas' price times quantity. */
  function SliceNotional(fills: seq<Fill>, from: int, slices: seq<nat>): real {
    if slices == [] then 0.0
    else
      var older, qty := slices[..|slices| - 1], slices[|slices| - 1];
      SliceNotional(fills, from, older)
      + if qty == 0 then 0.0 else Times(DeltaPrice(fills, SlicesEnd(from, older), qty), qty)
  }

  /** However the fills are sliced into deltas, the deltas' prices times their quantities sum to what
      the executions cost. */
  lemma {:induction false} SlicesTelescope(fills: seq<Fill>, from: int, slices: seq<nat>)
    ensures from <= SlicesEnd(from, slices)
    ensures SliceNotional(fills, from, slices) == Notional(fills, |fills|, from, SlicesEnd(from, slices))
  {
    if slices == [] {
      NotionalTelescopes(fills, |fills|, from, from, from);
    } else {
      var older := slices[..|slices| - 1];
      var mid, end := SlicesEnd(from, older), SlicesEnd(from, slices);
      SlicesTelescope(fills, from, older);
      NotionalTelescopes(fills, |fills|, from, mid, end);
      NotionalTelescopes(fills, |fills|, mid, mid, mid);
    }
  }

  /** The whole order costs the sum over its executions. */
  lemma {:induction false} WholeOrderNotional(fills: seq<Fill>, n: nat)
    requires n <= |fills|
    ensures Notional(fills, n, 0, Units(fills, |fills|)) == ExecutionTotal(fills, n)
  {
    if n > 0 {
      WholeOrderNotional(fills, n - 1);
      LaterFillsDoNotCount(fills, n, |fills|, 0, 0);
    }
  }

  function ExecutionTotal(fills: seq<Fill>, n: nat): real
    requires n <= |fills|
  {
    if n == 0 then 0.0 else ExecutionTotal(fills, n - 1) + Times(fills[n - 1].price, fills[n - 1].units)
  }

  /** Whether every execution that overlaps `[from, to)` is priced within `[low, high]`. */
  predicate PricedWithin(fills: seq<Fill>, from: int, to: int, low: real, high: real) {
    forall i :: 0 <= i < |fills| && Overlap(fills, i, from, to) > 0 ==> low <= fills[i].price <= high
  }

  /** What the covered units would cost at one price. */
  function FlatNotional(fills: seq<Fill>, n: nat, from: int, to: int, price: real): real
    requires n <= |fills|
  {
    if n == 0 then 0.0 else FlatNotional(fills, n - 1, from, to, price) + Times(price, Overlap(fills, n - 1, from, to))
  }

  lemma {:induction false} NotionalAtLeast(fills: seq<Fill>, n: nat, from: int, to: int, low: real, high: real)
    requires n <= |fills| && PricedWithin(fills, from, to, low, high)
    ensures FlatNotional(fills, n, from, to, low) <= Notional(fills, n, from, to)
  {
    if n > 0 {
      NotionalAtLeast(fills, n - 1, from, to, low, high);
      TimesMonotone(low, fills[n - 1].price, Overlap(fills, n - 1, from, to));
    }
  }

  lemma {:induction false} NotionalAtMost(fills: seq<Fill>, n: nat, from: int, to: int, low: real, high: real)
    requires n <= |fills| && PricedWithin(fills, from, to, low, high)
    ensures Notional(fills, n, from, to) <= FlatNotional(fills, n, from, to, high)
  {
    if n > 0 {
      NotionalAtMost(fills, n - 1, from, to, low, high);
      TimesMonotone(fills[n - 1].price, high, Overlap(fills, n - 1, from, to));
    }
  }

  lemma {:induction false} FlatNotionalIsProduct(fills: seq<Fill>, n: nat, from: int, to: int, price: real)
    requires n <= |fills| && 0 <= from <= to
    ensures FlatNotional(fills, n, from, to, price) == Times(price, Covered(fills, n, from, to))
  {
    if n > 0 {
      FlatNotionalIsProduct(fills, n - 1, from, to, price);
      TimesAdds(price, Covered(fills, n - 1, from, to), Overlap(fills, n - 1, from, to));
      CoveredStep(fills, n, from, to);
    }
  }

  lemma CoveredStep(fills: seq<Fill>, n: nat, from: int, to: int)
    requires 0 < n <= |fills| && 0 <= from <= to
    ensures Covered(fills, n, from, to) == Covered(fills, n - 1, from, to) + Overlap(fills, n - 1, from, to)
  {
  }

  lemma PriceBetween(price: real, qty: nat, low: real, high: real)
    requires qty > 0 && Times(low, qty) <= Times(price, qty) <= Times(high, qty)
    ensures low <= price <= high
  {
  }

  /** One price for all of the slice's units. */
  lemma {:induction false} FlatSlice(fills: seq<Fill>, booked: nat, qty: nat, price: real)
    requires Units(fills, |fills|) >= booked + qty
    ensures FlatNotional(fills, |fills|, booked, booked + qty, price) == Times(price, qty)
  {
    FlatNotionalIsProduct(fills, |fills|, booked, booked + qty, price);
    assert Covered(fills, |fills|, booked, booked + qty) == qty;
  }

  /** The recovered price lies within the prices of the executions it stands for. */
  lemma {:induction false} DeltaPriceWithinSpan(fills: seq<Fill>, booked: nat, qty: nat, low: real, high: real)
    requires qty > 0 && Units(fills, |fills|) >= booked + qty
    requires PricedWithin(fills, booked, booked + qty, low, high)
    ensures low <= DeltaPrice(fills, booked, qty) <= high
  {
    NotionalAtLeast(fills, |fills|, booked, booked + qty, low, high);
    NotionalAtMost(fills, |fills|, booked, booked + qty, low, high);
    FlatSlice(fills, booked, qty, low);
    FlatSlice(fills, booked, qty, high);
    PriceBetween(DeltaPrice(fills, booked, qty), qty, low, high);
  }
}
