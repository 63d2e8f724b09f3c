/** Estimate totals: rounding to hundredths, and how far it can drift. */
module Totals {

  datatype Item = Item(quantity: real, rate: real)

  datatype Invoice = Invoice(subtotal: real, discount: real, tax: real, total: real)

  /** Round to hundredths, ties to the even one. */
  function Round2(x: real): real {
    var scaled := x * 100.0;
    var low := scaled.Floor;
    var rest := scaled - low as real;
    (if rest < 0.5 || (rest == 0.5 && low % 2 == 0) then low else low + 1) as real / 100.0
  }

  const HALF_CENT := 0.005

  predicate Hundredths(x: real) {
    (x * 100.0).Floor as real == x * 100.0
  }

  lemma RoundingError(x: real)
    ensures -HALF_CENT <= Round2(x) - x <= HALF_CENT
    ensures Hundredths(Round2(x))
    ensures Hundredths(x) ==> Round2(x) == x
    ensures x >= 0.0 ==> Round2(x) >= 0.0
  {
    var scaled := x * 100.0;
    var low := scaled.Floor;
    var n := if scaled - low as real < 0.5 || (scaled - low as real == 0.5 && low % 2 == 0) then low else low + 1;
    assert -0.5 <= n as real - scaled <= 0.5;
    assert Round2(x) == n as real / 100.0;
    assert Round2(x) * 100.0 == n as real;
  }

  /** Halves go to the even hundredth. */
  lemma HalvesToEven(x: real, n: int)
    requires x * 100.0 == n as real + 0.5
    ensures Round2(x) == (if n % 2 == 0 then n else n + 1) as real / 100.0
  {
    assert (x * 100.0).Floor == n;
  }

  function Amount(i: Item): real {
    i.quantity * i.rate
  }

  /** Exact sum of the item amounts, and the sum of the amounts as each is stored. */
  function ExactSum(items: seq<Item>): real {
    if items == [] then 0.0 else ExactSum(items[..|items| - 1]) + Amount(items[|items| - 1])
  }

  function StoredSum(items: seq<Item>): real {
    if items == [] then 0.0 else StoredSum(items[..|items| - 1]) + Round2(Amount(items[|items| - 1]))
  }

  function AfterDiscount(items: seq<Item>, discount: real): real {
    var rest := Round2(ExactSum(items)) - discount;
    if rest > 0.0 then rest else 0.0
  }

  function TaxOn(net: real, taxPercent: real): real {
    net * taxPercent / 100.0
  }

  method SumAmounts(items: seq<Item>) returns (sum: real)
    ensures sum == ExactSum(items)
  {
    sum := 0.0;
    for i := 0 to |items|
      invariant sum == ExactSum(items[..i])
    {
      assert items[..i + 1][..i] == items[..i];
      sum := sum + Amount(items[i]);
    }
    assert items[..|items|] == items;
  }

  method ComputeTotals(items: seq<Item>, discount: real, taxPercent: real) returns (t: Invoice)
    ensures t == TotalsOf(items, discount, taxPercent)
  {
    var sum := SumAmounts(items);
    var subtotal := Round2(sum);
    var afterDiscount := if subtotal - discount > 0.0 then subtotal - discount else 0.0;
    var tax := Round2(TaxOn(afterDiscount, taxPercent));
    var total := Round2(afterDiscount + tax);
    t := Invoice(subtotal, Round2(discount), tax, total);
  }

  function TotalsOf(items: seq<Item>, discount: real, taxPercent: real): Invoice {
    var net := AfterDiscount(items, discount);
    var tax := Round2(TaxOn(net, taxPercent));
    Invoice(Round2(ExactSum(items)), Round2(discount), tax, Round2(net + tax))
  }

  /** What an invoice says, in terms of quantities and rates: each figure is a hundredth nearest to
      its exact value, and the tax is on what is left of the subtotal, if anything, after discount. */
  lemma TotalsMean(items: seq<Item>, discount: real, taxPercent: real)
    ensures var t := TotalsOf(items, discount, taxPercent);
            && Nearest(t.subtotal, SumProduct(items)) && Nearest(t.discount, discount)
            && Nearest(t.total, Left(t.subtotal, discount) + t.tax)
            && Hundredths(t.tax) && var taxed := Left(t.subtotal, discount) * taxPercent;
               taxed - 0.5 <= 100.0 * t.tax <= taxed + 0.5
  {
    hide Round2, Nearest, ExactSum, SumProduct, TaxOn, Hundredths;
    SumsAgree(items);
    var net := AfterDiscount(items, discount);
    assert net == Left(TotalsOf(items, discount, taxPercent).subtotal, discount);
    RoundsNearest(ExactSum(items));
    RoundsNearest(discount);
    RoundingError(TaxOn(net, taxPercent));
    TaxIsPercent(net, taxPercent);
    RoundsNearest(net + Round2(TaxOn(net, taxPercent)));
  }

  /** What a discount leaves of a subtotal, never less than nothing. */
  function Left(subtotal: real, discount: real): real {
    if subtotal > discount then subtotal - discount else 0.0
  }

  lemma TaxIsPercent(net: real, taxPercent: real)
    ensures 100.0 * TaxOn(net, taxPercent) == net * taxPercent
  {
  }

  lemma RoundsNearest(x: real)
    ensures Nearest(Round2(x), x)
  {
    RoundingError(x);
  }

  /** A whole number of hundredths within half a hundredth. */
  predicate Nearest(rounded: real, x: real) {
    Hundredths(rounded) && x - 0.005 <= rounded <= x + 0.005
  }

  function SumProduct(items: seq<Item>): real {
    if items == [] then 0.0 else items[0].quantity * items[0].rate + SumProduct(items[1..])
  }

  lemma {:induction false} SumsAgree(items: seq<Item>)
    ensures ExactSum(items) == SumProduct(items)
  {
    if items != [] {
      var n := |items| - 1;
      SumsAgree(items[..n]);
      SumProductSnoc(items[..n], items[n]);
      assert items[..n] + [items[n]] == items;
    }
  }

  lemma {:induction false} SumProductSnoc(items: seq<Item>, i: Item)
    ensures SumProduct(items + [i]) == SumProduct(items) + i.quantity * i.rate
  {
    if items == [] {
      assert [i][1..] == [];
    } else {
      assert (items + [i])[1..] == items[1..] + [i];
      SumProductSnoc(items[1..], i);
    }
  }

  lemma {:induction false} StoredDrift(items: seq<Item>)
    ensures -HALF_CENT * |items| as real <= StoredSum(items) - ExactSum(items) <= HALF_CENT * |items| as real
  {
    if items != [] {
      StoredDrift(items[..|items| - 1]);
      RoundingError(Amount(items[|items| - 1]));
    }
  }

  /** The stored subtotal is within (n + 1) / 2 hundredths of the sum of the n stored amounts. */
  lemma SubtotalDrift(items: seq<Item>)
    ensures var d := Round2(ExactSum(items)) - StoredSum(items);
            -HALF_CENT * (|items| + 1) as real <= d <= HALF_CENT * (|items| + 1) as real
  {
    StoredDrift(items);
    RoundingError(ExactSum(items));
  }

  /**
   * The stored total is within one hundredth of the exact taxed net, never negative while the
   * tax rate is at least -100%, and within one hundredth of what the stored lines say
   * (subtotal less discount plus tax) when the discount does not exceed the subtotal.
   */
  lemma TotalDrift(items: seq<Item>, discount: real, taxPercent: real)
    ensures var t, net := TotalsOf(items, discount, taxPercent), AfterDiscount(items, discount);
            && -0.01 <= t.total - (net + TaxOn(net, taxPercent)) <= 0.01
            && (taxPercent >= -100.0 ==> t.total >= 0.0)
            && (discount <= t.subtotal ==> -0.01 <= t.total - (t.subtotal - t.discount + t.tax) <= 0.01)
  {
    var net := AfterDiscount(items, discount);
    var tax := TaxOn(net, taxPercent);
    RoundingError(tax);
    RoundingError(net + Round2(tax));
    RoundingError(discount);
    if taxPercent >= -100.0 {
      NetCoversTax(net, taxPercent);
      TotalNonNegative(net, tax);
    }
  }

  lemma NetCoversTax(net: real, taxPercent: real)
    requires net >= 0.0 && taxPercent >= -100.0
    ensures net + TaxOn(net, taxPercent) >= 0.0
  {
    assert net * (100.0 + taxPercent) >= 0.0;
    assert net * (100.0 + taxPercent) == net * 100.0 + net * taxPercent;
  }

  /** Rounding the tax and then the sum cannot push a non-negative amount below zero. */
  lemma TotalNonNegative(net: real, tax: real)
    requires net >= 0.0 && net + tax >= 0.0
    ensures Round2(net + Round2(tax)) >= 0.0
  {
    RoundingError(tax);
    var s := (net + Round2(tax)) * 100.0;
    assert s >= -0.5;
    assert s.Floor >= -1;
    if s.Floor == -1 {
      assert s - s.Floor as real >= 0.5;
      assert (-1) % 2 == 1;
    }
  }
}
