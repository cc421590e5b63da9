/** The derived figures (the `metrics` memo of App.tsx): net value without
    VAT, product cost, fixed costs, gross profit, VAT, margin and average
    order value, from the current inputs. Arithmetic is exact here; the
    source computes in binary floating point. */
module Metrics {
  import opened Types

  /** The VAT rate, 21%. */
  const VatRate: real := 0.21

  function Derive(i: InputState): (m: CalculationMetrics)
    ensures m.netValueExVat * (1.0 + VatRate) == i.netValueWithVat
    ensures m.vatAmount + m.netValueExVat == i.netValueWithVat
    ensures m.productCost * 2.0 == m.netValueExVat
    ensures m.grossProfit == m.netValueExVat / 2.0 - i.marketingCost - m.totalFixedCosts
    ensures i.netValueWithVat > 0.0 ==> m.netValueExVat > 0.0 && m.profitMargin * m.netValueExVat == m.grossProfit * 100.0
    ensures i.netValueWithVat <= 0.0 ==> m.profitMargin == 0.0
    ensures i.ordersCount > 0.0 ==> m.averageOrderValue * i.ordersCount == i.totalValueWithShipping
    ensures i.ordersCount <= 0.0 ==> m.averageOrderValue == 0.0
  {
    var netValueExVat := i.netValueWithVat / (1.0 + VatRate);
    var productCost := netValueExVat / 2.0;
    var totalFixedCosts := i.dailyFixedExpenses * i.daysCount;
    var grossProfit := netValueExVat - i.marketingCost - productCost - totalFixedCosts;
    var vatAmount := i.netValueWithVat - netValueExVat;
    // The guard tests the VAT-inclusive value and the division uses the
    // VAT-exclusive one; with a positive rate the two have the same sign.
    var profitMargin := if i.netValueWithVat > 0.0 then (grossProfit / netValueExVat) * 100.0 else 0.0;
    var averageOrderValue := if i.ordersCount > 0.0 then i.totalValueWithShipping / i.ordersCount else 0.0;
    CalculationMetrics(netValueExVat, productCost, grossProfit, vatAmount, profitMargin, averageOrderValue, totalFixedCosts)
  }

  /** Fixed costs are the daily rate times the days, and VAT is 21% of the
      net value without VAT. */
  lemma FixedCostsAndVat(i: InputState)
    ensures Derive(i).totalFixedCosts == i.dailyFixedExpenses * i.daysCount
    ensures Derive(i).vatAmount == VatRate * Derive(i).netValueExVat
  {
  }

  /** Gross profit is not clamped: it is negative exactly when marketing and
      fixed costs exceed half of the net value without VAT. */
  lemma LossWhenCostsExceedHalf(i: InputState)
    ensures Derive(i).grossProfit < 0.0 <==> i.marketingCost + Derive(i).totalFixedCosts > Derive(i).netValueExVat / 2.0
  {
  }

  /** Gross profit falls by exactly the added marketing cost, all else
      equal (and rises by the amount when the cost is lowered). */
  lemma GrossProfitFallsWithMarketing(i: InputState, extra: real)
    ensures Derive(i.(marketingCost := i.marketingCost + extra)).grossProfit == Derive(i).grossProfit - extra
  {
  }

  /** Gross profit falls strictly as the daily fixed expense grows, for a
      positive number of days. */
  lemma GrossProfitFallsWithFixedExpenses(i: InputState, extra: real)
    requires extra > 0.0 && i.daysCount > 0.0
    ensures Derive(i.(dailyFixedExpenses := i.dailyFixedExpenses + extra)).grossProfit < Derive(i).grossProfit
  {
    assert (i.dailyFixedExpenses + extra) * i.daysCount == i.dailyFixedExpenses * i.daysCount + extra * i.daysCount;
    assert extra * i.daysCount > 0.0;
  }

  /** The worked example: 1210 with VAT, 100 marketing, 50 a day over two
      days, five orders totalling 1300. */
  lemma WorkedExample()
    ensures Derive(InputState(5.0, 1210.0, 0.0, 1300.0, 100.0, 50.0, 2.0))
         == CalculationMetrics(1000.0, 500.0, 300.0, 210.0, 30.0, 260.0, 100.0)
  {
  }
}
