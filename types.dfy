/** The three record shapes of the calculator (types.ts). Every JavaScript
    `number` is a `real` here, except the order count of a parsed line, which
    `parseInt` always makes a whole number. */
module Types {

  /** One day of an imported sales export. `date` is whatever text the first
      field held, normally `YYYY-MM-DD`. */
  datatype DailyRecord = DailyRecord(
    date: string,
    orders: int,
    netValue: real,
    shippingCost: real,
    totalValue: real)

  /** The figures the form shows and the metrics are derived from. */
  datatype InputState = InputState(
    ordersCount: real,
    netValueWithVat: real,
    shippingCost: real,
    totalValueWithShipping: real,
    marketingCost: real,
    dailyFixedExpenses: real,
    daysCount: real)

  /** The seven derived figures. */
  datatype CalculationMetrics = CalculationMetrics(
    netValueExVat: real,
    productCost: real,
    grossProfit: real,
    vatAmount: real,
    profitMargin: real,
    averageOrderValue: real,
    totalFixedCosts: real)
}
