/** One cleaned row of the sales table and the columns the reports read. */
module SalesData {
  import opened Aggregates

  type MonthNum = m: int | 1 <= m <= 12 witness 1

  /** `pandas.Timestamp.dayofweek`: 0 is Monday, 6 is Sunday. */
  type DayNum = d: int | 0 <= d <= 6 witness 0

  /** The `YearMonth` period ("2024-01"). Its text sorts as (year, month). */
  datatype YearMonth = YearMonth(year: int, month: MonthNum)

  /** Months counted from year 0: the order in which `YearMonth` texts sort. */
  function MonthOrdinal(ym: YearMonth): int {
    ym.year * 12 + (ym.month - 1)
  }

  lemma MonthOrdinalInjective(a: YearMonth, b: YearMonth)
    requires MonthOrdinal(a) == MonthOrdinal(b)
    ensures a == b
  {
  }

  /** A row after `load_and_clean_data`: labels filled, numbers coerced, the
      late flag and the date parts derived. `channel` is never filled, so it
      may still be missing. */
  datatype Row = Row(
    orderId: string,
    buyerEmail: string,
    status: string,
    productName: string,
    category: string,
    brand: string,
    region: string,
    country: string,
    channel: Option<string>,
    paymentMethod: string,
    courier: string,
    yearMonth: YearMonth,
    dayOfWeek: DayNum,
    dayName: string,
    revenue: real,
    profit: real,
    units: int,
    paymentFees: real,
    refund: real,
    shippingCost: real,
    days: real,
    discountRate: real,
    prime: bool,
    isLate: bool)

  const COMPLETED: string := "Completed"

  // Columns, as functions from a row to its value.
  function Status(r: Row): string { r.status }
  function OrderId(r: Row): string { r.orderId }
  function Customer(r: Row): string { r.buyerEmail }
  function ProductName(r: Row): string { r.productName }
  function Country(r: Row): string { r.country }
  function Category(r: Row): string { r.category }
  function RegionCountry(r: Row): (string, string) { (r.region, r.country) }
  function Channel(r: Row): Option<string> { r.channel }
  function Day(r: Row): (DayNum, string) { (r.dayOfWeek, r.dayName) }
  function ProductKey(r: Row): (string, string, string) { (r.productName, r.category, r.brand) }
  function Brand(r: Row): string { r.brand }
  function PaymentMethod(r: Row): string { r.paymentMethod }
  function Courier(r: Row): string { r.courier }
  function Month(r: Row): YearMonth { r.yearMonth }
  function Revenue(r: Row): real { r.revenue }
  function Profit(r: Row): real { r.profit }
  function Units(r: Row): int { r.units }
  function UnitsReal(r: Row): real { r.units as real }
  function PaymentFees(r: Row): real { r.paymentFees }
  function Refund(r: Row): real { r.refund }
  function ShippingCost(r: Row): real { r.shippingCost }
  function Days(r: Row): real { r.days }
  function DiscountRate(r: Row): real { r.discountRate }
  function IsPrime(r: Row): bool { r.prime }
  function IsLate(r: Row): bool { r.isLate }

  /** `df[df['Order_Status'] == 'Completed']`. */
  function Completed(rows: seq<Row>): (c: seq<Row>)
    ensures forall i :: 0 <= i < |c| ==> c[i].status == COMPLETED && c[i] in rows
    ensures forall j :: 0 <= j < |rows| && rows[j].status == COMPLETED ==> rows[j] in c
  {
    Where(rows, Status, COMPLETED)
  }

  /** The filter keeps every completed row as often as it occurs, and no
      other row. */
  lemma {:induction false} CompletedMultiset(rows: seq<Row>)
    ensures forall x :: multiset(Completed(rows))[x] == if x.status == COMPLETED then multiset(rows)[x] else 0
  {
    WhereMultiset(rows, Status, COMPLETED);
  }

  /** A row whose status is not `Completed` can be added anywhere without
      changing the completed rows, so it changes no report built on them. */
  lemma OtherStatusIgnored(a: seq<Row>, r: Row, b: seq<Row>)
    requires r.status != COMPLETED
    ensures Completed(a + [r] + b) == Completed(a + b)
  {
    WhereConcat(a + [r], b, Status, COMPLETED);
    WhereConcat(a, [r], Status, COMPLETED);
    WhereConcat(a, b, Status, COMPLETED);
    assert Where([r], Status, COMPLETED) == [] + Where([], Status, COMPLETED);
    assert Where(a, Status, COMPLETED) + [] == Where(a, Status, COMPLETED);
  }

  lemma CompletedUnitsTotal(rows: seq<Row>)
    ensures SumInt(Completed(rows), Units) as real == Sum(Completed(rows), UnitsReal)
  {
    SumIntAsReal(Completed(rows), Units, UnitsReal);
  }
}
