/** The per-row part of `load_and_clean_data`: missing labels get default
    values, missing or unparsable numbers become 0, the Prime flag and the
    late-delivery flag are derived. A cell that may be missing is an
    `Option`. Reading the workbook and parsing dates are not modelled: the
    date parts arrive already extracted. */
module Cleaning {
  import opened Aggregates
  import opened SalesData

  /** A row as read from the workbook. */
  datatype RawRow = RawRow(
    orderId: string,
    buyerEmail: string,
    status: string,
    productName: string,
    category: Option<string>,
    brand: Option<string>,
    region: Option<string>,
    country: Option<string>,
    channel: Option<string>,
    paymentMethod: Option<string>,
    courier: Option<string>,
    yearMonth: YearMonth,
    dayOfWeek: DayNum,
    dayName: string,
    revenue: Option<real>,
    profit: Option<real>,
    units: Option<int>,
    paymentFees: real,
    refund: Option<real>,
    shippingCost: Option<real>,
    days: real,
    discountRate: real,
    primeMember: Option<real>,
    lateDeliveries: Option<string>)

  const UNKNOWN: string := "Unknown"
  const UNKNOWN_BRAND: string := "Unknown Brand"

  /** `fillna(default)` on a text cell. */
  function FillText(cell: Option<string>, default: string): string {
    if cell.Some? then cell.value else default
  }

  /** `pd.to_numeric(errors='coerce').fillna(0)`: a missing or unparsable
      number (`None`) becomes 0. */
  function FillNumber(cell: Option<real>): real {
    if cell.Some? then cell.value else 0.0
  }

  function FillCount(cell: Option<int>): int {
    if cell.Some? then cell.value else 0
  }

  /** `str.lower` on one character. Only `Y`, `E` and `S` lower-case to the
      letters of "yes", so the ASCII mapping decides the late flag exactly. */
  function LowerChar(c: char): char {
    if 'A' <= c <= 'Z' then (c as int - 'A' as int + 'a' as int) as char else c
  }

  function Lower(s: string): (t: string)
    ensures |t| == |s|
  {
    seq(|s|, i requires 0 <= i < |s| => LowerChar(s[i]))
  }

  /** The `IsLate` rule: the late-delivery cell, with a missing cell read as
      "No", lower-cased, equals "yes". */
  function LateFlag(cell: Option<string>): (late: bool)
    ensures cell.None? ==> !late
    ensures late ==> cell.Some? && |cell.value| == 3
  {
    Lower(FillText(cell, "No")) == "yes"
  }

  /** `Prime_Member.fillna(0).astype(bool)`: a member exactly when the cell
      holds a non-zero number. */
  function PrimeFlag(cell: Option<real>): (member: bool)
    ensures member <==> cell.Some? && cell.value != 0.0
  {
    FillNumber(cell) != 0.0
  }

  /** One cleaned row: identifiers, date parts and the channel are copied,
      every present label and number is kept, and the two flags are derived. */
  function Clean(raw: RawRow): (r: Row)
    ensures r.orderId == raw.orderId && r.buyerEmail == raw.buyerEmail && r.status == raw.status
    ensures r.productName == raw.productName && r.channel == raw.channel
    ensures r.yearMonth == raw.yearMonth && r.dayOfWeek == raw.dayOfWeek && r.dayName == raw.dayName
    ensures raw.category.Some? ==> r.category == raw.category.value
    ensures raw.brand.Some? ==> r.brand == raw.brand.value
    ensures raw.region.Some? ==> r.region == raw.region.value
    ensures raw.country.Some? ==> r.country == raw.country.value
    ensures raw.paymentMethod.Some? ==> r.paymentMethod == raw.paymentMethod.value
    ensures raw.courier.Some? ==> r.courier == raw.courier.value
    ensures raw.revenue.Some? ==> r.revenue == raw.revenue.value
    ensures raw.profit.Some? ==> r.profit == raw.profit.value
    ensures raw.units.Some? ==> r.units == raw.units.value
    ensures raw.refund.Some? ==> r.refund == raw.refund.value
    ensures raw.shippingCost.Some? ==> r.shippingCost == raw.shippingCost.value
    ensures r.prime <==> raw.primeMember.Some? && raw.primeMember.value != 0.0
  {
    Row(
      orderId := raw.orderId,
      buyerEmail := raw.buyerEmail,
      status := raw.status,
      productName := raw.productName,
      category := FillText(raw.category, UNKNOWN),
      brand := FillText(raw.brand, UNKNOWN_BRAND),
      region := FillText(raw.region, UNKNOWN),
      country := FillText(raw.country, UNKNOWN),
      channel := raw.channel,
      paymentMethod := FillText(raw.paymentMethod, UNKNOWN),
      courier := FillText(raw.courier, UNKNOWN),
      yearMonth := raw.yearMonth,
      dayOfWeek := raw.dayOfWeek,
      dayName := raw.dayName,
      revenue := FillNumber(raw.revenue),
      profit := FillNumber(raw.profit),
      units := FillCount(raw.units),
      paymentFees := raw.paymentFees,
      refund := FillNumber(raw.refund),
      shippingCost := FillNumber(raw.shippingCost),
      days := raw.days,
      discountRate := raw.discountRate,
      prime := PrimeFlag(raw.primeMember),
      isLate := LateFlag(raw.lateDeliveries))
  }

  /** Cleaning is a per-row map: one cleaned row per raw row, in order. */
  function CleanAll(raws: seq<RawRow>): (rows: seq<Row>)
    ensures |rows| == |raws|
    ensures forall i :: 0 <= i < |raws| ==> rows[i] == Clean(raws[i])
  {
    Column(raws, Clean)
  }

  /** The late flag holds exactly for the three-letter texts y-e-s in any
      mixture of upper and lower case; a missing cell is not late. */
  lemma {:induction false} LateFlagIsCaseInsensitiveYes(cell: Option<string>)
    ensures LateFlag(cell) <==>
      cell.Some? && |cell.value| == 3
      && (cell.value[0] == 'y' || cell.value[0] == 'Y')
      && (cell.value[1] == 'e' || cell.value[1] == 'E')
      && (cell.value[2] == 's' || cell.value[2] == 'S')
  {
    var t := FillText(cell, "No");
    var l := Lower(t);
    if cell.None? {
      assert l[0] == 'n';
    } else if |t| == 3 {
      assert l == [LowerChar(t[0]), LowerChar(t[1]), LowerChar(t[2])];
    }
  }

  /** Every missing cell gets its default: a label its "Unknown" text, a
      number 0, the Prime flag false and the late flag "No". */
  lemma CleanFillsLabels(raw: RawRow)
    ensures var r := Clean(raw);
      && (raw.category.None? ==> r.category == UNKNOWN)
      && (raw.brand.None? ==> r.brand == UNKNOWN_BRAND)
      && (raw.region.None? ==> r.region == UNKNOWN)
      && (raw.country.None? ==> r.country == UNKNOWN)
      && (raw.paymentMethod.None? ==> r.paymentMethod == UNKNOWN)
      && (raw.courier.None? ==> r.courier == UNKNOWN)
      && (raw.revenue.None? ==> r.revenue == 0.0)
      && (raw.profit.None? ==> r.profit == 0.0)
      && (raw.units.None? ==> r.units == 0)
      && (raw.refund.None? ==> r.refund == 0.0)
      && (raw.shippingCost.None? ==> r.shippingCost == 0.0)
      && (raw.primeMember.None? ==> !r.prime)
      && (raw.lateDeliveries.None? ==> !r.isLate)
  {
    LateFlagIsCaseInsensitiveYes(raw.lateDeliveries);
  }

  /** The raw form of a row with no missing cells. */
  function Raw(r: Row): RawRow {
    RawRow(
      orderId := r.orderId,
      buyerEmail := r.buyerEmail,
      status := r.status,
      productName := r.productName,
      category := Some(r.category),
      brand := Some(r.brand),
      region := Some(r.region),
      country := Some(r.country),
      channel := r.channel,
      paymentMethod := Some(r.paymentMethod),
      courier := Some(r.courier),
      yearMonth := r.yearMonth,
      dayOfWeek := r.dayOfWeek,
      dayName := r.dayName,
      revenue := Some(r.revenue),
      profit := Some(r.profit),
      units := Some(r.units),
      paymentFees := r.paymentFees,
      refund := Some(r.refund),
      shippingCost := Some(r.shippingCost),
      days := r.days,
      discountRate := r.discountRate,
      primeMember := Some(if r.prime then 1.0 else 0.0),
      lateDeliveries := Some(if r.isLate then "Yes" else "No"))
  }

  /** Cleaning changes nothing in a row that has no missing cell. */
  lemma {:induction false} CleanKeepsCompleteRows(r: Row)
    ensures Clean(Raw(r)) == r
  {
    LateFlagIsCaseInsensitiveYes(Some("Yes"));
    LateFlagIsCaseInsensitiveYes(Some("No"));
  }
}
