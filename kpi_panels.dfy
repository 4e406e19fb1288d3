/**
 * The KPI cards of the two delivery pages. Each card compares a cumulative
 * aggregate up to today with the same aggregate up to the comparison day.
 * The year page (home_app.py) looks at the partner vendors' rows of the
 * current year; the listing page (g2b_app.py) at every row.
 */
module KpiPanels {
  import opened Wrappers
  import opened Tables
  import opened Deliveries
  import opened KpiFormat
  import opened Text

  /** One card of the year page: a caption, a value and a formatted delta. */
  datatype Card = Card(caption: string, value: string, delta: string)

  datatype HomePanel = HomePanel(cases: Card, amount: Card, quantity: Card)

  /**
   * The first three cards of the year page; none when nothing was loaded.
   * `loaded` is all loaded data, the year is given by its first day and the
   * next year's, and `comparison` is the resolved comparison day.
   */
  function HomeKpis(loaded: seq<Delivery>, yearStart: int, nextYearStart: int, today: int, comparison: int): (p: Option<HomePanel>)
    ensures p.Some? <==> loaded != []
  {
    if loaded == [] then None
    else
      var year := CurrentYear(loaded, yearStart, nextYearStart);
      var t := PartnerRows(UpTo(year, today));
      var y := PartnerRows(UpTo(year, comparison));
      Some(HomePanel(
        Card("건 수(건)", ValueText(Count(t, Quantity), Cases), FormatDelta(Count(t, Quantity) - Count(y, Quantity), 0)),
        Card("금액 합(₩)", ValueText(Sum(t, Amount), Won), FormatDelta(Sum(t, Amount) - Sum(y, Amount), 0)),
        Card("수량 합(m²)", ValueText(Sum(t, Quantity), SquareMetres), FormatDelta(Sum(t, Quantity) - Sum(y, Quantity), 2))))
  }

  /** The partner rows of the year received after the comparison day, up to today. */
  function HomeArrivals(loaded: seq<Delivery>, yearStart: int, nextYearStart: int, today: int, comparison: int): seq<Delivery> {
    PartnerRows(Between(CurrentYear(loaded, yearStart, nextYearStart), comparison, today))
  }

  /** Partner rows of the rows received in a window are the window of the partner rows. */
  lemma PartnerBetweenCommute(rows: seq<Delivery>, after: int, upTo: int)
    ensures PartnerRows(Between(rows, after, upTo)) == Between(PartnerRows(rows), after, upTo)
  {
    var both := (x: Delivery) => after < x.receipt <= upTo && IsPartnerVendor(x.vendor);
    SelectSelect(rows, ReceivedBetween(after, upTo), IsPartner(), both);
    SelectSelect(rows, IsPartner(), ReceivedBetween(after, upTo), both);
  }

  /** The partner-row slices of a table split at the comparison day. */
  lemma PartnerDeltas(rows: seq<Delivery>, val: Delivery -> Option<int>, comparison: int, today: int)
    requires comparison <= today
    ensures Count(PartnerRows(UpTo(rows, today)), val) - Count(PartnerRows(UpTo(rows, comparison)), val)
         == Count(PartnerRows(Between(rows, comparison, today)), val)
    ensures Sum(PartnerRows(UpTo(rows, today)), val) - Sum(PartnerRows(UpTo(rows, comparison)), val)
         == Sum(PartnerRows(Between(rows, comparison, today)), val)
  {
    PartnerUpToCommute(rows, today);
    PartnerUpToCommute(rows, comparison);
    PartnerBetweenCommute(rows, comparison, today);
    CountDeltaIsArrivals(PartnerRows(rows), val, comparison, today);
    SumDeltaIsArrivals(PartnerRows(rows), val, comparison, today);
  }

  /**
   * Each delta of the year page is the aggregate of the partner deliveries
   * received after the comparison day and up to today.
   */
  lemma HomeDeltasAreArrivals(loaded: seq<Delivery>, yearStart: int, nextYearStart: int, today: int, comparison: int)
    requires loaded != [] && comparison <= today
    ensures var p := HomeKpis(loaded, yearStart, nextYearStart, today, comparison).value;
            var a := HomeArrivals(loaded, yearStart, nextYearStart, today, comparison);
            p.cases.delta == FormatDelta(Count(a, Quantity), 0) &&
            p.amount.delta == FormatDelta(Sum(a, Amount), 0) &&
            p.quantity.delta == FormatDelta(Sum(a, Quantity), 2)
  {
    var year := CurrentYear(loaded, yearStart, nextYearStart);
    PartnerDeltas(year, Quantity, comparison, today);
    PartnerDeltas(year, Amount, comparison, today);
  }

  /**
   * Hence the case count never shows a fall, and neither do the amount and
   * quantity sums when amounts and quantities are never negative.
   */
  lemma HomeDeltasNeverFall(loaded: seq<Delivery>, yearStart: int, nextYearStart: int, today: int, comparison: int)
    requires loaded != [] && comparison <= today
    ensures !(Tag(Down) <= HomeKpis(loaded, yearStart, nextYearStart, today, comparison).value.cases.delta)
    ensures NonNegative(loaded, Amount) ==>
              !(Tag(Down) <= HomeKpis(loaded, yearStart, nextYearStart, today, comparison).value.amount.delta)
    ensures NonNegative(loaded, Quantity) ==>
              !(Tag(Down) <= HomeKpis(loaded, yearStart, nextYearStart, today, comparison).value.quantity.delta)
  {
    HomeDeltasAreArrivals(loaded, yearStart, nextYearStart, today, comparison);
    var a := HomeArrivals(loaded, yearStart, nextYearStart, today, comparison);
    FormatDeltaTag(Count(a, Quantity), 0);
    FormatDeltaTag(Sum(a, Amount), 0);
    FormatDeltaTag(Sum(a, Quantity), 2);
    if NonNegative(loaded, Amount) {
      SumNonNegative(a, Amount);
    }
    if NonNegative(loaded, Quantity) {
      SumNonNegative(a, Quantity);
    }
  }

  /** A card shows the placeholder exactly when today's aggregate is not positive. */
  lemma HomeValuesNoData(loaded: seq<Delivery>, yearStart: int, nextYearStart: int, today: int, comparison: int)
    requires loaded != []
    ensures var p := HomeKpis(loaded, yearStart, nextYearStart, today, comparison).value;
            var t := PartnerRows(UpTo(CurrentYear(loaded, yearStart, nextYearStart), today));
            (p.cases.value == NoData <==> Count(t, Quantity) == 0) &&
            (p.amount.value == NoData <==> !(Sum(t, Amount) > 0)) &&
            (p.quantity.value == NoData <==> !(Sum(t, Quantity) > 0))
  {
    var t := PartnerRows(UpTo(CurrentYear(loaded, yearStart, nextYearStart), today));
    ValueTextNoData(Count(t, Quantity), Cases);
    ValueTextNoData(Sum(t, Amount), Won);
    ValueTextNoData(Sum(t, Quantity), SquareMetres);
  }

  /**
   * Early in January the comparison day can fall in the previous year; the
   * comparison slice of the current year is then empty and each delta is
   * today's whole aggregate.
   */
  lemma HomeComparisonBeforeYear(loaded: seq<Delivery>, yearStart: int, nextYearStart: int, today: int, comparison: int)
    requires loaded != [] && comparison < yearStart
    ensures var p := HomeKpis(loaded, yearStart, nextYearStart, today, comparison).value;
            var t := PartnerRows(UpTo(CurrentYear(loaded, yearStart, nextYearStart), today));
            p.cases.delta == FormatDelta(Count(t, Quantity), 0) &&
            p.amount.delta == FormatDelta(Sum(t, Amount), 0) &&
            p.quantity.delta == FormatDelta(Sum(t, Quantity), 2)
  {
    var year := CurrentYear(loaded, yearStart, nextYearStart);
    EmptyComparisonSlice(year, comparison);
    assert PartnerRows(UpTo(year, comparison)) == [];
  }

  /** One metric of the listing page: a caption, a value, a delta text and a delta colour. */
  datatype Metric = Metric(caption: string, value: string, deltaText: string, deltaColour: string)

  /** A percentage value: a rate, or the placeholder when the rate is not positive or not a number. */
  datatype RateValue = RateNoData | Percent(rate: real)

  /** The delta text of a rate: empty, a signed number, or the text of a NaN delta ("+nan"). */
  datatype RateText = Blank | Signed(x: real) | NotANumber

  datatype RateMetric = RateMetric(caption: string, value: RateValue, deltaText: RateText, deltaColour: string)

  datatype G2bPanel = G2bPanel(cases: Metric, amount: Metric, quantity: Metric, quantityRate: RateMetric)

  /** The percentage `part` makes of `whole`, unrounded; no value (NaN) when `whole` is 0. */
  function Share(part: int, whole: int): Option<real> {
    if whole == 0 then None else Some((part as real / whole as real) * 100.0)
  }

  function RateDelta(today: Option<real>, yesterday: Option<real>): Option<real> {
    if today.Some? && yesterday.Some? then Some(today.value - yesterday.value) else None
  }

  /** The signed delta text, empty for zero; a NaN delta is not 0, so it is printed. */
  function RateDeltaText(d: Option<real>): RateText {
    match d
    case None => NotANumber
    case Some(x) => if x != 0.0 then Signed(x) else Blank
  }

  /** The colour rule of the listing page; every comparison with NaN is false, so NaN is "off". */
  function RateDeltaColour(d: Option<real>): string {
    match d
    case None => "off"
    case Some(x) => if x < 0.0 then "inverse" else if x > 0.0 then "normal" else "off"
  }

  function RateValueOf(rate: Option<real>): RateValue {
    if rate.Some? && rate.value > 0.0 then Percent(rate.value) else RateNoData
  }

  function RateCard(caption: string, today: Option<real>, yesterday: Option<real>): RateMetric {
    var d := RateDelta(today, yesterday);
    RateMetric(caption, RateValueOf(today), RateDeltaText(d), RateDeltaColour(d))
  }

  /** The quantity-share card as it is written: its "yesterday" share is computed from the today slices. */
  function QuantityRateAsWritten(rows: seq<Delivery>, today: int, comparison: int): RateMetric {
    var t := UpTo(rows, today);
    var tf := PartnerRows(t);
    RateCard("수량 (%)", Share(Sum(tf, Quantity), Sum(t, Quantity)), Share(Sum(tf, Quantity), Sum(t, Quantity)))
  }

  /** As written, the card never moves: its delta is 0 (or NaN), whatever the comparison day. */
  lemma QuantityRateAsWrittenNeverMoves(rows: seq<Delivery>, today: int, comparison: int, other: int)
    ensures QuantityRateAsWritten(rows, today, comparison).deltaColour == "off"
    ensures QuantityRateAsWritten(rows, today, comparison).deltaText
         == if Sum(UpTo(rows, today), Quantity) == 0 then NotANumber else Blank
    ensures QuantityRateAsWritten(rows, today, comparison) == QuantityRateAsWritten(rows, today, other)
  {
  }

  /** The quantity-share card comparing today's share with the comparison day's, as the other cards do. */
  function QuantityRate(rows: seq<Delivery>, today: int, comparison: int): RateMetric {
    var t := UpTo(rows, today);
    var y := UpTo(rows, comparison);
    RateCard("수량 (%)", Share(Sum(PartnerRows(t), Quantity), Sum(t, Quantity)),
                         Share(Sum(PartnerRows(y), Quantity), Sum(y, Quantity)))
  }

  /** One metric of the listing page from today's aggregate and the comparison day's. */
  function MetricOf(caption: string, today: int, yesterday: int, unit: ValueUnit): Metric {
    var d := today - yesterday;
    Metric(caption, ValueText(today, unit), DeltaText(d), DeltaColour(d))
  }

  /**
   * The metrics of the listing page; none when nothing was loaded. The count
   * and amount shares (cards 4 and 5) are not part of this model.
   */
  function G2bKpis(rows: seq<Delivery>, today: int, comparison: int): (p: Option<G2bPanel>)
    ensures p.Some? <==> rows != []
  {
    if rows == [] then None
    else
      var t := UpTo(rows, today);
      var y := UpTo(rows, comparison);
      Some(G2bPanel(
        MetricOf("건 수(건)", Count(t, Quantity), Count(y, Quantity), Cases),
        MetricOf("금액 합(₩)", Sum(t, Amount), Sum(y, Amount), Won),
        MetricOf("수량 합(m²)", Sum(t, Quantity), Sum(y, Quantity), SquareMetres),
        QuantityRate(rows, today, comparison)))
  }

  /**
   * On the listing page the case-count delta is the number of quantity
   * entries received after the comparison day: it is never shown as a fall,
   * and its text is empty exactly when nothing arrived.
   */
  lemma G2bCaseDelta(rows: seq<Delivery>, today: int, comparison: int)
    requires rows != [] && comparison <= today
    ensures var m := G2bKpis(rows, today, comparison).value.cases;
            var arrived := Count(Between(rows, comparison, today), Quantity);
            m.deltaColour != "inverse" &&
            (m.deltaText == "" <==> arrived == 0) &&
            m.deltaText == DeltaText(arrived)
  {
    CountDeltaIsArrivals(rows, Quantity, comparison, today);
    var arrived := Count(Between(rows, comparison, today), Quantity);
    DeltaTextMeaning(arrived);
    DeltaColourTrichotomy(arrived);
  }

  /**
   * Likewise the amount and quantity deltas are the sums received in
   * between, never shown as a fall when those values are not negative.
   */
  lemma G2bSumDeltas(rows: seq<Delivery>, today: int, comparison: int)
    requires rows != [] && comparison <= today
    ensures var p := G2bKpis(rows, today, comparison).value;
            var between := Between(rows, comparison, today);
            p.amount.deltaText == DeltaText(Sum(between, Amount)) &&
            p.amount.deltaColour == DeltaColour(Sum(between, Amount)) &&
            p.quantity.deltaText == DeltaText(Sum(between, Quantity)) &&
            p.quantity.deltaColour == DeltaColour(Sum(between, Quantity))
    ensures NonNegative(rows, Amount) ==> G2bKpis(rows, today, comparison).value.amount.deltaColour != "inverse"
    ensures NonNegative(rows, Quantity) ==> G2bKpis(rows, today, comparison).value.quantity.deltaColour != "inverse"
  {
    G2bSumFields(rows, today, comparison);
    SumDeltaIsArrivals(rows, Amount, comparison, today);
    SumDeltaIsArrivals(rows, Quantity, comparison, today);
    var between := Between(rows, comparison, today);
    if NonNegative(rows, Amount) {
      SumNonNegative(between, Amount);
    }
    if NonNegative(rows, Quantity) {
      SumNonNegative(between, Quantity);
    }
  }

  /** The amount and quantity metrics of the listing page, built from the two slices' sums. */
  lemma G2bSumFields(rows: seq<Delivery>, today: int, comparison: int)
    requires rows != []
    ensures var p := G2bKpis(rows, today, comparison).value;
            var t, y := UpTo(rows, today), UpTo(rows, comparison);
            p.amount == MetricOf("금액 합(₩)", Sum(t, Amount), Sum(y, Amount), Won) &&
            p.quantity == MetricOf("수량 합(m²)", Sum(t, Quantity), Sum(y, Quantity), SquareMetres)
  {
  }

  /** A metric shows the placeholder exactly when today's aggregate is not positive. */
  lemma G2bValuesNoData(rows: seq<Delivery>, today: int, comparison: int)
    requires rows != []
    ensures var p := G2bKpis(rows, today, comparison).value;
            var t := UpTo(rows, today);
            (p.cases.value == NoData <==> Count(t, Quantity) == 0) &&
            (p.amount.value == NoData <==> !(Sum(t, Amount) > 0)) &&
            (p.quantity.value == NoData <==> !(Sum(t, Quantity) > 0))
  {
    var t := UpTo(rows, today);
    ValueTextNoData(Count(t, Quantity), Cases);
    ValueTextNoData(Sum(t, Amount), Won);
    ValueTextNoData(Sum(t, Quantity), SquareMetres);
  }

  /** With non-negative quantities, the partner part of a table is at most its whole. */
  lemma PartnerPartBounded(rows: seq<Delivery>)
    requires NonNegative(rows, Quantity)
    ensures 0 <= Sum(PartnerRows(rows), Quantity) <= Sum(rows, Quantity)
  {
    var others := (x: Delivery) => !IsPartnerVendor(x.vendor);
    SumSplit(rows, Quantity, IsPartner(), others);
    SumNonNegative(PartnerRows(rows), Quantity);
    SumNonNegative(Select(rows, others), Quantity);
  }

  /** Fractions with positive denominators compare as their cross products do. */
  lemma CrossCompare(n1: real, d1: real, n2: real, d2: real)
    requires 0.0 < d1 && 0.0 < d2 && n1 * d2 <= n2 * d1
    ensures n1 / d1 <= n2 / d2
  {
    var q1, q2 := n1 / d1, n2 / d2;
    assert n1 == q1 * d1;
    assert n2 == q2 * d2;
    assert (q1 - q2) * (d1 * d2) <= 0.0;
    assert d1 * d2 > 0.0;
  }

  /** Adding `a` to both part and whole does not lower a share. */
  lemma ShareRises(f: int, t: int, a: int)
    requires 0 <= f <= t && 0 < t && 0 <= a
    ensures Share(f + a, t + a).value >= Share(f, t).value
  {
    assert f * (t + a) <= (f + a) * t by {
      assert f * a <= t * a;
    }
    CrossCompare(f as real, t as real, (f + a) as real, (t + a) as real);
  }

  /** Adding `a` to the whole alone does not raise a share. */
  lemma ShareFalls(f: int, t: int, a: int)
    requires 0 <= f && 0 < t && 0 <= a
    ensures Share(f, t + a).value <= Share(f, t).value
  {
    assert f * t <= f * (t + a);
    CrossCompare(f as real, (t + a) as real, f as real, t as real);
  }

  lemma SharesRise(pt: int, wt: int, f: int, w: int, a: int)
    requires pt == f + a && wt == w + a
    requires 0 <= f <= w && 0 < w && 0 <= a
    ensures Share(pt, wt).Some? && Share(f, w).Some? && Share(pt, wt).value >= Share(f, w).value
  {
    ShareRises(f, w, a);
  }

  lemma SharesFall(pt: int, wt: int, f: int, w: int, a: int)
    requires pt == f && wt == w + a
    requires 0 <= f && 0 < w && 0 <= a
    ensures Share(pt, wt).Some? && Share(f, w).Some? && Share(pt, wt).value <= Share(f, w).value
  {
    ShareFalls(f, w, a);
  }

  /** The totals of today's slices, in terms of the comparison day's slices and the arrivals. */
  lemma RateTerms(rows: seq<Delivery>, today: int, comparison: int)
    requires comparison <= today && NonNegative(rows, Quantity)
    ensures var arrivals := Between(rows, comparison, today);
            Sum(UpTo(rows, today), Quantity) == Sum(UpTo(rows, comparison), Quantity) + Sum(arrivals, Quantity) &&
            Sum(PartnerRows(UpTo(rows, today)), Quantity)
              == Sum(PartnerRows(UpTo(rows, comparison)), Quantity) + Sum(PartnerRows(arrivals), Quantity) &&
            0 <= Sum(PartnerRows(UpTo(rows, comparison)), Quantity) <= Sum(UpTo(rows, comparison), Quantity) &&
            0 <= Sum(arrivals, Quantity)
  {
    SumDeltaIsArrivals(rows, Quantity, comparison, today);
    PartnerDeltas(rows, Quantity, comparison, today);
    PartnerPartBounded(UpTo(rows, comparison));
    SumNonNegative(Between(rows, comparison, today), Quantity);
  }

  /** A share that did not fall is not shown as a fall; one that did not rise is not shown as a rise. */
  lemma RateCardColour(caption: string, today: Option<real>, yesterday: Option<real>)
    requires today.Some? && yesterday.Some?
    ensures today.value >= yesterday.value ==> RateCard(caption, today, yesterday).deltaColour != "inverse"
    ensures today.value <= yesterday.value ==> RateCard(caption, today, yesterday).deltaColour != "normal"
  {
  }

  /** The corrected card is the rate card of today's share against the comparison day's. */
  lemma QuantityRateShares(rows: seq<Delivery>, today: int, comparison: int)
    ensures var t, y := UpTo(rows, today), UpTo(rows, comparison);
            QuantityRate(rows, today, comparison)
              == RateCard("수량 (%)", Share(Sum(PartnerRows(t), Quantity), Sum(t, Quantity)),
                                      Share(Sum(PartnerRows(y), Quantity), Sum(y, Quantity)))
  {
  }

  /** When all arrivals are partners', both today's part and today's whole grow by the arrivals. */
  lemma AllPartnerTerms(rows: seq<Delivery>, today: int, comparison: int)
    requires comparison <= today && NonNegative(rows, Quantity)
    requires forall x :: x in Between(rows, comparison, today) ==> IsPartnerVendor(x.vendor)
    ensures var a := Sum(Between(rows, comparison, today), Quantity);
            Sum(PartnerRows(UpTo(rows, today)), Quantity) == Sum(PartnerRows(UpTo(rows, comparison)), Quantity) + a &&
            Sum(UpTo(rows, today), Quantity) == Sum(UpTo(rows, comparison), Quantity) + a
  {
    RateTerms(rows, today, comparison);
    SelectAll(Between(rows, comparison, today), IsPartner());
  }

  /** When no arrival is a partner's, only today's whole grows. */
  lemma NoPartnerTerms(rows: seq<Delivery>, today: int, comparison: int)
    requires comparison <= today && NonNegative(rows, Quantity)
    requires forall x :: x in Between(rows, comparison, today) ==> !IsPartnerVendor(x.vendor)
    ensures var a := Sum(Between(rows, comparison, today), Quantity);
            Sum(PartnerRows(UpTo(rows, today)), Quantity) == Sum(PartnerRows(UpTo(rows, comparison)), Quantity) &&
            Sum(UpTo(rows, today), Quantity) == Sum(UpTo(rows, comparison), Quantity) + a
  {
    RateTerms(rows, today, comparison);
    SelectNone(Between(rows, comparison, today), IsPartner());
  }

  /** When every quantity received since the comparison day is a partner's, the corrected share cannot show a fall. */
  lemma QuantityRateRisesWithPartners(rows: seq<Delivery>, today: int, comparison: int)
    requires comparison <= today && NonNegative(rows, Quantity)
    requires Sum(UpTo(rows, comparison), Quantity) > 0
    requires forall x :: x in Between(rows, comparison, today) ==> IsPartnerVendor(x.vendor)
    ensures QuantityRate(rows, today, comparison).deltaColour != "inverse"
  {
    var t, y := UpTo(rows, today), UpTo(rows, comparison);
    var f, w := Sum(PartnerRows(y), Quantity), Sum(y, Quantity);
    var a := Sum(Between(rows, comparison, today), Quantity);
    RateTerms(rows, today, comparison);
    AllPartnerTerms(rows, today, comparison);
    SharesRise(Sum(PartnerRows(t), Quantity), Sum(t, Quantity), f, w, a);
    QuantityRateShares(rows, today, comparison);
    RateCardColour("수량 (%)", Share(Sum(PartnerRows(t), Quantity), Sum(t, Quantity)), Share(f, w));
  }

  /** When none of them is a partner's, the corrected share cannot show a rise. */
  lemma QuantityRateFallsWithoutPartners(rows: seq<Delivery>, today: int, comparison: int)
    requires comparison <= today && NonNegative(rows, Quantity)
    requires Sum(UpTo(rows, comparison), Quantity) > 0
    requires forall x :: x in Between(rows, comparison, today) ==> !IsPartnerVendor(x.vendor)
    ensures QuantityRate(rows, today, comparison).deltaColour != "normal"
  {
    var t, y := UpTo(rows, today), UpTo(rows, comparison);
    var f, w := Sum(PartnerRows(y), Quantity), Sum(y, Quantity);
    var a := Sum(Between(rows, comparison, today), Quantity);
    RateTerms(rows, today, comparison);
    NoPartnerTerms(rows, today, comparison);
    SharesFall(Sum(PartnerRows(t), Quantity), Sum(t, Quantity), f, w, a);
    QuantityRateShares(rows, today, comparison);
    RateCardColour("수량 (%)", Share(Sum(PartnerRows(t), Quantity), Sum(t, Quantity)), Share(f, w));
  }

  /**
   * A table on which the two readings differ: one non-partner delivery on
   * day 1 and one partner delivery on day 2. Compared with day 1, the
   * partner share rises from 0 to 50 percent; as written the card shows no
   * change.
   */
  lemma QuantityRateCounterexample()
    ensures var rows := [Delivery(1, None, None, "기타업체", None, Some(1)),
                         Delivery(2, None, None, "미도플러스", None, Some(1))];
            QuantityRate(rows, 2, 1).deltaColour == "normal" &&
            QuantityRateAsWritten(rows, 2, 1).deltaColour == "off"
  {
    var other := Delivery(1, None, None, "기타업체", None, Some(1));
    var mido := Delivery(2, None, None, "미도플러스", None, Some(1));
    CounterexampleSlices(other, mido);
    assert Share(1, 2) == Some(50.0);
    assert Share(0, 1) == Some(0.0);
  }

  /** The slices of the counterexample's table. */
  lemma CounterexampleSlices(other: Delivery, mido: Delivery)
    requires other == Delivery(1, None, None, "기타업체", None, Some(1))
    requires mido == Delivery(2, None, None, "미도플러스", None, Some(1))
    ensures UpTo([other, mido], 2) == [other, mido] && UpTo([other, mido], 1) == [other]
    ensures PartnerRows([other, mido]) == [mido] && PartnerRows([other]) == []
  {
    assert [other, mido][1..] == [mido];
    CounterexampleDays(other, mido);
    CounterexampleVendors(other, mido);
  }

  lemma CounterexampleDays(other: Delivery, mido: Delivery)
    requires other.receipt == 1 && mido.receipt == 2
    ensures UpTo([other, mido], 2) == [other, mido] && UpTo([other, mido], 1) == [other]
  {
    assert [other, mido][1..] == [mido];
    assert UpTo([mido], 2) == [mido];
    assert UpTo([mido], 1) == [];
  }

  lemma CounterexampleVendors(other: Delivery, mido: Delivery)
    requires other.vendor == "기타업체" && mido.vendor == "미도플러스"
    ensures PartnerRows([other, mido]) == [mido] && PartnerRows([other]) == []
  {
    assert IsPartnerVendor(mido.vendor);
    assert !Contains("기타업체", "미도플러스");
    assert !Contains("기타업체", "에코그라운드");
    assert [other, mido][1..] == [mido];
    assert PartnerRows([mido]) == [mido];
  }
}
