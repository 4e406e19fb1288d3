/**
 * How the KPI cards print their numbers: the value line with its "no data"
 * placeholder, `format_delta` of the year page (an HTML span with a colour and
 * an arrow), and the listing page's delta text and `delta_color`.
 */
module KpiFormat {
  import opened Wrappers
  import opened Text

  /** The placeholder shown instead of a value that is not positive. */
  const NoData := "데이터 없음"

  /** The unit written with a KPI value. */
  datatype ValueUnit = Cases | Won | SquareMetres

  /** The grouped number with the card's unit when `n > 0`, otherwise the placeholder. */
  function ValueText(n: int, unit: ValueUnit): string {
    if n > 0 then
      match unit
      case Cases => Grouped(n) + " 건"
      case Won => "₩ " + Grouped(n)
      case SquareMetres => Grouped(n) + " m²"
    else NoData
  }

  /** The placeholder appears exactly when the aggregate is not positive. */
  lemma ValueTextNoData(n: int, unit: ValueUnit)
    ensures ValueText(n, unit) == NoData <==> !(n > 0)
  {
    if n > 0 {
      GroupedNatStartsWithDigit(n);
      var v := ValueText(n, unit);
      assert NoData[0] == '데';
      if unit == Won {
        assert v[0] == '₩';
      } else {
        assert v[0] == Grouped(n)[0];
      }
    }
  }

  /** The three directions a delta can have. */
  datatype Direction = Up | Down | Flat

  function DirectionOf(delta: int): Direction {
    if delta > 0 then Up else if delta < 0 then Down else Flat
  }

  function Colour(d: Direction): string {
    match d
    case Up => "green"
    case Down => "red"
    case Flat => "black"
  }

  function Symbol(d: Direction): string {
    match d
    case Up => "▲"
    case Down => "▼"
    case Flat => "-"
  }

  function SpanOpen(colour: string): string {
    "<span style='color:" + colour + "'>"
  }

  const SpanClose := "</span>"

  /** The start of a formatted delta: the coloured span and its arrow. */
  function Tag(d: Direction): string {
    SpanOpen(Colour(d)) + Symbol(d)
  }

  /**
   * `format_delta(delta, decimal_points)`: a span coloured after the sign,
   * holding the arrow and, unless the delta is zero, the grouped number.
   */
  function FormatDelta(delta: int, decimals: nat): string {
    var d := DirectionOf(delta);
    if delta != 0 then Tag(d) + " " + FixedGrouped(delta, decimals) + SpanClose
    else Tag(d) + SpanClose
  }

  /** The formatted text of a flat delta: the black dash alone. */
  const FlatDelta := Tag(Flat) + SpanClose

  /** Two different tags disagree at the first letter of their colour. */
  lemma TagsDiffer(a: Direction, b: Direction, s: string, t: string)
    requires a != b
    ensures !(Tag(a) <= Tag(b) + t)
    ensures Tag(a) + s != Tag(b) + t
  {
    var x, y := Tag(a) + s, Tag(b) + t;
    assert Tag(a)[19] == Colour(a)[0];
    assert x[19] == Colour(a)[0] && y[19] == Colour(b)[0];
  }

  /** The text after the tag. */
  function DeltaTail(delta: int, decimals: nat): string {
    if delta != 0 then " " + FixedGrouped(delta, decimals) + SpanClose else SpanClose
  }

  lemma FormatDeltaSplits(delta: int, decimals: nat)
    ensures FormatDelta(delta, decimals) == Tag(DirectionOf(delta)) + DeltaTail(delta, decimals)
  {
  }

  /**
   * Each delta gets exactly one tag: green ▲ for a rise, red ▼ for a fall,
   * black - for no change; a zero delta prints the dash and no number.
   */
  lemma FormatDeltaTag(delta: int, decimals: nat)
    ensures Tag(Up) <= FormatDelta(delta, decimals) <==> delta > 0
    ensures Tag(Down) <= FormatDelta(delta, decimals) <==> delta < 0
    ensures FormatDelta(delta, decimals) == FlatDelta <==> delta == 0
  {
    var d := DirectionOf(delta);
    var tail := DeltaTail(delta, decimals);
    FormatDeltaSplits(delta, decimals);
    if d != Up {
      TagsDiffer(Up, d, "", tail);
    }
    if d != Down {
      TagsDiffer(Down, d, "", tail);
    }
    if d != Flat {
      TagsDiffer(Flat, d, SpanClose, tail);
    }
  }

  /** A zero delta prints no digit. */
  lemma FlatDeltaHasNoNumber(decimals: nat)
    ensures FormatDelta(0, decimals) == FlatDelta
    ensures forall i :: 0 <= i < |FlatDelta| ==> !IsDigit(FlatDelta[i])
  {
  }

  /** The number text of a formatted delta with the decimal part cut off. */
  function IntegerPart(text: string, decimals: nat): string {
    if decimals == 0 || |text| < decimals + 1 then text else text[..|text| - decimals - 1]
  }

  /** Reads the number after the tag of direction `d`, if the span carries that tag. */
  function ReadTagged(html: string, d: Direction, decimals: nat): Option<int> {
    var head := Tag(d) + " ";
    if head <= html && |head| + |SpanClose| <= |html| then
      ParseNumeral(RemoveCommas(IntegerPart(html[|head|..|html| - |SpanClose|], decimals)))
    else None
  }

  /** Reads a delta back from its formatted span: the partner of `FormatDelta`. */
  function ReadDelta(html: string, decimals: nat): Option<int> {
    if html == FlatDelta then Some(0)
    else if Tag(Up) + " " <= html then ReadTagged(html, Up, decimals)
    else ReadTagged(html, Down, decimals)
  }

  lemma ReadTaggedOf(d: Direction, number: string, decimals: nat)
    ensures ReadTagged(Tag(d) + " " + number + SpanClose, d, decimals)
         == ParseNumeral(RemoveCommas(IntegerPart(number, decimals)))
  {
    var head := Tag(d) + " ";
    var html := head + number + SpanClose;
    assert head <= html;
    assert html[|head|..|html| - |SpanClose|] == number;
  }

  /** Cutting a point and `k` decimals off `g` + "." + `z` leaves `g`. */
  lemma CutDecimals(g: string, z: string, k: nat)
    requires |z| == k && k > 0
    ensures IntegerPart(g + "." + z, k) == g
  {
    var number := g + "." + z;
    assert number[..|number| - k - 1] == g;
  }

  lemma IntegerPartOfFixed(n: int, decimals: nat)
    ensures IntegerPart(FixedGrouped(n, decimals), decimals) == Grouped(n)
  {
    if decimals > 0 {
      CutDecimals(Grouped(n), Zeros(decimals), decimals);
    }
  }

  /** Past its tag, a formatted non-zero delta holds the grouped number. */
  lemma ReadTaggedFormat(delta: int, decimals: nat)
    requires delta != 0
    ensures ReadTagged(FormatDelta(delta, decimals), DirectionOf(delta), decimals) == Some(delta)
  {
    ReadTaggedOf(DirectionOf(delta), FixedGrouped(delta, decimals), decimals);
    IntegerPartOfFixed(delta, decimals);
    GroupedReadsBack(delta);
  }

  /** The formatted delta determines the delta: reading it back gives the number printed. */
  lemma ReadFormatDelta(delta: int, decimals: nat)
    ensures ReadDelta(FormatDelta(delta, decimals), decimals) == Some(delta)
  {
    FormatDeltaTag(delta, decimals);
    if delta != 0 {
      ReadTaggedFormat(delta, decimals);
      var html := FormatDelta(delta, decimals);
      if delta < 0 {
        FormatDeltaSplits(delta, decimals);
        TagsDiffer(Up, Down, "", " " + DeltaTail(delta, decimals));
        assert !(Tag(Up) + " " <= html);
      }
    }
  }

  /** The listing page's delta text: the signed grouped number, or nothing for zero. */
  function DeltaText(delta: int): string {
    if delta != 0 then SignedGrouped(delta) else ""
  }

  /** The listing page's delta colour, chosen by the sign of the delta. */
  function DeltaColour(delta: int): string {
    if delta < 0 then "inverse" else if delta > 0 then "normal" else "off"
  }

  /**
   * The delta text is empty exactly for a zero delta; otherwise it carries
   * the sign and reads back, commas stripped, as the delta.
   */
  lemma DeltaTextMeaning(delta: int)
    ensures DeltaText(delta) == "" <==> delta == 0
    ensures delta != 0 ==> DeltaText(delta)[0] == (if delta > 0 then '+' else '-')
    ensures delta != 0 ==> ParseNumeral(RemoveCommas(DeltaText(delta))) == Some(delta)
  {
    if delta != 0 {
      SignedGroupedReadsBack(delta);
    }
  }

  /** The colour is exactly one of the three, chosen by the sign. */
  lemma DeltaColourTrichotomy(delta: int)
    ensures DeltaColour(delta) in ["inverse", "normal", "off"]
    ensures DeltaColour(delta) == "inverse" <==> delta < 0
    ensures DeltaColour(delta) == "normal" <==> delta > 0
    ensures DeltaColour(delta) == "off" <==> delta == 0
  {
  }
}
