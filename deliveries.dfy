/**
 * Delivery requests of the government e-procurement mall, as the two
 * delivery pages see them: the current-year selection, the cumulative
 * slices up to a day, the partner-vendor selection, and the searchable,
 * date-sorted table shown under the KPIs.
 */
module Deliveries {
  import opened Wrappers
  import opened Text
  import opened Tables

  /**
   * One delivery request: the receipt day ('납품요구접수일자'), the ordering
   * organisation ('수요기관명'), the request title ('납품요구건명'), the vendor
   * ('업체명'), the amount ('금액') and the quantity ('수량').
   */
  datatype Delivery = Delivery(
    receipt: int,
    organization: Option<string>,
    title: Option<string>,
    vendor: string,
    amount: Option<int>,
    quantity: Option<int>)

  function Amount(x: Delivery): Option<int> { x.amount }
  function Quantity(x: Delivery): Option<int> { x.quantity }

  /** The vendor name mentions either partner, 미도플러스 or 에코그라운드. */
  predicate IsPartnerVendor(vendor: string) {
    Contains(vendor, "미도플러스") || Contains(vendor, "에코그라운드")
  }

  function IsPartner(): Delivery -> bool {
    (x: Delivery) => IsPartnerVendor(x.vendor)
  }

  function ReceivedBy(day: int): Delivery -> bool {
    (x: Delivery) => x.receipt <= day
  }

  function ReceivedAfter(day: int): Delivery -> bool {
    (x: Delivery) => x.receipt > day
  }

  function ReceivedBetween(after: int, upTo: int): Delivery -> bool {
    (x: Delivery) => after < x.receipt <= upTo
  }

  /** The rows received in the current year, the year given by its first day and the next year's. */
  function CurrentYear(rows: seq<Delivery>, yearStart: int, nextYearStart: int): (r: seq<Delivery>)
    ensures forall x :: x in r ==> x in rows && yearStart <= x.receipt < nextYearStart
    ensures forall x :: x in rows && yearStart <= x.receipt < nextYearStart ==> x in r
    ensures IsSubsequence(r, rows)
  {
    Select(rows, (x: Delivery) => yearStart <= x.receipt < nextYearStart)
  }

  /** Everything received up to and including `day`. */
  function UpTo(rows: seq<Delivery>, day: int): (r: seq<Delivery>)
    ensures forall x :: x in r ==> x in rows && x.receipt <= day
    ensures forall x :: x in rows && x.receipt <= day ==> x in r
    ensures IsSubsequence(r, rows)
  {
    Select(rows, ReceivedBy(day))
  }

  /** The partner vendors' rows. */
  function PartnerRows(rows: seq<Delivery>): (r: seq<Delivery>)
    ensures forall x :: x in r ==> x in rows && IsPartnerVendor(x.vendor)
    ensures forall x :: x in rows && IsPartnerVendor(x.vendor) ==> x in r
    ensures IsSubsequence(r, rows)
  {
    Select(rows, IsPartner())
  }

  /** The rows received after `after` and up to `upTo`. */
  function Between(rows: seq<Delivery>, after: int, upTo: int): (r: seq<Delivery>)
    ensures forall x :: x in r ==> x in rows && after < x.receipt <= upTo
    ensures forall x :: x in rows && after < x.receipt <= upTo ==> x in r
  {
    Select(rows, ReceivedBetween(after, upTo))
  }

  /** Taking the partner rows and cutting at a day commute. */
  lemma PartnerUpToCommute(rows: seq<Delivery>, day: int)
    ensures PartnerRows(UpTo(rows, day)) == UpTo(PartnerRows(rows), day)
  {
    var both := (x: Delivery) => x.receipt <= day && IsPartnerVendor(x.vendor);
    SelectSelect(rows, ReceivedBy(day), IsPartner(), both);
    SelectSelect(rows, IsPartner(), ReceivedBy(day), both);
  }

  /** The comparison-day slice is part of the today slice, before and after the partner selection. */
  lemma SlicesNested(rows: seq<Delivery>, comparison: int, today: int)
    requires comparison <= today
    ensures IsSubsequence(UpTo(rows, comparison), UpTo(rows, today))
    ensures IsSubsequence(PartnerRows(UpTo(rows, comparison)), PartnerRows(UpTo(rows, today)))
  {
    SelectStricter(rows, ReceivedBy(comparison), ReceivedBy(today));
    PartnerUpToCommute(rows, comparison);
    PartnerUpToCommute(rows, today);
    SelectStricter(PartnerRows(rows), ReceivedBy(comparison), ReceivedBy(today));
  }

  /** Cutting the today slice at the comparison day gives the comparison-day slice; the rest is what arrived in between. */
  lemma SliceSplit(rows: seq<Delivery>, comparison: int, today: int)
    requires comparison <= today
    ensures Select(UpTo(rows, today), ReceivedBy(comparison)) == UpTo(rows, comparison)
    ensures Select(UpTo(rows, today), ReceivedAfter(comparison)) == Between(rows, comparison, today)
  {
    SelectSelect(rows, ReceivedBy(today), ReceivedBy(comparison), ReceivedBy(comparison));
    SelectSelect(rows, ReceivedBy(today), ReceivedAfter(comparison), ReceivedBetween(comparison, today));
  }

  /** The change of a cumulative count from the comparison day to today is the count of what arrived in between. */
  lemma CountDeltaIsArrivals(rows: seq<Delivery>, val: Delivery -> Option<int>, comparison: int, today: int)
    requires comparison <= today
    ensures Count(UpTo(rows, today), val) - Count(UpTo(rows, comparison), val)
         == Count(Between(rows, comparison, today), val)
  {
    SliceSplit(rows, comparison, today);
    CountSplit(UpTo(rows, today), val, ReceivedBy(comparison), ReceivedAfter(comparison));
  }

  /** Likewise for a cumulative sum. */
  lemma SumDeltaIsArrivals(rows: seq<Delivery>, val: Delivery -> Option<int>, comparison: int, today: int)
    requires comparison <= today
    ensures Sum(UpTo(rows, today), val) - Sum(UpTo(rows, comparison), val)
         == Sum(Between(rows, comparison, today), val)
  {
    SliceSplit(rows, comparison, today);
    SumSplit(UpTo(rows, today), val, ReceivedBy(comparison), ReceivedAfter(comparison));
  }

  /** A comparison day before every row leaves the comparison slice empty. */
  lemma EmptyComparisonSlice(rows: seq<Delivery>, comparison: int)
    requires forall x :: x in rows ==> comparison < x.receipt
    ensures UpTo(rows, comparison) == []
  {
    SelectNone(rows, ReceivedBy(comparison));
  }

  /** The columns offered for searching the delivery table. */
  datatype SearchColumn = ReceiptDate | Organization | Title | Vendor

  /**
   * The searched text of a row. The receipt date has by then been rewritten
   * as 'YYYY-MM-DD' text; `isoDate` is that formatting.
   */
  function SearchCell(x: Delivery, column: SearchColumn, isoDate: int -> string): Option<string> {
    match column
    case ReceiptDate => Some(isoDate(x.receipt))
    case Organization => x.organization
    case Title => x.title
    case Vendor => Some(x.vendor)
  }

  /** The table search: for a non-empty term, the rows whose chosen column contains it, ignoring case. */
  function Search(rows: seq<Delivery>, column: SearchColumn, term: string, isoDate: int -> string): (r: seq<Delivery>)
    ensures term == "" ==> r == rows
    ensures forall x :: x in r ==> x in rows && (term != "" ==> TextMatches(SearchCell(x, column, isoDate), term))
    ensures term != "" ==> forall x :: x in rows && TextMatches(SearchCell(x, column, isoDate), term) ==> x in r
    ensures IsSubsequence(r, rows)
  {
    TextSearch(rows, (x: Delivery) => SearchCell(x, column, isoDate), term)
  }

  function ByReceipt(): Delivery -> int {
    (x: Delivery) => x.receipt
  }

  /**
   * The table of the year page: the partner vendors' current-year rows up to
   * today, searched, newest receipt first.
   */
  function HomeTable(yearRows: seq<Delivery>, today: int, column: SearchColumn, term: string, isoDate: int -> string): (r: seq<Delivery>)
    ensures SortedDescending(r, ByReceipt())
    ensures multiset(r) == multiset(Search(PartnerRows(UpTo(yearRows, today)), column, term, isoDate))
    ensures term == "" ==> multiset(r) == multiset(PartnerRows(UpTo(yearRows, today)))
    ensures forall x :: x in r ==>
              x in yearRows && x.receipt <= today && IsPartnerVendor(x.vendor) &&
              (term != "" ==> TextMatches(SearchCell(x, column, isoDate), term))
  {
    var shown := Search(PartnerRows(UpTo(yearRows, today)), column, term, isoDate);
    var r := SortDescending(shown, ByReceipt());
    assert forall x :: x in r ==> x in multiset(shown);
    r
  }

  /** The table of the listing page: every row up to today, searched, newest receipt first. */
  function G2bTable(rows: seq<Delivery>, today: int, column: SearchColumn, term: string, isoDate: int -> string): (r: seq<Delivery>)
    ensures SortedDescending(r, ByReceipt())
    ensures multiset(r) == multiset(Search(UpTo(rows, today), column, term, isoDate))
    ensures term == "" ==> multiset(r) == multiset(UpTo(rows, today))
    ensures forall x :: x in r ==>
              x in rows && x.receipt <= today &&
              (term != "" ==> TextMatches(SearchCell(x, column, isoDate), term))
  {
    var shown := Search(UpTo(rows, today), column, term, isoDate);
    var r := SortDescending(shown, ByReceipt());
    assert forall x :: x in r ==> x in multiset(shown);
    r
  }
}
