/** The page the scraper reads, abstracted from the DOM, and the records it
    assembles from it. Both versions of the scraper read the same kinds of
    elements; the bid-history rows and the gallery are collected by the same
    loops in both, except that only the current version parses the bid times. */
module Records {
  import opened Wrappers
  import opened Text
  import opened JsValues

  /** The texts of the cells of one row of the bid-history table. */
  type Row = seq<string>

  /** The `time` of a bid: the current version stores `Date.parse` of the
      cell's text (kept here unevaluated, as the text it parses), the earlier
      version the text itself. */
  datatype BidTime = Parsed(text: string) | Raw(text: string)

  /** One bid as the bid-history row gives it: the bidder, the amount text with
      its first "kr" removed (the record's `bid` is `parseFloat` of it), and the
      time. */
  datatype Bid = Bid(bidder: string, amountText: string, time: BidTime)

  /** What one visit to a listing page offers the scraper. A selector read is
      `Some(innerText)`, or `None` when no element matches (reading `innerText`
      of the missing element throws inside `evaluate`). */
  datatype Page = Page(
    url: string,                     // the page's URL after navigation (redirects included)
    notFoundContainer: bool,         // whether `.not-found-container` is rendered
    timeTitle: Option<string>,       // `.bid-details-time-title`
    sellerAlias: Option<string>,     // `.seller-alias`
    bidsTitle: Option<string>,       // `.bid-details-bids-title`
    itemTitle: Option<string>,       // `#view-item-main`
    heading: Option<string>,         // `.my-auto > .heading-london`
    amount: Option<string>,          // `.bid-details-amount > span > span`
    timeLeft: Option<string>,        // `div.flex-md-row:nth-child(2) > div:nth-child(2) > p:nth-child(1)` (current version)
    timeLeftSpan: Option<string>,    // the `span` in the time-left paragraph of the bid details (earlier version)
    buyNowButton: Option<string>,    // `button.btn-md:nth-child(3)`
    description: Option<string>,     // `.overflow-hidden.text-break.position-relative`
    endTime: Option<string>,         // the end-time paragraph
    bidRows: Option<seq<Row>>,       // `.table-fixed > tbody > tr`; None when the bid-history link cannot be clicked
    gallery: seq<string>)            // the `src` of each `.image-gallery-item__image`

  /** An auction record. Fields read through the field reader hold whatever it
      returned: text, a converted value, a default, or `undefined`. */
  datatype AuctionInfo = AuctionInfo(
    sellerName: Value,
    isAuction: Value,
    auctionName: Value,              // `aucutionName` in the source
    auctionEnded: Value,
    allBids: seq<Bid>,
    highestBid: Value,
    latestBid: Option<Bid>,          // None stands for `undefined`
    numberOfBids: nat,
    timeLeft: Value,
    endTime: Value,
    buyNowPrice: Value,
    buyNowAvailable: Value,
    description: Value,
    images: seq<string>)

  datatype ProductInfo = ProductInfo(
    sellerName: string,
    isAuction: bool,
    productName: string,
    productSold: bool,
    buyNowPrice: nat,
    description: string,
    images: seq<string>)

  datatype PageInfo = Auction(auction: AuctionInfo) | Product(product: ProductInfo)

  /** The record the product branch always produces, whatever the page shows. */
  function DefaultProduct(): (p: ProductInfo)
    ensures p.sellerName == "" && p.productName == "" && p.description == ""
    ensures !p.isAuction && !p.productSold && p.buyNowPrice == 0 && p.images == []
  {
    ProductInfo("", false, "", false, 0, "", [])
  }

  /** The time a collector stores for the text of a row's fourth cell. */
  function StampTime(parseDates: bool, text: string): (t: BidTime)
    ensures t.text == text && (t.Parsed? <==> parseDates)
  {
    if parseDates then Parsed(text) else Raw(text)
  }

  /** The `evaluate` callback of `getAllBids`: one Bid per row, in row order,
      its time parsed (current version) or kept as text (earlier version).
      A row with fewer than four cells makes `children[k].innerText` throw,
      which rejects the whole read. */
  method CollectBids(rows: seq<Row>, parseDates: bool) returns (bids: Option<seq<Bid>>)
    ensures bids.Some? <==> forall i | 0 <= i < |rows| :: |rows[i]| >= 4
    ensures bids.Some? ==> |bids.value| == |rows|
    ensures bids.Some? ==> forall i | 0 <= i < |rows| ::
      bids.value[i].bidder == rows[i][0] &&
      bids.value[i].amountText == RemoveFirst(rows[i][1], "kr") &&
      bids.value[i].time.text == rows[i][3] &&
      (bids.value[i].time.Parsed? <==> parseDates)
  {
    var collected: seq<Bid> := [];
    var i := 0;
    while i < |rows|
      invariant 0 <= i <= |rows|
      invariant |collected| == i
      invariant forall k | 0 <= k < i :: |rows[k]| >= 4
      invariant forall k | 0 <= k < i ::
        collected[k] == Bid(rows[k][0], RemoveFirst(rows[k][1], "kr"), StampTime(parseDates, rows[k][3]))
    {
      var row := rows[i];
      if |row| < 4 {
        return None;
      }
      collected := collected + [Bid(row[0], RemoveFirst(row[1], "kr"), StampTime(parseDates, row[3]))];
      i := i + 1;
    }
    return Some(collected);
  }

  /** The `evaluate` callback of `getAllImages`: the `src` of every gallery image, in page order. */
  method CollectImageSources(gallery: seq<string>) returns (images: seq<string>)
    ensures images == gallery
  {
    images := [];
    var i := 0;
    while i < |gallery|
      invariant 0 <= i <= |gallery|
      invariant images == gallery[..i]
    {
      images := images + [gallery[i]];
      i := i + 1;
    }
    assert gallery[..|gallery|] == gallery;
  }
}
