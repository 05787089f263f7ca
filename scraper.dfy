/** The current scraper (src/tradera-web-scraper.ts): the URL admission gate
    checked before the browser is launched, the checks after navigation, the
    failure-isolating field reader, the auction/product classifier, and the
    assembly of the record. */
module Scraper {
  import opened Wrappers
  import opened Text
  import opened JsValues
  import opened Dedup
  import opened UrlSyntax
  import opened Converters
  import opened Records

  /** Why a run stops before a record is assembled, or that it goes on. */
  datatype Gate = InvalidUrl | NotAnItemPage | PageNotFound | Ready

  /** The browser operations a run performs, in order. */
  datatype BrowserStep = Launch | OpenPage | Goto(url: string)

  datatype Start = Start(steps: seq<BrowserStep>, gate: Gate)

  datatype ItemType = AuctionItem | ProductItem

  datatype Outcome =
    | Stopped(reason: Gate)   // a message is logged and the process exits
    | BidHistoryError         // `getAllBids` throws; nothing catches it
    | Emitted(info: PageInfo) // the record is logged and the process exits

  /** `getSelectorText(selector, callback?, callbackError?)`: a read that fails
      never escapes. A failed read goes to the error callback with `undefined`
      (the variable was never assigned), or yields `undefined`; a successful one
      goes through the converter, or yields the raw text. */
  function GetSelectorText(read: Option<string>, callback: Option<string -> Value>, callbackError: Option<Value -> Value>): (v: Value)
    ensures read.None? && callbackError.None? ==> v == Undefined
    ensures read.None? && callbackError.Some? ==> v == callbackError.value(Undefined)
    ensures read.Some? && callback.None? ==> v == Str(read.value)
    ensures read.Some? && callback.Some? ==> v == callback.value(read.value)
  {
    match read
    case Some(text) => if callback.Some? then callback.value(text) else Str(text)
    case None => if callbackError.Some? then callbackError.value(Undefined) else Undefined
  }

  /** A failed read never reaches the converter, and a successful one never reaches the error callback. */
  lemma ReadOutcomesAreIsolated(read: Option<string>, c1: Option<string -> Value>, c2: Option<string -> Value>,
                                e1: Option<Value -> Value>, e2: Option<Value -> Value>)
    ensures read.None? ==> GetSelectorText(read, c1, e1) == GetSelectorText(read, c2, e1)
    ensures read.Some? ==> GetSelectorText(read, c1, e1) == GetSelectorText(read, c1, e2)
  {
  }

  /** The test in `startBrowser`: a URL is given, `isValidUrl` accepts it, and it matches the item-page pattern. */
  predicate Admits(productUrl: Option<string>) {
    productUrl.Some? && IsValidUrl(productUrl.value) && IsItemUrl(productUrl.value)
  }

  /** On a valid URL the item-page pattern is a plain substring test. */
  lemma AdmitsIffValidAndMentionsItemPath(u: string)
    ensures Admits(Some(u)) <==> IsValidUrl(u) && (Contains(u, "tradera.com/item") || Contains(u, "tradera.se/item"))
  {
    if IsValidUrl(u) {
      ValidUrlHasNoLineTerminator(u);
    }
  }

  lemma ItemPathIsValidPath()
    ensures IsPath("/tradera.com/item")
  {
    var p := "/tradera.com/item";
    assert forall i | 0 <= i < |p| :: p[i] == '/' || IsPathChar(p[i]);
  }

  lemma HostWithItemPathIsValid(h: string)
    requires IsHost(h)
    ensures IsValidUrl(h + "/tradera.com/item")
  {
    ItemPathIsValidPath();
    HostThenPathIsValid(h, "/tradera.com/item");
  }

  lemma SuffixIsContained(h: string, p: string)
    ensures Contains(h + p, p)
  {
    assert (h + p)[|h|..] == p;
    assert OccursAt(h + p, p, |h|);
  }

  lemma ItemPathMentionsItem(h: string)
    ensures Contains(h + "/tradera.com/item", "tradera.com/item")
  {
    SuffixIsContained(h + "/", "tradera.com/item");
    assert h + "/" + "tradera.com/item" == h + "/tradera.com/item";
  }

  /** The host is never checked: any host followed by the path `/tradera.com/item` is admitted. */
  lemma HostIsNeverChecked(h: string)
    requires IsHost(h)
    ensures Admits(Some(h + "/tradera.com/item"))
  {
    HostWithItemPathIsValid(h);
    ItemPathMentionsItem(h);
    AdmitsIffValidAndMentionsItemPath(h + "/tradera.com/item");
  }

  lemma ExampleOrgIsHost()
    ensures IsHost("example.org")
  {
    var l, t := "example", "org";
    assert IsLabel(l) && IsTopLevel(t);
    LabelThenPoint(l);
    DomainFromParts(l + ".", t);
    assert l + "." + t == "example.org";
  }

  /** For example, a URL on another site whose path mentions the marketplace is admitted. */
  lemma ForeignHostIsAdmitted(h: string)
    requires h == "example.org"
    ensures Admits(Some(h + "/tradera.com/item"))
  {
    ExampleOrgIsHost();
    HostIsNeverChecked(h);
  }

  /** Every admitted URL contains "item", so when the page is not redirected the first check after navigation passes. */
  lemma AdmittedUrlMentionsItem(u: string)
    requires Admits(Some(u))
    ensures Contains(u, "item")
  {
    assert OccursAt("tradera.com/item", "item", 12);
    assert OccursAt("tradera.se/item", "item", 11);
    if Contains(u, "tradera.com/item") {
      ContainsTransitive(u, "tradera.com/item", "item");
    } else {
      ContainsTransitive(u, "tradera.se/item", "item");
    }
  }

  /** The not-found probe passed to `evaluate`: its arrow function has a block
      body whose only statement is an expression, so it returns `undefined`
      whether or not the container is there. */
  function NotFoundProbe(containerPresent: bool): (v: Value)
    ensures !Truthy(v)
  {
    Undefined
  }

  /** `setup`: stop when the page's URL lacks "item", then when the not-found probe is truthy. */
  function Setup(pageUrl: string, containerPresent: bool): (g: Gate)
    ensures g != InvalidUrl && g != PageNotFound
    ensures g == NotAnItemPage <==> !Contains(pageUrl, "item")
    ensures g == Ready <==> Contains(pageUrl, "item")
  {
    if !Contains(pageUrl, "item") then NotAnItemPage
    else if Truthy(NotFoundProbe(containerPresent)) then PageNotFound
    else Ready
  }

  /** `startBrowser`: the admission test comes before the browser is launched;
      an admitted URL is opened and `setup` checks the resulting page. */
  function StartBrowser(productUrl: Option<string>, page: Page): (r: Start)
    ensures r.gate == InvalidUrl <==> !Admits(productUrl)
    ensures !Admits(productUrl) ==> r.steps == []
    ensures Admits(productUrl) ==> r.steps == [Launch, OpenPage, Goto(productUrl.value)]
    ensures r.gate == Ready <==> Admits(productUrl) && Contains(page.url, "item")
    ensures r.gate != PageNotFound
  {
    if !Admits(productUrl) then Start([], InvalidUrl)
    else Start([Launch, OpenPage, Goto(productUrl.value)], Setup(page.url, page.notFoundContainer))
  }

  /** An admitted URL whose page is not redirected away always passes the checks after navigation. */
  lemma AdmittedPageIsReady(u: string, page: Page)
    requires Admits(Some(u)) && page.url == u
    ensures StartBrowser(Some(u), page).gate == Ready
  {
    AdmittedUrlMentionsItem(u);
  }

  /** `getItemType`: an auction when the time-title read yields a truthy value, that is non-empty text. */
  function GetItemType(timeTitle: Option<string>): (t: ItemType)
    ensures t == AuctionItem <==> timeTitle.Some? && timeTitle.value != ""
  {
    if Truthy(GetSelectorText(timeTitle, None, None)) then AuctionItem else ProductItem
  }

  /** `getAllImages`: the gallery's `src` values without repetitions, in first-seen order. */
  method GetAllImages(gallery: seq<string>) returns (images: seq<string>)
    ensures images == Unique(gallery)
  {
    var sources := CollectImageSources(gallery);
    images := RemoveDuplicates(sources);
  }

  /** `getAllBids`: clicking the bid-history link fails when it is missing, and
      the rows are collected as in `CollectBids`; either failure rejects the read. */
  method GetAllBids(bidRows: Option<seq<Row>>) returns (bids: Option<seq<Bid>>)
    ensures bids.Some? <==> bidRows.Some? && forall i | 0 <= i < |bidRows.value| :: |bidRows.value[i]| >= 4
    ensures bids.Some? ==> |bids.value| == |bidRows.value|
    ensures bids.Some? ==> forall i | 0 <= i < |bidRows.value| ::
      bids.value[i].bidder == bidRows.value[i][0] &&
      bids.value[i].amountText == RemoveFirst(bidRows.value[i][1], "kr") &&
      bids.value[i].time == Parsed(bidRows.value[i][3])
  {
    if bidRows.None? {
      return None;
    }
    bids := CollectBids(bidRows.value, true);
  }

  /** The bid history can be read: the link is there and every row has at least four cells. */
  predicate BidHistoryReadable(page: Page) {
    page.bidRows.Some? && forall i | 0 <= i < |page.bidRows.value| :: |page.bidRows.value[i]| >= 4
  }

  /** The fields both versions fill in the same way: each read field holds the
      converter's value on the text, or the raw text, or `undefined` when the
      element is missing; one bid per row with its bidder and amount; the bid
      count and the latest bid taken from the same rows. The bid times and the
      time left are not shared: see `AuctionRecord` of each version. */
  predicate SharedAuctionFields(a: AuctionInfo, page: Page)
    requires BidHistoryReadable(page)
  {
    var rows := page.bidRows.value;
    (page.sellerAlias.Some? ==> a.sellerName == Str(page.sellerAlias.value)) &&
    (page.sellerAlias.None? ==> a.sellerName == Undefined) &&
    (page.bidsTitle.Some? ==> a.isAuction == Bool(Contains(page.bidsTitle.value, "Bud"))) &&
    (page.bidsTitle.None? ==> a.isAuction == Undefined) &&
    (page.itemTitle.Some? ==> a.auctionName == Str(page.itemTitle.value)) &&
    (page.itemTitle.None? ==> a.auctionName == Undefined) &&
    (page.heading.Some? ==> a.auctionEnded == Bool(Contains(page.heading.value, "Avslutad"))) &&
    (page.heading.None? ==> a.auctionEnded == Undefined) &&
    |a.allBids| == |rows| && a.numberOfBids == |rows| &&
    (forall i | 0 <= i < |rows| ::
      a.allBids[i].bidder == rows[i][0] &&
      a.allBids[i].amountText == RemoveFirst(rows[i][1], "kr")) &&
    (rows == [] ==> a.latestBid == None) &&
    (rows != [] ==> a.latestBid == Some(a.allBids[0])) &&
    (page.amount.Some? ==> a.highestBid == Price(page.amount.value)) &&
    (page.amount.None? ==> a.highestBid == Undefined) &&
    (page.endTime.Some? ==> a.endTime == Str(RemoveFirst(page.endTime.value, "Avslutas "))) &&
    (page.endTime.None? ==> a.endTime == Undefined) &&
    (page.description.Some? ==> a.description == Str(page.description.value)) &&
    (page.description.None? ==> a.description == Undefined)
  }

  /** `timeLeft` as the converter makes it from a read: 0 for "Avslutad", the
      text otherwise, `undefined` when the element is missing. */
  predicate TimeLeftField(v: Value, read: Option<string>) {
    (read.Some? && read.value == "Avslutad" ==> v == Num(Int(0))) &&
    (read.Some? && read.value != "Avslutad" ==> v == Str(read.value)) &&
    (read.None? ==> v == Undefined)
  }

  /** The current version's auction record: the shared fields, bid times given
      to `Date.parse`, the time left from its own selector, a buy-now price of
      0 and availability false when the button is missing, and the gallery
      without repetitions. */
  predicate AuctionRecord(a: AuctionInfo, page: Page)
    requires BidHistoryReadable(page)
  {
    SharedAuctionFields(a, page) &&
    (forall i | 0 <= i < |page.bidRows.value| :: a.allBids[i].time == Parsed(page.bidRows.value[i][3])) &&
    TimeLeftField(a.timeLeft, page.timeLeft) &&
    (page.buyNowButton.Some? ==> a.buyNowPrice == Price(page.buyNowButton.value)) &&
    (page.buyNowButton.None? ==> a.buyNowPrice == Num(Int(0))) &&
    a.buyNowAvailable == Bool(page.buyNowButton.Some?) &&
    a.images == Unique(page.gallery)
  }

  /** The auction branch of `getProductInfo`: every field through the
      failure-isolating reader, in the order of the object literal. The bid
      history is read three times (for `allBids`, `numberOfBids` and
      `latestBid`); a failed bid read is the one failure that escapes. */
  method ReadAuction(page: Page) returns (auction: Option<AuctionInfo>)
    ensures auction.Some? <==> BidHistoryReadable(page)
    ensures auction.Some? ==> AuctionRecord(auction.value, page)
  {
    var sellerName := GetSelectorText(page.sellerAlias, None, None);
    var isAuction := GetSelectorText(page.bidsTitle, Some((t: string) => IncludesFlag("Bud", t)), None);
    var auctionName := GetSelectorText(page.itemTitle, None, None);
    var auctionEnded := GetSelectorText(page.heading, Some((t: string) => IncludesFlag("Avslutad", t)), None);
    var allBids := GetAllBids(page.bidRows);
    if allBids.None? {
      return None;
    }
    var recount := GetAllBids(page.bidRows);
    var numberOfBids := |recount.value|;
    var highestBid := GetSelectorText(page.amount, Some(Price), None);
    var timeLeft := GetSelectorText(page.timeLeft, Some(TimeLeft), None);
    var latest := GetAllBids(page.bidRows);
    var latestBid := if latest.value == [] then None else Some(latest.value[0]);
    assert latest.value != [] ==> latest.value[0] == allBids.value[0];
    var buyNowPrice := GetSelectorText(page.buyNowButton, Some(Price), Some((_: Value) => Num(Int(0))));
    var buyNowAvailable := GetSelectorText(page.buyNowButton, Some((_: string) => Bool(true)), Some((_: Value) => Bool(false)));
    var description := GetSelectorText(page.description, None, None);
    var images := GetAllImages(page.gallery);
    var endTime := GetSelectorText(page.endTime, Some(EndTime), None);
    auction := Some(AuctionInfo(
      sellerName, isAuction, auctionName, auctionEnded, allBids.value, highestBid, latestBid,
      numberOfBids, timeLeft, endTime, buyNowPrice, buyNowAvailable, description, images));
  }

  /** `getProductInfo`: start the browser, classify the page, and assemble the record. */
  method GetProductInfo(productUrl: Option<string>, page: Page) returns (steps: seq<BrowserStep>, outcome: Outcome)
    // admission and the checks after navigation
    ensures outcome == Stopped(InvalidUrl) <==> !Admits(productUrl)
    ensures !Admits(productUrl) ==> steps == []
    ensures Admits(productUrl) ==> steps == [Launch, OpenPage, Goto(productUrl.value)]
    ensures outcome == Stopped(NotAnItemPage) <==> Admits(productUrl) && !Contains(page.url, "item")
    ensures outcome != Stopped(PageNotFound) && outcome != Stopped(Ready)
    ensures outcome == BidHistoryError <==>
      Admits(productUrl) && Contains(page.url, "item") && GetItemType(page.timeTitle) == AuctionItem && !BidHistoryReadable(page)
    ensures outcome.Emitted? <==>
      Admits(productUrl) && Contains(page.url, "item") && (GetItemType(page.timeTitle) == ProductItem || BidHistoryReadable(page))
    // the product branch
    ensures outcome.Emitted? && GetItemType(page.timeTitle) == ProductItem ==> outcome.info == Product(DefaultProduct())
    // the auction branch
    ensures outcome.Emitted? && GetItemType(page.timeTitle) == AuctionItem ==>
      outcome.info.Auction? && BidHistoryReadable(page) && AuctionRecord(outcome.info.auction, page)
  {
    var start := StartBrowser(productUrl, page);
    steps := start.steps;
    if start.gate != Ready {
      return steps, Stopped(start.gate);
    }
    if GetItemType(page.timeTitle) == ProductItem {
      return steps, Emitted(Product(DefaultProduct()));
    }
    var auction := ReadAuction(page);
    outcome := if auction.None? then BidHistoryError else Emitted(Auction(auction.value));
  }

  /** A run on an auction listing at an admitted URL, with three complete bid
      rows and a gallery that shows its first image twice: the record has
      three bids, two images, and is marked as an auction. */
  method AuctionFixture(url: string, timeTitle: string, bidsTitle: string, rows: seq<Row>, first: string, second: string)
    returns (outcome: Outcome)
    requires Admits(Some(url)) && timeTitle != "" && Contains(bidsTitle, "Bud")
    requires |rows| == 3 && forall i | 0 <= i < 3 :: |rows[i]| >= 4
    requires first != second
    ensures outcome.Emitted? && outcome.info.Auction?
    ensures outcome.info.auction.numberOfBids == 3
    ensures outcome.info.auction.images == [first, second]
    ensures outcome.info.auction.isAuction == Bool(true)
  {
    AdmittedUrlMentionsItem(url);
    RepeatedFirstIsDropped(first, second);
    var page := Page(url, false, Some(timeTitle), None, Some(bidsTitle), None, None, None, None, None, None, None, None,
      Some(rows), [first, second, first]);
    var steps;
    steps, outcome := GetProductInfo(Some(url), page);
  }
}
