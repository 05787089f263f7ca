/** The earlier scraper (src/index.ts): the same reads and converters as the
    current one, but with a hard-coded listing, no admission test before the
    browser is launched, no not-found probe, no error callback in the field
    reader, no item-type classification and no de-duplication of images. */
module EarlyScraper {
  import opened Wrappers
  import opened Text
  import opened JsValues
  import opened Dedup
  import opened Converters
  import opened Records
  import opened UrlSyntax
  import Scraper

  /** The only listing this version visits, written as its scheme, its host and
      the segments of its path. */
  const AuctionUrl := "https://" + "www.tradera.com" + "/item" + "/344630" + "/583933118" + "/miitopia-nintendo-switch-"

  lemma HttpsIsScheme()
    ensures IsScheme("https://")
  {
    assert Lower("https://") == "https://";
  }

  lemma ListingHostIsHost(w: string, t: string, c: string)
    requires w == "www" && t == "tradera" && c == "com"
    ensures IsHost(w + "." + (t + ".") + c)
  {
    assert IsLabel(w) && IsLabel(t) && IsTopLevel(c);
    LabelThenPoint(t);
    LabelThenDottedLabels(w, t + ".");
    DomainFromParts(w + "." + (t + "."), c);
  }

  lemma ListingSegmentsArePaths()
    ensures IsPath("/item") && IsPath("/344630") && IsPath("/583933118") && IsPath("/miitopia-nintendo-switch-")
  {
    var a, b, c, d := "/item", "/344630", "/583933118", "/miitopia-nintendo-switch-";
    assert forall i | 0 <= i < |a| :: a[i] == '/' || IsPathChar(a[i]);
    assert forall i | 0 <= i < |b| :: b[i] == '/' || IsPathChar(b[i]);
    assert forall i | 0 <= i < |c| :: c[i] == '/' || IsPathChar(c[i]);
    assert forall i | 0 <= i < |d| :: d[i] == '/' || IsPathChar(d[i]);
  }

  lemma ListingPathIsPath(a: string, b: string, c: string, d: string)
    requires a == "/item" && b == "/344630" && c == "/583933118" && d == "/miitopia-nintendo-switch-"
    ensures IsPath(a + (b + (c + d)))
  {
    ListingSegmentsArePaths();
    PathJoin(c, d);
    PathJoin(b, c + d);
    PathJoin(a, b + (c + d));
  }

  lemma ListingHostSpelled(h: string)
    requires h == "www.tradera.com"
    ensures h == "www" + "." + ("tradera" + ".") + "com"
  {
  }

  lemma RegroupListingUrl(s: string, h: string, a: string, b: string, c: string, d: string)
    ensures s + (h + ("" + (a + (b + (c + d)) + ("" + "")))) == s + h + a + b + c + d
  {
  }

  /** The listing's URL is accepted by `isValidUrl`. */
  lemma ListingUrlIsValid(s: string, h: string, a: string, b: string, c: string, d: string)
    requires s == "https://" && h == "www.tradera.com"
    requires a == "/item" && b == "/344630" && c == "/583933118" && d == "/miitopia-nintendo-switch-"
    ensures IsValidUrl(s + h + a + b + c + d)
  {
    HttpsIsScheme();
    ListingHostSpelled(h);
    ListingHostIsHost("www", "tradera", "com");
    ListingPathIsPath(a, b, c, d);
    RegroupListingUrl(s, h, a, b, c, d);
    ValidUrlFromParts(s, h, "", a + (b + (c + d)), "", "");
  }

  /** The listing's URL mentions `tradera.com/item`, across its host and its first path segment. */
  lemma ListingUrlMentionsItemPath(s: string, h: string, a: string, b: string, c: string, d: string)
    requires s == "https://" && h == "www.tradera.com"
    requires a == "/item" && b == "/344630" && c == "/583933118" && d == "/miitopia-nintendo-switch-"
    ensures Contains(s + h + a + b + c + d, "tradera.com/item")
  {
    var w, p, rest := "www.", "tradera.com/item", b + c + d;
    assert h + a == w + p;
    assert s + h + a + b + c + d == s + w + p + rest by {
      assert s + h + a == s + (h + a);
      assert s + w + p == s + (w + p);
    }
    InfixIsContained(s + w, p, rest);
  }

  /** The listing this version visits would pass the current version's admission test. */
  lemma ListingIsAdmitted()
    ensures Scraper.Admits(Some(AuctionUrl))
  {
    ListingUrlIsValid("https://", "www.tradera.com", "/item", "/344630", "/583933118", "/miitopia-nintendo-switch-");
    ListingUrlMentionsItemPath("https://", "www.tradera.com", "/item", "/344630", "/583933118", "/miitopia-nintendo-switch-");
    Scraper.AdmitsIffValidAndMentionsItemPath(AuctionUrl);
  }

  /** `getSelectorText(selector, callback?)`: a failed read is logged and falls
      through to the end of the function, so it yields `undefined` and never
      reaches the converter. */
  function GetSelectorText(read: Option<string>, callback: Option<string -> Value>): (v: Value)
    ensures read.None? ==> v == Undefined
    ensures read.Some? && callback.None? ==> v == Str(read.value)
    ensures read.Some? && callback.Some? ==> v == callback.value(read.value)
  {
    if read.None? then Undefined
    else if callback.Some? then callback.value(read.value)
    else Str(read.value)
  }

  /** The earlier reader is the current one without an error callback. */
  lemma ReaderIsCurrentReaderWithoutErrorCallback(read: Option<string>, callback: Option<string -> Value>)
    ensures GetSelectorText(read, callback) == Scraper.GetSelectorText(read, callback, None)
  {
  }

  /** `buyNowAvailable`: `result == undefined ? false : true`. The converter only
      sees the text of a successful read, which is never `undefined`. */
  function BuyNowFlag(text: string): (v: Value)
    ensures v == Bool(true)
  {
    if Str(text) == Undefined then Bool(false) else Bool(true)
  }

  /** `setup`: stop when the page's URL lacks "item"; there is no not-found probe. */
  function Setup(pageUrl: string): (g: Scraper.Gate)
    ensures g == Scraper.NotAnItemPage <==> !Contains(pageUrl, "item")
    ensures g == Scraper.Ready <==> Contains(pageUrl, "item")
  {
    if !Contains(pageUrl, "item") then Scraper.NotAnItemPage else Scraper.Ready
  }

  /** The current version's not-found probe never stops a run, so both setups decide alike. */
  lemma SetupsAgree(pageUrl: string, containerPresent: bool)
    ensures Setup(pageUrl) == Scraper.Setup(pageUrl, containerPresent)
  {
  }

  /** `startBrowser(auction_url)`: the browser is launched and the page opened
      without any test of the URL; `setup` then checks the resulting page. */
  function StartBrowser(auctionUrl: string, page: Page): (r: Scraper.Start)
    ensures r.steps == [Scraper.Launch, Scraper.OpenPage, Scraper.Goto(auctionUrl)]
    ensures r.gate == Scraper.Ready <==> Contains(page.url, "item")
    ensures r.gate != Scraper.InvalidUrl && r.gate != Scraper.PageNotFound
  {
    Scraper.Start([Scraper.Launch, Scraper.OpenPage, Scraper.Goto(auctionUrl)], Setup(page.url))
  }

  /** `getAllBids` of the earlier version: the same click and rows as the
      current one, but each bid keeps its time as the cell's text. */
  method GetAllBids(bidRows: Option<seq<Row>>) returns (bids: Option<seq<Bid>>)
    ensures bids.Some? <==> bidRows.Some? && forall i | 0 <= i < |bidRows.value| :: |bidRows.value[i]| >= 4
    ensures bids.Some? ==> |bids.value| == |bidRows.value|
    ensures bids.Some? ==> forall i | 0 <= i < |bidRows.value| ::
      bids.value[i].bidder == bidRows.value[i][0] &&
      bids.value[i].amountText == RemoveFirst(bidRows.value[i][1], "kr") &&
      bids.value[i].time == Raw(bidRows.value[i][3])
  {
    if bidRows.None? {
      return None;
    }
    bids := CollectBids(bidRows.value, false);
  }

  /** The earlier version's auction record: the fields both versions share,
      bid times kept as text, the time left from its own selector, a buy-now
      price and availability that are `undefined` when the button is missing,
      and the gallery exactly as read. */
  predicate AuctionRecord(a: AuctionInfo, page: Page)
    requires Scraper.BidHistoryReadable(page)
  {
    Scraper.SharedAuctionFields(a, page) &&
    (forall i | 0 <= i < |page.bidRows.value| :: a.allBids[i].time == Raw(page.bidRows.value[i][3])) &&
    Scraper.TimeLeftField(a.timeLeft, page.timeLeftSpan) &&
    (page.buyNowButton.Some? ==> a.buyNowPrice == Price(page.buyNowButton.value)) &&
    (page.buyNowButton.None? ==> a.buyNowPrice == Undefined) &&
    (page.buyNowButton.Some? ==> a.buyNowAvailable == Bool(true)) &&
    (page.buyNowButton.None? ==> a.buyNowAvailable == Undefined) &&
    a.images == page.gallery
  }

  /** The object literal of `getAuctionInfo`, read field by field in its order;
      a failed bid read escapes as in the current version. */
  method ReadAuction(page: Page) returns (auction: Option<AuctionInfo>)
    ensures auction.Some? <==> Scraper.BidHistoryReadable(page)
    ensures auction.Some? ==> AuctionRecord(auction.value, page)
  {
    var sellerName := GetSelectorText(page.sellerAlias, None);
    var isAuction := GetSelectorText(page.bidsTitle, Some((t: string) => IncludesFlag("Bud", t)));
    var auctionName := GetSelectorText(page.itemTitle, None);
    var auctionEnded := GetSelectorText(page.heading, Some((t: string) => IncludesFlag("Avslutad", t)));
    var allBids := GetAllBids(page.bidRows);
    if allBids.None? {
      return None;
    }
    var recount := GetAllBids(page.bidRows);
    var numberOfBids := |recount.value|;
    var highestBid := GetSelectorText(page.amount, Some(Price));
    var timeLeft := GetSelectorText(page.timeLeftSpan, Some(TimeLeft));
    var latest := GetAllBids(page.bidRows);
    var latestBid := if latest.value == [] then None else Some(latest.value[0]);
    assert latest.value != [] ==> latest.value[0] == allBids.value[0];
    var buyNowPrice := GetSelectorText(page.buyNowButton, Some(Price));
    var buyNowAvailable := GetSelectorText(page.buyNowButton, Some(BuyNowFlag));
    var description := GetSelectorText(page.description, None);
    var images := CollectImageSources(page.gallery);
    var endTime := GetSelectorText(page.endTime, Some(EndTime));
    auction := Some(AuctionInfo(
      sellerName, isAuction, auctionName, auctionEnded, allBids.value, highestBid, latestBid,
      numberOfBids, timeLeft, endTime, buyNowPrice, buyNowAvailable, description, images));
  }

  /** `getAuctionInfo`: open the hard-coded listing and assemble an auction
      record, whatever kind of listing the page shows. */
  method GetAuctionInfo(page: Page) returns (steps: seq<Scraper.BrowserStep>, outcome: Scraper.Outcome)
    ensures steps == [Scraper.Launch, Scraper.OpenPage, Scraper.Goto(AuctionUrl)]
    ensures outcome.Stopped? ==> outcome.reason == Scraper.NotAnItemPage
    ensures outcome.Stopped? <==> !Contains(page.url, "item")
    ensures outcome.BidHistoryError? <==> Contains(page.url, "item") && !Scraper.BidHistoryReadable(page)
    ensures outcome.Emitted? <==> Contains(page.url, "item") && Scraper.BidHistoryReadable(page)
    ensures outcome.Emitted? ==>
      outcome.info.Auction? && Scraper.BidHistoryReadable(page) && AuctionRecord(outcome.info.auction, page)
  {
    var start := StartBrowser(AuctionUrl, page);
    steps := start.steps;
    if start.gate != Scraper.Ready {
      return steps, Scraper.Stopped(start.gate);
    }
    var auction := ReadAuction(page);
    outcome := if auction.None? then Scraper.BidHistoryError else Scraper.Emitted(Auction(auction.value));
  }

  /** On a page without bids, with the buy-now button shown, no repeated image
      and the two time-left selectors reading alike, both versions accept
      exactly the same records. */
  lemma RecordsAgreeWithoutBids(a: AuctionInfo, page: Page)
    requires Scraper.BidHistoryReadable(page) && page.bidRows.value == []
    requires page.buyNowButton.Some? && Distinct(page.gallery) && page.timeLeft == page.timeLeftSpan
    ensures AuctionRecord(a, page) <==> Scraper.AuctionRecord(a, page)
  {
    UniqueFixesExactlyDistinct(page.gallery);
  }

  /** With at least one bid no record satisfies both versions: the current one
      stores the parsed time, the earlier one the text. */
  lemma RecordsDifferWithBids(a: AuctionInfo, page: Page)
    requires Scraper.BidHistoryReadable(page) && page.bidRows.value != []
    ensures !(AuctionRecord(a, page) && Scraper.AuctionRecord(a, page))
  {
  }

  /** When the two time-left selectors read differently no record satisfies both versions. */
  lemma RecordsDifferOnTimeLeftReads(a: AuctionInfo, page: Page)
    requires Scraper.BidHistoryReadable(page) && page.timeLeft != page.timeLeftSpan
    ensures !(AuctionRecord(a, page) && Scraper.AuctionRecord(a, page))
  {
  }

  /** Without the buy-now button no record satisfies both versions: the current one says false and 0, the earlier one `undefined`. */
  lemma RecordsDifferWithoutButton(a: AuctionInfo, page: Page)
    requires Scraper.BidHistoryReadable(page) && page.buyNowButton.None?
    ensures !(AuctionRecord(a, page) && Scraper.AuctionRecord(a, page))
  {
  }

  /** A repeated image is kept by the earlier version and dropped by the current one. */
  lemma RecordsDifferOnRepeatedImages(a: AuctionInfo, page: Page)
    requires Scraper.BidHistoryReadable(page) && !Distinct(page.gallery)
    ensures !(AuctionRecord(a, page) && Scraper.AuctionRecord(a, page))
  {
    UniqueFixesExactlyDistinct(page.gallery);
  }
}
