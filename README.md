# Tradera listing scraper: a verified model of its decision and text logic

The scraper opens one listing page of the Tradera marketplace in a headless
browser. It checks that the page is an item page, decides whether the listing
is an auction or a fixed-price product, and prints one record. Two versions
exist. `src/tradera-web-scraper.ts` is the current one. `src/index.ts` is an
earlier one that visits a hard-coded auction.

This project models the logic between the browser calls. The browser itself
is abstracted away:

- a selector read is an `Option<string>`: `Some(innerText)`, or `None` when no
  element matches and reading `innerText` throws;
- the bid-history table is a sequence of rows of cell texts;
- the gallery is the sequence of image `src` values;
- the URL after navigation, and whether the not-found container is rendered,
  are plain fields of a `Page` value;
- the two versions read the time left through different selectors, so a
  `Page` holds both reads (`timeLeft` for the current version, `timeLeftSpan`
  for the earlier one).

The fields of a record hold JavaScript values: text, booleans, numbers or
`undefined`. They are modelled by `JsValues.Value`. Numbers are modelled as
far as the converters produce them from digit-and-point text.

Modules, one per concern of the source:

- `Wrappers`: `Option`.
- `Text`: `includes`, first-occurrence `replace`, the `[0-9.]` filter and
  decimal numerals.
- `JsValues`: `Value`, `Number(...)` on filtered text, and truthiness.
- `Dedup`: `removeDuplicates`.
- `UrlSyntax`: the language of the `isValidUrl` pattern and of the item-page
  pattern.
- `Converters`: the converter callbacks passed to the field reader.
- `Records`: the page, the bid and the records, and the two `evaluate`
  collectors. The versions collect bids alike except for the time: the current
  one stores `Date.parse` of the cell's text, the earlier one the text itself.
- `Scraper`: the current version.
- `EarlyScraper`: the earlier version, stated against the current one.

Some behaviour of the code is not what its interface types, comments and log
messages suggest. The model follows the code:

- `"1 234,50 kr"` reads as 123450, not 1234.50. The digit filter at
  `src/tradera-web-scraper.ts:245` keeps only `[0-9.]`, so it drops the decimal
  comma together with the spaces and the currency; see
  `Converters.PriceDropsSeparatorsAndComma`.
- The not-found check never stops a run, although the comment at
  `src/tradera-web-scraper.ts:162` says it exits. Its arrow function at :163
  has a block body without `return`, so it yields `undefined`; see
  `Scraper.NotFoundProbe`.
- The host of the product URL is never checked, although the log message at
  `src/tradera-web-scraper.ts:199` asks for "a tradera item". Any host followed
  by a path that mentions `tradera.com/item` is admitted; see
  `Scraper.HostIsNeverChecked`.
- A malformed bid row, or a missing bid-history link, is not tolerated. The
  field reader catches every failed read (`src/tradera-web-scraper.ts:64-85`),
  but the bid read (:87-119) has no `try`, so its failure escapes and no record
  is printed; see the `BidHistoryError` outcome.
- In the auction record, `isAuction`, declared `boolean`
  (`src/tradera-web-scraper.ts:16`), is `false` when the bids title lacks
  "Bud", and `undefined` when the title is missing.
- In the earlier version, `buyNowPrice` and `buyNowAvailable`, declared
  `number` and `boolean` (`src/index.ts:31-32`), are `undefined`, not `false`
  and `0`, when the buy-now button is missing.

## Model

| member | source | states |
|---|---|---|
| Dedup.Unique | src/tradera-web-scraper.ts:126-135 | the result has no repeated element; every element of the result is in the input and every element of the input is in the result; it is no longer than the input |
| Dedup.RemoveDuplicates | src/tradera-web-scraper.ts:126-135 | the loop that appends each element not yet collected computes exactly `Unique` of its input |
| Dedup.FirstIndex | src/tradera-web-scraper.ts:129 | the index returned holds the element and no earlier index does |
| Dedup.UniqueKeepsFirstOccurrenceOrder | src/tradera-web-scraper.ts:126-135 | the kept elements appear in the order of their first occurrences in the input |
| Dedup.UniqueFixesExactlyDistinct | src/tradera-web-scraper.ts:126-135 | the input comes back unchanged exactly when it has no repeated element |
| Dedup.UniqueIdempotent | src/tradera-web-scraper.ts:126-135 | removing duplicates twice is removing them once |
| Dedup.UniqueExample | src/tradera-web-scraper.ts:126-135 | `[a, b, a, c, b]` becomes `[a, b, c]` |
| Dedup.RepeatedFirstIsDropped | src/tradera-web-scraper.ts:126-135 | a gallery `[x, y, x]` with `x != y` becomes `[x, y]` |
| Text.Contains | src/tradera-web-scraper.ts:240 | `includes`: the pattern occurs at some index of the text |
| Text.InfixIsContained | src/tradera-web-scraper.ts:198 | a text includes whatever is written in its middle |
| Text.IndexOf | src/tradera-web-scraper.ts:252 | the index found is an occurrence of the pattern and no earlier index is; no index means no occurrence |
| Text.IndexOfFindsContained | src/tradera-web-scraper.ts:252 | a first occurrence is found exactly when the text includes the pattern |
| Text.RemoveFirst | src/tradera-web-scraper.ts:252 | `replace` with a string pattern leaves a text without the pattern unchanged, and otherwise cuts out exactly the first occurrence |
| Text.RemoveFirstUndoesPrepend | src/tradera-web-scraper.ts:252 | removing the pattern from pattern + text gives the text back |
| Text.RemoveFirstChangesIffContains | src/tradera-web-scraper.ts:103 | for a non-empty pattern, the text changes exactly when it includes the pattern |
| Text.KeepNumeric | src/tradera-web-scraper.ts:245 | the filter's result consists of digits and points only and is no longer than its input |
| Text.KeepNumericAppend | src/tradera-web-scraper.ts:245 | the filter distributes over concatenation, so it keeps characters in their order |
| Text.KeepNumericCounts | src/tradera-web-scraper.ts:245 | each digit and point keeps its number of occurrences and every other character disappears |
| Text.KeepNumericFixesNumeric | src/tradera-web-scraper.ts:245 | a text of digits and points passes the filter unchanged |
| Text.KeepNumericIdempotent | src/tradera-web-scraper.ts:245 | filtering twice is filtering once |
| Text.DecimalString | src/tradera-web-scraper.ts:245 | the decimal numeral of a number is made of digits, and has one digit exactly for numbers below 10 |
| Text.DigitValueOfDecimalString | src/tradera-web-scraper.ts:245 | a digit-only text denotes the integer it spells: reading back the numeral of `n` gives `n` |
| Text.DigitValueLeadingZero | src/tradera-web-scraper.ts:245 | a leading zero does not change the value of a digit-only text |
| JsValues.ToNumber | src/tradera-web-scraper.ts:245 | `Number` of a digit-only text is its decimal integer (exact, without the rounding of doubles above 2^53), with `""` giving 0; an integer result comes only from digit-only text; a decimal result only from text with a point |
| JsValues.Truthy | src/tradera-web-scraper.ts:220 | JavaScript truthiness: `undefined`, `""`, `false`, 0 and `NaN` are falsy, every other value truthy |
| JsValues.NoPointsMeansDigits | src/tradera-web-scraper.ts:245 | filtered text without a point is digit-only, and conversely |
| JsValues.PointsMeansContainsPoint | src/tradera-web-scraper.ts:245 | filtered text with a point includes `"."` |
| Converters.IncludesFlag | src/tradera-web-scraper.ts:240-242 | the flag is a boolean that holds exactly when the text includes the word: "Bud" in the bids title for `isAuction`, "Avslutad" in the heading for `auctionEnded` |
| Converters.Price | src/tradera-web-scraper.ts:245 | the price is a number; when the filtered text is digit-only it is that decimal integer (exact, without the rounding of doubles above 2^53) |
| Converters.PriceReadsRenderedAmount | src/tradera-web-scraper.ts:245 | a rendered amount `n` followed by a currency suffix without digits or points reads as `n` (as the source does for `n` up to 2^53) |
| Converters.NothingKeptFromNonNumeric | src/tradera-web-scraper.ts:245 | a text without digits and points filters to `""` |
| Converters.PriceWithoutDigitsIsZero | src/tradera-web-scraper.ts:245 | a text without digits and points, `""` included, reads as 0 |
| Converters.FilterOfSeparatedAmount | src/tradera-web-scraper.ts:245 | the filter turns `"1 234,50 kr"` into `"123450"` |
| Converters.ValueOfFilteredAmount | src/tradera-web-scraper.ts:245 | `"123450"` denotes 123450 |
| Converters.PriceDropsSeparatorsAndComma | src/tradera-web-scraper.ts:245 | `"1 234,50 kr"` reads as 123450: spaces and the decimal comma are both dropped |
| Converters.TimeLeft | src/tradera-web-scraper.ts:246 | `timeLeft` is 0 exactly when the text is exactly "Avslutad", and the text unchanged otherwise |
| Converters.EndTime | src/tradera-web-scraper.ts:252 | `endTime` is text no longer than the input, unchanged when it does not include "Avslutas ", and otherwise the input with exactly the first occurrence of "Avslutas " cut out |
| Converters.EndTimeDropsLeadingLabel | src/tradera-web-scraper.ts:252 | `"Avslutas " + t` becomes `t` |
| Records.CollectBids | src/tradera-web-scraper.ts:93-109 | one bid per row in row order (bidder from cell 0, amount from cell 1 without its first "kr", time from cell 3, marked as parsed exactly when the collector parses dates), and a result exactly when every row has at least four cells; src/index.ts:69-85 is the same collector without date parsing |
| Records.DefaultProduct | src/tradera-web-scraper.ts:255-263 | the product record: empty seller, name and description, neither an auction nor sold, price 0, no images |
| Records.CollectImageSources | src/index.ts:93-105 | the gallery's `src` values exactly as read, duplicates and order kept |
| UrlSyntax.IsValidUrl | src/tradera-web-scraper.ts:187-195 | a URL is valid exactly when it splits into an optional scheme, a domain name or four dotted digit groups, an optional port, a path, an optional query and an optional fragment |
| UrlSyntax.IsItemUrl | src/tradera-web-scraper.ts:198 | the item-page pattern: no line terminator, and `tradera.com/item` or `tradera.se/item` somewhere in the text |
| UrlSyntax.PathJoin | src/tradera-web-scraper.ts:191 | two paths written one after the other form a path |
| UrlSyntax.LabelThenDottedLabels | src/tradera-web-scraper.ts:189 | a label and a point in front of dotted labels give dotted labels |
| UrlSyntax.SchemeIgnoresCase | src/tradera-web-scraper.ts:188-193 | under the `i` flag a prefix is an accepted scheme exactly when its lower-case form is one |
| UrlSyntax.UpperCaseSchemeIsScheme | src/tradera-web-scraper.ts:188-193 | `HTTPS://` is accepted as a scheme, as `https://` is |
| UrlSyntax.ValidUrlHasNoLineTerminator | src/tradera-web-scraper.ts:188-193 | no string the URL pattern accepts contains a line terminator |
| UrlSyntax.ValidUrlFromParts | src/tradera-web-scraper.ts:188-193 | any scheme, host, port, path, query and fragment written one after another are accepted |
| UrlSyntax.HostThenPathIsValid | src/tradera-web-scraper.ts:188-193 | scheme, port, query and fragment are optional: a host followed by a path is accepted |
| UrlSyntax.LabelThenPoint | src/tradera-web-scraper.ts:189 | a label followed by a point is a run of dotted labels |
| UrlSyntax.DomainFromParts | src/tradera-web-scraper.ts:189 | dotted labels followed by a top-level name of two or more letters form a domain name |
| UrlSyntax.DottedQuadIsHost | src/tradera-web-scraper.ts:190 | four groups of one to three digits joined by points form a host |
| UrlSyntax.OctetsAreNotRangeChecked | src/tradera-web-scraper.ts:190 | `999.1.1.1` is accepted: the octets are not range-checked |
| Scraper.GetSelectorText | src/tradera-web-scraper.ts:64-85 | a failed read gives the error callback's value on `undefined`, or `undefined`; a successful read gives the converter's value on the text, or the text |
| Scraper.ReadOutcomesAreIsolated | src/tradera-web-scraper.ts:64-85 | a failed read never depends on the converter, and a successful read never depends on the error callback |
| Scraper.Admits | src/tradera-web-scraper.ts:198 | a URL is admitted exactly when it is given, valid, and matches the item-page pattern |
| Scraper.AdmitsIffValidAndMentionsItemPath | src/tradera-web-scraper.ts:198 | on a valid URL the item-page pattern is a plain test for `tradera.com/item` or `tradera.se/item` |
| Scraper.ItemPathIsValidPath | src/tradera-web-scraper.ts:191 | `/tradera.com/item` is a path of the URL pattern |
| Scraper.HostWithItemPathIsValid | src/tradera-web-scraper.ts:188-193 | any host followed by `/tradera.com/item` is a valid URL |
| Scraper.HostIsNeverChecked | src/tradera-web-scraper.ts:198 | any host followed by `/tradera.com/item` is admitted |
| Scraper.ExampleOrgIsHost | src/tradera-web-scraper.ts:189 | `example.org` is a domain name |
| Scraper.ForeignHostIsAdmitted | src/tradera-web-scraper.ts:198 | `example.org/tradera.com/item` is admitted |
| Scraper.AdmittedUrlMentionsItem | src/tradera-web-scraper.ts:157 | every admitted URL includes "item", so the first check after navigation passes unless the page redirects |
| Scraper.NotFoundProbe | src/tradera-web-scraper.ts:163 | the probe's value is never truthy, whether or not the container is rendered |
| Scraper.Setup | src/tradera-web-scraper.ts:155-166 | the page is ready exactly when its URL includes "item"; the not-found check never stops it |
| Scraper.StartBrowser | src/tradera-web-scraper.ts:197-212 | a URL that is not admitted stops the run before any browser step; an admitted one launches, opens a page and navigates to it; the run is ready exactly when the URL is admitted and the page's URL includes "item" |
| Scraper.AdmittedPageIsReady | src/tradera-web-scraper.ts:207-212 | an admitted URL that is not redirected always passes the checks after navigation |
| Scraper.GetItemType | src/tradera-web-scraper.ts:219-225 | the listing is an auction exactly when the time title is read and non-empty |
| Scraper.GetAllImages | src/tradera-web-scraper.ts:120-148 | the images are the gallery's `src` values without repetitions, in first-seen order |
| Scraper.GetAllBids | src/tradera-web-scraper.ts:87-119 | bids are read exactly when the history link is there and every row has at least four cells, one bid per row as in `CollectBids`, each time given to `Date.parse` |
| Scraper.SharedAuctionFields | src/tradera-web-scraper.ts:238-253 | the field rules both versions share: each read field is the converter's value on the text, the raw text, or `undefined` when the element is missing; one bid per row with its bidder and amount; `numberOfBids` is the row count; `latestBid` is the first bid or none |
| Scraper.TimeLeftField | src/tradera-web-scraper.ts:246 | `timeLeft` is 0 for "Avslutad", the text otherwise, and `undefined` when the element is missing |
| Scraper.AuctionRecord | src/tradera-web-scraper.ts:238-253 | the current record: the shared fields, bid times given to `Date.parse`, buy-now price 0 and availability false without the button, and the gallery without repetitions |
| Scraper.ReadAuction | src/tradera-web-scraper.ts:238-253 | the auction branch yields a record exactly when the bid history is readable, and that record satisfies `AuctionRecord`: each read field is the converter's value on the text, the raw text, or `undefined` when missing; one bid per row; `numberOfBids` equals the row count; `latestBid` is the first bid or none; buy-now price 0 and availability false without the button; the gallery without repetitions |
| Scraper.GetProductInfo | src/tradera-web-scraper.ts:230-268 | stops on a URL that is not admitted, with no browser step, and on a page whose URL lacks "item"; never stops on the not-found check; a record is printed exactly when the run gets through and the listing is a product or its bid history is readable; a product yields the constant default record; an auction yields a record satisfying `AuctionRecord` |
| Scraper.AuctionFixture | src/tradera-web-scraper.ts:237-253 | an auction at an admitted URL with three complete bid rows and a gallery repeating its first image yields a record with three bids, two images and `isAuction` true |
| EarlyScraper.GetSelectorText | src/index.ts:45-61 | a failed read gives `undefined` and never reaches the converter; a successful one gives the converter's value or the text |
| EarlyScraper.ReaderIsCurrentReaderWithoutErrorCallback | src/index.ts:45-61 | the earlier reader equals the current one called without an error callback |
| EarlyScraper.BuyNowFlag | src/index.ts:164 | the `result == undefined` test only sees text, so availability is always true when the button is read |
| EarlyScraper.Setup | src/index.ts:112-117 | the page is ready exactly when its URL includes "item" |
| EarlyScraper.SetupsAgree | src/index.ts:112-117 | the earlier setup decides as the current one does, whatever the not-found container |
| EarlyScraper.StartBrowser | src/index.ts:132-144 | the browser is launched and navigates without any test of the URL; the run is ready exactly when the page's URL includes "item" |
| EarlyScraper.GetAllBids | src/index.ts:63-92 | bids are read exactly when the history link is there and every row has at least four cells, one bid per row, each time kept as the cell's text |
| EarlyScraper.ReadAuction | src/index.ts:153-168 | a record exactly when the bid history is readable, satisfying the earlier `AuctionRecord`: the shared field rules, bid times kept as text, the time left read through its own selector, buy-now price and availability `undefined` without the button, and the gallery kept as read |
| EarlyScraper.ListingUrlIsValid | src/index.ts:150 | the hard-coded listing URL is accepted by the current version's `isValidUrl` |
| EarlyScraper.ListingUrlMentionsItemPath | src/index.ts:150 | the hard-coded listing URL includes `tradera.com/item` |
| EarlyScraper.ListingIsAdmitted | src/index.ts:150 | the hard-coded listing would pass the current version's admission test |
| EarlyScraper.AuctionRecord | src/index.ts:153-168 | the earlier record: the shared fields, bid times kept as text, the time left from its own selector, buy-now fields `undefined` without the button, and the gallery as read |
| EarlyScraper.GetAuctionInfo | src/index.ts:149-172 | always navigates to the hard-coded listing; stops only on a page whose URL lacks "item"; otherwise prints an auction record, whatever the listing, exactly when the bid history is readable |
| EarlyScraper.RecordsAgreeWithoutBids | src/index.ts:158-166 | on a page without bids, with the buy-now button shown, no repeated image and both time-left selectors reading alike, the two versions accept exactly the same records |
| EarlyScraper.RecordsDifferWithBids | src/index.ts:80 | with at least one bid no record satisfies both versions: the earlier one keeps the time text where the current one parses it |
| EarlyScraper.RecordsDifferOnTimeLeftReads | src/index.ts:161 | when the two time-left selectors read differently no record satisfies both versions |
| EarlyScraper.RecordsDifferWithoutButton | src/index.ts:163-164 | without the buy-now button no record satisfies both versions |
| EarlyScraper.RecordsDifferOnRepeatedImages | src/index.ts:166 | with a repeated image no record satisfies both versions |

## Left out

- Puppeteer: launching the browser, opening the page, navigation, clicks, waits and the DOM queries inside `evaluate`. Their results are inputs (`Records.Page`). The browser steps are recorded only as the sequence `Scraper.BrowserStep`.
- The module-level `browserInstance` handle and async sequencing. The page is an input value, so the handle carries nothing the model needs.
- Opening and closing the bid-history overlay, and the three separate bid reads of one record. They are modelled as three reads of one fixed row snapshot.
- Cookie-banner dismissal. It is best-effort browser I/O whose failure is only logged.
- `console.log` and `process.exit`. A stopped run is the `Stopped` outcome, and a printed record is `Emitted`.
- A converter callback that throws, and an element whose `innerText` is not a string. Every converter here is total on text.
- `JsValues.ToNumber`: `Number` of a text with one point is kept as the text (`Decimal`), not as a floating-point value, and several points give `NaN`. Only digit-only texts are evaluated, and they are evaluated exactly: `Number` rounds a digit-only text above 2^53 to the nearest double (`"9007199254740993"` gives 9007199254740992) and gives `Infinity` from about 309 digits on, which the model does not capture.
- `Converters.Price` and `Converters.PriceReadsRenderedAmount`: they inherit the exact integer of `JsValues.ToNumber`, so they agree with the source only for amounts up to 2^53.
- `Records.CollectBids`: the amount is kept as the text given to `parseFloat` (cell 1 without its first "kr"), and the current version's `Date.parse` of the time is kept unevaluated, as `Parsed` of the time text. Floating-point parsing and locale-dependent date parsing are not modelled.
- The regular-expression engine. `isValidUrl` and the item-page test are modelled as the languages they accept.
