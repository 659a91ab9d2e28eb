/**
 * The spreadsheet feed: turning approved rows of the "Items" sheet into
 * `Product` records, rewriting Yahoo! Auctions links into Buyee links, and
 * the two lookups over the resulting list.
 */
module GoogleSheets {
  import opened Optional
  import opened JsString
  import opened JsArray
  import opened Data

  // ---------------------------------------------------------------------
  // Rows

  /** A spreadsheet row: column name to cell value; a missing column or cell is `None`. */
  type Row = map<string, Option<string>>

  /** `row.get(column)`. */
  function Get(row: Row, column: string): (v: Option<string>)
    ensures column !in row ==> v == None
    ensures column in row ==> v == row[column]
  {
    if column in row then row[column] else None
  }

  /** A value JavaScript treats as truthy: present and not the empty string. */
  predicate Present(v: Option<string>) {
    v.Some? && v.value != ""
  }

  /** `v || fallback` for a cell value: `undefined` and `""` both fall back. */
  function OrElse(v: Option<string>, fallback: string): (r: string)
    ensures Present(v) ==> r == v.value
    ensures !Present(v) ==> r == fallback
  {
    if Present(v) then v.value else fallback
  }

  // ---------------------------------------------------------------------
  // Field parsers

  predicate IsCategoryName(s: string) {
    s == "Camera" || s == "Game" || s == "Watch"
  }

  /** The category a trimmed cell names exactly (case-sensitive); `Camera` otherwise,
      also for a missing cell. */
  function ParseCategory(value: Option<string>): (c: Category)
    ensures value.Some? && IsCategoryName(Trim(value.value)) ==> CategoryName(c) == Trim(value.value)
    ensures !(value.Some? && IsCategoryName(Trim(value.value))) ==> c == Camera
  {
    if value.None? then Camera
    else
      var normalized := Trim(value.value);
      if normalized == "Game" then Game
      else if normalized == "Watch" then Watch
      else Camera
  }

  /** True iff the cell, upper-cased, is exactly "TRUE"; a missing cell is false. */
  function ParseBoolean(value: Option<string>): (b: bool)
    ensures b <==> value.Some? && ToUpperCase(value.value) == "TRUE"
  {
    match value
    case None => false
    case Some(s) => ToUpperCase(s) == "TRUE"
  }

  /** `parseInt(value || "0", 10)`, with `NaN` read as 0. */
  function ParseNumber(value: Option<string>): (n: int)
    ensures !Present(value) ==> n == 0
    ensures Present(value) && ParseInt(value.value).None? ==> n == 0
    ensures Present(value) && ParseInt(value.value).Some? ==> n == ParseInt(value.value).value
  {
    ParseIntOfIntToString(0, "");
    match ParseInt(OrElse(value, "0"))
    case None => 0
    case Some(n) => n
  }

  /** A category name, padded with white space or not, is read back as that category. */
  lemma ParseCategoryOfName(c: Category, pre: string, post: string)
    requires AllWhiteSpace(pre) && AllWhiteSpace(post)
    ensures ParseCategory(Some(pre + CategoryName(c) + post)) == c
  {
    TrimPadded(pre, CategoryName(c), post);
  }

  /** The category match is case-sensitive: a name in the wrong case, or a value
      outside the enumeration, falls back to `Camera`. */
  lemma ParseCategoryFallback()
    ensures ParseCategory(Some("game")) == Camera
    ensures ParseCategory(Some("Boat")) == Camera
    ensures ParseCategory(None) == Camera
  {
    TrimPadded("", "game", "");
    TrimPadded("", "Boat", "");
  }

  /** The flag is case-insensitive: lower-casing a cell never changes it. */
  lemma ParseBooleanCaseInsensitive(s: string)
    ensures ParseBoolean(Some(ToLowerCase(s))) == ParseBoolean(Some(s))
  {
    UpperOfLower(s);
  }

  /** "TRUE", "true" and "True" are all true; "yes" and " TRUE" (not trimmed) are false. */
  lemma ParseBooleanExamples()
    ensures ParseBoolean(Some("TRUE")) && ParseBoolean(Some("true")) && ParseBoolean(Some("True"))
    ensures !ParseBoolean(Some("yes")) && !ParseBoolean(Some(" TRUE")) && !ParseBoolean(None)
  {
    assert ToUpperCase("TRUE") == "TRUE";
    assert ToUpperCase("true") == "TRUE";
    assert ToUpperCase("True") == "TRUE";
    assert ToUpperCase("yes")[0] == 'Y';
    assert ToUpperCase(" TRUE")[0] == ' ';
  }

  /** A price cell holding a number, possibly followed by text that does not start
      with a digit, is read as that number ("12abc" gives 12, "-5" gives -5). */
  lemma ParseNumberOfDecimal(n: int, rest: string)
    requires rest == [] || !IsDigit(rest[0])
    ensures ParseNumber(Some(IntToString(n) + rest)) == n
  {
    ParseIntOfIntToString(n, rest);
  }

  /** A cell with no digits after white space and sign is 0 ("abc", "-"). */
  lemma ParseNumberNoDigits()
    ensures ParseNumber(Some("abc")) == 0
    ensures ParseNumber(Some("-")) == 0
  {
    TrimStartUnchanged("abc");
    ParseIntNoDigits("abc");
    TrimStartUnchanged("-");
    ParseIntNoDigits("-");
  }

  // ---------------------------------------------------------------------
  // Affiliate links: Yahoo! Auctions to Buyee

  const YahooAuctionsHost := "auctions.yahoo.co.jp"
  const AuctionPath := "/auction/"
  const SearchPath := "/search/search/"
  const BuyeeAuctionPrefix := "https://buyee.jp/item/yahoo/auction/"
  const BuyeeSearchPrefix := "https://buyee.jp/item/search/query/"
  const LangSuffix := "?lang=en"

  /** The character classes of the two capture groups: `[a-zA-Z0-9]` and `[^/]`. */
  datatype CharClass = AlphaNumeric | NotSlash

  predicate InClass(c: char, k: CharClass) {
    match k
    case AlphaNumeric => IsAlphaNumeric(c)
    case NotSlash => c != '/'
  }

  /** The regular expression `lit([k]+)` matches at position `i` of `s`. */
  predicate MatchAt(s: string, lit: string, k: CharClass, i: int) {
    OccursAt(s, lit, i) && i + |lit| < |s| && InClass(s[i + |lit|], k)
  }

  /** The leftmost position at or after `from` where the expression matches. */
  function LeftmostMatch(s: string, lit: string, k: CharClass, from: nat): (r: Option<nat>)
    decreases |s| - from
    ensures r.Some? ==> from <= r.value && MatchAt(s, lit, k, r.value)
    ensures r.Some? ==> forall j :: from <= j < r.value ==> !MatchAt(s, lit, k, j)
    ensures r.None? ==> forall j :: from <= j ==> !MatchAt(s, lit, k, j)
  {
    if |s| <= from then None
    else if MatchAt(s, lit, k, from) then Some(from)
    else LeftmostMatch(s, lit, k, from + 1)
  }

  /** Where the greedy run of class-`k` characters starting at `j` ends. */
  function RunEnd(s: string, k: CharClass, j: nat): (e: nat)
    requires j <= |s|
    decreases |s| - j
    ensures j <= e <= |s|
    ensures forall m :: j <= m < e ==> InClass(s[m], k)
    ensures e == |s| || !InClass(s[e], k)
  {
    if j < |s| && InClass(s[j], k) then RunEnd(s, k, j + 1) else j
  }

  /** Group 1 of `s.match(/lit([k]+)/)`: the greedy run after the leftmost match. */
  function Capture(s: string, lit: string, k: CharClass): (r: Option<string>)
    ensures r.Some? ==> |r.value| > 0 && forall m :: 0 <= m < |r.value| ==> InClass(r.value[m], k)
    ensures r.None? <==> forall j :: !MatchAt(s, lit, k, j)
  {
    match LeftmostMatch(s, lit, k, 0)
    case None => None
    case Some(i) => Some(s[i + |lit|..RunEnd(s, k, i + |lit|)])
  }

  /** `convertToBuyeeUrl`: a Yahoo! Auctions listing or search link becomes the
      matching Buyee link; every other string is returned as it is. */
  function ConvertToBuyeeUrl(url: string): (r: string)
    ensures url == "" ==> r == ""
    ensures !Includes(url, YahooAuctionsHost) ==> r == url
  {
    if url == "" then ""
    else if Includes(url, YahooAuctionsHost) then
      match Capture(url, AuctionPath, AlphaNumeric)
      case Some(auctionId) => BuyeeAuctionPrefix + auctionId + LangSuffix
      case None =>
        match Capture(url, SearchPath, NotSlash)
        case Some(searchQuery) => BuyeeSearchPrefix + searchQuery + LangSuffix
        case None => url
    else url
  }

  /** The expression matches at `i` and nowhere before. */
  predicate FirstMatch(s: string, lit: string, k: CharClass, i: nat) {
    MatchAt(s, lit, k, i) && forall j :: 0 <= j < i ==> !MatchAt(s, lit, k, j)
  }

  /** `s[j..e]` is a non-empty run of class `k` that cannot be extended to the right. */
  predicate MaximalRun(s: string, k: CharClass, j: nat, e: nat) {
    j < e <= |s| && (forall m :: j <= m < e ==> InClass(s[m], k)) && (e == |s| || !InClass(s[e], k))
  }

  lemma CaptureIs(s: string, lit: string, k: CharClass, i: nat, e: nat)
    requires FirstMatch(s, lit, k, i)
    requires MaximalRun(s, k, i + |lit|, e)
    ensures Capture(s, lit, k) == Some(s[i + |lit|..e])
  {
    var r := LeftmostMatch(s, lit, k, 0);
    assert r == Some(i);
    RunEndUnique(s, k, i + |lit|, e);
  }

  lemma {:induction false} RunEndUnique(s: string, k: CharClass, j: nat, e: nat)
    requires j <= e <= |s|
    requires forall m :: j <= m < e ==> InClass(s[m], k)
    requires e == |s| || !InClass(s[e], k)
    decreases e - j
    ensures RunEnd(s, k, j) == e
  {
    if j < e {
      RunEndUnique(s, k, j + 1, e);
    }
  }

  /** Listing rule: on a Yahoo! Auctions link with `/auction/` followed by a letter or
      digit, the leftmost such id, taken greedily, gives the Buyee listing link, whatever
      else the link holds (the rule is tried before the search rule). */
  lemma AuctionRule(url: string, i: nat, e: nat)
    requires Includes(url, YahooAuctionsHost)
    requires FirstMatch(url, AuctionPath, AlphaNumeric, i)
    requires MaximalRun(url, AlphaNumeric, i + |AuctionPath|, e)
    ensures ConvertToBuyeeUrl(url) == BuyeeAuctionPrefix + url[i + |AuctionPath|..e] + LangSuffix
  {
    CaptureIs(url, AuctionPath, AlphaNumeric, i, e);
  }

  /** Search rule: on a Yahoo! Auctions link with no listing id, the leftmost
      `/search/search/` followed by a run of non-slash characters gives the Buyee
      search link, the query copied verbatim. */
  lemma SearchRule(url: string, i: nat, e: nat)
    requires Includes(url, YahooAuctionsHost)
    requires forall j :: !MatchAt(url, AuctionPath, AlphaNumeric, j)
    requires FirstMatch(url, SearchPath, NotSlash, i)
    requires MaximalRun(url, NotSlash, i + |SearchPath|, e)
    ensures ConvertToBuyeeUrl(url) == BuyeeSearchPrefix + url[i + |SearchPath|..e] + LangSuffix
  {
    CaptureIs(url, SearchPath, NotSlash, i, e);
  }

  /** A Yahoo! Auctions link that matches neither rule is returned unchanged. */
  lemma UnrecognisedYahooLink(url: string)
    requires forall j :: !MatchAt(url, AuctionPath, AlphaNumeric, j)
    requires forall j :: !MatchAt(url, SearchPath, NotSlash, j)
    ensures ConvertToBuyeeUrl(url) == url
  {
  }

  /** The links of the function's documentation, written piece by piece:
      `https://page.auctions.yahoo.co.jp/jp/auction/{id}` and
      `https://auctions.yahoo.co.jp/search/search/canon%20ae-1/0/`. */
  function YahooListingLink(id: string): (url: string) {
    "https:" + "//" + "page." + YahooAuctionsHost + "/jp" + AuctionPath + id
  }

  const ExampleQuery := "canon%20ae-1"

  function YahooSearchLink(): string {
    "https:" + "//" + YahooAuctionsHost + SearchPath + ExampleQuery + "/0/"
  }

  /** An expression starting with `lit` cannot match where `s` differs from `lit`. */
  lemma NotMatchAtChar(s: string, lit: string, k: CharClass, j: nat, m: nat)
    requires m < |lit| && j + m < |s| && s[j + m] != lit[m]
    ensures !MatchAt(s, lit, k, j)
  {
    if j + |lit| <= |s| {
      assert s[j..j + |lit|][m] == s[j + m];
    }
  }

  lemma ListingLinkFirstMatch(id: string)
    requires |id| > 0 && IsAlphaNumeric(id[0])
    ensures FirstMatch(YahooListingLink(id), AuctionPath, AlphaNumeric, 36)
  {
    var head := "https:";
    var tail := "page." + YahooAuctionsHost;
    var url := YahooListingLink(id);
    assert '/' !in head && '/' !in tail;
    forall j | 0 <= j < 36 ensures !MatchAt(url, AuctionPath, AlphaNumeric, j) {
      if j < 6 {
        assert url[j] == head[j];
        NotMatchAtChar(url, AuctionPath, AlphaNumeric, j, 0);
      } else if j < 8 || j == 33 {
        NotMatchAtChar(url, AuctionPath, AlphaNumeric, j, 1);
      } else if j < 33 {
        assert url[j] == tail[j - 8];
        NotMatchAtChar(url, AuctionPath, AlphaNumeric, j, 0);
      } else {
        NotMatchAtChar(url, AuctionPath, AlphaNumeric, j, 0);
      }
    }
    assert url[36..45] == AuctionPath;
    assert url[45] == id[0];
  }

  /** The documented listing example, for every id of letters and digits:
      `.../jp/auction/{id}` becomes `https://buyee.jp/item/yahoo/auction/{id}?lang=en`. */
  lemma ListingExample(id: string)
    requires |id| > 0 && forall m :: 0 <= m < |id| ==> IsAlphaNumeric(id[m])
    ensures ConvertToBuyeeUrl(YahooListingLink(id)) == BuyeeAuctionPrefix + id + LangSuffix
  {
    var url := YahooListingLink(id);
    ListingLinkFirstMatch(id);
    assert OccursAt(url, YahooAuctionsHost, 13) by { assert url[13..33] == YahooAuctionsHost; }
    AuctionRule(url, 36, |url|);
    assert url[45..] == id;
  }

  lemma SearchLinkNoListing()
    ensures forall j :: !MatchAt(YahooSearchLink(), AuctionPath, AlphaNumeric, j)
  {
    var head := "https:";
    var url := YahooSearchLink();
    assert '/' !in head && '/' !in YahooAuctionsHost && 'u' !in SearchPath && '/' !in ExampleQuery;
    forall j | 0 <= j < 49 ensures !MatchAt(url, AuctionPath, AlphaNumeric, j) {
      if j < 6 {
        assert url[j] == head[j];
        NotMatchAtChar(url, AuctionPath, AlphaNumeric, j, 0);
      } else if j == 6 || j == 42 {
        NotMatchAtChar(url, AuctionPath, AlphaNumeric, j, 1);
      } else if j == 7 {
        NotMatchAtChar(url, AuctionPath, AlphaNumeric, j, 8);
      } else if j < 28 {
        assert url[j] == YahooAuctionsHost[j - 8];
        NotMatchAtChar(url, AuctionPath, AlphaNumeric, j, 0);
      } else if j < 41 {
        assert url[j + 2] == SearchPath[j + 2 - 28];
        NotMatchAtChar(url, AuctionPath, AlphaNumeric, j, 2);
      } else if j == 41 {
        NotMatchAtChar(url, AuctionPath, AlphaNumeric, j, 2);
      } else {
        assert url[j] == ExampleQuery[j - 43];
        NotMatchAtChar(url, AuctionPath, AlphaNumeric, j, 0);
      }
    }
  }

  lemma SearchLinkFirstMatch()
    ensures FirstMatch(YahooSearchLink(), SearchPath, NotSlash, 28)
    ensures MaximalRun(YahooSearchLink(), NotSlash, 43, 55)
  {
    var head := "https:";
    var url := YahooSearchLink();
    assert '/' !in head && '/' !in YahooAuctionsHost && '/' !in ExampleQuery;
    forall j | 0 <= j < 28 ensures !MatchAt(url, SearchPath, NotSlash, j) {
      if j < 6 {
        assert url[j] == head[j];
        NotMatchAtChar(url, SearchPath, NotSlash, j, 0);
      } else if j < 8 {
        NotMatchAtChar(url, SearchPath, NotSlash, j, 1);
      } else {
        assert url[j] == YahooAuctionsHost[j - 8];
        NotMatchAtChar(url, SearchPath, NotSlash, j, 0);
      }
    }
    assert url[28..43] == SearchPath;
    forall m | 43 <= m < 55 ensures url[m] != '/' {
      assert url[m] == ExampleQuery[m - 43];
    }
  }

  /** The documented search example: the query `canon%20ae-1` is copied into
      `https://buyee.jp/item/search/query/canon%20ae-1?lang=en`. */
  lemma SearchExample()
    ensures ConvertToBuyeeUrl(YahooSearchLink()) == BuyeeSearchPrefix + ExampleQuery + LangSuffix
  {
    var url := YahooSearchLink();
    SearchLinkNoListing();
    SearchLinkFirstMatch();
    assert OccursAt(url, YahooAuctionsHost, 8) by { assert url[8..28] == YahooAuctionsHost; }
    SearchRule(url, 28, 55);
    assert url[43..55] == ExampleQuery;
  }

  // ---------------------------------------------------------------------
  // Normalization

  /** Only rows whose status is exactly "Approve" reach the catalog. */
  predicate IsApproved(row: Row) {
    Get(row, "status") == Some("Approve")
  }

  function ApprovedRows(rows: seq<Row>): (approved: seq<Row>)
    ensures forall row :: row in approved <==> row in rows && IsApproved(row)
  {
    FilterMembership(rows, IsApproved);
    Filter(rows, IsApproved)
  }

  /** The product built from the approved row at position `index` of the approved rows. */
  function NormalizeRow(row: Row, index: nat): (p: Product)
    ensures p.id == (if Present(Get(row, "id")) then Get(row, "id").value else NatToString(index + 1))
    ensures p.title == (if Present(Get(row, "product_name")) then Get(row, "product_name").value else "Untitled Product")
    ensures p.description == (if Present(Get(row, "ai_caption")) then Get(row, "ai_caption").value
                              else "A unique vintage item from Japan.")
    ensures p.priceYen == ParseNumber(Get(row, "price_yen"))
    ensures p.priceUsd * 150 <= p.priceYen < (p.priceUsd + 1) * 150
    ensures p.imageUrl == (if Present(Get(row, "image_url")) then Get(row, "image_url").value else "")
    ensures Present(Get(row, "affiliate_link")) ==> p.affiliateLink == ConvertToBuyeeUrl(Get(row, "affiliate_link").value)
    ensures !Present(Get(row, "affiliate_link")) && Present(Get(row, "source_url")) ==>
              p.affiliateLink == ConvertToBuyeeUrl(Get(row, "source_url").value)
    ensures !Present(Get(row, "affiliate_link")) && !Present(Get(row, "source_url")) ==> p.affiliateLink == ""
    ensures p.category == ParseCategory(Get(row, "category"))
    ensures p.condition == Used
    ensures p.isFeatured <==> ParseBoolean(Get(row, "is_featured"))
  {
    var priceYen := ParseNumber(Get(row, "price_yen"));
    var priceUsd := priceYen / 150;
    var rawUrl := OrElse(Get(row, "affiliate_link"), OrElse(Get(row, "source_url"), ""));
    Product(
      id := OrElse(Get(row, "id"), NatToString(index + 1)),
      title := OrElse(Get(row, "product_name"), "Untitled Product"),
      description := OrElse(Get(row, "ai_caption"), "A unique vintage item from Japan."),
      priceYen := priceYen,
      priceUsd := priceUsd,
      imageUrl := OrElse(Get(row, "image_url"), ""),
      affiliateLink := ConvertToBuyeeUrl(rawUrl),
      category := ParseCategory(Get(row, "category")),
      condition := Used,
      isFeatured := ParseBoolean(Get(row, "is_featured")))
  }

  /** The approved rows, in sheet order, each normalized with its position among them:
      `approved.map((row, index) => ...)`. */
  function NormalizeRows(rows: seq<Row>): (ps: seq<Product>)
    ensures |ps| <= |rows|
  {
    MapIndexed(ApprovedRows(rows), NormalizeRow)
  }

  lemma ApprovedOfSingleton(row: Row)
    ensures ApprovedRows([row]) == if IsApproved(row) then [row] else []
  {
    assert [row][1..] == [];
  }

  /** An unapproved row contributes nothing, wherever it stands. */
  lemma NormalizeRowsSkipsUnapproved(before: seq<Row>, row: Row, after: seq<Row>)
    requires !IsApproved(row)
    ensures NormalizeRows(before + [row] + after) == NormalizeRows(before + after)
  {
    FilterSkips(before, row, after, IsApproved);
  }

  /** An approved row appended to the sheet is normalized after the others, with the
      next position: its fallback id is one more than the number of products before it. */
  lemma NormalizeRowsAppend(rows: seq<Row>, row: Row)
    requires IsApproved(row)
    ensures NormalizeRows(rows + [row]) == NormalizeRows(rows) + [NormalizeRow(row, |NormalizeRows(rows)|)]
  {
    FilterConcat(rows, [row], IsApproved);
    ApprovedOfSingleton(row);
    assert ApprovedRows(rows + [row]) == ApprovedRows(rows) + [row];
    MapIndexedAppend(ApprovedRows(rows), row, NormalizeRow);
  }

  lemma NormalizeRowsEmpty()
    ensures NormalizeRows([]) == []
  {
  }

  /** Every product of the feed is one per approved row, with a dollar price that is
      the floor of its yen price over 150 and the condition "Used". */
  lemma NormalizeRowsShape(rows: seq<Row>)
    ensures |NormalizeRows(rows)| == |ApprovedRows(rows)|
    ensures forall p :: p in NormalizeRows(rows) ==>
              p.priceUsd * 150 <= p.priceYen < (p.priceUsd + 1) * 150 && p.condition == Used
  {
  }

  /** When no approved row carries an id, the feed numbers its products "1", "2", ...:
      every id is a digit string and no two are equal. */
  lemma FallbackIdsDistinct(rows: seq<Row>)
    requires forall row :: row in rows && IsApproved(row) ==> !Present(Get(row, "id"))
    ensures forall k :: 0 <= k < |NormalizeRows(rows)| ==> NormalizeRows(rows)[k].id == NatToString(k + 1)
    ensures forall p :: p in NormalizeRows(rows) ==> IsDigitString(p.id)
    ensures forall i, j :: 0 <= i < j < |NormalizeRows(rows)| ==> NormalizeRows(rows)[i].id != NormalizeRows(rows)[j].id
  {
    var ps := NormalizeRows(rows);
    var approved := ApprovedRows(rows);
    forall k | 0 <= k < |ps| ensures ps[k].id == NatToString(k + 1) {
      assert approved[k] in approved;
    }
    forall i, j | 0 <= i < j < |ps| ensures ps[i].id != ps[j].id {
      NatToStringInjective(i + 1, j + 1);
    }
  }

  // ---------------------------------------------------------------------
  // Fetching and lookups

  /** The process configuration the fetch reads. */
  datatype Config = Config(sheetId: Option<string>, serviceAccountEmail: Option<string>, privateKey: Option<string>)

  datatype FetchError = MissingSheetId | MissingCredentials | SheetNotFound

  /** `getProducts`, with the spreadsheet given as its sheets by title: the sheet id is
      checked first, then the credentials, then the "Items" sheet; any failure is an
      error for the whole catalog, never a partial list. */
  function GetProducts(config: Config, sheetsByTitle: map<string, seq<Row>>): (r: Result<seq<Product>, FetchError>)
    ensures !Present(config.sheetId) ==> r == Err(MissingSheetId)
    ensures Present(config.sheetId) && !(Present(config.serviceAccountEmail) && Present(config.privateKey)) ==>
              r == Err(MissingCredentials)
    ensures Present(config.sheetId) && Present(config.serviceAccountEmail) && Present(config.privateKey) &&
              "Items" !in sheetsByTitle ==>
              r == Err(SheetNotFound)
    ensures r.Ok? <==> Present(config.sheetId) && Present(config.serviceAccountEmail) &&
                       Present(config.privateKey) && "Items" in sheetsByTitle
    ensures r.Ok? ==> r.value == NormalizeRows(sheetsByTitle["Items"])
  {
    if !Present(config.sheetId) then Err(MissingSheetId)
    else if !Present(config.serviceAccountEmail) || !Present(config.privateKey) then Err(MissingCredentials)
    else if "Items" !in sheetsByTitle then Err(SheetNotFound)
    else Ok(NormalizeRows(sheetsByTitle["Items"]))
  }

  /** `getProductById`: the first product with exactly this id, or `None` (`null`). */
  function GetProductById(products: seq<Product>, id: string): (r: Option<Product>)
    ensures r.Some? ==> r.value.id == id
    ensures r.Some? ==> exists k :: 0 <= k < |products| && products[k] == r.value &&
                                    forall j :: 0 <= j < k ==> products[j].id != id
    ensures r.None? <==> forall p :: p in products ==> p.id != id
  {
    Find(products, (p: Product) => p.id == id)
  }

  predicate IsFeatured(p: Product) { p.isFeatured }

  /** `getFeaturedProducts`: exactly the featured products. */
  function GetFeaturedProducts(products: seq<Product>): (r: seq<Product>)
    ensures forall p :: p in r <==> p in products && p.isFeatured
  {
    FilterMembership(products, IsFeatured);
    Filter(products, IsFeatured)
  }

  /** The featured products keep their order: featuring distributes over concatenation,
      and each featured product keeps all its occurrences. */
  lemma FeaturedKeepsOrder(a: seq<Product>, b: seq<Product>)
    ensures GetFeaturedProducts(a + b) == GetFeaturedProducts(a) + GetFeaturedProducts(b)
    ensures forall p :: multiset(GetFeaturedProducts(a))[p] == if p.isFeatured then multiset(a)[p] else 0
  {
    FilterConcat(a, b, IsFeatured);
    FilterMultiset(a, IsFeatured);
  }

  /** The home page's showcase: the first four featured products. */
  function HomeFeatured(products: seq<Product>): (r: seq<Product>)
    ensures |r| <= 4 && |r| <= |GetFeaturedProducts(products)|
    ensures r == GetFeaturedProducts(products)[..|r|]
    ensures |r| < 4 ==> r == GetFeaturedProducts(products)
  {
    var featured := GetFeaturedProducts(products);
    if |featured| <= 4 then featured else featured[..4]
  }

}
