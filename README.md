# RetroHunter catalog pipeline, in Dafny

RetroHunter is a storefront for vintage Japanese cameras, game consoles and
watches. Its catalog comes from a Google spreadsheet. Rows whose `status` is
`"Approve"` become `Product` records. Each cell is parsed with an exact
fallback rule. Yahoo! Auctions links are rewritten into Buyee links, so that
buyers outside Japan can bid. The home page shows the featured products. The
catalog grid filters the products by category and by a case-insensitive title
search, then sorts them by price or by id with a stable sort.

This project models that pipeline and proves what its code promises.

| file | module | models |
|---|---|---|
| `optional.dfy` | `Optional` | `Option` (`undefined` / `null`) and `Result` (a thrown error) |
| `js_string.dfy` | `JsString` | the string built-ins: `trim`, `toLowerCase`, `toUpperCase`, `includes`, `parseInt(_, 10)`, `String(n)`, `Number(s)` |
| `js_array.dfy` | `JsArray` | the array built-ins: `filter`, `map((x, index) => …)`, `find` |
| `data.dfy` | `Data` | `lib/data.ts`: the `Product` record, its enumerations, `getAffiliateLink` and the ten-item catalog |
| `google_sheets.dfy` | `GoogleSheets` | `lib/google-sheets.ts`: the cell parsers, `convertToBuyeeUrl`, row normalization, `getProducts`, `getProductById`, `getFeaturedProducts` |
| `product_feed.dfy` | `ProductFeed` | `components/ProductFeed.tsx`: the `filteredProducts` memo |

`lib/google-sheets.ts` and `lib/data.ts` are pure, so they become functions
and lemmas. The `filteredProducts` memo works step by step. It copies the list
into a local array, filters it twice, and then sorts it in place. So it becomes
a method. That method fills an `array`, and an insertion sort runs over that
array. The sort is proved equal to a functional stable sort, `StableSort`. The
lemmas about `StableSort` give the ordering, the permutation and the stability.

Design decisions:

- A row is a map from column name to `Option<string>`. JavaScript `||` treats a
  missing cell and an empty string alike, so the model does too (`Present`,
  `OrElse`).
- `Array.prototype.sort` is stable. Each comparator is `key(a) - key(b)`:
  - `price_asc` sorts by `priceUsd`;
  - `price_desc` sorts by `-priceUsd`;
  - `newest` sorts by `-Number(id)`.

  So the three modes are one stable sort by an integer key (`Key`).
  "Stable" is stated as follows: for every key value, the products with that
  key appear in the same order before and after the sort (`WithKey`).
- The two regular expressions in `convertToBuyeeUrl` are read as follows:
  - find the leftmost position where the literal is followed by at least one
    character of the class;
  - then capture greedily (`LeftmostMatch`, `RunEnd`, `Capture`).
- `getProducts` is a `Result`. Its checks run in the source's order: the sheet
  id, then the credentials, then the `"Items"` sheet. The spreadsheet's
  contents are a parameter.
- `parseBoolean` upper-cases the cell before comparing it, so `"true"` is
  true (`ParseBooleanExamples`).
- `parseInt` accepts a sign, so `"-5"` gives -5 yen and -1 dollar
  (`ParseNumberOfDecimal`). Dafny's `/` rounds toward minus infinity for a
  positive divisor, which is `Math.floor`.

## Model

| member | source | states |
|---|---|---|
| Data.GetAffiliateLink | lib/data.ts:15-19 | every link is returned unchanged |
| Data.FixtureIds | lib/data.ts:21-142 | the catalog has exactly ten products, whose ids are "1" to "10" in order |
| Data.FixtureIdsNumericAndDistinct | lib/data.ts:21-142 | every catalog id is a digit string and no two are equal, so the "newest" order is defined on the catalog |
| Data.FixtureFeatured | lib/data.ts:21-142 | exactly the products at positions 0, 1, 2, 8 and 9 (ids 1, 2, 3, 9, 10) are featured |
| Data.FixturePriceNotDerived | lib/data.ts:26-27 | the first product has 25000 yen and 165 dollars, while 25000 / 150 is 166, so the catalog's dollar prices are not derived |
| JsString.Trim | lib/google-sheets.ts:28 | the result neither starts nor ends with white space, and it is empty only when the input is all white space |
| JsString.TrimStart | lib/google-sheets.ts:28 | the result is a suffix of the input, everything dropped is white space, and it does not start with white space |
| JsString.TrimEnd | lib/google-sheets.ts:28 | the result is a prefix of the input, everything dropped is white space, and it does not end with white space |
| JsString.TrimIsInfix | lib/google-sheets.ts:28 | the result is an infix of the input, with only white space dropped before and after it |
| JsString.InfixOfTrimmed | lib/google-sheets.ts:28 | dropping white space from the front and then from the back leaves an infix with only white space around it |
| JsString.TrimPadded | lib/google-sheets.ts:28 | padding a string with white space on both sides does not change what `trim` gives, when the string has no white space at its ends |
| JsString.ToLowerCase | components/ProductFeed.tsx:27-29 | same length, and each character is lower-cased on its own (ASCII letters only) |
| JsString.ToUpperCase | lib/google-sheets.ts:36 | same length, and each character is upper-cased on its own (ASCII letters only) |
| JsString.UpperOfLower | lib/google-sheets.ts:36 | upper-casing gives the same result whether or not the string was lower-cased first |
| JsString.LowerOfUpper | components/ProductFeed.tsx:27-29 | lower-casing gives the same result whether or not the string was upper-cased first |
| JsString.Includes | lib/google-sheets.ts:58 | true exactly when the needle occurs at some position of the string |
| JsString.NatToString | lib/google-sheets.ts:114 | `String(n)` is a non-empty digit string with no leading zero |
| JsString.DecimalOfNatToString | components/ProductFeed.tsx:45 | `Number(String(n)) == n` |
| JsString.NatToStringInjective | lib/google-sheets.ts:114 | distinct numbers give distinct strings |
| JsString.LeadingDigits | lib/google-sheets.ts:40 | the longest digit prefix: every character of it is a digit, and the next one is not |
| JsString.ParseInt | lib/google-sheets.ts:40 | `parseInt(s, 10)` is `NaN` exactly when no digit follows the leading white space and an optional sign; otherwise it is the longest digit run there, negated after a `-` |
| JsString.ParseIntOfIntToString | lib/google-sheets.ts:40 | `parseInt(String(n) + rest, 10) == n` for every integer, when `rest` does not start with a digit |
| JsString.ParseIntSkipsWhiteSpace | lib/google-sheets.ts:40 | leading white space does not change what `parseInt` gives |
| JsString.ParseIntNoDigits | lib/google-sheets.ts:40-41 | no digit after the white space and an optional sign gives `NaN` |
| JsArray.Filter | lib/google-sheets.ts:103 | the result is never longer than the input |
| JsArray.FilterMembership | lib/google-sheets.ts:103 | an element is in the result exactly when it is in the input and passes the test |
| JsArray.FilterMultiset | lib/google-sheets.ts:145 | each passing element keeps all its occurrences, and no other element is in the result |
| JsArray.FilterConcat | lib/google-sheets.ts:103 | filtering keeps the relative order: filtering a concatenation concatenates the filtered parts |
| JsArray.FilterSkips | lib/google-sheets.ts:103 | an element that fails the test can be removed from anywhere without changing the result |
| JsArray.FilterFilter | components/ProductFeed.tsx:21-31 | two filters in a row are one filter by the conjunction of the two tests |
| JsArray.FilterAll | components/ProductFeed.tsx:21-31 | a filter that every element passes returns its input |
| JsArray.MapIndexed | lib/google-sheets.ts:104 | same length, and element `k` is the function applied to input element `k` and the index `k` |
| JsArray.MapIndexedAppend | lib/google-sheets.ts:104 | an appended element is mapped with the next index, and the earlier results are unchanged |
| JsArray.FindIndex | lib/google-sheets.ts:138 | the first index that passes the test, or none when no element passes |
| JsArray.Find | lib/google-sheets.ts:138 | the first element that passes the test, or `None` exactly when no element passes |
| GoogleSheets.Get | lib/google-sheets.ts:103 | `row.get(column)` is the cell, or `undefined` when the column is missing |
| GoogleSheets.OrElse | lib/google-sheets.ts:108 | `v \|\| fallback`: the value when it is present and non-empty, the fallback otherwise |
| GoogleSheets.ParseCategory | lib/google-sheets.ts:27-33 | the trimmed cell when it names a category exactly, `Camera` in every other case, including a missing cell |
| GoogleSheets.ParseCategoryOfName | lib/google-sheets.ts:27-33 | each category name, padded with white space or not, is read back as that category |
| GoogleSheets.ParseCategoryFallback | lib/google-sheets.ts:27-33 | the wrong case ("game"), an unknown value ("Boat") and a missing cell all give `Camera` |
| GoogleSheets.ParseBoolean | lib/google-sheets.ts:35-37 | true exactly when the cell is present and upper-cases to "TRUE" |
| GoogleSheets.ParseBooleanCaseInsensitive | lib/google-sheets.ts:35-37 | lower-casing a cell never changes its flag |
| GoogleSheets.ParseBooleanExamples | lib/google-sheets.ts:35-37 | "TRUE", "true" and "True" are true; "yes", " TRUE" and a missing cell are false |
| GoogleSheets.ParseNumber | lib/google-sheets.ts:39-42 | 0 for a missing or empty cell and for `NaN`, otherwise what `parseInt` reads |
| GoogleSheets.ParseNumberOfDecimal | lib/google-sheets.ts:39-42 | a number followed by text that does not start with a digit is read as that number ("12abc" gives 12, "-5" gives -5) |
| GoogleSheets.ParseNumberNoDigits | lib/google-sheets.ts:39-42 | "abc" and "-" give 0 |
| GoogleSheets.LeftmostMatch | lib/google-sheets.ts:60 | the leftmost position from which the expression matches, or none when it matches nowhere |
| GoogleSheets.RunEnd | lib/google-sheets.ts:60 | the greedy run of class characters: all of them are in the class, and the next one is not |
| GoogleSheets.Capture | lib/google-sheets.ts:60-61 | group 1 is a non-empty run of class characters, and there is no match exactly when the expression matches nowhere |
| GoogleSheets.CaptureIs | lib/google-sheets.ts:60-68 | group 1 is the maximal run after the first match |
| GoogleSheets.ConvertToBuyeeUrl | lib/google-sheets.ts:54-79 | the empty string gives the empty string; a link that does not contain `auctions.yahoo.co.jp` is returned unchanged |
| GoogleSheets.AuctionRule | lib/google-sheets.ts:58-64 | on a Yahoo! Auctions link, the leftmost `/auction/` followed by letters or digits gives the Buyee listing link with the maximal id, before the search rule is tried |
| GoogleSheets.SearchRule | lib/google-sheets.ts:66-71 | with no listing id, the leftmost `/search/search/` followed by non-slash characters gives the Buyee search link with that query, verbatim |
| GoogleSheets.UnrecognisedYahooLink | lib/google-sheets.ts:72-78 | a link that matches neither rule is returned unchanged |
| GoogleSheets.ListingLinkFirstMatch | lib/google-sheets.ts:47-48 | in the documented listing link, the first `/auction/` match is at position 36 |
| GoogleSheets.ListingExample | lib/google-sheets.ts:47-49 | `https://page.auctions.yahoo.co.jp/jp/auction/{id}` becomes `https://buyee.jp/item/yahoo/auction/{id}?lang=en` for every id of letters and digits |
| GoogleSheets.SearchLinkNoListing | lib/google-sheets.ts:51 | the documented search link has no listing id |
| GoogleSheets.SearchLinkFirstMatch | lib/google-sheets.ts:51 | in the documented search link, the first search match is at position 28, and its query is `canon%20ae-1` |
| GoogleSheets.SearchExample | lib/google-sheets.ts:51-52 | `https://auctions.yahoo.co.jp/search/search/canon%20ae-1/0/` becomes `https://buyee.jp/item/search/query/canon%20ae-1?lang=en` |
| GoogleSheets.ApprovedRows | lib/google-sheets.ts:103 | exactly the rows whose status is exactly "Approve" |
| GoogleSheets.NormalizeRow | lib/google-sheets.ts:104-124 | every field with its fallback:<br>- id, else `String(index + 1)`;<br>- title, else "Untitled Product";<br>- description, else "A unique vintage item from Japan.";<br>- the parsed yen price, and the dollar price as its floor over 150;<br>- image, else "";<br>- the rewritten `affiliate_link`, else the rewritten `source_url`, else "";<br>- the parsed category;<br>- condition `Used`;<br>- the parsed flag |
| GoogleSheets.NormalizeRows | lib/google-sheets.ts:102-125 | never more products than rows |
| GoogleSheets.NormalizeRowsSkipsUnapproved | lib/google-sheets.ts:103 | a row that is not approved adds nothing, wherever it stands |
| GoogleSheets.NormalizeRowsAppend | lib/google-sheets.ts:102-125 | an approved row added at the end gives one more product, normalized with its position among the approved rows |
| GoogleSheets.NormalizeRowsEmpty | lib/google-sheets.ts:102-125 | no rows give no products |
| GoogleSheets.NormalizeRowsShape | lib/google-sheets.ts:102-125 | one product per approved row; every product's dollar price is the floor of its yen price over 150, and its condition is `Used` |
| GoogleSheets.FallbackIdsDistinct | lib/google-sheets.ts:114 | when no approved row has an id, the products are numbered "1", "2", … by their position among the approved rows, and so all their ids are distinct |
| GoogleSheets.GetProducts | lib/google-sheets.ts:82-132 | checked in this order: a missing sheet id is `MissingSheetId`, missing credentials are `MissingCredentials`, and a missing "Items" sheet is `SheetNotFound`; otherwise the result is the normalized rows of that sheet |
| GoogleSheets.GetProductById | lib/google-sheets.ts:135-140 | the first product with exactly this id, or `null` exactly when no product has it |
| GoogleSheets.GetFeaturedProducts | lib/google-sheets.ts:143-146 | exactly the featured products |
| GoogleSheets.FeaturedKeepsOrder | lib/google-sheets.ts:145 | the featured products keep their order, and each one keeps all its occurrences |
| GoogleSheets.HomeFeatured | app/page.tsx:12 | at most four products: the first ones of the featured list, or all of them when there are fewer than four |
| ProductFeed.CategoryStage | components/ProductFeed.tsx:21-23 | "All" keeps the list as it is; otherwise, exactly the products of the selected category |
| ProductFeed.SearchStage | components/ProductFeed.tsx:26-31 | an empty query keeps the list as it is; otherwise, exactly the products whose lower-cased title contains the lower-cased query |
| ProductFeed.VisibleProducts | components/ProductFeed.tsx:20-31 | exactly the products passing both filters |
| ProductFeed.StagesAreConjunctive | components/ProductFeed.tsx:20-31 | the category step, then the search step, give the products passing both filters, in catalog order |
| ProductFeed.FilterSamePredicate | components/ProductFeed.tsx:20-31 | two filters with tests that agree on every product give the same list |
| ProductFeed.SearchIgnoresCase | components/ProductFeed.tsx:27-29 | two queries that lower-case alike select the same products |
| ProductFeed.SearchIgnoresUpperCase | components/ProductFeed.tsx:27-29 | an upper-cased query selects the same products as the query itself |
| ProductFeed.IdNumber | components/ProductFeed.tsx:45 | `Number(id)` is the decimal value of a digit string |
| ProductFeed.Key | components/ProductFeed.tsx:34-45 | the sort key of each comparator: `priceUsd` for `price_asc`, `-priceUsd` for `price_desc`, `-Number(id)` for `newest` on a digit-string id |
| ProductFeed.Insert | components/ProductFeed.tsx:34-47 | inserting adds one element |
| ProductFeed.StableSort | components/ProductFeed.tsx:34-47 | the sort keeps the length |
| ProductFeed.InsertSplit | components/ProductFeed.tsx:34-47 | the insertion goes right after the last element whose key is not greater |
| ProductFeed.InsertMultiset | components/ProductFeed.tsx:34-47 | inserting adds exactly one occurrence of the element |
| ProductFeed.StableSortMultiset | components/ProductFeed.tsx:34-47 | the sort is a permutation of its input |
| ProductFeed.InsertSorted | components/ProductFeed.tsx:34-47 | inserting into a sorted list gives a sorted list |
| ProductFeed.SortedAppend | components/ProductFeed.tsx:34-47 | a sorted list stays sorted when an element with the greatest key is appended |
| ProductFeed.WithKeyAppend | components/ProductFeed.tsx:34-47 | appending an element adds it to the end of its own key class only |
| ProductFeed.InsertWithKey | components/ProductFeed.tsx:34-47 | inserting keeps the order of every key class, and adds the element at the end of its own |
| ProductFeed.StableSortSorted | components/ProductFeed.tsx:34-47 | the sort's result is ordered by the key |
| ProductFeed.StableSortKeepsTies | components/ProductFeed.tsx:34-47 | the sort is stable: the products with equal keys keep their input order |
| ProductFeed.ShiftGreater | components/ProductFeed.tsx:34-47 | the inner loop moves every greater-keyed element of the sorted prefix one place right and stops after the last element that is not greater; nothing else changes |
| ProductFeed.InsertInPlace | components/ProductFeed.tsx:34-47 | one pass turns the array into the insertion of element `i` into its prefix, followed by the untouched rest |
| ProductFeed.ShiftedIsInsert | components/ProductFeed.tsx:34-47 | the array after the inner loop and the final store is that insertion |
| ProductFeed.SortInPlace | components/ProductFeed.tsx:34-47 | the array ends as the stable sort of its old contents |
| ProductFeed.SortStep | components/ProductFeed.tsx:34-47 | each outer-loop turn extends the sorted prefix by one element |
| ProductFeed.SortedCopy | components/ProductFeed.tsx:18-47 | sorting the local copy in an array gives the stable sort of the list |
| ProductFeed.FilteredProducts | components/ProductFeed.tsx:17-50 | for any input list:<br>- the result is the stable sort of the visible products;<br>- it holds exactly the visible products, each as often as in the input;<br>- it is ordered by the mode: dollar price up, dollar price down, or numeric id down (the visible ids must be digit strings for "newest");<br>- ties keep their catalog order;<br>- an empty result is a normal outcome |
| ProductFeed.FeedIsPermutation | components/ProductFeed.tsx:34-47 | the sorted list is a permutation of the visible list, and every key class keeps its order |
| ProductFeed.FeedOrder | components/ProductFeed.tsx:34-45 | what each mode means: prices non-decreasing, prices non-increasing, or numeric ids non-increasing |
| ProductFeed.CatalogFeed | components/ProductFeed.tsx:18 | the component as written, on the static catalog: every mode is defined, and the result is the sorted, filtered catalog |

## Left out

- Spreadsheet and authentication I/O is not modelled: `getServiceAccountAuth`, `JWT`, `GoogleSpreadsheet`, `loadInfo` and `getRows` (lib/google-sheets.ts:8-23, 89-100). `GetProducts` takes the environment values and the sheets by title as parameters, and keeps the three checks the code itself makes.
- GetProducts: assumes `loadInfo` and `getRows` succeed. In the code they can also throw (a network failure, no permission, a wrong sheet id), and the catch at lib/google-sheets.ts:128-131 logs such an error and rethrows it; the model has no error for these.
- `GOOGLE_PRIVATE_KEY.replace(/\\n/g, "\n")` is not modelled: it turns each two-character `\n` sequence into one newline. It never turns a non-empty key into an empty one, so the credential check does not depend on it.
- React `cache`, `useState`, `useMemo` and `console.error` are framework and runtime behaviour. They are not modelled.
- JSX rendering is not modelled, and neither are price formatting, the ISR `revalidate` setting or the other pages and components.
- `trim`, `toLowerCase` and `toUpperCase` are modelled on ASCII only. Unicode white space and Unicode case mapping are not modelled.
- JavaScript numbers are floating point, so `parseInt` of a very long digit string loses precision. The model uses unbounded integers.
- ProductFeed.FilteredProducts: the "newest" mode is modelled only when every visible product's id is a digit string, which is what `IdNumber` reads. Other ids that `Number` accepts (`" 7"`, `"-3"`, `"1.5"`, `""`) are left out, and so are ids for which `Number` gives `NaN`, where the comparator is inconsistent and the JavaScript sort order is unspecified.
- The component reads the static catalog and ignores the `initialProducts` prop that app/page.tsx:111 passes it. `FilteredProducts` takes an arbitrary list, so it covers both sources; `CatalogFeed` is the static case.
- The fixture's categories and conditions are always members of their enumerations. Here this holds by construction of the `Category` and `Condition` datatypes, so no lemma states it.
- `JsArray.Filter`, `ProductFeed.Insert`, `ProductFeed.StableSort` and `GoogleSheets.NormalizeRows` state only lengths in their own contracts. Their meaning is in the lemmas listed beside them.
