# Seller price comparison — a Dafny model

This project models the pure logic of a two-site product price comparer. A scraper turns each product card of an Amazon or Flipkart search page into a listing. A price cleaner turns scraped price texts into numbers. A matcher pairs each Amazon listing with its most similar remaining Flipkart listing and says which site is cheaper. Finally, each site's listings are sorted by price.

The modules follow the program's structure:

| module | file | models |
|---|---|---|
| `Wrappers` | `wrappers.dfy` | `Option`, standing for Python's `None` |
| `Normalizer` | `normalizer.dfy` | `clean_price`: mark deletion, `str.strip()`, a decimal parser and the unknown (infinite) price |
| `Listings` | `listings.dfy` | `find_with_fallbacks` and the per-card field and filter rules of both scrapers |
| `Keywords` | `keywords.dfy` | `get_keywords`: the maximal runs of word characters of the lower-cased name |
| `Similarity` | `similarity.dfy` | the Jaccard index of two keyword sets |
| `Matcher` | `matcher.dfy` | `compare_products` as a recursive function, plus a loop-shaped method that follows the source and is proved equal to it |
| `PriceOrder` | `ordering.dfy` | the stable sort of each result list by cleaned price |

Prices are `Known(amount)` with an exact `real` amount, or `Unknown` for Python's `float('inf')`.

The matcher keeps the Flipkart pool as a sequence of positions in the Flipkart input. This lets "no Flipkart listing is matched twice" be stated by position even when two listings are equal. `Matcher.CompareProductsLoop` shows that the source's actual pool works the same way. That pool is a copy of the Flipkart list, from which `list.remove` drops the matched dictionary.

## Model

| member | source | states |
|---|---|---|
| Normalizer.CleanPrice | seller.py:166-174 | A missing (non-string) value and the text `"N/A"` clean to an unknown price. A known price comes only from a text containing a digit. |
| Normalizer.DeleteMarks | seller.py:170 | No `₹`, `,` or ASCII letter survives the deletion, and the result is never longer than the input. |
| Normalizer.NoMarksUnchanged | seller.py:170 | A text without marks is left unchanged by the deletion. |
| Normalizer.DeleteMarksAppend | seller.py:170 | The deletion works character by character, so it distributes over concatenation. |
| Normalizer.Strip | seller.py:170 | `strip()` keeps a contiguous slice of its input, removes only white space around it, and leaves no space at either end. |
| Normalizer.StripIgnoresSurroundingSpace | seller.py:170 | White space before and after a text does not change what `strip()` leaves. |
| Normalizer.ParseDecimal | seller.py:172 | A successful parse means the text has a digit and uses only digits, `.`, `+` and `-`. A plain digit string parses to the number it writes. |
| Normalizer.ParseUnsignedAccepts | seller.py:172 | An unsigned text parses exactly when it is a non-empty digit string, or digits, one `.` and digits with at least one digit in all. |
| Normalizer.ParseDecimalAccepts | seller.py:172 | A text parses exactly when it is an unsigned decimal, optionally preceded by one `+` or `-`. |
| Normalizer.UnsignedPointValue | seller.py:172 | `ds + "." + fs` parses to the value of `ds` plus the value of `fs` over ten to the length of `fs`, so `"12."` is 12 and `".5"` is 0.5. |
| Normalizer.SignedValue | seller.py:172 | A leading `-` negates the value and parses exactly when the rest does. A leading `+` changes nothing. |
| Normalizer.DecimalIsKnown | seller.py:170-172 | A price text of digits, a `.` and digits cleans to its decimal value. |
| Normalizer.DecimalExamples | seller.py:170-172 | `"₹99.50"` cleans to 99.5 and `"₹1,299."` to 1299. |
| Normalizer.NormaliseText | seller.py:170-174 | A text whose cleaned form does not parse becomes unknown, so cleaning never fails. A known result implies the input held a digit. |
| Normalizer.DigitSurvives | seller.py:170-172 | Any text that parses after deletion and stripping contained a digit to begin with. |
| Normalizer.SentinelIsRedundant | seller.py:168-174 | The `"N/A"` guard never changes the outcome, because the sentinel would clean to unknown anyway. |
| Normalizer.NoDigitIsUnknown | seller.py:170-174 | A text without a digit cleans to an unknown price. |
| Normalizer.MarksAreIgnored | seller.py:170 | Two texts that are equal once marks are deleted clean to the same price. |
| Normalizer.InsertMarksIgnored | seller.py:170 | Inserting any run of `₹`, `,` and ASCII letters at any position never changes the cleaned price. |
| Normalizer.SurroundingSpaceIgnored | seller.py:170 | Leading and trailing white space never changes the cleaned price. |
| Normalizer.NumeralRoundTrip | seller.py:172 | Reading a printed decimal numeral back gives the number it was printed from. |
| Normalizer.DigitsAreKnown | seller.py:170-172 | A non-empty digit string cleans to the number it writes. |
| Normalizer.RupeeNumeralIsKnown | seller.py:170-172 | `"₹"` followed by the numeral of `n` cleans to `n`. |
| Normalizer.GroupedRupeeAmount | seller.py:170-172 | A rupee amount with a thousands comma inserted at any position still cleans to the amount. |
| Normalizer.CleanPriceExamples | test_seller.py:43-52 | `"₹12,999"` cleans to 12999, `"₹1,200"` to 1200 and `" ₹ 450 "` to 450. `"N/A"`, `None` and `"not-a-price"` clean to unknown. |
| Normalizer.NotAPrice | test_seller.py:52 | `"not-a-price"` cleans to unknown. |
| Listings.FindWithFallbacks | seller.py:60-69 | The result is `None` exactly when no selector finds anything. Otherwise it is the match of the earliest selector that finds something. |
| Listings.RemoveAll | seller.py:99 | `str.replace(pat, '')` never lengthens the text. |
| Listings.RemoveAllWithoutOccurrence | seller.py:99 | A text without `pat` is left unchanged. |
| Listings.RemoveAllAtFirst | seller.py:99 | Removal works leftmost first: the text before the first occurrence of `pat` is kept, that occurrence is dropped, and the rest is processed on its own. |
| Listings.KeepPrefix | seller.py:99 | When no occurrence of `pat` starts among the first `i` characters, those characters are kept, in order, ahead of the rest's result. |
| Listings.PriceField | seller.py:98 | The price field cleans to the element's text's price. It cleans to unknown when the card has no price element. |
| Listings.RupeePrefixIgnored | seller.py:98 | The `₹` the scrapers put before a price text never changes its cleaned value. |
| Listings.AmazonSeller | seller.py:99 | Without a seller element, or without `"Sold by"` in its text, the seller is `"Amazon"`. Otherwise it is no longer than the stripped text, and it is that text itself when the text holds no `"Sold by "`. |
| Listings.AmazonSellerRule | seller.py:99 | Without a seller element, or without `"Sold by"` in its text, the seller is `"Amazon"`. For a stripped text `"Sold by " + x` it is `x` with every further `"Sold by "` removed, so it is `x` itself when `x` holds none. |
| Listings.DoubledSoldBy | seller.py:99 | `"Sold by Sold by Y"` gives the seller `"Y"`: every occurrence of the prefix is removed, not only the first. |
| Listings.ToListing | seller.py:97-111 | A card becomes a listing exactly when it has a name other than `"N/A"` and a link with an `href`. It then carries the site, the name, the home-prefixed URL, the site's seller rule (`"Flipkart"` for Flipkart), the image rule and a price that is unknown when missing. |
| Listings.BuildListings | seller.py:137-157 | The kept listings are exactly the listings of the cards that yield one. All of them carry the site, a real name and a real URL, and there are at most as many listings as cards. |
| Listings.BuildListingsAppend | seller.py:138-157 | Each card is handled on its own and card order is kept: the listings of `a + b` are those of `a` followed by those of `b`. |
| Keywords.KeywordSet | app.py:9-11 | Every keyword is a non-empty string of word characters. A name without word characters has no keywords. |
| Keywords.RunsFromSound | app.py:11 | Every word that `findall` reports is a maximal run of word characters. |
| Keywords.RunsFromComplete | app.py:11 | Every maximal run of word characters is reported. |
| Keywords.KeywordsAreMaximalRuns | app.py:9-11 | A word is a keyword exactly when it is a maximal run of word characters of the lower-cased name. |
| Keywords.KeywordShape | app.py:9-11 | Keywords are non-empty, consist of word characters only, and hold no upper-case letter. |
| Similarity.Jaccard | app.py:27-29 | The similarity lies in [0, 1]. It is 0 exactly when the keyword sets share nothing, including when both are empty. |
| Similarity.JaccardSymmetric | app.py:27-29 | Similarity does not depend on argument order. |
| Similarity.JaccardSelf | app.py:27-29 | A non-empty keyword set has similarity 1 with itself. |
| Similarity.AboveFifthIff | app.py:29-35 | Similarity above 0.2 holds exactly when five times the number of shared keywords exceeds the number of all keywords. |
| Matcher.Sim | app.py:26-29 | Listing similarity is in [0, 1] and is 0 exactly when the names share no keyword. |
| Matcher.BestMatchUnique | app.py:21-33 | At most one pool position is the best match: above 0, not beaten by any candidate, and strictly above every earlier one. |
| Matcher.BestMatch | app.py:21-33 | The scan keeps the best match and its score. When it keeps nothing, every candidate scores 0 and the score stays 0.0. |
| Matcher.BestMatchFindsBest | app.py:21-33 | The scan keeps position `k` exactly when `k` is the best match. |
| Matcher.ScanBest | app.py:21-33 | The inner loop ends with the best match and its similarity, or with `None` and 0.0. |
| Matcher.BestDeal | app.py:40-44 | Amazon wins exactly when its price is strictly lower, and Flipkart exactly when its price is strictly lower. The result is "same price" exactly when the prices are equal. |
| Matcher.BestDealMirror | app.py:40-44 | Exchanging the two prices exchanges the winner. |
| Matcher.DealLabel | app.py:40-44 | The verdict text is `"Amazon"`, `"Flipkart"` or `"Both have the same price"`, each exactly for its own verdict. |
| Matcher.DealLabelsDistinct | app.py:40-44 | The three verdict texts are pairwise different. |
| Matcher.Compare | app.py:36-51 | A pair yields a comparison exactly when both prices are known. The comparison names the two listings, and its difference is non-negative and zero exactly for "same price". |
| Matcher.DifferenceSettlesDeal | app.py:40-49 | The cheaper price plus the difference is the dearer price. For "same price" the prices are equal and the difference is 0. |
| Matcher.MatchOne | app.py:35-51 | A match is always the best candidate, scores above 0.2 and has both prices known. |
| Matcher.MatchOneEmitsIff | app.py:35-39 | A comparison is emitted exactly when the best candidate scores above 0.2 and both prices are known. |
| Matcher.NextPool | app.py:52 | The next pool is valid and shrinks by one exactly when a comparison was emitted. It holds only positions of the current pool and never the matched one. |
| Matcher.NextPoolDropsOnlyTheMatch | app.py:18-52 | A position stays available exactly when it was available and was not just matched, so a rejected candidate stays available. |
| Matcher.MatchFrom | app.py:20-52 | The outer loop emits matches in increasing Amazon order and never uses a Flipkart position twice. It draws only from the pool and emits at most one match per remaining listing. |
| Matcher.MatchFromSound | app.py:20-52 | Every emitted match pairs listings whose similarity is above 0.2 and carries their comparison. |
| Matcher.MatchPairs | app.py:13-54 | The matches number at most the size of either input. Amazon positions strictly increase, Flipkart positions are pairwise distinct, and every match is sound. |
| Matcher.CompareProducts | app.py:13-54 | The output has at most as many entries as the shorter input and is empty when either input is. Each entry pairs an element of each input whose similarity is above 0.2 and whose comparison it is. |
| Matcher.SoundComparisons | app.py:46-51 | The comparisons of sound matches pair input listings that are similar enough and both priced. |
| Matcher.OnePairStep | app.py:25-52 | One item against a pool of one is matched exactly when their similarity is above 0.2 and both prices are known. |
| Matcher.OnePairItems | app.py:13-54 | With one listing on each side, the result is their comparison when their similarity is above 0.2 and both prices are known, and empty otherwise. |
| Matcher.RemoveFirst | app.py:52 | `list.remove(x)` drops exactly one copy of `x`. |
| Matcher.RemoveFirstIsRemoveAt | app.py:52 | When no earlier element equals `s[k]`, removing the first copy of `s[k]` removes position `k`. |
| Matcher.RemoveBestMatch | app.py:31-52 | Thanks to the strict tie-break, `list.remove` on the kept candidate removes exactly the best-match position. |
| Matcher.CompareProductsLoop | app.py:13-54 | The source loop computes exactly `CompareProducts`. It scans a copy of the Flipkart list, keeps the first strictly best candidate and removes it with `list.remove`. |
| PriceOrder.BelowIsStrictTotalOrder | app.py:77-78 | The sort key order is a strict total order in which every known price is below unknown. |
| PriceOrder.Insert | app.py:77-78 | Inserting into a sorted list keeps it sorted, adds exactly the one element, and appends it to the elements of its own price. |
| PriceOrder.SortBy | app.py:77-78 | The result is sorted, is a permutation of the input, and keeps the input order among elements of equal key. |
| PriceOrder.SortByPrice | app.py:77-78 | The sort is a permutation with known prices non-decreasing, unknown prices after all known ones, and equal prices in input order. |
| PriceOrder.SortedFiltersDetermine | app.py:77-78 | Two sorted lists that hold the same elements of every price, in the same order, are equal. |
| PriceOrder.SortByPriceUnique | app.py:77-78 | Any price-ordered arrangement that keeps equal prices in input order is the sort's result. |
| PriceOrder.MissingPriceDefault | app.py:77 | The default key text `'inf'` of a listing without a price cleans to unknown. |

## Left out

- Browser automation, page fetching, waits, screenshots and DOM queries are not modelled. A card is given by the texts and attributes its selectors found. A selector that raises is treated as one that finds nothing.
- The HTTP routes, the 400 response and the two-worker thread pool are not modelled.
- Floating-point rounding is not modelled. Prices and differences are exact rationals.
- Normalizer.ParseDecimal: accepts only an optional sign, ASCII digits and at most one `.`, with at least one digit. Python's `float()` also accepts underscores between digits and non-ASCII decimal digits. The `inf`, `nan` and exponent spellings cannot reach the parser, because the mark deletion removes every ASCII letter.
- Normalizer.CleanPrice: a numeral beyond the double range (about 1.8 × 10^308) makes Python's `float()` return infinity, so the source treats it as an unknown price. The model gives its exact value.
- Keywords.KeywordSet: word characters and lower-casing are over ASCII only. Python's `\w` and `str.lower()` follow Unicode.
- Matcher.Compare: `priceDifference` is the exact magnitude of the price gap. The source formats it as a string: a three-character prefix (a mis-encoded rupee sign), thousands separators and two decimals. That text is not modelled.
- A listing without a `name` key would raise `KeyError` in `compare_products`. Every modelled listing has a name, so this case does not arise.
- `compare_products` tests `best_match` for truth. A scraped listing is a non-empty dictionary, so the test is the same as "a candidate was kept", and it is modelled that way.
- Listings are not de-duplicated by product URL, because the code has no such step.
- The sort key `x.get('price', 'inf')` reaches its default only for a listing without a price. Both scrapers always write one, so the model sorts by the listing's price. `PriceOrder.MissingPriceDefault` shows that the default would sort last.
- The matcher computes each listing's keywords and cleaned price once, in `Matcher.Prepare`, rather than on every comparison. Both are pure, so the results are the same.
- The mocked scraper tests only check that the scrapers return lists, and are not modelled.
