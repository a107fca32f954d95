/** The per-card rules of the two scrapers in `seller.py`: which product cards
    become listings and what their fields hold. The page fetch and the DOM are
    not modelled; a card is given by the texts and attributes its selectors
    found. */
module Listings {
  import opened Wrappers
  import opened Normalizer

  datatype Site = Amazon | Flipkart

  /** One scraped product entry, with the six keys both scrapers write.
      `imageUrl` is `None` when the image element has no `src` (JSON null). */
  datatype Listing = Listing(
    name: string,
    price: string,
    seller: string,
    imageUrl: Option<string>,
    productUrl: string,
    source: Site)

  /** The normalised price of a listing. */
  function PriceOf(l: Listing): Price {
    CleanPrice(Some(l.price))
  }

  /** `find_with_fallbacks`: the match of the earliest selector that finds
      something. `select` stands for `element.select_one`, with a selector
      that raises mapped to `None` (the source skips it). */
  function FindWithFallbacks<S, E>(select: S -> Option<E>, selectors: seq<S>): (r: Option<E>)
    ensures r.None? <==> forall i :: 0 <= i < |selectors| ==> select(selectors[i]).None?
    ensures r.Some? ==> exists i :: 0 <= i < |selectors| && select(selectors[i]) == r
                                    && forall j :: 0 <= j < i ==> select(selectors[j]).None?
  {
    if |selectors| == 0 then None
    else if select(selectors[0]).Some? then select(selectors[0])
    else
      var r := FindWithFallbacks(select, selectors[1..]);
      assert forall i :: 1 <= i < |selectors| ==> selectors[i] == selectors[1..][i - 1];
      r
  }

  /** The seller element of an Amazon card: its text as `get_text()` gives it
      and as `get_text(strip=True)` gives it. */
  datatype SellerText = SellerText(text: string, strippedText: string)

  /** What the selectors found in one product card. `name` and `price` are
      the stripped texts; `imageSrc` and `href` are `Some(attr)` when the
      element exists, `attr` being `None` when it lacks the attribute. The
      Flipkart scraper never looks for a seller. */
  datatype Card = Card(
    name: Option<string>,
    price: Option<string>,
    seller: Option<SellerText>,
    imageSrc: Option<Option<string>>,
    href: Option<Option<string>>)

  const AmazonHome: string := "https://www.amazon.in"
  const FlipkartHome: string := "https://www.flipkart.com"
  const SoldBy: string := "Sold by"
  const SoldByPrefix: string := "Sold by "

  function Home(site: Site): string {
    match site
    case Amazon => AmazonHome
    case Flipkart => FlipkartHome
  }

  /** `pat` occurs in `s` at position `i`. */
  predicate OccursAt(s: string, pat: string, i: int) {
    0 <= i && i + |pat| <= |s| && s[i..i + |pat|] == pat
  }

  /** Python's `pat in s`. */
  predicate Contains(s: string, pat: string) {
    exists i :: 0 <= i <= |s| - |pat| && OccursAt(s, pat, i)
  }

  /** Python's `s.replace(pat, '')`: occurrences are removed left to right,
      without overlap. */
  function RemoveAll(s: string, pat: string): (r: string)
    requires |pat| > 0
    ensures |r| <= |s|
    decreases |s|
  {
    if |s| < |pat| then s
    else if s[..|pat|] == pat then RemoveAll(s[|pat|..], pat)
    else [s[0]] + RemoveAll(s[1..], pat)
  }

  /** A text without an occurrence of `pat` is left as it is. */
  lemma {:induction false} RemoveAllWithoutOccurrence(s: string, pat: string)
    requires |pat| > 0 && !Contains(s, pat)
    ensures RemoveAll(s, pat) == s
    decreases |s|
  {
    if |s| >= |pat| {
      assert !OccursAt(s, pat, 0);
      var t := s[1..];
      forall i | 0 <= i <= |t| - |pat|
        ensures !OccursAt(t, pat, i)
      {
        assert !OccursAt(s, pat, i + 1);
        assert t[i..i + |pat|] == s[i + 1..i + 1 + |pat|];
      }
      RemoveAllWithoutOccurrence(t, pat);
      assert [s[0]] + t == s;
    }
  }

  /** The `price` field: the rupee sign before the element's text, or the
      sentinel when the card has no price element. */
  function PriceField(price: Option<string>): (r: string)
    ensures price.None? ==> CleanPrice(Some(r)) == Unknown
    ensures price.Some? ==> CleanPrice(Some(r)) == CleanPrice(price)
  {
    match price
    case Some(t) =>
      RupeePrefixIgnored(t);
      [Rupee] + t
    case None => NotAvailable
  }

  /** The Amazon `seller` field: `"Amazon"` unless the element's text
      contains `"Sold by"`, and otherwise the stripped text with every
      `"Sold by "` removed. */
  function AmazonSeller(seller: Option<SellerText>): (r: string)
    ensures seller.None? || !Contains(seller.value.text, SoldBy) ==> r == "Amazon"
    ensures seller.Some? && Contains(seller.value.text, SoldBy) ==> |r| <= |seller.value.strippedText|
    ensures seller.Some? && Contains(seller.value.text, SoldBy) && !Contains(seller.value.strippedText, SoldByPrefix)
            ==> r == seller.value.strippedText
  {
    if seller.Some? && Contains(seller.value.text, SoldBy) then
      var t := seller.value.strippedText;
      assert !Contains(t, SoldByPrefix) ==> RemoveAll(t, SoldByPrefix) == t by {
        if !Contains(t, SoldByPrefix) {
          RemoveAllWithoutOccurrence(t, SoldByPrefix);
        }
      }
      RemoveAll(t, SoldByPrefix)
    else "Amazon"
  }

  function SellerField(site: Site, card: Card): string {
    match site
    case Amazon => AmazonSeller(card.seller)
    case Flipkart => "Flipkart"
  }

  function NameField(card: Card): string {
    card.name.GetOr(NotAvailable)
  }

  function ImageField(card: Card): Option<string> {
    match card.imageSrc
    case Some(src) => src
    case None => Some(NotAvailable)
  }

  function UrlField(site: Site, card: Card): string {
    if card.href.Some? && card.href.value.Some?
    then Home(site) + card.href.value.value
    else NotAvailable
  }

  /** One card: a listing when both the name and the URL differ from the
      sentinel. */
  function ToListing(site: Site, card: Card): (r: Option<Listing>)
    ensures r.Some? <==> card.name.Some? && card.name.value != NotAvailable
                         && card.href.Some? && card.href.value.Some?
    ensures r.Some? ==> r.value.source == site && r.value.name == card.name.value
    ensures r.Some? && card.price.None? ==> PriceOf(r.value) == Unknown
    ensures r.Some? && card.price.Some? ==> PriceOf(r.value) == CleanPrice(card.price)
    ensures r.Some? ==> r.value.productUrl == Home(site) + card.href.value.value
    ensures r.Some? && site == Flipkart ==> r.value.seller == "Flipkart"
    ensures r.Some? && site == Amazon ==> r.value.seller == AmazonSeller(card.seller)
    ensures r.Some? ==> r.value.imageUrl == if card.imageSrc.Some? then card.imageSrc.value else Some(NotAvailable)
  {
    var name := NameField(card);
    var url := UrlField(site, card);
    assert card.href.Some? && card.href.value.Some? ==> url != NotAvailable by {
      if card.href.Some? && card.href.value.Some? {
        assert url[0] == 'h';
      }
    }
    if name != NotAvailable && url != NotAvailable then
      Some(Listing(name, PriceField(card.price), SellerField(site, card),
                   ImageField(card), url, site))
    else None
  }

  /** The scraper's card loop: the listings of the kept cards, in card
      order. */
  function BuildListings(site: Site, cards: seq<Card>): (r: seq<Listing>)
    ensures |r| <= |cards|
    ensures forall l :: l in r ==> l.source == site && l.name != NotAvailable && l.productUrl != NotAvailable
    ensures forall k ::
              0 <= k < |cards| && ToListing(site, cards[k]).Some? ==> ToListing(site, cards[k]).value in r
    ensures forall l :: l in r ==> exists k :: 0 <= k < |cards| && ToListing(site, cards[k]) == Some(l)
  {
    if |cards| == 0 then []
    else
      var rest := BuildListings(site, cards[1..]);
      assert forall k :: 1 <= k < |cards| ==> cards[k] == cards[1..][k - 1];
      match ToListing(site, cards[0])
      case Some(l) => [l] + rest
      case None => rest
  }

  /** The rupee sign the scrapers put before a price text never changes its
      normalised value. */
  lemma {:induction false} RupeePrefixIgnored(t: string)
    ensures CleanPrice(Some([Rupee] + t)) == CleanPrice(Some(t))
  {
    assert t[..0] == [] && t[0..] == t;
    assert t[..0] + [Rupee] + t[0..] == [Rupee] + t;
    InsertMarksIgnored(t, 0, [Rupee]);
  }

  /** `pat` occurs at `i` and nowhere before. */
  predicate FirstOccursAt(s: string, pat: string, i: int) {
    OccursAt(s, pat, i) && forall j :: 0 <= j < i ==> !OccursAt(s, pat, j)
  }

  /** `replace` works leftmost first: the text before the first occurrence
      is kept, the occurrence is dropped, and the rest is processed on its
      own. With the no-occurrence case of `RemoveAll`, this determines the
      result. */
  lemma {:induction false} RemoveAllAtFirst(s: string, pat: string, i: int)
    requires |pat| > 0 && FirstOccursAt(s, pat, i)
    ensures RemoveAll(s, pat) == s[..i] + RemoveAll(s[i + |pat|..], pat)
  {
    KeepPrefix(s, pat, i);
    DropAt(s, pat, i);
  }

  /** Characters before the first occurrence are all kept. */
  lemma {:induction false} KeepPrefix(s: string, pat: string, i: int)
    requires |pat| > 0 && 0 <= i <= |s|
    requires forall j :: 0 <= j < i ==> !OccursAt(s, pat, j)
    ensures RemoveAll(s, pat) == s[..i] + RemoveAll(s[i..], pat)
  {
    if i == 0 {
      assert s[..0] + RemoveAll(s, pat) == RemoveAll(s, pat);
    } else {
      KeepPrefix(s, pat, i - 1);
      KeepOne(s, pat, i - 1);
      SnocSlice(s, i, RemoveAll(s[i..], pat));
    }
  }

  /** A character that starts no occurrence is kept. */
  lemma {:induction false} KeepOne(s: string, pat: string, k: int)
    requires |pat| > 0 && 0 <= k < |s| && !OccursAt(s, pat, k)
    ensures RemoveAll(s[k..], pat) == [s[k]] + RemoveAll(s[k + 1..], pat)
  {
    var u := s[k..];
    if |pat| <= |u| {
      assert u[..|pat|] == s[k..k + |pat|];
    }
    assert u[1..] == s[k + 1..];
    SameRemoveAll(u[1..], s[k + 1..], pat);
  }

  /** An occurrence where the rest of the text starts is dropped. */
  lemma {:induction false} DropAt(s: string, pat: string, i: int)
    requires |pat| > 0 && OccursAt(s, pat, i)
    ensures RemoveAll(s[i..], pat) == RemoveAll(s[i + |pat|..], pat)
  {
    var u := s[i..];
    assert u[..|pat|] == s[i..i + |pat|];
    assert u[|pat|..] == s[i + |pat|..];
    SameRemoveAll(u[|pat|..], s[i + |pat|..], pat);
  }

  lemma {:induction false} SameRemoveAll(x: string, y: string, pat: string)
    requires |pat| > 0 && x == y
    ensures RemoveAll(x, pat) == RemoveAll(y, pat)
  {
  }

  lemma {:induction false} SnocSlice(s: string, i: int, r: string)
    requires 0 < i <= |s|
    ensures s[..i - 1] + ([s[i - 1]] + r) == s[..i] + r
  {
    assert s[..i - 1] + [s[i - 1]] == s[..i];
  }

  /** A seller text `"Sold by " + x` yields `x` with every further
      `"Sold by "` removed, which is `x` itself when it holds none. Without
      a seller element, or without `"Sold by"` in its text, the seller is
      `"Amazon"`. */
  lemma {:induction false} AmazonSellerRule(seller: Option<SellerText>, x: string)
    ensures seller.None? || !Contains(seller.value.text, SoldBy) ==> AmazonSeller(seller) == "Amazon"
    ensures seller.Some? && Contains(seller.value.text, SoldBy) && seller.value.strippedText == SoldByPrefix + x
            ==> AmazonSeller(seller) == RemoveAll(x, SoldByPrefix)
    ensures seller.Some? && Contains(seller.value.text, SoldBy)
            && seller.value.strippedText == SoldByPrefix + x && !Contains(x, SoldByPrefix)
            ==> AmazonSeller(seller) == x
  {
    var s := SoldByPrefix + x;
    assert s[..|SoldByPrefix|] == SoldByPrefix;
    assert s[|SoldByPrefix|..] == x;
    RemoveAllAtFirst(s, SoldByPrefix, 0);
    if !Contains(x, SoldByPrefix) {
      RemoveAllWithoutOccurrence(x, SoldByPrefix);
    }
  }

  /** A doubled prefix is removed twice: `"Sold by Sold by Y"` gives
      `"Y"`. */
  lemma {:induction false} DoubledSoldBy()
    ensures AmazonSeller(Some(SellerText("Sold by Sold by Y", "Sold by Sold by Y"))) == "Y"
  {
    var t := "Sold by Sold by Y";
    assert t[..|SoldBy|] == SoldBy;
    assert OccursAt(t, SoldBy, 0);
    assert t == SoldByPrefix + (SoldByPrefix + "Y");
    AmazonSellerRule(Some(SellerText(t, t)), SoldByPrefix + "Y");
    AmazonSellerRule(Some(SellerText(SoldByPrefix + "Y", SoldByPrefix + "Y")), "Y");
    assert ("Sold by Y")[..|SoldBy|] == SoldBy;
    assert OccursAt(SoldByPrefix + "Y", SoldBy, 0);
  }

  /** The card loop handles each card on its own and keeps card order. */
  lemma {:induction false} BuildListingsAppend(site: Site, a: seq<Card>, b: seq<Card>)
    ensures BuildListings(site, a + b) == BuildListings(site, a) + BuildListings(site, b)
  {
    if |a| == 0 {
      assert a + b == b;
    } else {
      assert (a + b)[1..] == a[1..] + b;
      BuildListingsAppend(site, a[1..], b);
    }
  }
}
