/** The storefront's fixed product list and the list of images it preloads (src/App.tsx). */
module Catalogue {
  import opened Types
  import Variants

  /** The `products` literal, in order. */
  function Products(): seq<Product>
  {
    [
      Product("Apple iPhone 15 Pro Max 256GB", "Китай", 34900, RUB, "./images/iphone/front.webp",
        [ColorVariant("Black Titanium", "#4B4C4C", "./images/iphone/front.webp",
           ["./images/iphone/front.webp", "./images/iphone/side.webp",
            "./images/iphone/back.webp", "./images/iphone/camera.webp"])]),
      Product("MacBook Pro 14\" M3 Pro", "USA", 34900, USD, "./images/macbook/front.webp",
        [ColorVariant("Space Black", "#1C1C1C", "./images/macbook/front.webp",
           ["./images/macbook/front.webp", "./images/macbook/side.webp",
            "./images/macbook/open.webp", "./images/macbook/detail.webp"])]),
      Product("Apple Watch Ultra 2", "Germany", 34900, EUR, "./images/watch/blue.webp",
        [ColorVariant("Titanium Ocean Blue", "#2C4B6E", "./images/watch/blue.webp",
           ["./images/watch/blue.webp", "./images/watch/natural.webp", "./images/watch/black.webp"]),
         ColorVariant("Titanium Natural", "#E3C5B5", "./images/watch/natural.webp",
           ["./images/watch/natural.webp", "./images/watch/blue.webp", "./images/watch/black.webp"]),
         ColorVariant("Titanium Black", "#1C1C1C", "./images/watch/black.webp",
           ["./images/watch/black.webp", "./images/watch/blue.webp", "./images/watch/natural.webp"])])
    ]
  }

  /** `colors.map(color => color.imageUrl)`. */
  function VariantImageUrls(colors: seq<ColorVariant>): seq<string>
  {
    seq(|colors|, i requires 0 <= i < |colors| => colors[i].imageUrl)
  }

  /** How many URLs one product contributes: its own image and one per colour. */
  function UrlCount(products: seq<Product>): nat
  {
    if products == [] then 0 else 1 + |products[0].colors| + UrlCount(products[1..])
  }

  /** The `imageUrls` flatMap: per product, its image followed by its colours' thumbnails. */
  function ImageUrls(products: seq<Product>): (r: seq<string>)
    ensures |r| == UrlCount(products)
  {
    if products == [] then []
    else [products[0].imageUrl] + VariantImageUrls(products[0].colors) + ImageUrls(products[1..])
  }

  /** The flatMap distributes over concatenation of product lists. */
  lemma {:induction false} ImageUrlsAppend(a: seq<Product>, b: seq<Product>)
    ensures ImageUrls(a + b) == ImageUrls(a) + ImageUrls(b)
  {
    if a == [] {
      assert a + b == b;
    } else {
      assert (a + b)[0] == a[0];
      assert (a + b)[1..] == a[1..] + b;
      ImageUrlsAppend(a[1..], b);
    }
  }

  /**
   * Product `k`'s block of the list starts after the blocks of the products
   * before it and holds its image, then each colour's thumbnail in order.
   */
  lemma ImageUrlsBlock(products: seq<Product>, k: nat)
    requires k < |products|
    ensures var start := UrlCount(products[..k]);
      var urls := ImageUrls(products);
      start + 1 + |products[k].colors| <= |urls| &&
      urls[start] == products[k].imageUrl &&
      forall i :: 0 <= i < |products[k].colors| ==> urls[start + 1 + i] == products[k].colors[i].imageUrl
  {
    var before, p, after := products[..k], products[k], products[k + 1..];
    assert products == before + [p] + after;
    ImageUrlsAppend(before + [p], after);
    ImageUrlsAppend(before, [p]);
    assert [p][1..] == [];
    var block := ImageUrls([p]);
    assert block == [p.imageUrl] + VariantImageUrls(p.colors);
    assert ImageUrls(products) == ImageUrls(before) + block + ImageUrls(after);
  }

  /** A URL is preloaded exactly when it is some product's image or some colour's thumbnail. */
  lemma {:induction false} ImageUrlsMembership(products: seq<Product>, url: string)
    ensures url in ImageUrls(products) <==>
      exists k :: 0 <= k < |products| &&
        (url == products[k].imageUrl || url in VariantImageUrls(products[k].colors))
  {
    if products != [] {
      ImageUrlsMembership(products[1..], url);
      if url in ImageUrls(products[1..]) {
        var k :| 0 <= k < |products[1..]| &&
          (url == products[1..][k].imageUrl || url in VariantImageUrls(products[1..][k].colors));
        assert products[k + 1] == products[1..][k];
      }
      if exists k :: 0 <= k < |products| &&
          (url == products[k].imageUrl || url in VariantImageUrls(products[k].colors)) {
        var k :| 0 <= k < |products| &&
          (url == products[k].imageUrl || url in VariantImageUrls(products[k].colors));
        if k > 0 {
          assert products[1..][k - 1] == products[k];
        }
      }
    }
  }

  /** The catalogue's list: eight URLs, duplicates kept (each product image repeats its first thumbnail). */
  lemma CatalogueImageUrls()
    ensures ImageUrls(Products()) == [
      "./images/iphone/front.webp", "./images/iphone/front.webp",
      "./images/macbook/front.webp", "./images/macbook/front.webp",
      "./images/watch/blue.webp", "./images/watch/blue.webp",
      "./images/watch/natural.webp", "./images/watch/black.webp"]
    ensures |ImageUrls(Products())| == 8
  {
    var ps := Products();
    assert ps[1..][1..][1..] == [];
  }

  /** Every product costs 34900 minor units; the currencies are RUB, USD and EUR in that order. */
  lemma CataloguePrices()
    ensures |Products()| == 3
    ensures forall k :: 0 <= k < |Products()| ==> Products()[k].price == 34900
    ensures Products()[0].currency == RUB && Products()[1].currency == USD && Products()[2].currency == EUR
  {
  }

  /**
   * Every product is consistent for the views: at least one colour, distinct
   * non-empty names, every gallery led by its thumbnail, and the product image
   * equal to the first colour's thumbnail.
   */
  predicate WellFormed(p: Product)
  {
    p.colors != [] &&
    Variants.DistinctNames(p.colors) &&
    (forall i :: 0 <= i < |p.colors| ==> p.colors[i].name != "") &&
    Variants.GalleriesLeadWithThumbnail(p.colors) &&
    p.imageUrl == p.colors[0].imageUrl
  }

  lemma CatalogueWellFormed()
    ensures forall k :: 0 <= k < |Products()| ==> WellFormed(Products()[k])
  {
    var ps := Products();
    assert WellFormed(ps[0]);
    assert WellFormed(ps[1]);
    assert Variants.DistinctNames(ps[2].colors);
    assert WellFormed(ps[2]);
  }

  /**
   * A card rendered from a well-formed product without a `selectedColor` prop
   * starts on its first colour's (non-empty) name and shows the product
   * image, and its modal opens on that colour's gallery.
   */
  lemma FirstRender(p: Product)
    requires WellFormed(p)
    ensures Variants.InitialSelection(None, p.colors) == p.colors[0].name != ""
    ensures Variants.CurrentImage(p.colors, Variants.InitialSelection(None, p.colors), p.imageUrl) == p.imageUrl
    ensures Variants.CurrentImages(p.colors, Variants.InitialSelection(None, p.colors), p.imageUrl) == p.colors[0].images
  {
    Variants.InitialSelectionShowsFirstVariant(p.colors, p.imageUrl);
  }
}
