/**
 * Colour-variant resolution shared by the card and the modal: the initial
 * selection, the `find` by name with its fallback, and what the swatches show.
 */
module Variants {
  import opened Types

  /** `i` is where `colors.find(c => c.name === name)` stops: the first variant so named. */
  predicate IsFirstMatch(colors: seq<ColorVariant>, name: string, i: int)
  {
    0 <= i < |colors| && colors[i].name == name &&
    forall j :: 0 <= j < i ==> colors[j].name != name
  }

  /** No variant carries `name`, so `find` yields undefined. */
  predicate NoMatch(colors: seq<ColorVariant>, name: string)
  {
    forall i :: 0 <= i < |colors| ==> colors[i].name != name
  }

  /** Colour names are pairwise different, so lookup by name is unambiguous. */
  predicate DistinctNames(colors: seq<ColorVariant>)
  {
    forall i, j :: 0 <= i < j < |colors| ==> colors[i].name != colors[j].name
  }

  /** Every gallery is non-empty and opens with the variant's own thumbnail. */
  predicate GalleriesLeadWithThumbnail(colors: seq<ColorVariant>)
  {
    forall i :: 0 <= i < |colors| ==> |colors[i].images| > 0 && colors[i].images[0] == colors[i].imageUrl
  }

  /** The linear scan of `Array.prototype.find`, returning the index it stops at. */
  function FirstMatch(colors: seq<ColorVariant>, name: string): (r: Option<nat>)
    ensures r.Some? ==> IsFirstMatch(colors, name, r.value)
    ensures r.None? ==> NoMatch(colors, name)
  {
    if colors == [] then None
    else if colors[0].name == name then Some(0)
    else match FirstMatch(colors[1..], name)
      case None => None
      case Some(i) => Some(i + 1)
  }

  /** The card's `currentImage`: the matching variant's thumbnail, else the product image. */
  function CurrentImage(colors: seq<ColorVariant>, selected: string, fallback: string): (r: string)
    ensures NoMatch(colors, selected) ==> r == fallback
    ensures forall i :: IsFirstMatch(colors, selected, i) ==> r == colors[i].imageUrl
  {
    match FirstMatch(colors, selected)
    case None => fallback
    case Some(i) =>
      assert forall k :: IsFirstMatch(colors, selected, k) ==> k == i;
      colors[i].imageUrl
  }

  /**
   * The modal's `currentImages`: the matching variant's gallery, else the
   * one-element list of the product image. A matching variant with an empty
   * gallery yields the empty list (`??` only replaces undefined).
   */
  function CurrentImages(colors: seq<ColorVariant>, selected: string, fallback: string): (r: seq<string>)
    ensures NoMatch(colors, selected) ==> r == [fallback]
    ensures forall i :: IsFirstMatch(colors, selected, i) ==> r == colors[i].images
  {
    match FirstMatch(colors, selected)
    case None => [fallback]
    case Some(i) =>
      assert forall k :: IsFirstMatch(colors, selected, k) ==> k == i;
      colors[i].images
  }

  /** `external ?? colors[0]?.name ?? ''`: an explicitly given name, even '', wins. */
  function InitialSelection(external: Option<string>, colors: seq<ColorVariant>): string
  {
    match external
    case Some(name) => name
    case None => if colors == [] then "" else colors[0].name
  }

  /**
   * Indices of the swatches rendered with `aria-pressed` true: those whose
   * name equals the selection. With distinct names this is the index `find`
   * stops at, or none when nothing matches.
   */
  function PressedSwatches(colors: seq<ColorVariant>, selected: string): (r: set<nat>)
    ensures DistinctNames(colors) ==>
      r == if FirstMatch(colors, selected).Some? then {FirstMatch(colors, selected).value} else {}
  {
    var pressed := set i: nat | i < |colors| && colors[i].name == selected;
    assert DistinctNames(colors) ==>
        pressed == if FirstMatch(colors, selected).Some? then {FirstMatch(colors, selected).value} else {} by {
      if DistinctNames(colors) && FirstMatch(colors, selected).Some? {
        var i := FirstMatch(colors, selected).value;
        assert i in pressed;
        assert pressed == {i};
      }
    }
    pressed
  }

  /** The thumbnail strip is rendered only for a gallery of two or more images. */
  predicate ShowsThumbnails(images: seq<string>)
  {
    |images| > 1
  }

  /** With distinct names, the variant called `selected` is the one both views show. */
  lemma DistinctLookup(colors: seq<ColorVariant>, selected: string, fallback: string, i: nat)
    requires DistinctNames(colors)
    requires i < |colors| && colors[i].name == selected
    ensures CurrentImage(colors, selected, fallback) == colors[i].imageUrl
    ensures CurrentImages(colors, selected, fallback) == colors[i].images
  {
    assert IsFirstMatch(colors, selected, i);
  }

  /**
   * With distinct names at most one swatch is pressed: exactly the one `find`
   * picks, and none when the selection names no variant.
   */
  lemma PressedSwatchIsTheMatch(colors: seq<ColorVariant>, selected: string)
    requires DistinctNames(colors)
    ensures NoMatch(colors, selected) <==> PressedSwatches(colors, selected) == {}
    ensures forall i :: IsFirstMatch(colors, selected, i) ==> PressedSwatches(colors, selected) == {i}
    ensures |PressedSwatches(colors, selected)| <= 1
  {
    var p := PressedSwatches(colors, selected);
    match FirstMatch(colors, selected)
    case None =>
      assert p == {};
    case Some(i) =>
      assert i in p;
      assert p == {i};
      forall k | IsFirstMatch(colors, selected, k) ensures p == {k} {
        assert k == i;
      }
  }

  /** The fallback gallery holds one image, so thumbnails imply a matched variant with a larger gallery. */
  lemma ThumbnailsOnlyForVariantGalleries(colors: seq<ColorVariant>, selected: string, fallback: string)
    ensures ShowsThumbnails(CurrentImages(colors, selected, fallback)) ==>
      exists i :: IsFirstMatch(colors, selected, i) && |colors[i].images| > 1
  {
    match FirstMatch(colors, selected)
    case None =>
    case Some(i) =>
      assert IsFirstMatch(colors, selected, i);
  }

  /** Without an external selection, both views open on the first variant. */
  lemma InitialSelectionShowsFirstVariant(colors: seq<ColorVariant>, fallback: string)
    requires colors != []
    ensures CurrentImage(colors, InitialSelection(None, colors), fallback) == colors[0].imageUrl
    ensures CurrentImages(colors, InitialSelection(None, colors), fallback) == colors[0].images
  {
    assert IsFirstMatch(colors, colors[0].name, 0);
  }

  /** When galleries lead with their thumbnail, the card's image is the modal's first slide. */
  lemma CardImageLeadsModalGallery(colors: seq<ColorVariant>, selected: string, fallback: string)
    requires GalleriesLeadWithThumbnail(colors)
    ensures |CurrentImages(colors, selected, fallback)| > 0
    ensures CurrentImages(colors, selected, fallback)[0] == CurrentImage(colors, selected, fallback)
  {
    match FirstMatch(colors, selected)
    case None =>
    case Some(i) =>
      assert IsFirstMatch(colors, selected, i);
  }
}
