/**
 * The product detail modal (src/components/ProductModal.tsx): its own colour
 * selection, its gallery, and the effect that, while the modal is open, holds
 * a document-level Escape listener and the body scroll lock.
 */
module Modal {
  import opened Types
  import opened Dom
  import Variants

  /** Where a click lands while the modal is shown. */
  datatype Target = Backdrop | Panel | CloseButton | Swatch(index: nat)

  /** What the open modal displays. */
  datatype View = View(images: seq<string>, thumbnails: bool, pressed: set<nat>)

  class ProductModal {
    /** Tells this modal's Escape handlers apart from other modals' on the same page. */
    const id: nat
    const product: Product
    const onColorChange: ColorChangeListener?
    const doc: Document
    var isOpen: bool
    var selectedColor: string
    /** Number of the latest effect run; its `handleEscape` is `Handler()`. */
    var run: nat
    var mounted: bool

    function Handler(): Handler
      reads this
    {
      EscapeHandler(id, run)
    }

    /** The listeners of this modal that the document holds. */
    function OwnHandlers(): set<Handler>
      reads this, doc
    {
      Owned(doc.keydown, id)
    }

    /** While open, exactly the latest run's handler is registered and scrolling is locked; while closed, none is. */
    ghost predicate Valid()
      reads this, doc
    {
      mounted && doc.Valid() &&
      OwnHandlers() == (if isOpen then {Handler()} else {}) &&
      (isOpen ==> doc.overflow == "hidden")
    }

    /** Mounting: the one-time state initialiser and the first effect run. */
    constructor (id: nat, product: Product, selectedColor: Option<string>, isOpen: bool,
                 onColorChange: ColorChangeListener?, doc: Document)
      requires doc.Valid()
      requires forall h :: h in doc.keydown ==> h.modal != id
      modifies doc
      ensures Valid()
      ensures this.id == id && this.product == product && this.doc == doc
      ensures this.onColorChange == onColorChange && this.isOpen == isOpen
      ensures this.selectedColor == Variants.InitialSelection(selectedColor, product.colors)
      ensures doc.State() == if isOpen then Acquired(old(doc.State()), Handler()) else old(doc.State())
    {
      this.id := id;
      this.product := product;
      this.onColorChange := onColorChange;
      this.doc := doc;
      this.isOpen := isOpen;
      this.selectedColor := Variants.InitialSelection(selectedColor, product.colors);
      run := 0;
      mounted := true;
      new;
      Effect();
    }

    /** The effect body of the current run. */
    method Effect()
      requires doc.Valid()
      modifies doc
      ensures doc.Valid()
      ensures doc.State() == if isOpen then Acquired(old(doc.State()), Handler()) else old(doc.State())
    {
      if isOpen {
        doc.AddKeydownListener(Handler());
        doc.SetOverflow("hidden");
      }
    }

    /** The cleanup of the current run: unconditional, whether or not the run acquired anything. */
    method Cleanup()
      requires doc.Valid()
      modifies doc
      ensures doc.Valid()
      ensures doc.State() == Released(old(doc.State()), Handler())
    {
      doc.RemoveKeydownListener(Handler());
      doc.SetOverflow("");
    }

    /**
     * A re-render with new `isOpen` and `selectedColor` props. The selection
     * prop only fed the state initialiser, so it is ignored here. The effect
     * depends on `isOpen` (and on `onClose`, which the card keeps stable), so a
     * change of `isOpen` runs the old cleanup and then a new effect run.
     */
    method Render(open: bool, selected: string)
      requires Valid()
      modifies this, doc
      ensures Valid()
      ensures isOpen == open && selectedColor == old(selectedColor) && mounted
      ensures open == old(isOpen) ==> run == old(run) && doc.State() == old(doc.State())
      ensures open != old(isOpen) ==> (run == old(run) + 1 &&
        doc.State() == if open then Acquired(Released(old(doc.State()), old(Handler())), Handler())
                       else Released(old(doc.State()), old(Handler())))
    {
      if open != isOpen {
        OwnedAfterUpdate(doc.keydown, Handler(), id);
        Cleanup();
        isOpen := open;
        run := run + 1;
        OwnedAfterUpdate(doc.keydown, Handler(), id);
        Effect();
      }
    }

    /** Unmounting runs the last cleanup; the modal then holds nothing of the document. */
    method Unmount()
      requires Valid()
      modifies this, doc
      ensures !mounted && OwnHandlers() == {} && doc.Valid()
      ensures doc.State() == Released(old(doc.State()), old(Handler()))
    {
      OwnedAfterUpdate(doc.keydown, Handler(), id);
      Cleanup();
      mounted := false;
    }

    /** The modal's `handleColorChange`: any name is accepted; the parent is told once. */
    method HandleColorChange(name: string)
      requires Valid()
      modifies this, onColorChange
      ensures Valid()
      ensures selectedColor == name
      ensures isOpen == old(isOpen) && run == old(run) && mounted
      ensures onColorChange != null ==> onColorChange.received == old(onColorChange.received) + [name]
    {
      selectedColor := name;
      if onColorChange != null {
        onColorChange.Call(name);
      }
    }

    /**
     * A click on the open modal. The backdrop and the close button call
     * `onClose`; the panel stops propagation, so a click inside it (a swatch
     * included) never reaches the backdrop.
     */
    method Click(target: Target) returns (closeRequested: bool)
      requires Valid() && isOpen
      requires target.Swatch? ==> target.index < |product.colors|
      modifies this, onColorChange
      ensures Valid() && isOpen && run == old(run) && mounted
      ensures closeRequested <==> target.Backdrop? || target.CloseButton?
      ensures selectedColor == if target.Swatch? then product.colors[target.index].name else old(selectedColor)
      ensures onColorChange != null ==> (onColorChange.received ==
        old(onColorChange.received) + if target.Swatch? then [product.colors[target.index].name] else [])
    {
      match target
      case Backdrop =>
        closeRequested := true;
      case CloseButton =>
        closeRequested := true;
      case Panel =>
        closeRequested := false;
      case Swatch(i) =>
        HandleColorChange(product.colors[i].name);
        closeRequested := false;
    }

    /** A `keydown` on the document: only a registered handler can react, and only to Escape. */
    method DocumentKeyDown(key: string) returns (closeRequested: bool)
      requires Valid()
      ensures closeRequested <==> key == "Escape" && isOpen
    {
      assert Handler() in doc.keydown <==> Handler() in OwnHandlers();
      closeRequested := key == "Escape" && Handler() in doc.keydown;
    }

    /** The gallery for the modal's own selection. */
    function CurrentImages(): seq<string>
      reads this
    {
      Variants.CurrentImages(product.colors, selectedColor, product.imageUrl)
    }

    /**
     * What the modal renders: nothing while closed; otherwise its gallery, the
     * thumbnail strip only for a gallery of several images, and the pressed swatches.
     */
    function Rendered(): (r: Option<View>)
      reads this
      ensures r.None? <==> !isOpen
      ensures r.Some? ==> r.value.images == CurrentImages()
      ensures r.Some? ==> (r.value.thumbnails <==> |r.value.images| > 1)
      ensures r.Some? && r.value.thumbnails ==>
        exists i :: Variants.IsFirstMatch(product.colors, selectedColor, i) && |product.colors[i].images| > 1
      ensures r.Some? && Variants.DistinctNames(product.colors) ==> |r.value.pressed| <= 1
    {
      if !isOpen then None
      else
        Variants.ThumbnailsOnlyForVariantGalleries(product.colors, selectedColor, product.imageUrl);
        assert Variants.DistinctNames(product.colors) ==>
            |Variants.PressedSwatches(product.colors, selectedColor)| <= 1 by {
          if Variants.DistinctNames(product.colors) {
            Variants.PressedSwatchIsTheMatch(product.colors, selectedColor);
          }
        }
        var images := CurrentImages();
        Some(View(images, Variants.ShowsThumbnails(images),
                  Variants.PressedSwatches(product.colors, selectedColor)))
    }
  }

  /** While a modal is open, the document holds exactly one of its Escape handlers. */
  lemma OneEscapeListenerWhileOpen(m: ProductModal)
    requires m.Valid() && m.isOpen
    ensures multiset(m.doc.keydown)[m.Handler()] == 1
    ensures forall h :: h in m.doc.keydown && h.modal == m.id ==> h == m.Handler()
  {
    assert m.Handler() in m.OwnHandlers();
    DistinctOccursOnce(m.doc.keydown, m.Handler());
    forall h | h in m.doc.keydown && h.modal == m.id ensures h == m.Handler() {
      assert h in m.OwnHandlers();
    }
  }
}
