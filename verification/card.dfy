/**
 * The product card (src/components/ProductCard.tsx): its selected colour, the
 * open flag of its modal, the click and key dispatch, and the modal it mounts.
 */
module Card {
  import opened Types
  import opened Dom
  import Variants
  import Modal

  /** Where a click on the card lands. */
  datatype Target = Article | Swatch(index: nat) | SwatchGroup | CartButton

  class ProductCard {
    const product: Product
    const onColorChange: ColorChangeListener?
    const doc: Document
    /** The modal is rendered beside the article at every render, so it lives as long as the card. */
    const modal: Modal.ProductModal
    var selectedColor: string
    var isModalOpen: bool

    /**
     * The modal gets the card's props, the card's open flag, and the parent's
     * own `onColorChange`: it shares no state with the card.
     */
    ghost predicate Valid()
      reads this, modal, doc
    {
      modal.doc == doc && modal.product == product &&
      modal.onColorChange == onColorChange &&
      modal.isOpen == isModalOpen && modal.Valid()
    }

    /** Mounting the card, and with it the closed modal, which takes the card's initial selection. */
    constructor (id: nat, product: Product, selectedColor: Option<string>,
                 onColorChange: ColorChangeListener?, doc: Document)
      requires doc.Valid()
      requires forall h :: h in doc.keydown ==> h.modal != id
      modifies doc
      ensures Valid() && fresh(modal)
      ensures this.product == product && this.onColorChange == onColorChange && this.doc == doc
      ensures this.selectedColor == Variants.InitialSelection(selectedColor, product.colors)
      ensures !isModalOpen
      ensures modal.selectedColor == this.selectedColor
      ensures doc.State() == old(doc.State())
    {
      var initial := Variants.InitialSelection(selectedColor, product.colors);
      this.product := product;
      this.onColorChange := onColorChange;
      this.doc := doc;
      this.selectedColor := initial;
      isModalOpen := false;
      modal := new Modal.ProductModal(id, product, Some(initial), false, onColorChange, doc);
      assert Variants.InitialSelection(Some(initial), product.colors) == initial;
    }

    /** The card's `handleColorChange`: any name is accepted, the parent is told once, the modal keeps its own. */
    method HandleColorChange(name: string)
      requires Valid()
      modifies this, modal, doc, onColorChange
      ensures Valid()
      ensures selectedColor == name && isModalOpen == old(isModalOpen)
      ensures modal.selectedColor == old(modal.selectedColor)
      ensures doc.State() == old(doc.State())
      ensures onColorChange != null ==> onColorChange.received == old(onColorChange.received) + [name]
    {
      selectedColor := name;
      if onColorChange != null {
        onColorChange.Call(name);
      }
      modal.Render(isModalOpen, selectedColor);
    }

    /** Opening: idempotent, the selection untouched; a real change acquires the document resources. */
    method HandleOpenModal()
      requires Valid()
      modifies this, modal, doc
      ensures Valid()
      ensures isModalOpen && selectedColor == old(selectedColor)
      ensures modal.selectedColor == old(modal.selectedColor)
      ensures old(isModalOpen) ==> doc.State() == old(doc.State())
      ensures !old(isModalOpen) ==>
        doc.State() == Acquired(Released(old(doc.State()), old(modal.Handler())), modal.Handler())
    {
      isModalOpen := true;
      modal.Render(isModalOpen, selectedColor);
    }

    /** Closing: idempotent, the selection untouched; a real change releases the document resources. */
    method HandleCloseModal()
      requires Valid()
      modifies this, modal, doc
      ensures Valid()
      ensures !isModalOpen && selectedColor == old(selectedColor)
      ensures modal.selectedColor == old(modal.selectedColor)
      ensures !old(isModalOpen) ==> doc.State() == old(doc.State())
      ensures old(isModalOpen) ==> doc.State() == Released(old(doc.State()), old(modal.Handler()))
    {
      isModalOpen := false;
      modal.Render(isModalOpen, selectedColor);
    }

    /**
     * A click on the card. The article opens the modal; the swatch group stops
     * propagation, so a swatch click only changes the selection; the cart
     * button stops propagation and does nothing else.
     */
    method Click(target: Target)
      requires Valid()
      requires target.Swatch? ==> target.index < |product.colors|
      requires target.SwatchGroup? ==> product.colors != []
      modifies this, modal, doc, onColorChange
      ensures Valid()
      ensures isModalOpen == (old(isModalOpen) || target.Article?)
      ensures selectedColor == if target.Swatch? then product.colors[target.index].name else old(selectedColor)
      ensures modal.selectedColor == old(modal.selectedColor)
      ensures !target.Article? || old(isModalOpen) ==> doc.State() == old(doc.State())
      ensures target.Article? && !old(isModalOpen) ==>
        doc.State() == Acquired(Released(old(doc.State()), old(modal.Handler())), modal.Handler())
      ensures onColorChange != null ==> (onColorChange.received ==
        old(onColorChange.received) + if target.Swatch? then [product.colors[target.index].name] else [])
    {
      match target
      case Article =>
        HandleOpenModal();
      case Swatch(i) =>
        HandleColorChange(product.colors[i].name);
      case SwatchGroup =>
      case CartButton =>
    }

    /** A `keydown` reaching the article: Enter or Space opens the modal, any other key does nothing. */
    method KeyDown(key: string)
      requires Valid()
      modifies this, modal, doc
      ensures Valid()
      ensures isModalOpen == (old(isModalOpen) || key == "Enter" || key == " ")
      ensures selectedColor == old(selectedColor) && modal.selectedColor == old(modal.selectedColor)
      ensures (key != "Enter" && key != " ") || old(isModalOpen) ==> doc.State() == old(doc.State())
      ensures (key == "Enter" || key == " ") && !old(isModalOpen) ==>
        doc.State() == Acquired(Released(old(doc.State()), old(modal.Handler())), modal.Handler())
    {
      if key == "Enter" || key == " " {
        HandleOpenModal();
      }
    }

    /** A click inside the open modal; closing goes through the card's `handleCloseModal`. */
    method ModalClick(target: Modal.Target)
      requires Valid() && isModalOpen
      requires target.Swatch? ==> target.index < |product.colors|
      modifies this, modal, doc, onColorChange
      ensures Valid()
      ensures selectedColor == old(selectedColor)
      ensures isModalOpen <==> target.Panel? || target.Swatch?
      ensures modal.selectedColor ==
        if target.Swatch? then product.colors[target.index].name else old(modal.selectedColor)
      ensures isModalOpen ==> doc.State() == old(doc.State())
      ensures !isModalOpen ==> doc.State() == Released(old(doc.State()), old(modal.Handler()))
      ensures onColorChange != null ==> (onColorChange.received ==
        old(onColorChange.received) + if target.Swatch? then [product.colors[target.index].name] else [])
    {
      var close := modal.Click(target);
      if close {
        HandleCloseModal();
      }
    }

    /** A `keydown` on the document: Escape closes an open modal, nothing else reacts. */
    method DocumentKeyDown(key: string)
      requires Valid()
      modifies this, modal, doc
      ensures Valid()
      ensures isModalOpen == (old(isModalOpen) && key != "Escape")
      ensures selectedColor == old(selectedColor) && modal.selectedColor == old(modal.selectedColor)
      ensures isModalOpen == old(isModalOpen) ==> doc.State() == old(doc.State())
      ensures isModalOpen != old(isModalOpen) ==> doc.State() == Released(old(doc.State()), old(modal.Handler()))
    {
      var close := modal.DocumentKeyDown(key);
      if close {
        HandleCloseModal();
      }
    }

    /** The card's `currentImage`. */
    function CurrentImage(): string
      reads this
    {
      Variants.CurrentImage(product.colors, selectedColor, product.imageUrl)
    }
  }

  /**
   * Choosing a colour on the card and then opening the modal: the card shows
   * the chosen colour, while the modal, whose selection was fixed when the
   * card mounted, still shows the gallery of the card's initial selection.
   */
  method SelectThenOpen(product: Product, external: Option<string>, name: string)
    returns (cardImage: string, gallery: seq<string>)
    ensures cardImage == Variants.CurrentImage(product.colors, name, product.imageUrl)
    ensures gallery ==
      Variants.CurrentImages(product.colors, Variants.InitialSelection(external, product.colors), product.imageUrl)
  {
    var doc := new Document("");
    var card := new ProductCard(0, product, external, null, doc);
    card.HandleColorChange(name);
    card.HandleOpenModal();
    cardImage := card.CurrentImage();
    var view := card.modal.Rendered();
    gallery := view.value.images;
  }

  /**
   * Opening and then closing a card's modal on a page whose document already
   * holds the keydown listeners `others` and the overflow `overflow`: the
   * listeners come back exactly, the overflow comes back only if it was ''.
   */
  method OpenThenClose(product: Product, others: seq<Handler>, overflow: string)
    returns (before: DocState, after: DocState)
    requires Distinct(others)
    requires forall h :: h in others ==> h.modal != 0
    ensures before == DocState(others, overflow)
    ensures after == DocState(others, "")
    ensures after == before <==> overflow == ""
  {
    var doc := new Document(overflow);
    doc.keydown := others;
    var card := new ProductCard(0, product, None, null, doc);
    before := doc.State();
    ghost var closedRun := card.modal.Handler();
    card.HandleOpenModal();
    ghost var openRun := card.modal.Handler();
    card.HandleCloseModal();
    after := doc.State();
    OpenCloseCycle(before, closedRun, openRun);
  }
}
