# Storefront product card, product modal, catalogue and image script — a Dafny model

The storefront shows a grid of product cards built from a fixed product list.
Each card keeps a selected colour and an "is the detail modal open" flag.
It shows the thumbnail of the selected colour variant and opens a modal on a
click or on Enter/Space. The modal keeps its own colour selection and shows
that colour's gallery. While it is open, it holds a document-level Escape
listener and locks body scrolling. A separate build script walks an image
directory depth-first and converts every `.jpg`/`.jpeg`/`.png` file to
`.webp`. It deletes an original only once its WebP has been written.

The model has seven modules:

- `Types` (`types.dfy`): the product and colour-variant records and the three currencies.
- `Variants` (`variants.dfy`): the lookups both components share, as pure functions:
  - the initial selection;
  - the first variant with a given name and the fallback when there is none;
  - the pressed swatches;
  - when the thumbnail strip is shown.
- `Dom` (`dom.dfy`): the part of the browser document the modal touches, as a class:
  - the list of `keydown` listeners, where adding a listener twice has no effect;
  - `body.style.overflow`.

  It also holds the parent's optional `onColorChange` callback, as an object that records what it receives. The effect's acquire and release steps are also given as pure functions on a document value.
- `Modal` (`modal.dfy`): the modal as a class. Its fields are the state (`isOpen`, `selectedColor`) and the number of the latest effect run. Each run of the effect creates a new `handleEscape` closure, so a listener is identified by the modal and the run.
- `Card` (`card.dfy`): the card as a class that owns its modal. The modal is rendered beside the article at every render, so it is mounted once, together with the card.
- `Catalogue` (`catalogue.dfy`): the literal product list and the preload URL list.
- `ImageOptimizer` (`image_optimizer.dfy`): the image script:
  - the output-path rewrite and the file-name test;
  - the directory walk over an abstract tree;
  - the file-system changes, as a journal of writes and deletes.

  The result of each conversion is an input: converted, write failed, or delete failed.

Two behaviours of the code are modelled as written, and proved as such:

- The modal's selection is initialised once, at mount. Later selections on the card never reach it. `Card.SelectThenOpen` shows that after choosing a colour on the card and then opening the modal, the modal shows the gallery of the card's *initial* selection.
- The effect cleanup sets `overflow` to `''` whatever it was before. It resets the value rather than restoring it. `Dom.OpenCloseCycle` and `Card.OpenThenClose` prove that an open/close cycle gives back the listeners exactly, but gives back the overflow value only when it was `''`.

## Model

| member | source | states |
|---|---|---|
| Variants.FirstMatch | src/components/ProductCard.tsx:41 | the index found is the first variant with that name; no index means no variant has that name |
| Variants.CurrentImage | src/components/ProductCard.tsx:41 | the card image is the thumbnail of the first variant named like the selection, else the product image (so always the product image when there are no colours) |
| Variants.CurrentImages | src/components/ProductModal.tsx:33-36 | the gallery is the first matching variant's `images`, else exactly `[imageUrl]` (so always that when there are no colours) |
| Variants.PressedSwatches | src/components/ProductCard.tsx:114 | with distinct names, the pressed swatches are exactly the index `find` stops at, and none when no variant matches |
| Variants.DistinctLookup | src/components/ProductCard.tsx:41 | with distinct names, the variant carrying the selected name is the one both the card and the modal show |
| Variants.PressedSwatchIsTheMatch | src/components/ProductCard.tsx:103-117 | with distinct names, at most one swatch is pressed; it is the variant `find` picks, and none is pressed when the selection names no variant |
| Variants.ThumbnailsOnlyForVariantGalleries | src/components/ProductModal.tsx:121 | a thumbnail strip implies that a variant matched and that its gallery has more than one image |
| Variants.InitialSelectionShowsFirstVariant | src/components/ProductModal.tsx:30 | without a given selection, both views open on the first colour's thumbnail and gallery |
| Variants.CardImageLeadsModalGallery | src/components/ProductModal.tsx:33-36 | when galleries lead with their thumbnail, the modal's gallery is non-empty and its first image is the card's image |
| Dom.With | src/components/ProductModal.tsx:44 | the handler is registered afterwards and nothing else is added; no listener is ever registered twice |
| Dom.Without | src/components/ProductModal.tsx:49 | exactly that handler is gone, the others stay; removing an absent handler changes nothing |
| Dom.Acquired | src/components/ProductModal.tsx:43-46 | after the effect of an open modal, its handler is registered and overflow is `'hidden'` |
| Dom.Released | src/components/ProductModal.tsx:48-51 | after the cleanup, that handler is gone, every other listener stays, and overflow is `''` |
| Dom.OpenCloseCycle | src/components/ProductModal.tsx:43-51 | a cleanup / open / cleanup cycle gives back exactly the listeners, and gives back the whole document state exactly when overflow was `''` |
| Dom.Document.AddKeydownListener | src/components/ProductModal.tsx:44 | the listener list becomes `With` of the old one; overflow is unchanged |
| Dom.Document.RemoveKeydownListener | src/components/ProductModal.tsx:49 | the listener list becomes `Without` of the old one; overflow is unchanged |
| Dom.Document.SetOverflow | src/components/ProductModal.tsx:50 | overflow takes the value; listeners are unchanged |
| Dom.ColorChangeListener.Call | src/components/ProductCard.tsx:30 | the callback receives the name once more, after the earlier ones |
| Modal.ProductModal.constructor | src/components/ProductModal.tsx:30-52 | at mount, the selection is the prop, else the first colour's name, else `''`; the first effect run acquires the document only if the modal is open |
| Modal.ProductModal.Effect | src/components/ProductModal.tsx:43-46 | the document becomes `Acquired` when open and is unchanged when closed |
| Modal.ProductModal.Cleanup | src/components/ProductModal.tsx:48-51 | the document becomes `Released` for this run's handler, whether or not the run acquired anything |
| Modal.ProductModal.Render | src/components/ProductModal.tsx:38-52 | a new `selectedColor` prop never changes the modal's selection; the same `isOpen` changes nothing; a changed `isOpen` runs the old cleanup and then a new effect run; the invariant is kept: exactly the latest run's handler while open, none while closed, and a locked page while open |
| Modal.ProductModal.Unmount | src/components/ProductModal.tsx:48-51 | the last cleanup leaves no listener of this modal registered |
| Modal.ProductModal.HandleColorChange | src/components/ProductModal.tsx:62-65 | any name becomes the selection without validation; the callback, when present, gets it once; the open state and document are untouched |
| Modal.ProductModal.Click | src/components/ProductModal.tsx:72-86 | a click on the backdrop or the close button requests closing; a click in the panel, a swatch included, does not; a swatch click selects that swatch's name |
| Modal.ProductModal.DocumentKeyDown | src/components/ProductModal.tsx:39-41 | closing is requested exactly for Escape while the modal is open (only then is its handler registered) |
| Modal.ProductModal.Rendered | src/components/ProductModal.tsx:69-121 | nothing is rendered exactly when closed; when open, the gallery is `CurrentImages`, the thumbnail strip appears iff it has more than one image and then belongs to a matched variant, and with distinct names at most one swatch is pressed |
| Modal.OneEscapeListenerWhileOpen | src/components/ProductModal.tsx:43-46 | while open, the document holds exactly one copy of the modal's Escape listener and no other listener of that modal |
| Card.ProductCard.constructor | src/components/ProductCard.tsx:17-18 | the selection is the given one, else the first colour's name, else `''`; the modal starts closed with the same selection; the document is unchanged |
| Card.ProductCard.HandleColorChange | src/components/ProductCard.tsx:28-31 | any name becomes the card's selection; the callback, when present, gets it exactly once; the modal's selection, the open flag and the document are unchanged |
| Card.ProductCard.HandleOpenModal | src/components/ProductCard.tsx:33-35 | the modal is open afterwards; opening twice changes nothing the second time; the selection is unchanged |
| Card.ProductCard.HandleCloseModal | src/components/ProductCard.tsx:37-39 | the modal is closed afterwards; closing twice changes nothing the second time; the selection is unchanged; a real close releases the document |
| Card.ProductCard.Click | src/components/ProductCard.tsx:53-147 | only the article opens the modal, and opening a closed modal acquires the document exactly as the effect does (other listeners survive); a swatch click only changes the selection and tells the callback once; clicks on the swatch group or the cart button change nothing |
| Card.ProductCard.KeyDown | src/components/ProductCard.tsx:56-61 | Enter or Space opens the modal, and on a closed card acquires the document exactly as the effect does; any other key changes nothing |
| Card.ProductCard.ModalClick | src/components/ProductCard.tsx:155-160 | a choice in the modal changes the modal's selection and never the card's, and the parent's callback gets the chosen name once (nothing otherwise); backdrop and close button close the card's modal and release the document |
| Card.ProductCard.DocumentKeyDown | src/components/ProductCard.tsx:158 | Escape closes an open modal and releases the document; other keys change nothing |
| Card.SelectThenOpen | src/components/ProductCard.tsx:155-160 | after a card selection followed by opening, the card shows the chosen colour while the modal shows the gallery of the initial selection |
| Card.OpenThenClose | src/components/ProductModal.tsx:43-51 | opening and closing on a page with other listeners gives those listeners back and leaves overflow `''`, equal to the state before only if it was `''` |
| Catalogue.ImageUrls | src/App.tsx:16-19 | the list length is the sum over products of one plus the number of colours |
| Catalogue.ImageUrlsBlock | src/App.tsx:16-19 | product `k`'s block starts after the earlier products' blocks and holds its image followed by each colour's thumbnail in order |
| Catalogue.ImageUrlsMembership | src/App.tsx:16-19 | a URL is in the list iff it is some product's image or some colour's thumbnail |
| Catalogue.CatalogueImageUrls | src/App.tsx:16-19 | for this catalogue the list is the given eight URLs, duplicates kept |
| Catalogue.CataloguePrices | src/App.tsx:28-69 | three products, each priced 34900 minor units, in RUB, USD and EUR in that order |
| Catalogue.CatalogueWellFormed | src/App.tsx:24-104 | every product has colours, distinct non-empty names, galleries that lead with their thumbnail, and a product image equal to its first colour's thumbnail |
| Catalogue.FirstRender | src/App.tsx:118-119 | a card rendered from a well-formed product without a selection starts on a non-empty name, shows the product image, and its modal opens on the first colour's gallery |
| ImageOptimizer.ExtensionLength | scripts/optimize-images.js:14 | the matched suffix has length 5 for `.jpeg`, 4 for `.jpg`/`.png` and 0 when there is no match; the alternatives exclude each other |
| ImageOptimizer.RewriteReplacesExtension | scripts/optimize-images.js:14 | a stem followed by a matching extension in any letter case becomes the same stem followed by `.webp` |
| ImageOptimizer.RewriteIdempotent | scripts/optimize-images.js:14 | the output never matches the pattern, so rewriting it again changes nothing |
| ImageOptimizer.RewriteExamples | scripts/optimize-images.js:14 | `a.png.jpg` becomes `a.png.webp`, `photo.JPEG` becomes `photo.webp`, and `cat.webp` stays unchanged |
| ImageOptimizer.JoinKeepsExtension | scripts/optimize-images.js:37-42 | testing the entry name and testing its full path give the same answer |
| ImageOptimizer.ImagePaths | scripts/optimize-images.js:41 | a path is kept iff it is in the list and ends in an image extension |
| ImageOptimizer.CandidatesAreImageFiles | scripts/optimize-images.js:36-44 | the files converted are exactly the tree's non-directory entries whose name matches, depth-first in listing order; directories are always entered whatever their name |
| ImageOptimizer.DeleteOnlyAfterWrite | scripts/optimize-images.js:16-30 | every delete comes right after the write of the WebP made from the deleted path, and the journal starts with a write |
| ImageOptimizer.JournalContents | scripts/optimize-images.js:16-30 | exactly the fully converted inputs are deleted, and a WebP is written for exactly the inputs whose write succeeded, whatever failed before them |
| ImageOptimizer.FileSystem.WriteWebp | scripts/optimize-images.js:17-23 | a successful write adds that path's write to the journal; a failed one adds nothing |
| ImageOptimizer.FileSystem.Unlink | scripts/optimize-images.js:26 | a successful delete adds that path's delete to the journal; a failed one adds nothing |
| ImageOptimizer.OptimizeImage | scripts/optimize-images.js:13-31 | one call adds the write and then the delete on success, only the write when the delete fails, and nothing when the write fails |
| ImageOptimizer.ProcessDirectory | scripts/optimize-images.js:33-45 | the journal grows by the changes of converting every candidate of the listing, one after the other, in walk order |
| ImageOptimizer.ProcessEntry | scripts/optimize-images.js:37-43 | one entry adds its directory's changes or its own conversion, and nothing for a file that does not match |

## Left out

- `formatPrice` (`Intl.NumberFormat` on `price / 100`) and the price metadata are left out. They are locale-dependent library formatting over floating-point division. No exchange rate or currency conversion exists in the code.
- JSX markup, CSS classes, alt and title texts, the Swiper carousels and the modal's `thumbsSwiper` state are left out. They only render.
- React's scheduling and batching are left out. Each handler is modelled as the state change it causes, and a re-render of the modal as `Render`. The card's `handleCloseModal` is stable (it has no dependencies), so the effect re-runs only when `isOpen` changes.
- A `keydown` that bubbles up to the article from one of its buttons is treated like a `keydown` on the article itself. Event default actions (`preventDefault`) are not modelled.
- Several cards' modals can be open at once. The model keeps each modal's own listener correct on a shared document, but it states nothing about which modal's cleanup last wrote `overflow`.
- The image preloading with `new Image()` in src/App.tsx:8-13 is left out. It is browser I/O; only the URL list it receives is modelled.
- The `sharp` resize and encode, `fs.unlink` and the console messages are left out. Each conversion's result is an input of the model.
- `fs.readdir` is modelled as an already-listed tree. A failing directory listing rejects the whole run and is not modelled.
- Directory entries other than directories (files, links, devices) are all `File`, as `isDirectory()` sees them.
- `ImageOptimizer.Join` writes `path.join` as `dir + "/" + name`. The normalisation of `.`/`..` and of repeated separators is not modelled.
- The `IMAGES_DIR`, `MAX_WIDTH` and `QUALITY` constants and the top-level invocation are left out. They only configure the library call.
- The cart buttons are left out. They do nothing but stop propagation (a to-do in the code); the card's cart click is modelled as a no-op.
- Case folding is modelled for ASCII letters only. In a regular expression with the `i` flag and without the `u` flag, no non-ASCII character folds to one of the ASCII letters of the three extensions, so this is exact for this pattern.
