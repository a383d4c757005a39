/** The product data of the storefront (src/types/product.ts). */
module Types {

  /** An absent or present value; stands for TypeScript's optional props. */
  datatype Option<+T> = None | Some(value: T)

  /** The three supported currencies; no other value is representable. */
  datatype Currency = RUB | USD | EUR

  /** One colour of a product: its label/selection key, swatch colour, thumbnail and gallery. */
  datatype ColorVariant = ColorVariant(
    name: string,
    color: string,
    imageUrl: string,
    images: seq<string>)

  /**
   * The data half of the card props. `price` is in minor units of `currency`.
   * The optional `colors` prop is defaulted to the empty list by both components,
   * so an absent list and an empty one are the same value here.
   */
  datatype Product = Product(
    title: string,
    origin: string,
    price: int,
    currency: Currency,
    imageUrl: string,
    colors: seq<ColorVariant>)
}
