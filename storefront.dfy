/**
 * The storefront data the plugin reads but does not own: products, their
 * purchasable variations, and the (product id, attribute selection) entries
 * the client submits. String normalisation done by the platform
 * (`sanitize_title`, `strtolower`) is an abstract oracle.
 */
module Storefront {

  type ProductId = int

  /** An attribute selection: (attribute name, chosen value) pairs in the
      order of the decoded request object. */
  type Selection = seq<(string, string)>

  /** One entry of `get_available_variations()`: its id, its attribute map
      (keys such as `attribute_pa_size`) and its display price in cents. */
  datatype Variation = Variation(variationId: int, attributes: map<string, string>, displayPrice: int)

  /** What `wc_get_product` yields: a variable product with its ordered
      variations, or any other product type with its display price. */
  datatype Product =
    | NonVariable(displayPrice: int)
    | Variable(variations: seq<Variation>)

  /** `wc_get_product`: an id outside the map is a product that cannot be found. */
  type Catalog = map<ProductId, Product>

  /** The platform's text functions, left abstract. */
  datatype TextOps = TextOps(sanitizeTitle: string -> string, toLower: string -> string)

  /** One element of the `product_data` list the client posts. */
  datatype Entry = Entry(productId: ProductId, variations: Selection)
}
