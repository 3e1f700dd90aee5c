/** A product of the cistern catalog, as the page loads it from its product list. */
module Catalog {
  import opened Options

  datatype Product = Product(
    name: string,
    capacity: int,               // litres
    kind: string,                // "house" or "garden": the catalog's `type`
    accessibility: string,
    category: string,            // comfort category
    manualUrl: Option<string>,
    productUrl: Option<string>,
    imageUrl: Option<string>)
}
