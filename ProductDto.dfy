/** The transfer records of the service (Dtos/ProductDto.cs and the query filter). */
module Dtos {
  import opened Wrappers

  /** Every field nullable; no constraint is declared on any of them. */
  datatype ProductDto = ProductDto(
    id: Option<int>,
    itemId: Option<string>,
    beden: Option<string>,
    barkod: Option<string>,
    renk: Option<string>,
    price: Option<real>)

  /** `new ProductDto()`: no id, no price, and the four strings empty rather than null. */
  const NewProductDto := ProductDto(None, Some(""), Some(""), Some(""), Some(""), None)

  /** The query criteria of GetProductsByFilter; a null field means no constraint. */
  datatype ProductQueryFilterDto = ProductQueryFilterDto(
    id: Option<int>,
    barkod: Option<string>,
    renk: Option<string>,
    itemId: Option<string>,
    beden: Option<string>)

  /** A filter with every criterion null. */
  const NoCriteria := ProductQueryFilterDto(None, None, None, None, None)
}
