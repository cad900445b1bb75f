/**
 * The entity/DTO conversions, written out field by field (the
 * `CreateMap<Product, ProductDto>().ReverseMap()` profile).
 */
module Mapping {
  import opened Wrappers
  import opened Text
  import opened Models
  import opened Dtos

  /** Product -> ProductDto: every field is present in the DTO. */
  function ToDto(p: Product): (d: ProductDto)
    ensures Complete(d) && FromDto(d) == p
  {
    ProductDto(Some(p.id), Some(p.itemId), Some(p.beden), Some(p.barkod), Some(p.renk), Some(p.price))
  }

  /** `_mapper.Map(dto, target)`: copy each present DTO field onto `target`; an absent field keeps the target's value. */
  function ApplyDto(d: ProductDto, target: Product): (r: Product)
    ensures ValidProduct(target) && PresentFieldsFit(d) ==> ValidProduct(r)
    ensures r.id == d.id.GetOr(target.id)
    ensures d == ProductDto(None, None, None, None, None, None) ==> r == target
  {
    Product(
      d.id.GetOr(target.id),
      d.itemId.GetOr(target.itemId),
      d.beden.GetOr(target.beden),
      d.barkod.GetOr(target.barkod),
      d.renk.GetOr(target.renk),
      d.price.GetOr(target.price))
  }

  /**
   * `_mapper.Map<Product>(dto)`: the DTO copied onto a new entity. The DTO itself has no
   * constraint; the entity is valid exactly when every string of the DTO is present and
   * within its constraint and the price, if any, is not negative (a null string field
   * yields an empty, invalid entity field). An absent key gives key 0.
   */
  function FromDto(d: ProductDto): (r: Product)
    ensures ValidProduct(r) <==> DtoFitsEntity(d)
    ensures r.id == if d.id.Some? then d.id.value else 0
  {
    assert IsBlank("");
    ApplyDto(d, NewProduct)
  }

  /** `_mapper.Map<List<ProductDto>>(rows)`: one complete DTO per row, in order, carrying that row. */
  function ToDtos(rows: seq<Product>): (ds: seq<ProductDto>)
    ensures |ds| == |rows|
    ensures forall i :: 0 <= i < |rows| ==> Complete(ds[i]) && FromDto(ds[i]) == rows[i]
  {
    if rows == [] then [] else [ToDto(rows[0])] + ToDtos(rows[1..])
  }

  /** A row's DTO is in the converted list exactly when the row is in the table. */
  lemma ToDtosMembers(rows: seq<Product>, p: Product)
    ensures ToDto(p) in ToDtos(rows) <==> p in rows
  {
    var ds := ToDtos(rows);
    if p in rows {
      var i :| 0 <= i < |rows| && rows[i] == p;
      CompleteDtoRoundTrip(ds[i], p);
      assert ds[i] == ToDto(p);
    }
  }

  /** A DTO with every field present. */
  predicate Complete(d: ProductDto) {
    d.id.Some? && d.itemId.Some? && d.beden.Some? && d.barkod.Some? && d.renk.Some? && d.price.Some?
  }

  /** Two rows with the same DTO are the same row. */
  lemma ToDtoInjective(p: Product, q: Product)
    ensures ToDto(p) == ToDto(q) <==> p == q
  {
  }

  /** A complete DTO -> entity -> DTO gives the DTO back, and overwrites every field of any target. */
  lemma CompleteDtoRoundTrip(d: ProductDto, target: Product)
    requires Complete(d)
    ensures ToDto(FromDto(d)) == d
    ensures ApplyDto(d, target) == FromDto(d)
  {
  }

  /** The DTO's defaults map onto the entity's defaults: empty strings, key 0, price 0. */
  lemma NewDtoMapsToNewProduct()
    ensures FromDto(NewProductDto) == NewProduct
  {
  }

  /** A present DTO string that meets the entity's [Required]/[StringLength] constraint. */
  predicate TextFits(s: Option<string>, max: nat) {
    s.Some? && RequiredText(s.value, max)
  }

  /** The entity constraints, read on the DTO's fields. */
  predicate DtoFitsEntity(d: ProductDto) {
    && TextFits(d.itemId, ItemIdMaxLength)
    && TextFits(d.beden, LabelMaxLength)
    && TextFits(d.barkod, LabelMaxLength)
    && TextFits(d.renk, LabelMaxLength)
    && (d.price.None? || d.price.value >= 0.0)
  }

  /** Every field the DTO carries meets the entity's constraint on that field. */
  predicate PresentFieldsFit(d: ProductDto) {
    && (d.itemId.Some? ==> RequiredText(d.itemId.value, ItemIdMaxLength))
    && (d.beden.Some? ==> RequiredText(d.beden.value, LabelMaxLength))
    && (d.barkod.Some? ==> RequiredText(d.barkod.value, LabelMaxLength))
    && (d.renk.Some? ==> RequiredText(d.renk.value, LabelMaxLength))
    && (d.price.Some? ==> d.price.value >= 0.0)
  }
}
