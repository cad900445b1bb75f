/** The persisted catalog row (Models/Product.cs) and its declared constraints. */
module Models {
  import opened Text

  /**
   * A catalog row. `id` is the key ([Key]); `beden` is the size label,
   * `barkod` the barcode, `renk` the colour. The decimal price is a real.
   */
  datatype Product = Product(id: int, itemId: string, beden: string, barkod: string, renk: string, price: real)

  /** [StringLength(100)] on ItemId. */
  const ItemIdMaxLength: nat := 100
  /** [StringLength(50)] on Beden, Barkod and Renk. */
  const LabelMaxLength: nat := 50

  /** `new Product()`: key 0, each string property `string.Empty`, price 0. */
  const NewProduct := Product(0, "", "", "", "", 0.0)

  /** [Required] together with [StringLength(max)]: present, not whitespace only, at most `max` characters. */
  predicate RequiredText(s: string, max: nat) {
    !IsBlank(s) && |s| <= max
  }

  /**
   * The data-annotation constraints of the entity; [Range(0, double.MaxValue)] on Price.
   * A valid row has four strings, each with a non-white character and within its bound
   * (hence non-empty), and a non-negative price.
   */
  predicate ValidProduct(p: Product)
    ensures ValidProduct(p) <==>
      && !AllWhite(p.itemId) && |p.itemId| <= ItemIdMaxLength
      && !AllWhite(p.beden) && |p.beden| <= LabelMaxLength
      && !AllWhite(p.barkod) && |p.barkod| <= LabelMaxLength
      && !AllWhite(p.renk) && |p.renk| <= LabelMaxLength
      && p.price >= 0.0
    ensures ValidProduct(p) ==> |p.itemId| >= 1 && |p.beden| >= 1 && |p.barkod| >= 1 && |p.renk| >= 1
  {
    BlankIffAllWhite(p.itemId);
    BlankIffAllWhite(p.beden);
    BlankIffAllWhite(p.barkod);
    BlankIffAllWhite(p.renk);
    && RequiredText(p.itemId, ItemIdMaxLength)
    && RequiredText(p.beden, LabelMaxLength)
    && RequiredText(p.barkod, LabelMaxLength)
    && RequiredText(p.renk, LabelMaxLength)
    && p.price >= 0.0
  }

  /** A freshly constructed entity has empty strings, so it does not meet [Required]. */
  lemma NewProductIsNotValid()
    ensures NewProduct.itemId == NewProduct.beden == NewProduct.barkod == NewProduct.renk == ""
    ensures !ValidProduct(NewProduct)
  {
    assert IsBlank("");
  }
}
