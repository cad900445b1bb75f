/**
 * The service's test scenarios (ProductSoapService.Test/ProductServiceTest.cs),
 * stated over the model: what a caller can conclude from the contracts alone.
 */
module Scenarios {
  import opened Wrappers
  import opened Text
  import opened Models
  import opened Dtos
  import opened Mapping
  import opened Catalog
  import opened Query
  import opened Services

  /** The three-row table of the filter test. */
  const Fixture := [
    Product(1, "I1", "S", "B1", "Mavi", 5.0),
    Product(2, "I2", "L", "B2", "Kýrmýzý", 10.0),
    Product(3, "I3", "M", "B3", "Mavi", 15.0)
  ]

  /** Filtering the fixture on colour "Mavi" and size "M" yields exactly the row with key 3. */
  lemma FilterByColourAndSize()
    ensures ProductsByFilter(Fixture, NoCriteria.(renk := Some("Mavi"), beden := Some("M"))) == [Fixture[2]]
  {
    var filter := NoCriteria.(renk := Some("Mavi"), beden := Some("M"));
    UntrimmedCriterionPresent("Mavi");
    UntrimmedCriterionPresent("M");
    assert !Matches(filter, Fixture[0]) && !Matches(filter, Fixture[1]) && Matches(filter, Fixture[2]);
    var keep := p => Matches(filter, p);
    var tail := [Fixture[2]];
    assert Filter(tail, keep) == [Fixture[2]] + Filter([], keep);
    assert Fixture[1..][1..] == tail;
    assert Filter(Fixture[1..], keep) == Filter(tail, keep);
    assert Filter(Fixture, keep) == Filter(Fixture[1..], keep);
  }

  /** Add with key 1, then look it up: the add commits and the DTO comes back unchanged. */
  method AddThenGetById() returns (outcome: Outcome, got: Option<ProductDto>)
    ensures outcome == Saved
    ensures got == Some(ProductDto(Some(1), Some("I123"), Some("M"), Some("B123"), Some("Kýrmýzý"), Some(10.0)))
  {
    var service := new ProductService([], 1);
    var dto := ProductDto(Some(1), Some("I123"), Some("M"), Some("B123"), Some("Kýrmýzý"), Some(10.0));
    outcome := service.AddProduct(dto);
    assert service.rows == [FromDto(dto)];
    got := service.GetProductById(1);
  }

  /** Update row 1: barcode, price, colour and size change, the key and item id do not. */
  method UpdateExisting() returns (outcome: Outcome, stored: seq<Product>)
    ensures outcome == Saved
    ensures stored == [Product(1, "I1", "M", "B1-Updated", "Siyah", 20.0)]
  {
    var service := new ProductService([Fixture[0]], 2);
    var dto := ProductDto(Some(1), Some("I1"), Some("M"), Some("B1-Updated"), Some("Siyah"), Some(20.0));
    outcome := service.UpdateProduct(dto);
    stored := service.rows;
  }

  /**
   * Delete row 1, then delete it again: the first call removes it and leaves no row
   * under key 1; the second reports that it is gone.
   */
  method DeleteTwice() returns (first: Outcome, lookup: Option<ProductDto>, second: Outcome)
    ensures first == Saved && lookup == None && second == NotFound
  {
    var service := new ProductService([Fixture[0]], 2);
    first := service.DeleteProduct(1);
    lookup := service.GetProductById(1);
    second := service.DeleteProduct(1);
  }
}
