/**
 * The catalog service (Services/ProductService.cs) over an in-memory table.
 * Every mutating call either commits (SaveChanges) or faults before the
 * commit and leaves the table as it was.
 */
module Services {
  import opened Wrappers
  import opened Models
  import opened Dtos
  import opened Mapping
  import opened Catalog
  import opened Query

  /** How a mutating call ends: committed, or faulted on a missing or an already used key. */
  datatype Outcome = Saved | NotFound | DuplicateKey

  /** The filter's DTOs are those of the stored rows that match it. */
  lemma FilteredDtos(rows: seq<Product>, filter: ProductQueryFilterDto)
    ensures |ToDtos(ProductsByFilter(rows, filter))| <= |rows|
    ensures forall p :: ToDto(p) in ToDtos(ProductsByFilter(rows, filter)) <==> p in rows && Matches(filter, p)
  {
    var found := ProductsByFilter(rows, filter);
    FilterMembers(rows, filter);
    forall p ensures ToDto(p) in ToDtos(found) <==> p in found {
      ToDtosMembers(found, p);
    }
  }

  class ProductService {
    /** `_context.Products`, in store order. */
    var rows: seq<Product>
    /** The key the store generates for the next row added with key 0. */
    var nextKey: int

    /** Keys are unique and every stored key is below the next generated one. */
    ghost predicate Valid()
      reads this
    {
      UniqueKeys(rows) && 1 <= nextKey && forall i :: 0 <= i < |rows| ==> rows[i].id < nextKey
    }

    /** A service over an existing table whose key generator stands at `firstFreeKey`. */
    constructor (initial: seq<Product>, firstFreeKey: int)
      requires UniqueKeys(initial) && 1 <= firstFreeKey
      requires forall i :: 0 <= i < |initial| ==> initial[i].id < firstFreeKey
      ensures Valid() && rows == initial && nextKey == firstFreeKey
    {
      rows := initial;
      nextKey := firstFreeKey;
    }

    /** Every stored row as a DTO, in store order. */
    function GetAllProducts(): (r: seq<ProductDto>)
      reads this
      ensures |r| == |rows|
      ensures forall i :: 0 <= i < |rows| ==> Complete(r[i]) && FromDto(r[i]) == rows[i]
    {
      ToDtos(rows)
    }

    /** The row stored under key `id` as a DTO; none when no row has that key. */
    function GetProductById(id: int): (r: Option<ProductDto>)
      reads this
      ensures r.None? <==> !HasKey(rows, id)
      ensures r.Some? ==> r.value.id == Some(id) && Complete(r.value) && FromDto(r.value) in rows
    {
      match Find(rows, id)
      case None => None
      case Some(p) => Some(ToDto(p))
    }

    /** The rows that meet every present criterion of `filter`, as DTOs in store order. */
    function GetProductsByFilter(filter: ProductQueryFilterDto): (r: seq<ProductDto>)
      reads this
      ensures r == ToDtos(Filter(rows, p => Matches(filter, p)))
      ensures |r| <= |rows|
      ensures forall p :: ToDto(p) in r <==> p in rows && Matches(filter, p)
    {
      FilteredDtos(rows, filter);
      ToDtos(ProductsByFilter(rows, filter))
    }

    /**
     * Converts the DTO and appends it. A row added with key 0 gets the next
     * generated key; a row added with a key already stored faults.
     */
    method AddProduct(dto: ProductDto) returns (outcome: Outcome)
      requires Valid()
      modifies this
      ensures Valid()
      ensures var p := FromDto(dto);
        if p.id == 0 then
          outcome == Saved && rows == old(rows) + [p.(id := old(nextKey))] && nextKey == old(nextKey) + 1
        else if old(HasKey(rows, p.id)) then
          outcome == DuplicateKey && rows == old(rows) && nextKey == old(nextKey)
        else
          outcome == Saved && rows == old(rows) + [p]
          && nextKey == (if p.id < old(nextKey) then old(nextKey) else p.id + 1)
      ensures outcome == Saved ==>
        Find(rows, rows[|rows| - 1].id) == Some(rows[|rows| - 1])
        && forall k :: k != rows[|rows| - 1].id ==> Find(rows, k) == old(Find(rows, k))
    {
      var product := FromDto(dto);
      if product.id == 0 {
        product := product.(id := nextKey);
        nextKey := nextKey + 1;
      } else if Find(rows, product.id).Some? {
        return DuplicateKey;
      } else if product.id >= nextKey {
        nextKey := product.id + 1;
      }
      AppendRow(rows, product);
      rows := rows + [product];
      outcome := Saved;
    }

    /** Overwrites the row stored under `dto.id` with the DTO's fields; its key and every other row stay as they were. */
    method UpdateProduct(dto: ProductDto) returns (outcome: Outcome)
      requires Valid()
      modifies this
      ensures Valid() && nextKey == old(nextKey)
      ensures dto.id.None? || !old(HasKey(rows, dto.id.value)) ==> outcome == NotFound && rows == old(rows)
      ensures dto.id.Some? && old(HasKey(rows, dto.id.value)) ==>
        outcome == Saved
        && (var i := old(IndexOfKey(rows, dto.id.value)).value;
            rows == old(rows)[i := ApplyDto(dto, old(rows)[i])] && rows[i].id == old(rows)[i].id)
      ensures outcome == Saved ==>
        Find(rows, dto.id.value) == Some(ApplyDto(dto, old(Find(rows, dto.id.value)).value))
        && forall k :: k != dto.id.value ==> Find(rows, k) == old(Find(rows, k))
    {
      if dto.id.None? {
        return NotFound;
      }
      var found := IndexOfKey(rows, dto.id.value);
      if found.None? {
        return NotFound;
      }
      var i := found.value;
      var product := ApplyDto(dto, rows[i]);
      FindIffStored(rows, dto.id.value, rows[i]);
      ReplaceRow(rows, i, product);
      rows := rows[i := product];
      outcome := Saved;
    }

    /** Removes the row stored under `id`; every other row stays, in order. */
    method DeleteProduct(id: int) returns (outcome: Outcome)
      requires Valid()
      modifies this
      ensures Valid() && nextKey == old(nextKey)
      ensures !old(HasKey(rows, id)) ==> outcome == NotFound && rows == old(rows)
      ensures old(HasKey(rows, id)) ==>
        outcome == Saved && rows == RemoveAt(old(rows), old(IndexOfKey(rows, id)).value)
      ensures !HasKey(rows, id)
      ensures forall k :: k != id ==> Find(rows, k) == old(Find(rows, k))
    {
      var found := IndexOfKey(rows, id);
      if found.None? {
        return NotFound;
      }
      var i := found.value;
      RemoveRow(rows, i);
      rows := RemoveAt(rows, i);
      outcome := Saved;
    }
  }
}
