# ProductSoapService catalog core, in Dafny

This project models the product catalog service of ProductSoapService. The service keeps
a table of `Product` rows and offers six operations on it: list all, get by id, filter,
add, update and delete. It takes `ProductDto` transfer records and returns them.

- `Text.dfy` models `String.Trim()` as the filter criteria use it.
- `Product.dfy` holds the entity. Its `[Required]`, `[StringLength]` and `[Range]`
  annotations become the validity predicate `ValidProduct`. Its `[Key]` annotation
  becomes `Catalog.UniqueKeys`, which is part of the service invariant `ProductService.Valid`.
- `ProductDto.dfy` holds the nullable transfer record with its defaults, and the query
  filter record `ProductQueryFilterDto`. The source uses the filter record but does not
  show its file, so its fields are taken from that use: `id: int?` and four optional strings.
- `Mapping.dfy` holds the entity/DTO conversions, written out field by field.
- `Catalog.dfy` treats the table as a `seq<Product>` in store order. It holds lookup by
  key (`Find`) and the one-row changes (append, overwrite, remove), each with a lemma
  saying what the change does to keys and lookups.
- `Query.dfy` models `GetProductsByFilter` as the source writes it: one `Where`
  narrowing per present criterion (`Narrow`). It proves this equals a single filter by the
  reference conjunction `Matches`, and proves the order, membership, absent-criteria and
  trimming properties.
- `ProductService.dfy` is the service as a class. Its `rows` field stands for the table and
  its `nextKey` field for the store's key generator. The three reads are functions. The three
  writes are methods that either commit or fault and leave the table unchanged.
- `Scenarios.dfy` restates the service tests over the model: add then get, update, and
  filter. Its delete scenario extends the delete test with a second delete of the same key.

Behaviours of the code that the model keeps as written:
- **Add keeps a non-zero key from the DTO.** The mapper copies `id` onto the new entity
  (ProductService.cs:53), so a key supplied by the caller is stored as given. The store
  generates a key only when the key is 0, which includes a null DTO id.
- **Update copies every present DTO field, the id included.** `_mapper.Map(dto, product)`
  (ProductService.cs:60-61) overwrites the found row with the DTO. The copied id equals the
  row's key, because the row was found by that id, so `UpdateProduct` proves the key stays
  the same.
- **A missing id gives an explicit `NotFound` outcome, and the table is unchanged.** In the
  code, `Remove(null)` faults (ProductService.cs:67-68). `Find(null)` followed by
  `Map(dto, null)` saves nothing (ProductService.cs:60-62). Either way the table keeps its
  old contents.

## Model

| member | source | states |
|---|---|---|
| `Text.Trim` | ProductSoapService/Services/ProductService.cs:32 | the trimmed criterion is no longer than the input and has no whitespace at either end |
| `Text.TrimIsInnerSlice` | ProductSoapService/Services/ProductService.cs:32-33 | `Trim(s)` is the slice of `s` between an all-white prefix and an all-white suffix, and has no whitespace at either end |
| `Text.BlankIffAllWhite` | ProductSoapService/Services/ProductService.cs:32 | `s.Trim() == ""` holds exactly when every character of `s` is whitespace |
| `Text.TrimIdempotent` | ProductSoapService/Services/ProductService.cs:33 | trimming an already trimmed criterion changes nothing |
| `Text.TrimIgnoresPadding` | ProductSoapService/Services/ProductService.cs:32-45 | whitespace on either side of a criterion does not change its trimmed value |
| `Models.ValidProduct` | ProductSoapService/Models/Product.cs:10-28 | a row is valid exactly when ItemId has at most 100 characters and Beden/Barkod/Renk at most 50, none of the four is all-white, and the price is non-negative; so each string of a valid row has at least one character |
| `Models.NewProductIsNotValid` | ProductSoapService/Models/Product.cs:12-24 | a new entity has four empty strings, so it fails `[Required]` |
| `Mapping.ToDtos` | ProductSoapService/Services/ProductService.cs:17-18 | the list mapping gives one complete DTO per row, in order, and each DTO converts back to its row |
| `Mapping.ToDtosMembers` | ProductSoapService/Services/ProductService.cs:48 | a row's DTO is in the mapped list exactly when the row is in the source list |
| `Mapping.ToDto` | ProductSoapService/Mapping/MappingProfile.cs:9 | entity → DTO gives a DTO with every field present, and DTO → entity gives the row back |
| `Mapping.ApplyDto` | ProductSoapService/Services/ProductService.cs:60-61 | overwriting a valid row with DTO fields that each meet their constraint gives a valid row; the key is the DTO's when present and the target's otherwise; a DTO with no field leaves the target unchanged |
| `Mapping.ToDtoInjective` | ProductSoapService/Mapping/MappingProfile.cs:9 | two rows have the same DTO exactly when they are the same row |
| `Mapping.CompleteDtoRoundTrip` | ProductSoapService/Mapping/MappingProfile.cs:9 | a DTO with every field present survives DTO → entity → DTO, and overwrites every field of any target |
| `Mapping.NewDtoMapsToNewProduct` | ProductSoapService/Dtos/ProductDto.cs:7-12 | the DTO's defaults (no id, empty strings, no price) convert to the entity's defaults |
| `Mapping.FromDto` | ProductSoapService/Services/ProductService.cs:53 | the DTO itself has no constraint; the entity built from it is valid exactly when every string is present, non-blank and within its length, and any price is non-negative; a null id gives key 0 |
| `Catalog.UniqueKeys` | ProductSoapService/Models/Product.cs:7-8 | `[Key]`: no two stored rows share a key (a definition; `Catalog.KeysLocateRows` states what it means for lookup) |
| `Catalog.KeysLocateRows` | ProductSoapService/Models/Product.cs:7-8 | keys are unique exactly when looking up each row's key finds that very row |
| `Catalog.IndexOfKey` | ProductSoapService/Services/ProductService.cs:60 | gives the first position holding key `id`, or none exactly when no row has that key |
| `Catalog.Find` | ProductSoapService/Services/ProductService.cs:21 | `Products.Find(id)` gives a stored row with key `id`, or none exactly when no row has that key |
| `Catalog.RemoveAt` | ProductSoapService/Services/ProductService.cs:68 | removing the row at `i` keeps the rows before `i` and shifts the rows after it down by one |
| `Catalog.FindIffStored` | ProductSoapService/Models/Product.cs:7-8 | with unique keys, `Find(id)` returns a row exactly when that row is stored under `id` |
| `Catalog.AppendRow` | ProductSoapService/Services/ProductService.cs:53-55 | adding a row under an unused key keeps keys unique, makes the row findable and changes no other lookup |
| `Catalog.ReplaceRow` | ProductSoapService/Services/ProductService.cs:60-62 | overwriting a row under its own key keeps keys unique, makes the new row findable and changes no other lookup |
| `Catalog.RemoveRow` | ProductSoapService/Services/ProductService.cs:67-69 | removing a row keeps keys unique, leaves no row under its key and changes no other lookup |
| `Query.Filter` | ProductSoapService/Services/ProductService.cs:29 | one `Where` keeps exactly the stored rows the predicate accepts, and never more rows than the input |
| `Query.FilterFilter` | ProductSoapService/Services/ProductService.cs:29-33 | two `Where` steps in a row equal one `Where` by the conjunction of their predicates |
| `Query.NarrowIsConjunction` | ProductSoapService/Services/ProductService.cs:25-45 | narrowing by each criterion in turn equals one filter by "all criteria hold" |
| `Query.IdCriteriaMeaning` | ProductSoapService/Services/ProductService.cs:28-29 | the id criterion applies only when the id is present and greater than 0, and then it demands an equal key |
| `Query.TextCriteriaMeaning` | ProductSoapService/Services/ProductService.cs:32-45 | a string criterion applies only when it is non-null and not blank, and then it demands equality with the trimmed value |
| `Query.ActiveCriteriaMeaning` | ProductSoapService/Services/ProductService.cs:28-45 | the criteria the service adds all hold of a row exactly when the row matches the filter field by field |
| `Query.ActiveCriteria` | ProductSoapService/Services/ProductService.cs:25-45 | the service adds at most five criteria, and none exactly when the id is absent or not positive and every string is null or blank |
| `Query.Narrow` | ProductSoapService/Services/ProductService.cs:25-47 | narrowing by criteria in turn never grows the table and keeps only stored rows that meet every criterion |
| `Query.ActiveCriteriaFilter` | ProductSoapService/Services/ProductService.cs:28-45 | filtering by the criteria the service adds selects the same rows as filtering by the reference conjunction `Matches` |
| `Query.ProductsByFilter` | ProductSoapService/Services/ProductService.cs:25-47 | `GetProductsByFilter` returns exactly the table's matching rows, in store order |
| `Query.FilterMembers` | ProductSoapService/Services/ProductService.cs:25-47 | a row is returned exactly when it is stored and meets every present criterion |
| `Query.FilterIsSubsequence` | ProductSoapService/Services/ProductService.cs:29 | what a `Where` keeps is a subsequence of its input |
| `Query.FilterKeepsStoreOrder` | ProductSoapService/Services/ProductService.cs:47 | the filter result is a subsequence of the table, so it keeps store order |
| `Query.NoCriteriaReturnsAll` | ProductSoapService/Services/ProductService.cs:25-47 | with the id absent or not positive, and every string null or blank, the whole table is returned |
| `Query.IdCriterionSelectsKey` | ProductSoapService/Services/ProductService.cs:28-29 | a present id criterion returns only rows with that key, and with unique keys at most one row |
| `Query.UntrimmedCriterionPresent` | ProductSoapService/Services/ProductService.cs:32-45 | a criterion with no whitespace at either end is present and compared exactly as given |
| `Query.TrimmedCriteriaDecide` | ProductSoapService/Services/ProductService.cs:28-45 | two filters that agree after trimming return the same rows |
| `Query.PaddedCriterionIgnored` | ProductSoapService/Services/ProductService.cs:36-37 | whitespace around the colour criterion does not change the result |
| `Query.CriterionAlreadyTrimmed` | ProductSoapService/Services/ProductService.cs:44-45 | a size criterion and its trimmed form select the same rows |
| `Services.FilteredDtos` | ProductSoapService/Services/ProductService.cs:47-48 | the filter's DTO list has no more entries than the table, and holds a row's DTO exactly when the row matches |
| `Services.ProductService.constructor` | ProductSoapService/Services/ProductService.cs:11-15 | the service starts over an existing table with unique keys and its key generator |
| `Services.ProductService.GetAllProducts` | ProductSoapService/Services/ProductService.cs:17-18 | one complete DTO per stored row, in store order, each converting back to its row |
| `Services.ProductService.GetProductById` | ProductSoapService/Services/ProductService.cs:20-21 | no DTO exactly when no row has key `id`; otherwise a complete DTO with that id, converting back to a stored row |
| `Services.ProductService.GetProductsByFilter` | ProductSoapService/Services/ProductService.cs:23-49 | one DTO per matching row, in store order (the DTO list of the reference filter); a row's DTO is returned exactly when the row matches every present criterion |
| `Services.ProductService.AddProduct` | ProductSoapService/Services/ProductService.cs:51-56 | appends exactly the converted row, with a generated key when its key is 0; a key already stored faults with the table unchanged; keys stay unique; no other lookup changes |
| `Services.ProductService.UpdateProduct` | ProductSoapService/Services/ProductService.cs:58-63 | the row under `dto.id` is overwritten in place with the DTO's fields and keeps its key; every other row is unchanged; a null or missing id gives `NotFound` with the table unchanged |
| `Services.ProductService.DeleteProduct` | ProductSoapService/Services/ProductService.cs:65-70 | the row under `id` is removed, the other rows keep their order, and no row is left with that key; a missing id gives `NotFound` with the table unchanged |
| `Scenarios.AddThenGetById` | ProductSoapService.Test/ProductServiceTest.cs:32-56 | on an empty table, adding a DTO with key 1 commits, and looking up key 1 gives that DTO back |
| `Scenarios.UpdateExisting` | ProductSoapService.Test/ProductServiceTest.cs:101-129 | updating row 1 commits and stores exactly the row with the new size, barcode, colour and price under key 1 |
| `Scenarios.DeleteTwice` | ProductSoapService.Test/ProductServiceTest.cs:132-148 | deleting row 1 commits and leaves no row under key 1; a second delete of key 1 reports `NotFound` |
| `Scenarios.FilterByColourAndSize` | ProductSoapService.Test/ProductServiceTest.cs:150-178 | on the three-row fixture, filtering on colour "Mavi" and size "M" yields exactly the row with key 3 |

## Left out

- The scheduled export job (`Jobs/ProductJsonJob.cs`, `Jobs/JobSchedular.cs`) is not modelled. It is an HTTP call, file I/O, the clock and a library XML-to-JSON conversion, run on a cron schedule.
- `Program.cs` (DI, CoreWCF, Hangfire and PostgreSQL wiring) and the CoreWCF contract attributes in `IProductService.cs` are not modelled. The six operations that interface declares are all modelled on the class.
- `AppDbContext` is replaced by the `rows` field. `SaveChanges` is the point where a method assigns the new table. Transactions, concurrent callers and database failures are not modelled.
- Entity validation at commit time is not modelled. EF Core does not evaluate the data annotations on `SaveChanges`, and the database's own checks are not visible. Add and update therefore store rows whether or not they satisfy `ValidProduct`. The contracts of `Mapping.FromDto` and `Mapping.ApplyDto` say when the stored row is valid.
- AutoMapper's handling of a null DTO field is library behaviour and is not visible. In the model, an absent field leaves the destination's value: key 0, an empty string or price 0 for a new row, and the row's own value on update.
- The store's key generator is modelled as a counter that always stays above every stored key. A PostgreSQL identity column does not advance when a row is inserted with an explicit key. The model does not capture that case, nor the collision it can cause later.
- The model's `Trim` strips only space, tab, LF, VT, FF and CR. .NET's `String.Trim()` strips every `Char.IsWhiteSpace` character; the other Unicode whitespace characters are not modelled.
- `decimal` prices are modelled as `real`. Decimal precision and overflow are not modelled. The model's length is the number of `char` values in a Dafny string. `[StringLength]` counts UTF-16 code units, so characters outside the Basic Multilingual Plane are counted differently.
- Null request objects are not modelled. In the code, `GetProductsByFilter(null)` faults at ProductService.cs:28, `AddProduct(null)` at ProductService.cs:54 and `UpdateProduct(null)` at ProductService.cs:60. The model's filter and DTO datatypes cannot be null.
- A lookup of a missing id in `GetProductById` returns no DTO, which is what mapping a null entity gives.
- The test at `ProductSoapService.Test/ProductServiceTest.cs:82-98` stores a row with key 2 and expects `GetProductById(1)` to return it. That contradicts lookup by key, so it is not encoded.
