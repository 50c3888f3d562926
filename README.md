# Inventory services, modelled in Dafny

This project models the domain core of a small CRUD inventory service. The service manages
**categories** and **products**, and each product belongs to one category.

- `CategoryService` creates, lists, reads, renames and deletes categories.
- `ProductService` does the same for products. It resolves a product's `categoryId` against the
  category table before `create` and `update`, and it can list the products of one category by name.
- Both services report a missing row as a NotFound failure. Its message is
  `"<Entity> not found with id: <id>"`.
- `ProductCreateRequest` declares field constraints. The framework checks them before the service
  is called, and every failing field is reported at once.

The storage layer is modelled as in-memory tables. `Persistence.Database` holds a
`map<int, Category>`, a `map<int, Product>` and one id counter per table. Both service classes
share one `Database`, as both services share the category repository in the source.

Files and modules:

| file | module | models |
|---|---|---|
| `domain.dfy` | `Domain` | entities, response shapes, the NotFound failure, `Long.toString` for the messages |
| `persistence.dfy` | `Persistence` | the two repositories: `save`, `findById`, `findAll`, `findByCategory_Name`, `delete` |
| `category_service.dfy` | `Categories` | `CategoryService` |
| `product_service.dfy` | `Products` | `ProductService`, including the null-or-blank test of the category filter |
| `product_create_request.dfy` | `Validation` | the constraints of `ProductCreateRequest` as a function to a field-to-messages map |
| `scenarios.dfy` | `Scenarios` | call sequences: create then get, delete then get, rename, orphaning, the repository test |

Design points:

- **The category is a join column.** A product row stores `categoryId`, as `Product.java` maps it.
  Responses look the category up when they are built. A category rename therefore shows in the
  product responses and in the name filter.
- **Row order is not modelled.** `findAll` and `findByCategory_Name` promise no order. The model
  picks the order nondeterministically (`KeysInStoreOrder`). Every contract about a listing says
  that it holds each selected id exactly once (`multiset(ids) == multiset(keys)`) and that each
  element is that row's response.
- **Ids are fresh and unique.** `Product.java` declares a database-generated identity id. The
  model makes this concrete with one counter per table. A new row takes the counter's value, and the
  counter then increases by one. So an insert never reuses an id, not even a deleted one. The
  counters starting at 1 and stepping by one is the model's choice, not something the source fixes.
- **Deleting a category checks nothing.** The products that reference it keep their rows and then
  reference nothing (`Scenarios.DeleteReferencedCategory`). Product reads build a response from the
  product's category. So `ProductService.GetById`, and `GetAll` without a filter, require that the
  rows they project still have their category. The model adds no cascade and no restrict rule.
- **"Blank" means two different things.** The category filter of `getAll` uses `String.isBlank()`,
  which tests `Character.isWhitespace` (`Products.IsBlank`). `@NotBlank` tests what is left after
  `String.trim()`, which strips every character up to U+0020 (`Validation.NotBlank`). For example,
  U+2003 counts as blank for the filter but passes `@NotBlank`.
- **`@Size` counts UTF-16 code units,** as `String.length()` does. A character above U+FFFF counts
  twice (`Validation.Utf16Length`).
- **A field can carry more than one message.** `Validate` maps each failing field to the **set** of
  messages of its failed constraints. A name of 101 spaces fails both `@NotBlank` and `@Size`. The
  exception handler that turns violations into the 400 body is not part of this model, so nothing
  says which one message it would keep.
- **The service receives checked fields.** The service operations take `ProductFields`, which has no
  null fields. `Validation.Bind` models `@Valid`: a request reaches the service only when it has no
  field errors, and it then arrives with the same values.
- **Java integer widths.** `price` and `stock` are `Integer`s, so they are `Int32`. Ids are `int`.

## Model

| member | source | states |
|---|---|---|
| `Domain.IntToString` | src/main/java/com/brenda/inventory/services/ProductService.java:80 | an id renders as `Long.toString` does: a minus sign exactly for negative ids, then only decimal digits |
| `Domain.CategoryNotFound` | src/main/java/com/brenda/inventory/services/ProductService.java:84 | the message starts with "Category not found with id: ", and the id can be read back from the rest |
| `Domain.ProductNotFound` | src/main/java/com/brenda/inventory/services/ProductService.java:80 | the message starts with "Product not found with id: ", and the id can be read back from the rest |
| `Domain.ParseNatToString` | src/main/java/com/brenda/inventory/services/ProductService.java:80 | the decimal digits of a non-negative id read back as that id |
| `Domain.ParseIntToString` | src/main/java/com/brenda/inventory/services/ProductService.java:80 | `Long.toString` of any id, sign included, reads back as that id |
| `Domain.NotFoundMessagesIdentify` | src/main/java/com/brenda/inventory/services/ProductService.java:79-85 | two Product (or two Category) NotFound errors are equal exactly when their ids are equal |
| `Domain.ProductNotFound999` | src/test/java/com/brenda/inventory/controllers/ProductControllerTest.java:85-93 | the message for a missing product 999 is exactly "Product not found with id: 999" |
| `Persistence.KeysInStoreOrder` | src/main/java/com/brenda/inventory/services/ProductService.java:45 | the store's listing order visits every key exactly once, in an order it chooses |
| `Persistence.Database.constructor` | src/main/java/com/brenda/inventory/entity/Product.java:16-18 | both tables start empty; the model's id counters start at 1, so every later id is fresh |
| `Persistence.Database.ProductsInCategory` | src/main/java/com/brenda/inventory/services/ProductService.java:47 | `findByCategory_Name` selects a product exactly when its category exists and has that exact name |
| `Persistence.Database.FindAllCategories` | src/main/java/com/brenda/inventory/services/CategoryService.java:30 | returns each stored category row exactly once |
| `Persistence.Database.InsertCategory` | src/main/java/com/brenda/inventory/services/CategoryService.java:25 | stores the row under the next value of the model's id counter, which no row had, and changes nothing else |
| `Persistence.Database.SaveCategory` | src/main/java/com/brenda/inventory/services/CategoryService.java:45 | overwrites the row with that id, and changes nothing else |
| `Persistence.Database.DeleteCategory` | src/main/java/com/brenda/inventory/services/CategoryService.java:51 | removes that id from the category table and leaves the product table as it is |
| `Persistence.Database.FindAllProducts` | src/main/java/com/brenda/inventory/services/ProductService.java:45 | returns each stored product row exactly once |
| `Persistence.Database.FindProductsByCategoryName` | src/main/java/com/brenda/inventory/services/ProductService.java:47 | returns each product whose category has that name exactly once, and no other product |
| `Persistence.Database.InsertProduct` | src/main/java/com/brenda/inventory/services/ProductService.java:37 | stores the row under the next value of the model's id counter, which no row had, and changes nothing else |
| `Persistence.Database.SaveProduct` | src/main/java/com/brenda/inventory/services/ProductService.java:70 | overwrites the row with that id, and changes nothing else |
| `Persistence.Database.DeleteProduct` | src/main/java/com/brenda/inventory/services/ProductService.java:76 | removes that id from the product table and leaves the category table as it is |
| `Categories.ToResponse` | src/main/java/com/brenda/inventory/services/CategoryService.java:58-63 | the response carries the row's id and name, so the row can be rebuilt from it |
| `Categories.CategoryService.GetOrThrow` | src/main/java/com/brenda/inventory/services/CategoryService.java:54-56 | returns the stored row when the id is present, otherwise NotFound "Category not found with id: " + id |
| `Categories.CategoryService.Create` | src/main/java/com/brenda/inventory/services/CategoryService.java:21-27 | adds one category (duplicate names allowed) under a fresh id, echoes that id and the name, and leaves products untouched |
| `Categories.CategoryService.GetAll` | src/main/java/com/brenda/inventory/services/CategoryService.java:29-34 | returns one response per stored category, each with that row's id and name, and changes nothing |
| `Categories.CategoryService.GetById` | src/main/java/com/brenda/inventory/services/CategoryService.java:36-39 | returns the row's id and name when it exists, otherwise the Category NotFound error |
| `Categories.CategoryService.Update` | src/main/java/com/brenda/inventory/services/CategoryService.java:41-47 | on an absent id: NotFound and no change; otherwise only that row's name changes and its id is kept |
| `Categories.CategoryService.Delete` | src/main/java/com/brenda/inventory/services/CategoryService.java:49-52 | on an absent id: NotFound and no change; otherwise removes exactly that id and leaves every product row as it was |
| `Products.IsWhitespace` | src/main/java/com/brenda/inventory/services/ProductService.java:44 | the characters `Character.isWhitespace` accepts: U+0009-U+000D, U+001C-U+0020, and the Unicode space, line and paragraph separators except the no-break spaces U+00A0, U+2007 and U+202F |
| `Products.IsBlank` | src/main/java/com/brenda/inventory/services/ProductService.java:44 | `String.isBlank` scans for a non-whitespace character, and is blank exactly when every character is whitespace |
| `Products.BlankFilters` | src/main/java/com/brenda/inventory/services/ProductService.java:44 | a null, empty, tab/newline or em-space filter lists everything; a filter of no-break spaces is not blank and selects by name |
| `Products.ProductService.GetProductOrThrow` | src/main/java/com/brenda/inventory/services/ProductService.java:79-81 | returns the stored row when present, otherwise NotFound "Product not found with id: " + id |
| `Products.ProductService.GetCategoryOrThrow` | src/main/java/com/brenda/inventory/services/ProductService.java:83-85 | returns the stored category when present, otherwise NotFound "Category not found with id: " + id |
| `Products.ProductService.ToResponse` | src/main/java/com/brenda/inventory/services/ProductService.java:87-101 | the response carries all of the row's columns, so the row can be rebuilt from it, and it embeds the category's current name |
| `Products.ProductService.ResponseKeepsRow` | src/main/java/com/brenda/inventory/services/ProductService.java:87-101 | the response embeds the category's id and current name, and two rows give the same response only if they are the same row |
| `Products.ProductService.Selected` | src/main/java/com/brenda/inventory/services/ProductService.java:41-48 | a null or blank filter selects every product; any other filter selects exactly the products whose category name equals it |
| `Products.ProductService.Create` | src/main/java/com/brenda/inventory/services/ProductService.java:27-39 | an absent category gives Category NotFound and no write; otherwise one new row under a fresh id with the request's fields, and the response carries that id, the fields and the category's id and name |
| `Products.ProductService.GetAll` | src/main/java/com/brenda/inventory/services/ProductService.java:41-53 | returns one response per selected product, each that row's response, and changes nothing |
| `Products.ProductService.GetById` | src/main/java/com/brenda/inventory/services/ProductService.java:55-58 | an absent id gives Product NotFound; a present one gives that row's fields with its category's id and name |
| `Products.ProductService.Update` | src/main/java/com/brenda/inventory/services/ProductService.java:60-72 | checks the product first (Product NotFound even if the category is also absent), then the category; either failure changes nothing; success replaces all five fields, keeps the id and touches no other row |
| `Products.ProductService.Delete` | src/main/java/com/brenda/inventory/services/ProductService.java:74-77 | an absent id gives Product NotFound and no change; otherwise removes exactly that row |
| `Validation.Utf16Length` | src/main/java/com/brenda/inventory/dto/ProductCreateRequest.java:14 | the UTF-16 length that `@Size` measures is at least the number of characters and at most twice that |
| `Validation.TrimEmptyIffSpaces` | src/main/java/com/brenda/inventory/dto/ProductCreateRequest.java:13 | `String.trim()` leaves nothing exactly when every character is at most U+0020 |
| `Validation.NotBlank` | src/main/java/com/brenda/inventory/dto/ProductCreateRequest.java:13 | `@NotBlank` holds exactly when the name is not null and something is left after `trim()` |
| `Validation.SizeAtMost` | src/main/java/com/brenda/inventory/dto/ProductCreateRequest.java:14-17 | `@Size(max)` lets null through; more than `max` characters always fail and at most `max/2` always pass |
| `Validation.NotNegative` | src/main/java/com/brenda/inventory/dto/ProductCreateRequest.java:21-25 | `@Min(0)` lets null through and rejects a value below 0 |
| `Validation.Messages` | src/main/java/com/brenda/inventory/dto/ProductCreateRequest.java:13-29 | the messages of a field's failed annotations; a field only carries its own annotations' messages, and an undeclared field carries none |
| `Validation.Validate` | src/main/java/com/brenda/inventory/dto/ProductCreateRequest.java:12-30 | only the five declared fields can appear, and each one that does carries at least one message |
| `Validation.ValidateEmptyIffAcceptable` | src/main/java/com/brenda/inventory/dto/ProductCreateRequest.java:12-30 | no field error exactly when the name is present and not blank with at most 100 units, the description is absent or at most 500, price and stock are present and >= 0, and categoryId is present |
| `Validation.NameRule` | src/main/java/com/brenda/inventory/dto/ProductCreateRequest.java:13-15 | a null or trim-blank name gives "Product name is required"; a name of more than 100 units gives the at-most-100 message; nothing else goes under `name` |
| `Validation.DescriptionRule` | src/main/java/com/brenda/inventory/dto/ProductCreateRequest.java:17-18 | null is accepted; an error appears exactly when the description exceeds 500 units, with the message that says 100 |
| `Validation.PriceRule` | src/main/java/com/brenda/inventory/dto/ProductCreateRequest.java:20-22 | null gives "Price is required", a negative value gives "Price must be >= 0", anything else no error |
| `Validation.StockRule` | src/main/java/com/brenda/inventory/dto/ProductCreateRequest.java:24-26 | null gives "Stock is required", a negative value gives "Stock must be >= 0", anything else no error |
| `Validation.CategoryIdRule` | src/main/java/com/brenda/inventory/dto/ProductCreateRequest.java:28-29 | an error appears exactly when categoryId is null, with "CategoryId is required" |
| `Validation.BlankNameAndMissingNumbers` | src/test/java/com/brenda/inventory/controllers/ProductControllerTest.java:95-110 | an empty name with null price, stock and categoryId reports exactly those four fields, together |
| `Validation.BlankAndTooLongName` | src/main/java/com/brenda/inventory/dto/ProductCreateRequest.java:13-14 | a 101-space name reports both name messages and nothing else |
| `Validation.Bind` | src/main/java/com/brenda/inventory/controllers/ProductController.java:34 | the request is rejected with the field errors exactly when there are any; otherwise the service gets the request's values, with price and stock >= 0 |
| `Validation.ValidRequestAccepted` | src/test/java/com/brenda/inventory/controllers/ProductControllerTest.java:112-140 | the test's valid request passes validation and reaches the service unchanged |
| `Scenarios.ProductCreateThenGet` | src/main/java/com/brenda/inventory/services/ProductService.java:27-58 | reading back a created product gives the response that `create` returned |
| `Scenarios.ProductCreateMissingCategory` | src/main/java/com/brenda/inventory/services/ProductService.java:27-28 | an unknown categoryId fails with "Category not found with id: " + id and writes nothing |
| `Scenarios.ProductDeleteThenGet` | src/main/java/com/brenda/inventory/services/ProductService.java:55-77 | after a delete succeeds, `getById` on that id gives Product NotFound |
| `Scenarios.ProductDeleteThenCreate` | src/main/java/com/brenda/inventory/entity/Product.java:16-18 | a product created after a delete never gets the deleted id |
| `Scenarios.ProductUpdateMissing` | src/main/java/com/brenda/inventory/services/ProductService.java:60-61 | updating an absent product creates no record; a later read still gives NotFound |
| `Scenarios.CategoryCreateThenGet` | src/test/java/com/brenda/inventory/repositories/CategoryRepositoryTest.java:17-29 | reading back a created category gives the same id and name |
| `Scenarios.CategoryDeleteThenGet` | src/main/java/com/brenda/inventory/services/CategoryService.java:36-56 | after a delete succeeds, `getById` on that id gives Category NotFound |
| `Scenarios.RenameMovesProducts` | src/main/java/com/brenda/inventory/services/CategoryService.java:41-47 | after a category rename, filtering products by the new name lists its products, with the new name embedded |
| `Scenarios.DeleteReferencedCategory` | src/main/java/com/brenda/inventory/services/CategoryService.java:49-52 | deleting a referenced category succeeds; that product's row stays unchanged, its `categoryId` is no longer in the category table, and it drops out of the old name's filter |
| `Scenarios.BlankNotionsDiffer` | src/main/java/com/brenda/inventory/services/ProductService.java:44 | the filter's `isBlank` and `@NotBlank`'s `trim()` disagree: an em space is blank to one and not to the other, and so is a NUL |
| `Scenarios.SeedRepositoryTest` | src/test/java/com/brenda/inventory/repositories/ProductRepositoryTest.java:25-54 | creates the test's two categories and three products through the services from an empty store; the tables then hold exactly those rows, with the category links of the test (the ids are the ones the model's counters assign) |
| `Scenarios.ListRopa` | src/test/java/com/brenda/inventory/repositories/ProductRepositoryTest.java:56-63 | filtering by "ropa" lists exactly remera and pantalon, in some order |
| `Scenarios.ListHogar` | src/test/java/com/brenda/inventory/repositories/ProductRepositoryTest.java:66-70 | filtering by a name that no category has gives an empty list, not an error |
| `Scenarios.FilterByCategoryName` | src/test/java/com/brenda/inventory/repositories/ProductRepositoryTest.java:22-70 | the whole repository test, from an empty store |

## Left out

- Controllers, routing and HTTP status codes: the model has no HTTP layer. A NotFound result carries
  its message, which is the 404 body. `Validate` gives the field errors that form the 400 body.
- The exception handler that builds the 400 body is not part of this model. When one field fails
  two constraints, the model keeps both messages.
- JSON binding, Lombok accessors and dependency injection: these are framework plumbing with no logic
  of their own.
- `CategoryCreateRequest`, `CategoryUpdateRequest` and `ProductUpdateRequest` are not part of this
  model. Category operations take the name. Product update takes the same checked fields as create.
- Foreign-key enforcement by the database when a referenced category is deleted: the shown code does
  not determine it. The model deletes the row and leaves the product dangling.
  `Products.ProductService.GetById` and `Products.ProductService.GetAll` require that the rows they
  project still have their category, because the source assumes it.
- Persistence failures, transactions and concurrency: the source handles none of them.
- Id generation: the source promises only that the database assigns a fresh, unique id. The model's
  counter sequence 1, 2, 3, ... is one such assignment. The contracts that name exact ids or the
  counter (`Create`, `Database.constructor`, `Scenarios.SeedRepositoryTest`) state the model's
  choice.
- Ids are unbounded integers: the 64-bit range of `Long` and an identity column running out are not
  modelled.
- The order of `findAll` and `findByCategory_Name` results: the store promises none, so the model
  chooses one nondeterministically.
- A null `categoryId` reaching the service: validation rejects it first, so the service takes
  non-null checked fields (`ProductFields`).
