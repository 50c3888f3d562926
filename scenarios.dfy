/** Sequences of service calls and what the services' contracts let a caller conclude about them. */
module Scenarios {
  import opened Domain
  import opened Persistence
  import Categories
  import Products
  import Validation

  /** A product created under an existing category reads back as the response `create` returned. */
  method ProductCreateThenGet(service: Products.ProductService, fields: ProductFields)
    returns (created: Result<ProductResponse>, fetched: Result<ProductResponse>)
    requires service.db.Valid() && fields.categoryId in service.db.categories
    modifies service.db
    ensures created.Ok? && fetched == created
    ensures created.value.name == fields.name && created.value.category.id == fields.categoryId
  {
    created := service.Create(fields);
    fetched := service.GetById(created.value.id);
  }

  /** A missing category makes `create` fail with its message, and nothing is written. */
  method ProductCreateMissingCategory(service: Products.ProductService, fields: ProductFields)
    returns (created: Result<ProductResponse>)
    requires service.db.Valid() && fields.categoryId !in service.db.categories
    modifies service.db
    ensures created == Err(CategoryNotFound(fields.categoryId))
    ensures created.error.message == "Category not found with id: " + IntToString(fields.categoryId)
    ensures unchanged(service.db)
  {
    created := service.Create(fields);
  }

  /** After a successful delete, reading the same id fails with NotFound. */
  method ProductDeleteThenGet(service: Products.ProductService, id: int)
    returns (deleted: Outcome, fetched: Result<ProductResponse>)
    requires service.db.Valid() && id in service.db.products
    modifies service.db
    ensures deleted == Done && fetched == Err(ProductNotFound(id))
  {
    deleted := service.Delete(id);
    fetched := service.GetById(id);
  }

  /** The identity column never hands a deleted product's id to a new product. */
  method ProductDeleteThenCreate(service: Products.ProductService, id: int, fields: ProductFields)
    returns (created: Result<ProductResponse>)
    requires service.db.Valid() && id in service.db.products
    modifies service.db
    ensures created.Ok? ==> created.value.id != id
    ensures id !in service.db.products
  {
    var _ := service.Delete(id);
    created := service.Create(fields);
  }

  /** An update of a missing product creates nothing, whatever category it names. */
  method ProductUpdateMissing(service: Products.ProductService, id: int, fields: ProductFields)
    returns (updated: Result<ProductResponse>, fetched: Result<ProductResponse>)
    requires service.db.Valid() && id !in service.db.products
    modifies service.db
    ensures updated == Err(ProductNotFound(id)) && fetched == Err(ProductNotFound(id))
    ensures unchanged(service.db)
  {
    updated := service.Update(id, fields);
    fetched := service.GetById(id);
  }

  /** A created category reads back with the same id and name. */
  method CategoryCreateThenGet(service: Categories.CategoryService, name: string)
    returns (created: CategoryResponse, fetched: Result<CategoryResponse>)
    requires service.db.Valid()
    modifies service.db
    ensures fetched == Ok(created) && created.name == name
  {
    created := service.Create(name);
    fetched := service.GetById(created.id);
  }

  /** After a successful category delete, reading the same id fails with NotFound. */
  method CategoryDeleteThenGet(service: Categories.CategoryService, id: int)
    returns (deleted: Outcome, fetched: Result<CategoryResponse>)
    requires service.db.Valid() && id in service.db.categories
    modifies service.db
    ensures deleted == Done && fetched == Err(CategoryNotFound(id))
  {
    deleted := service.Delete(id);
    fetched := service.GetById(id);
  }

  /** Products join their category when read, so a rename moves them under the new name. */
  method RenameMovesProducts(categories: Categories.CategoryService, products: Products.ProductService,
                             productId: int, newName: string)
    returns (listed: seq<ProductResponse>)
    requires categories.db == products.db && products.db.Valid()
    requires productId in products.db.products
    requires products.db.products[productId].categoryId in products.db.categories
    requires !Products.IsBlank(newName)
    modifies products.db
    ensures exists i :: 0 <= i < |listed| && listed[i].id == productId && listed[i].category.name == newName
  {
    var categoryId := products.db.products[productId].categoryId;
    var _ := categories.Update(categoryId, newName);
    listed := products.GetAll(Some(newName));
    assert productId in multiset(Products.ResponseIds(listed));
  }

  /** Deleting a category that a product still references leaves that product behind: its row is
      unchanged, it references nothing, and the filter by the old name no longer lists it. */
  method DeleteReferencedCategory(categories: Categories.CategoryService, products: Products.ProductService,
                                  productId: int)
    returns (deleted: Outcome, listed: seq<ProductResponse>)
    requires categories.db == products.db && products.db.Valid()
    requires productId in products.db.products
    requires products.db.products[productId].categoryId in products.db.categories
    requires !Products.IsBlank(products.db.categories[products.db.products[productId].categoryId].name)
    modifies products.db
    ensures deleted == Done
    ensures productId in products.db.products && products.db.products[productId] == old(products.db.products[productId])
    ensures products.db.products[productId].categoryId !in products.db.categories
    ensures !products.db.Linked()
    ensures forall i :: 0 <= i < |listed| ==> listed[i].id != productId
  {
    var categoryId := products.db.products[productId].categoryId;
    var oldName := products.db.categories[categoryId].name;
    deleted := categories.Delete(categoryId);
    listed := products.GetAll(Some(oldName));
    forall i | 0 <= i < |listed| ensures listed[i].id != productId {
      assert listed[i].id in products.Selected(Some(oldName));
    }
  }

  /** The filter of `getAll` and `@NotBlank` disagree on blankness: an em space is blank to the
      filter but passes `@NotBlank`, and a NUL fails `@NotBlank` but is no blank filter. */
  lemma BlankNotionsDiffer()
    ensures Products.IsBlank("\U{2003}") && Validation.NotBlank(Some("\U{2003}"))
    ensures !Products.IsBlank("\U{0000}") && !Validation.NotBlank(Some("\U{0000}"))
  {
    assert "\U{2003}"[0] > ' ';
  }

  ghost predicate RepositoryTestRows(db: Database)
    reads db
  {
    && db.Valid()
    && db.categories == map[1 := Category(1, "ropa"), 2 := Category(2, "tecnologia")]
    && db.products == map[1 := Product(1, "remera", Some("algodon"), 1000, 10, 1),
                          2 := Product(2, "pantalon", Some("jean"), 2000, 5, 1),
                          3 := Product(3, "mouse", Some("inalambrico"), 3000, 7, 2)]
  }

  /** The rows of the repository test: "ropa" holds remera and pantalon, "tecnologia" holds mouse. */
  method SeedRepositoryTest() returns (db: Database, products: Products.ProductService)
    ensures fresh(db) && products.db == db && RepositoryTestRows(db)
  {
    db := new Database();
    var categories := new Categories.CategoryService(db);
    products := new Products.ProductService(db);
    var ropa := categories.Create("ropa");
    var tecnologia := categories.Create("tecnologia");
    var _ := products.Create(ProductFields("remera", Some("algodon"), 1000, 10, ropa.id));
    var _ := products.Create(ProductFields("pantalon", Some("jean"), 2000, 5, ropa.id));
    var _ := products.Create(ProductFields("mouse", Some("inalambrico"), 3000, 7, tecnologia.id));
  }

  /** Filtering by "ropa" lists exactly remera and pantalon, in some order. */
  method ListRopa(products: Products.ProductService) returns (listed: seq<ProductResponse>)
    requires RepositoryTestRows(products.db)
    ensures |listed| == 2
    ensures exists i :: 0 <= i < 2 && listed[i].name == "remera"
    ensures exists i :: 0 <= i < 2 && listed[i].name == "pantalon"
    ensures forall i :: 0 <= i < 2 ==> listed[i].category == CategoryResponse(1, "ropa")
  {
    assert !Products.IsWhitespace("ropa"[0]);
    assert products.Selected(Some("ropa")).Keys == {1, 2};
    listed := products.GetAll(Some("ropa"));
    var ids := Products.ResponseIds(listed);
    assert 1 in multiset(ids) && 2 in multiset(ids);
  }

  /** Filtering by a name no category has lists nothing, and is no error. */
  method ListHogar(products: Products.ProductService) returns (listed: seq<ProductResponse>)
    requires RepositoryTestRows(products.db)
    ensures listed == []
  {
    assert !Products.IsWhitespace("hogar"[0]);
    assert products.Selected(Some("hogar")) == map[];
    listed := products.GetAll(Some("hogar"));
  }

  /** The repository test end to end, from an empty store. */
  method FilterByCategoryName()
    returns (ropaListing: seq<ProductResponse>, hogarListing: seq<ProductResponse>)
    ensures |ropaListing| == 2
    ensures exists i :: 0 <= i < 2 && ropaListing[i].name == "remera"
    ensures exists i :: 0 <= i < 2 && ropaListing[i].name == "pantalon"
    ensures hogarListing == []
  {
    var db, products := SeedRepositoryTest();
    ropaListing := ListRopa(products);
    hogarListing := ListHogar(products);
  }
}
