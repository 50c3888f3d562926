/** `ProductService`: products that each belong to a category resolved from its id. */
module Products {
  import opened Domain
  import opened Persistence

  /** `Character.isWhitespace`: the Unicode space, line and paragraph separators other than the
      non-breaking ones (U+00A0, U+2007, U+202F), the controls U+0009 to U+000D, and U+001C to U+001F. */
  predicate IsWhitespace(c: char)
  {
    var n := c as int;
    || 0x09 <= n <= 0x0D || 0x1C <= n <= 0x20
    || n == 0x1680 || 0x2000 <= n <= 0x2006 || 0x2008 <= n <= 0x200A
    || n == 0x2028 || n == 0x2029 || n == 0x205F || n == 0x3000
  }

  /** `String.isBlank`: scans from the start for a character that is not whitespace, and is blank
      when it finds none. */
  predicate IsBlank(s: string): (b: bool)
    ensures b <==> forall i :: 0 <= i < |s| ==> IsWhitespace(s[i])
  {
    s == [] || (IsWhitespace(s[0]) && IsBlank(s[1..]))
  }

  /** `getAll` lists every product when the category filter is null or blank. */
  predicate ListsAll(filter: Option<string>)
  {
    filter.None? || IsBlank(filter.value)
  }

  /** The no-break spaces are not whitespace to Java, so a filter made of them selects by name;
      other Unicode spaces, tabs and line breaks list every product. */
  lemma BlankFilters()
    ensures !ListsAll(Some("\U{00A0}")) && !ListsAll(Some("\U{2007}")) && !ListsAll(Some("\U{202F}"))
    ensures ListsAll(None) && ListsAll(Some("")) && ListsAll(Some(" \t\n")) && ListsAll(Some("\U{2003}\U{3000}"))
  {
  }

  function ResponseIds(rs: seq<ProductResponse>): seq<int>
  {
    IdsOf(rs, (r: ProductResponse) => r.id)
  }

  /** The product row that `fields` describes, stored under `id`. */
  function RowOf(id: int, fields: ProductFields): (p: Product)
  {
    Product(id, fields.name, fields.description, fields.price, fields.stock, fields.categoryId)
  }

  /** The product row a response describes: its fields, with the embedded category's id as the join column. */
  function ResponseRow(r: ProductResponse): Product
  {
    Product(r.id, r.name, r.description, r.price, r.stock, r.category.id)
  }

  class ProductService {
    const db: Database

    constructor (db: Database)
      ensures this.db == db
    {
      this.db := db;
    }

    /** `getProductOrThrow`. */
    function GetProductOrThrow(id: int): (r: Result<Product>)
      reads db
      ensures r.Ok? <==> id in db.products
      ensures r.Ok? ==> r.value == db.products[id]
      ensures r.Err? ==> r.error == ProductNotFound(id)
    {
      if id in db.products then Ok(db.products[id]) else Err(ProductNotFound(id))
    }

    /** `getCategoryOrThrow`. */
    function GetCategoryOrThrow(id: int): (r: Result<Category>)
      reads db
      ensures r.Ok? <==> id in db.categories
      ensures r.Ok? ==> r.value == db.categories[id]
      ensures r.Err? ==> r.error == CategoryNotFound(id)
    {
      if id in db.categories then Ok(db.categories[id]) else Err(CategoryNotFound(id))
    }

    /** `toResponse`: the product's own fields with its category's id and current name embedded.
        Nothing of the row is lost: it can be rebuilt from the response. */
    function ToResponse(product: Product): (r: ProductResponse)
      reads db
      requires product.categoryId in db.categories
      ensures ResponseRow(r) == product
      ensures r.category.name == db.categories[product.categoryId].name
    {
      var category := db.categories[product.categoryId];
      // The joined category's id is the join column's value.
      ProductResponse(product.id, product.name, product.description, product.price, product.stock,
                      CategoryResponse(product.categoryId, category.name))
    }

    /** The response keeps every column of the row, the join column included. */
    lemma ResponseKeepsRow(p: Product, q: Product)
      requires p.categoryId in db.categories && q.categoryId in db.categories
      ensures ToResponse(p) == ToResponse(q) <==> p == q
      ensures ToResponse(p).category.id == p.categoryId
      ensures ToResponse(p).category.name == db.categories[p.categoryId].name
    {
    }

    /** The rows `getAll(filter)` lists. */
    function Selected(filter: Option<string>): (table: map<int, Product>)
      reads db
      ensures ListsAll(filter) ==> table == db.products
      ensures !ListsAll(filter) ==> forall id :: id in table <==>
        && id in db.products
        && db.products[id].categoryId in db.categories
        && db.categories[db.products[id].categoryId].name == filter.value
      ensures forall id :: id in table ==> id in db.products && table[id] == db.products[id]
    {
      if ListsAll(filter) then db.products else db.ProductsInCategory(filter.value)
    }

    /** Resolves the category first and writes nothing when it is missing. */
    method Create(fields: ProductFields) returns (r: Result<ProductResponse>)
      requires db.Valid()
      modifies db
      ensures db.Valid()
      ensures fields.categoryId !in old(db.categories) ==>
        r == Err(CategoryNotFound(fields.categoryId)) && unchanged(db)
      ensures fields.categoryId in old(db.categories) ==>
        && r.Ok?
        && r.value.id !in old(db.products)
        && r.value.id == old(db.nextProductId) && db.nextProductId == old(db.nextProductId) + 1
        && r.value == ProductResponse(r.value.id, fields.name, fields.description, fields.price, fields.stock,
                                      CategoryResponse(fields.categoryId, old(db.categories)[fields.categoryId].name))
        && db.products == old(db.products)[r.value.id := RowOf(r.value.id, fields)]
        && db.categories == old(db.categories) && db.nextCategoryId == old(db.nextCategoryId)
      ensures old(db.Linked()) ==> db.Linked()
    {
      var found := GetCategoryOrThrow(fields.categoryId);
      if found.Err? {
        return Err(found.error);
      }
      var saved := db.InsertProduct(fields);
      r := Ok(ToResponse(saved));
    }

    /** One response per selected row, in the store's order; nothing changes. */
    method GetAll(filter: Option<string>) returns (r: seq<ProductResponse>)
      requires db.Valid()
      requires ListsAll(filter) ==> db.Linked()
      ensures EachOnce(ResponseIds(r), Selected(filter).Keys)
      ensures |r| == |Selected(filter)|
      ensures forall i :: 0 <= i < |r| ==>
        && r[i].id in Selected(filter)
        && db.products[r[i].id].categoryId in db.categories
        && r[i] == ToResponse(db.products[r[i].id])
    {
      var rows: seq<Product>;
      if filter.None? || IsBlank(filter.value) {
        rows := db.FindAllProducts();
      } else {
        rows := db.FindProductsByCategoryName(filter.value);
      }
      ghost var table := Selected(filter);
      assert EachOnce(ProductIds(rows), table.Keys);
      assert forall i :: 0 <= i < |rows| ==> rows[i].id in table && rows[i] == db.products[rows[i].id] by {
        forall i | 0 <= i < |rows| ensures rows[i].id in table {
          assert ProductIds(rows)[i] == rows[i].id;
          assert rows[i].id in multiset(ProductIds(rows));
        }
      }
      r := seq(|rows|, i requires 0 <= i < |rows| && rows[i].categoryId in db.categories reads db =>
                         ToResponse(rows[i]));
      assert ResponseIds(r) == ProductIds(rows);
    }

    method GetById(id: int) returns (r: Result<ProductResponse>)
      requires db.Valid()
      requires id in db.products ==> db.products[id].categoryId in db.categories
      ensures id !in db.products ==> r == Err(ProductNotFound(id))
      ensures id in db.products ==>
        var p := db.products[id];
        r == Ok(ProductResponse(id, p.name, p.description, p.price, p.stock,
                                CategoryResponse(p.categoryId, db.categories[p.categoryId].name)))
    {
      var found := GetProductOrThrow(id);
      if found.Err? {
        return Err(found.error);
      }
      r := Ok(ToResponse(found.value));
    }

    /** Looks up the product, then the category, then replaces all five fields of the row. */
    method Update(id: int, fields: ProductFields) returns (r: Result<ProductResponse>)
      requires db.Valid()
      modifies db
      ensures db.Valid()
      ensures id !in old(db.products) ==> r == Err(ProductNotFound(id)) && unchanged(db)
      ensures id in old(db.products) && fields.categoryId !in old(db.categories) ==>
        r == Err(CategoryNotFound(fields.categoryId)) && unchanged(db)
      ensures id in old(db.products) && fields.categoryId in old(db.categories) ==>
        && r == Ok(ProductResponse(id, fields.name, fields.description, fields.price, fields.stock,
                                   CategoryResponse(fields.categoryId, old(db.categories)[fields.categoryId].name)))
        && db.products == old(db.products)[id := RowOf(id, fields)]
        && db.categories == old(db.categories)
        && db.nextCategoryId == old(db.nextCategoryId) && db.nextProductId == old(db.nextProductId)
      ensures old(db.Linked()) ==> db.Linked()
    {
      var foundProduct := GetProductOrThrow(id);
      if foundProduct.Err? {
        return Err(foundProduct.error);
      }
      var foundCategory := GetCategoryOrThrow(fields.categoryId);
      if foundCategory.Err? {
        return Err(foundCategory.error);
      }
      var product := foundProduct.value.(name := fields.name, description := fields.description,
                                         price := fields.price, stock := fields.stock,
                                         categoryId := foundCategory.value.id);
      db.SaveProduct(product);
      r := Ok(ToResponse(product));
    }

    /** Removes the product once it has been found. */
    method Delete(id: int) returns (r: Outcome)
      requires db.Valid()
      modifies db
      ensures db.Valid()
      ensures id !in old(db.products) ==> r == Failed(ProductNotFound(id)) && unchanged(db)
      ensures id in old(db.products) ==>
        && r == Done
        && db.products == old(db.products) - {id}
        && db.categories == old(db.categories)
        && db.nextCategoryId == old(db.nextCategoryId) && db.nextProductId == old(db.nextProductId)
      ensures old(db.Linked()) ==> db.Linked()
    {
      var found := GetProductOrThrow(id);
      if found.Err? {
        return Failed(found.error);
      }
      db.DeleteProduct(found.value.id);
      r := Done;
    }
  }
}
