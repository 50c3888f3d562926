/** The two repositories as in-memory tables with identity columns. */
module Persistence {
  import opened Domain

  /** `ids` lists every key of the table exactly once, in some order. */
  ghost predicate EachOnce<K>(ids: seq<K>, keys: set<K>)
  {
    multiset(ids) == multiset(keys)
  }

  function CategoryIds(rows: seq<Category>): seq<int>
  {
    IdsOf(rows, (c: Category) => c.id)
  }

  function ProductIds(rows: seq<Product>): seq<int>
  {
    IdsOf(rows, (p: Product) => p.id)
  }

  /** Every key once, in an order the store chooses (`findAll` promises no order). */
  method KeysInStoreOrder<K>(keys: set<K>) returns (ids: seq<K>)
    ensures EachOnce(ids, keys)
    ensures |ids| == |keys|
    ensures forall i :: 0 <= i < |ids| ==> ids[i] in keys
  {
    ids := [];
    var remaining := keys;
    while remaining != {}
      invariant remaining <= keys
      invariant multiset(ids) + multiset(remaining) == multiset(keys)
      invariant forall i :: 0 <= i < |ids| ==> ids[i] in keys
      decreases remaining
    {
      var k :| k in remaining;
      assert multiset(remaining) == multiset(remaining - {k}) + multiset{k} by {
        assert remaining == (remaining - {k}) + {k};
      }
      ids := ids + [k];
      remaining := remaining - {k};
    }
    assert remaining == {};
  }

  class Database {
    var categories: map<int, Category>
    var products: map<int, Product>
    /** The next value of each identity column; values are never reused. */
    var nextCategoryId: int
    var nextProductId: int

    /** Each row sits under its own id, and every id is positive and below its counter. */
    ghost predicate Valid()
      reads this
    {
      && 1 <= nextCategoryId && 1 <= nextProductId
      && (forall id :: id in categories ==> categories[id].id == id && 1 <= id < nextCategoryId)
      && (forall id :: id in products ==> products[id].id == id && 1 <= id < nextProductId)
    }

    /** Every product's join column names a stored category. */
    predicate Linked()
      reads this
    {
      forall id :: id in products ==> products[id].categoryId in categories
    }

    /** The rows `findByCategory_Name` selects: the inner join on the category, filtered by its name. */
    function ProductsInCategory(name: string): (table: map<int, Product>)
      reads this
      ensures table.Keys <= products.Keys
      ensures forall id :: id in table <==>
        id in products && products[id].categoryId in categories && categories[products[id].categoryId].name == name
      ensures forall id :: id in table ==> table[id] == products[id]
    {
      map id | id in products && products[id].categoryId in categories
                              && categories[products[id].categoryId].name == name :: products[id]
    }

    constructor ()
      ensures Valid() && Linked()
      ensures categories == map[] && products == map[]
      ensures nextCategoryId == 1 && nextProductId == 1
    {
      categories, products := map[], map[];
      nextCategoryId, nextProductId := 1, 1;
    }

    // --- CategoryRepository ---------------------------------------------------

    method FindAllCategories() returns (rows: seq<Category>)
      requires Valid()
      ensures EachOnce(CategoryIds(rows), categories.Keys) && |rows| == |categories|
      ensures forall i :: 0 <= i < |rows| ==> rows[i].id in categories && categories[rows[i].id] == rows[i]
    {
      var table := categories;
      var ids := KeysInStoreOrder(table.Keys);
      rows := seq(|ids|, i requires 0 <= i < |ids| => table[ids[i]]);
      assert forall i :: 0 <= i < |ids| ==> rows[i].id == ids[i];
      assert CategoryIds(rows) == ids;
    }

    /** `save` of a new category: the identity column supplies a fresh id. */
    method InsertCategory(name: string) returns (saved: Category)
      requires Valid()
      modifies this
      ensures Valid()
      ensures saved.id !in old(categories) && saved == Category(old(nextCategoryId), name)
      ensures categories == old(categories)[saved.id := saved]
      ensures products == old(products) && nextProductId == old(nextProductId)
      ensures nextCategoryId == old(nextCategoryId) + 1
    {
      saved := Category(nextCategoryId, name);
      categories := categories[saved.id := saved];
      nextCategoryId := nextCategoryId + 1;
    }

    /** `save` of an existing category: overwrites its row. */
    method SaveCategory(category: Category)
      requires Valid() && category.id in categories
      modifies this
      ensures Valid()
      ensures categories == old(categories)[category.id := category]
      ensures products == old(products)
      ensures nextCategoryId == old(nextCategoryId) && nextProductId == old(nextProductId)
    {
      categories := categories[category.id := category];
    }

    method DeleteCategory(id: int)
      requires Valid()
      modifies this
      ensures Valid()
      ensures categories == old(categories) - {id}
      ensures products == old(products)
      ensures nextCategoryId == old(nextCategoryId) && nextProductId == old(nextProductId)
    {
      categories := categories - {id};
    }

    // --- ProductRepository ----------------------------------------------------

    method FindAllProducts() returns (rows: seq<Product>)
      requires Valid()
      ensures EachOnce(ProductIds(rows), products.Keys) && |rows| == |products|
      ensures forall i :: 0 <= i < |rows| ==> rows[i].id in products && products[rows[i].id] == rows[i]
    {
      var table := products;
      var ids := KeysInStoreOrder(table.Keys);
      rows := seq(|ids|, i requires 0 <= i < |ids| => table[ids[i]]);
      assert forall i :: 0 <= i < |ids| ==> rows[i].id == ids[i];
      assert ProductIds(rows) == ids;
    }

    /** `findByCategory_Name`: exactly the products whose category is named `name`. */
    method FindProductsByCategoryName(name: string) returns (rows: seq<Product>)
      requires Valid()
      ensures EachOnce(ProductIds(rows), ProductsInCategory(name).Keys) && |rows| == |ProductsInCategory(name)|
      ensures forall i :: 0 <= i < |rows| ==> rows[i].id in products && products[rows[i].id] == rows[i]
      ensures forall i :: 0 <= i < |rows| ==>
        rows[i].categoryId in categories && categories[rows[i].categoryId].name == name
    {
      var selected := ProductsInCategory(name);
      var ids := KeysInStoreOrder(selected.Keys);
      rows := seq(|ids|, i requires 0 <= i < |ids| => selected[ids[i]]);
      assert forall i :: 0 <= i < |ids| ==> rows[i].id == ids[i];
      assert ProductIds(rows) == ids;
    }

    /** `save` of a new product: the identity column supplies a fresh id. */
    method InsertProduct(fields: ProductFields) returns (saved: Product)
      requires Valid()
      modifies this
      ensures Valid()
      ensures saved.id !in old(products)
      ensures saved == Product(old(nextProductId), fields.name, fields.description,
                               fields.price, fields.stock, fields.categoryId)
      ensures products == old(products)[saved.id := saved]
      ensures categories == old(categories) && nextCategoryId == old(nextCategoryId)
      ensures nextProductId == old(nextProductId) + 1
    {
      saved := Product(nextProductId, fields.name, fields.description, fields.price, fields.stock, fields.categoryId);
      products := products[saved.id := saved];
      nextProductId := nextProductId + 1;
    }

    /** `save` of an existing product: overwrites its row. */
    method SaveProduct(product: Product)
      requires Valid() && product.id in products
      modifies this
      ensures Valid()
      ensures products == old(products)[product.id := product]
      ensures categories == old(categories)
      ensures nextCategoryId == old(nextCategoryId) && nextProductId == old(nextProductId)
    {
      products := products[product.id := product];
    }

    method DeleteProduct(id: int)
      requires Valid()
      modifies this
      ensures Valid()
      ensures products == old(products) - {id}
      ensures categories == old(categories)
      ensures nextCategoryId == old(nextCategoryId) && nextProductId == old(nextProductId)
    {
      products := products - {id};
    }
  }
}
