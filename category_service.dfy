/** `CategoryService`: create, list, read, rename and delete categories. */
module Categories {
  import opened Domain
  import opened Persistence

  /** `toResponse`: the category's id and name; the row can be rebuilt from the response. */
  function ToResponse(category: Category): (r: CategoryResponse)
    ensures Category(r.id, r.name) == category
  {
    CategoryResponse(category.id, category.name)
  }

  function ResponseIds(rs: seq<CategoryResponse>): seq<int>
  {
    IdsOf(rs, (r: CategoryResponse) => r.id)
  }

  class CategoryService {
    const db: Database

    constructor (db: Database)
      ensures this.db == db
    {
      this.db := db;
    }

    /** `getOrThrow`: the stored row, or NotFound naming the id. */
    function GetOrThrow(id: int): (r: Result<Category>)
      reads db
      ensures r.Ok? <==> id in db.categories
      ensures r.Ok? ==> r.value == db.categories[id]
      ensures r.Err? ==> r.error == CategoryNotFound(id)
    {
      if id in db.categories then Ok(db.categories[id]) else Err(CategoryNotFound(id))
    }

    /** Stores a new category under a fresh id; names need not be unique. */
    method Create(name: string) returns (r: CategoryResponse)
      requires db.Valid()
      modifies db
      ensures db.Valid()
      ensures r.id !in old(db.categories) && r.name == name
      ensures r.id == old(db.nextCategoryId) && db.nextCategoryId == old(db.nextCategoryId) + 1
      ensures db.categories == old(db.categories)[r.id := Category(r.id, name)]
      ensures db.products == old(db.products) && db.nextProductId == old(db.nextProductId)
      ensures old(db.Linked()) ==> db.Linked()
    {
      var saved := db.InsertCategory(name);
      r := ToResponse(saved);
    }

    /** One response per stored category, in the store's order; nothing changes. */
    method GetAll() returns (r: seq<CategoryResponse>)
      requires db.Valid()
      ensures EachOnce(ResponseIds(r), db.categories.Keys)
      ensures |r| == |db.categories|
      ensures forall i :: 0 <= i < |r| ==>
        r[i].id in db.categories && r[i].name == db.categories[r[i].id].name
    {
      var rows := db.FindAllCategories();
      r := seq(|rows|, i requires 0 <= i < |rows| => ToResponse(rows[i]));
      assert ResponseIds(r) == CategoryIds(rows);
    }

    method GetById(id: int) returns (r: Result<CategoryResponse>)
      requires db.Valid()
      ensures id in db.categories ==> r == Ok(CategoryResponse(id, db.categories[id].name))
      ensures id !in db.categories ==> r == Err(CategoryNotFound(id))
    {
      var found := GetOrThrow(id);
      if found.Err? {
        return Err(found.error);
      }
      r := Ok(ToResponse(found.value));
    }

    /** Renames an existing category; its id and every other row stay as they were. */
    method Update(id: int, name: string) returns (r: Result<CategoryResponse>)
      requires db.Valid()
      modifies db
      ensures db.Valid()
      ensures id !in old(db.categories) ==> r == Err(CategoryNotFound(id)) && unchanged(db)
      ensures id in old(db.categories) ==>
        && r == Ok(CategoryResponse(id, name))
        && db.categories == old(db.categories)[id := Category(id, name)]
        && db.products == old(db.products)
        && db.nextCategoryId == old(db.nextCategoryId) && db.nextProductId == old(db.nextProductId)
      ensures old(db.Linked()) ==> db.Linked()
    {
      var found := GetOrThrow(id);
      if found.Err? {
        return Err(found.error);
      }
      var category := found.value.(name := name);
      db.SaveCategory(category);
      r := Ok(ToResponse(category));
    }

    /** Removes an existing category without looking at the products that reference it. */
    method Delete(id: int) returns (r: Outcome)
      requires db.Valid()
      modifies db
      ensures db.Valid()
      ensures id !in old(db.categories) ==> r == Failed(CategoryNotFound(id)) && unchanged(db)
      ensures id in old(db.categories) ==>
        && r == Done
        && db.categories == old(db.categories) - {id}
        && db.products == old(db.products)
        && db.nextCategoryId == old(db.nextCategoryId) && db.nextProductId == old(db.nextProductId)
    {
      var found := GetOrThrow(id);
      if found.Err? {
        return Failed(found.error);
      }
      db.DeleteCategory(found.value.id);
      r := Done;
    }
  }
}
