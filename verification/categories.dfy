/** `shop/controllers/category.py` over `shop/dal/category.py`: the category tree, whose parent
    link is stored as given. */
module Categories {
  import opened Wrappers
  import opened Store
  import opened Models

  /** `create_category`: a new category under the next key; without a parent it is a root. */
  function CreateCategory(categories: Table<Category>, name: string, parent: Option<nat>): (t: Table<Category>)
    ensures Get(t, categories.nextId) == Ok(Category(name, parent))
    ensures parent.None? ==> CategoryStr(Get(t, categories.nextId).value) == "Category " + name
    ensures forall k :: k != categories.nextId ==> Get(t, k) == Get(categories, k)
  {
    Insert(categories, Category(name, parent))
  }

  /** `get_category`: the stored category, or `Http404`. */
  function GetCategory(categories: Table<Category>, pk: nat): (r: Result<Category>)
    ensures r.Ok? ==> Row(pk, r.value) in categories.rows
    ensures r.Err? ==> r == Err(NotFound) && !Has(categories, pk)
  {
    Get(categories, pk)
  }

  /** `update_category`: replaces the name and the parent; a call without a parent makes the
      category a root, whatever its parent was. */
  function UpdateCategory(categories: Table<Category>, pk: nat, name: string, parent: Option<nat>): (r: Result<Table<Category>>)
    ensures r.Ok? <==> Has(categories, pk)
    ensures r.Err? ==> r.error == NotFound
    ensures r.Ok? ==> Get(r.value, pk) == Ok(Category(name, parent))
    ensures r.Ok? && parent.None? ==> Get(r.value, pk).value.parent.None?
    ensures r.Ok? ==> forall k :: k != pk ==> Get(r.value, k) == Get(categories, k)
  {
    var _ :- GetCategory(categories, pk);
    Ok(Update(categories, pk, Category(name, parent)))
  }

  /** `delete_category`: removes an existing category; an unknown key is `Http404` and removes nothing. */
  function DeleteCategory(categories: Table<Category>, pk: nat): (r: Result<Table<Category>>)
    ensures r.Ok? <==> Has(categories, pk)
    ensures r.Err? ==> r.error == NotFound
    ensures r.Ok? ==> forall k :: Get(r.value, k) == if k == pk then Err(NotFound) else Get(categories, k)
  {
    var _ :- GetCategory(categories, pk);
    Ok(Delete(categories, pk))
  }

  /** No cycle check guards the parent link: an existing category can be made its own parent. */
  lemma SelfParentIsAccepted(categories: Table<Category>, pk: nat, name: string)
    requires Has(categories, pk)
    ensures var r := UpdateCategory(categories, pk, name, Some(pk));
      r.Ok? && Get(r.value, pk).value.parent == Some(pk)
  {
  }
}
