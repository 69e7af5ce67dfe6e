/** `shop/controllers/product_material.py` over `shop/dal/product_material.py`, with the
    rename flow of the material view's `put` that skips validation for an unchanged name. */
module Materials {
  import opened Wrappers
  import opened Store
  import opened Models

  /** The products a `products` argument links: none when it is missing or empty. */
  function Linked(products: Option<seq<nat>>): set<nat> {
    if products.Some? && |products.value| > 0 then set p | p in products.value else {}
  }

  /** `create_material`: a new material under the next key, linked to the given products only
      when the list is non-empty. */
  function CreateMaterial(materials: Table<Material>, name: string, products: Option<seq<nat>>): (t: Table<Material>)
    ensures Has(t, materials.nextId)
    ensures Get(t, materials.nextId).value.name == name
    ensures forall p :: p in Get(t, materials.nextId).value.products <==> products.Some? && p in products.value
    ensures forall k :: k != materials.nextId ==> Get(t, k) == Get(materials, k)
  {
    var t := Insert(materials, Material(name, {}));
    assert Get(t, materials.nextId).Ok?;
    if products.Some? && |products.value| > 0 then
      Update(t, materials.nextId, Material(name, Linked(products)))
    else t
  }

  /** `get_material`: the stored material, or `Http404`. */
  function GetMaterial(materials: Table<Material>, pk: nat): (r: Result<Material>)
    ensures r.Ok? ==> Row(pk, r.value) in materials.rows
    ensures r.Err? ==> r == Err(NotFound) && !Has(materials, pk)
  {
    Get(materials, pk)
  }

  /** `update_material`: renames the material and keeps its product links. */
  function UpdateMaterial(materials: Table<Material>, pk: nat, name: string): (r: Result<Table<Material>>)
    ensures r.Ok? <==> Has(materials, pk)
    ensures r.Err? ==> r.error == NotFound
    ensures r.Ok? ==> Get(r.value, pk) == Ok(Material(name, Get(materials, pk).value.products))
    ensures r.Ok? ==> forall k :: k != pk ==> Get(r.value, k) == Get(materials, k)
  {
    var m :- GetMaterial(materials, pk);
    Ok(Update(materials, pk, m.(name := name)))
  }

  /** `delete_material`: removes an existing material; an unknown key is `Http404` and removes nothing. */
  function DeleteMaterial(materials: Table<Material>, pk: nat): (r: Result<Table<Material>>)
    ensures r.Ok? <==> Has(materials, pk)
    ensures r.Err? ==> r.error == NotFound
    ensures r.Ok? ==> forall k :: Get(r.value, k) == if k == pk then Err(NotFound) else Get(materials, k)
  {
    var _ :- GetMaterial(materials, pk);
    Ok(Delete(materials, pk))
  }

  /** `is_the_same_name`: whether `newName` is the stored material's name. */
  function IsTheSameName(materials: Table<Material>, pk: nat, newName: string): (r: Result<bool>)
    ensures r.Ok? <==> Has(materials, pk)
    ensures r.Err? ==> r.error == NotFound
    ensures r.Ok? ==> (r.value <==> exists m :: Row(pk, m) in materials.rows && m.name == newName)
  {
    var m :- GetMaterial(materials, pk);
    assert forall m' :: Row(pk, m') in materials.rows ==> m' == m by {
      forall m' | Row(pk, m') in materials.rows ensures m' == m {
        KeyIsUnique(materials, pk, m', m);
      }
    }
    Ok(newName == m.name)
  }

  /** The material view's `put`: the name is compared with the stored one as it was submitted, and
      an unchanged name succeeds without validating or writing. Otherwise the input serializer's
      outcome `validated` decides: an error is the response, and a valid request stores the name
      the serializer cleaned (a `CharField` trims surrounding blanks), not the raw submission. */
  function PutMaterial(materials: Table<Material>, pk: nat, submitted: string, validated: Result<string>): (r: Result<Table<Material>>)
    ensures !Has(materials, pk) ==> r == Err(NotFound)
    ensures Has(materials, pk) && Get(materials, pk).value.name == submitted ==> r == Ok(materials)
    ensures Has(materials, pk) && Get(materials, pk).value.name != submitted && validated.Err? ==>
      r == Err(validated.error)
    ensures Has(materials, pk) && Get(materials, pk).value.name != submitted && validated.Ok? ==>
      r.Ok? && Get(r.value, pk) == Ok(Material(validated.value, Get(materials, pk).value.products))
    ensures r.Ok? ==> forall k :: k != pk ==> Get(r.value, k) == Get(materials, k)
  {
    var same :- IsTheSameName(materials, pk, submitted);
    if same then Ok(materials)
    else
      var name :- validated;
      UpdateMaterial(materials, pk, name)
  }

  /** Renaming a material to its own name leaves the table exactly as it was, valid input or not. */
  lemma RenameToSameNameIsNoOp(materials: Table<Material>, pk: nat, validated: Result<string>)
    requires Has(materials, pk)
    ensures PutMaterial(materials, pk, Get(materials, pk).value.name, validated) == Ok(materials)
  {
  }
}
