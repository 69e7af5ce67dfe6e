/** `shop/controllers/address.py` over `shop/dal/address.py`: per-user address book. */
module Addresses {
  import opened Wrappers
  import opened Seqs
  import opened Store
  import opened Models
  import opened Permissions

  function AddressOwner(a: Address): nat {
    a.user
  }

  /** `get_address_list`: all addresses for staff, otherwise exactly the requester's own, in table order. */
  function GetAddressList(addresses: Table<Address>, requester: Requester): (r: seq<Row<Address>>)
    ensures requester.IsStaff() ==> r == addresses.rows
    ensures !requester.IsStaff() ==> forall i :: 0 <= i < |r| ==> requester.Is(r[i].rec.user)
    ensures forall i :: 0 <= i < |addresses.rows| && requester.Is(addresses.rows[i].rec.user) ==> addresses.rows[i] in r
    ensures IsSubsequence(r, addresses.rows)
  {
    ListFor(addresses.rows, requester, AddressOwner)
  }

  /** `create_address`: the new address belongs to the requesting user, whatever the payload said. */
  function CreateAddress(addresses: Table<Address>, user: nat, fields: AddressFields): (t: Table<Address>)
    ensures Get(t, addresses.nextId) == Ok(Address(user, fields))
    ensures forall k :: k != addresses.nextId ==> Get(t, k) == Get(addresses, k)
  {
    Insert(addresses, Address(user, fields))
  }

  /** `get_address`: the stored address, or `Http404`. */
  function GetAddress(addresses: Table<Address>, pk: nat): (r: Result<Address>)
    ensures r.Ok? ==> Row(pk, r.value) in addresses.rows
    ensures r.Err? ==> r == Err(NotFound) && !Has(addresses, pk)
  {
    Get(addresses, pk)
  }

  /** `update_address`: the seven address fields are replaced, the owner is kept; an unknown key
      is `Http404` and changes nothing. */
  function UpdateAddress(addresses: Table<Address>, pk: nat, fields: AddressFields): (r: Result<Table<Address>>)
    ensures r.Ok? <==> Has(addresses, pk)
    ensures r.Err? ==> r.error == NotFound
    ensures r.Ok? ==> Get(r.value, pk) == Ok(Address(Get(addresses, pk).value.user, fields))
    ensures r.Ok? ==> forall k :: k != pk ==> Get(r.value, k) == Get(addresses, k)
  {
    var a :- GetAddress(addresses, pk);
    Ok(Update(addresses, pk, a.(fields := fields)))
  }

  /** `delete_address`: removes an existing address; an unknown key is `Http404` and removes nothing. */
  function DeleteAddress(addresses: Table<Address>, pk: nat): (r: Result<Table<Address>>)
    ensures r.Ok? <==> Has(addresses, pk)
    ensures r.Err? ==> r.error == NotFound
    ensures r.Ok? ==> forall k :: Get(r.value, k) == if k == pk then Err(NotFound) else Get(addresses, k)
  {
    var _ :- GetAddress(addresses, pk);
    Ok(Delete(addresses, pk))
  }

  /** A new address shows up in its owner's list and in no other non-staff requester's list. */
  lemma CreatedAddressIsListedForOwnerOnly(addresses: Table<Address>, user: nat, fields: AddressFields, requester: Requester)
    requires !requester.IsStaff()
    ensures var row := Row(addresses.nextId, Address(user, fields));
      (row in GetAddressList(CreateAddress(addresses, user, fields), requester)) <==> requester.Is(user)
  {
    var t := CreateAddress(addresses, user, fields);
    var row := Row(addresses.nextId, Address(user, fields));
    assert t.rows[|t.rows| - 1] == row;
    var list := GetAddressList(t, requester);
    if row in list {
      var i :| 0 <= i < |list| && list[i] == row;
    }
  }
}
