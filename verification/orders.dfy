/** `shop/controllers/order.py` over `shop/dal/order.py`: per-user orders. */
module Orders {
  import opened Wrappers
  import opened Seqs
  import opened Store
  import opened Models
  import opened Permissions

  function OrderOwner(o: Order): nat {
    o.user
  }

  /** `get_order_list`: all orders for staff, otherwise exactly the requester's own, in table order. */
  function GetOrderList(orders: Table<Order>, requester: Requester): (r: seq<Row<Order>>)
    ensures requester.IsStaff() ==> r == orders.rows
    ensures !requester.IsStaff() ==> forall i :: 0 <= i < |r| ==> requester.Is(r[i].rec.user)
    ensures forall i :: 0 <= i < |orders.rows| && requester.Is(orders.rows[i].rec.user) ==> orders.rows[i] in r
    ensures IsSubsequence(r, orders.rows)
  {
    ListFor(orders.rows, requester, OrderOwner)
  }

  /** `create_order`: a new unpaid order of the requesting user for the given address. */
  function CreateOrder(orders: Table<Order>, user: nat, address: nat): (t: Table<Order>)
    ensures Get(t, orders.nextId) == Ok(Order(user, address, false))
    ensures forall k :: k != orders.nextId ==> Get(t, k) == Get(orders, k)
  {
    Insert(orders, Order(user, address, false))
  }

  /** `get_order`: the stored order, or `Http404`. */
  function GetOrder(orders: Table<Order>, pk: nat): (r: Result<Order>)
    ensures r.Ok? ==> Row(pk, r.value) in orders.rows
    ensures r.Err? ==> r == Err(NotFound) && !Has(orders, pk)
  {
    Get(orders, pk)
  }

  /** `update_order`: only the address changes; owner and payment state are kept. */
  function UpdateOrder(orders: Table<Order>, pk: nat, address: nat): (r: Result<Table<Order>>)
    ensures r.Ok? <==> Has(orders, pk)
    ensures r.Err? ==> r.error == NotFound
    ensures r.Ok? ==>
      Get(r.value, pk) == Ok(Order(Get(orders, pk).value.user, address, Get(orders, pk).value.isPaid))
    ensures r.Ok? ==> forall k :: k != pk ==> Get(r.value, k) == Get(orders, k)
  {
    var o :- GetOrder(orders, pk);
    Ok(Update(orders, pk, o.(address := address)))
  }

  /** `delete_order`: removes an existing order; an unknown key is `Http404` and removes nothing. */
  function DeleteOrder(orders: Table<Order>, pk: nat): (r: Result<Table<Order>>)
    ensures r.Ok? <==> Has(orders, pk)
    ensures r.Err? ==> r.error == NotFound
    ensures r.Ok? ==> forall k :: Get(r.value, k) == if k == pk then Err(NotFound) else Get(orders, k)
  {
    var _ :- GetOrder(orders, pk);
    Ok(Delete(orders, pk))
  }
}
