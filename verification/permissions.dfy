/** `shop/permissions.py`: the owner-or-admin rule, the decorator that runs a
    handler only after the object check, and the per-requester scoping of
    list views that follows the same rule. */
module Permissions {
  import opened Wrappers
  import opened Seqs
  import opened Store
  import opened Models

  /** `IsOwnerOrAdmin.has_object_permission`, for the owner field selected by `owner`
      (`author` for feedback, `user` for addresses and orders). */
  function HasObjectPermission<O>(obj: O, owner: O -> nat, requester: Requester): (allowed: bool)
    ensures requester.Is(owner(obj)) ==> allowed
    ensures requester.IsStaff() ==> allowed
    ensures !requester.Is(owner(obj)) && !requester.IsStaff() ==> !allowed
  {
    requester.Is(owner(obj)) || requester.IsStaff()
  }

  /** `check_permissions(get_object)(handler)`: fetch the object by `pk`, check it, and only then
      run the handler; a failed fetch or a denied check is the whole outcome, and an allowed
      requester gets exactly the handler's outcome. */
  function CheckPermissions<S, O, T>(
    state: S, pk: nat, requester: Requester,
    getObject: (S, nat) -> Result<O>, owner: O -> nat, handler: (S, nat) -> Result<T>): (r: Result<T>)
    ensures getObject(state, pk).Err? ==> r == Err(getObject(state, pk).error)
    ensures getObject(state, pk).Ok? && !HasObjectPermission(getObject(state, pk).value, owner, requester) ==>
      r == Err(PermissionDenied)
    ensures getObject(state, pk).Ok? && HasObjectPermission(getObject(state, pk).value, owner, requester) ==>
      r == handler(state, pk)
    ensures r.Ok? ==>
      getObject(state, pk).Ok? && HasObjectPermission(getObject(state, pk).value, owner, requester)
  {
    var obj :- getObject(state, pk);
    if !HasObjectPermission(obj, owner, requester) then Err(PermissionDenied)
    else handler(state, pk)
  }

  /** The list view of a per-user table: staff see every row, anyone else exactly their own rows
      (an anonymous requester has no primary key and so owns none), in table order. */
  function ListFor<R(==)>(rows: seq<Row<R>>, requester: Requester, owner: R -> nat): (r: seq<Row<R>>)
    ensures requester.IsStaff() ==> r == rows
    ensures !requester.IsStaff() ==> forall i :: 0 <= i < |r| ==> requester.Is(owner(r[i].rec))
    ensures forall i :: 0 <= i < |rows| && requester.Is(owner(rows[i].rec)) ==> rows[i] in r
    ensures IsSubsequence(r, rows)
  {
    if requester.IsStaff() then
      FilterKeepsAll(rows, (row: Row<R>) => true);
      FilterIsSubsequence(rows, (row: Row<R>) => true);
      rows
    else
      var mine := (row: Row<R>) => requester.Is(owner(row.rec));
      FilterIsSubsequence(rows, mine);
      Filter(rows, mine)
  }
}
