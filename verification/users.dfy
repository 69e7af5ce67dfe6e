/** `shop/controllers/user.py`: the privilege flags a requester may grant, the
    user records built from them, and the username-uniqueness exemption on update. */
module Users {
  import opened Wrappers
  import opened Store
  import opened Models

  /** DRF's `api_settings.NON_FIELD_ERRORS_KEY`. */
  const NonFieldErrors := "non_field_errors"
  const SuperuserNeedsStaffMessage := "Superuser must have is_staff=True."

  /** Superuser status implies staff status. */
  predicate Consistent(f: Flags) {
    f.isSuperuser ==> f.isStaff
  }

  /** `validate_superuser_settings`: rejects a superuser that is not staff. */
  function ValidateSuperuserSettings(isStaff: bool, isSuperuser: bool): (r: Result<()>)
    ensures r.Ok? <==> (isSuperuser ==> isStaff)
    ensures r.Err? ==> r.error == ValidationError(Some(NonFieldErrors), SuperuserNeedsStaffMessage)
  {
    if isSuperuser && !isStaff then Err(ValidationError(Some(NonFieldErrors), SuperuserNeedsStaffMessage))
    else Ok(())
  }

  /** `compute_superuser_settings`: a staff requester's flags are checked and kept; anyone
      else gets a plain active account whatever they asked for. */
  function ComputeSuperuserSettings(requester: Requester, requested: Flags): (r: Result<Flags>)
    ensures !requester.IsStaff() ==> r == Ok(Flags(false, false, true))
    ensures requester.IsStaff() && Consistent(requested) ==> r == Ok(requested)
    ensures requester.IsStaff() && !Consistent(requested) ==>
      r == Err(ValidationError(Some(NonFieldErrors), SuperuserNeedsStaffMessage))
    ensures r.Ok? ==> Consistent(r.value)
    ensures r.Ok? && (r.value.isStaff || r.value.isSuperuser) ==> requester.IsStaff()
  {
    if requester.IsStaff() then
      var _ :- ValidateSuperuserSettings(requested.isStaff, requested.isSuperuser);
      Ok(requested)
    else
      Ok(Flags(false, false, true))
  }

  /** Feeding computed flags back in changes nothing: they are a fixed point for the same requester. */
  lemma ComputeSuperuserSettingsIdempotent(requester: Requester, requested: Flags)
    requires ComputeSuperuserSettings(requester, requested).Ok?
    ensures var f := ComputeSuperuserSettings(requester, requested).value;
      ComputeSuperuserSettings(requester, f) == Ok(f)
  {
  }

  /** The editable fields of a user form, everything but the flags. */
  datatype Profile = Profile(
    username: string, password: string, phoneNumber: string,
    firstName: string, lastName: string, email: string)

  function MakeUser(p: Profile, f: Flags): User {
    User(p.username, p.password, p.firstName, p.lastName, p.email, p.phoneNumber, f)
  }

  /** `create_user`: stores a new user under the next key with the computed flags,
      never the raw requested ones; a flag error stores nothing. */
  function CreateUser(users: Table<User>, requester: Requester, p: Profile, requested: Flags): (r: Result<Table<User>>)
    ensures ComputeSuperuserSettings(requester, requested).Err? ==>
      r == Err(ComputeSuperuserSettings(requester, requested).error)
    ensures r.Ok? <==> ComputeSuperuserSettings(requester, requested).Ok?
    ensures r.Ok? ==> Has(r.value, users.nextId) && Consistent(Get(r.value, users.nextId).value.flags)
    ensures r.Ok? ==> forall k :: (Get(r.value, k) ==
      if k == users.nextId then Ok(MakeUser(p, ComputeSuperuserSettings(requester, requested).value))
      else Get(users, k))
  {
    var flags :- ComputeSuperuserSettings(requester, requested);
    var users' := Insert(users, MakeUser(p, flags));
    assert Get(users', users.nextId) == Ok(MakeUser(p, flags));
    Ok(users')
  }

  /** `get_user`: the stored user, or `Http404`. */
  function GetUser(users: Table<User>, pk: nat): (r: Result<User>)
    ensures r.Ok? ==> Row(pk, r.value) in users.rows
    ensures r.Err? ==> r == Err(NotFound) && !Has(users, pk)
  {
    Get(users, pk)
  }

  /** `update_user`: the flags are computed first, so a flag error wins over a missing user;
      then every field of the stored user is overwritten and the key is kept. */
  function UpdateUser(users: Table<User>, pk: nat, requester: Requester, p: Profile, requested: Flags): (r: Result<Table<User>>)
    ensures ComputeSuperuserSettings(requester, requested).Err? ==>
      r == Err(ComputeSuperuserSettings(requester, requested).error)
    ensures ComputeSuperuserSettings(requester, requested).Ok? && !Has(users, pk) ==> r == Err(NotFound)
    ensures r.Ok? <==> ComputeSuperuserSettings(requester, requested).Ok? && Has(users, pk)
    ensures r.Ok? ==> Has(users, pk) && |r.value.rows| == |users.rows|
    ensures r.Ok? ==> forall k :: (Get(r.value, k) ==
      if k == pk then Ok(MakeUser(p, ComputeSuperuserSettings(requester, requested).value))
      else Get(users, k))
  {
    var flags :- ComputeSuperuserSettings(requester, requested);
    var _ :- GetUser(users, pk);
    Ok(Update(users, pk, MakeUser(p, flags)))
  }

  /** `delete_user`: removes an existing user; an unknown key is `Http404` and removes nothing. */
  function DeleteUser(users: Table<User>, pk: nat): (r: Result<Table<User>>)
    ensures r.Ok? <==> Has(users, pk)
    ensures r.Err? ==> r.error == NotFound
    ensures r.Ok? ==> forall k :: Get(r.value, k) == if k == pk then Err(NotFound) else Get(users, k)
  {
    var _ :- GetUser(users, pk);
    Ok(Delete(users, pk))
  }

  /** A field validator of the username field: DRF's `UniqueValidator` or any other kind. */
  datatype Validator = Unique | Other(kind: string)

  /** The position of the first `Unique` validator. */
  function FirstUnique(vs: seq<Validator>): (i: nat)
    requires Unique in vs
    ensures i < |vs| && vs[i] == Unique && Unique !in vs[..i]
  {
    if vs[0] == Unique then 0
    else
      var i := FirstUnique(vs[1..]) + 1;
      assert vs[..i] == [vs[0]] + vs[1..][..i - 1];
      i
  }

  /** `remove_username_unique_validator`: drops the first `UniqueValidator` and keeps every other
      validator in its order; without one the list is unchanged. */
  function RemoveUniqueValidator(vs: seq<Validator>): (r: seq<Validator>)
    ensures Unique !in vs ==> r == vs
    ensures Unique in vs ==> r == vs[..FirstUnique(vs)] + vs[FirstUnique(vs) + 1..]
  {
    if |vs| == 0 then []
    else if vs[0] == Unique then
      assert vs[..0] + vs[1..] == vs[1..];
      vs[1..]
    else
      RemoveAfterHead(vs);
      [vs[0]] + RemoveUniqueValidator(vs[1..])
  }

  /** With a different head, the first uniqueness check is the tail's, one place later. */
  lemma RemoveAfterHead(vs: seq<Validator>)
    requires |vs| > 0 && vs[0] != Unique
    ensures [vs[0]] + vs[1..] == vs
    ensures Unique in vs <==> Unique in vs[1..]
    ensures Unique in vs[1..] ==> FirstUnique(vs) == FirstUnique(vs[1..]) + 1
    ensures Unique in vs[1..] ==>
      [vs[0]] + (vs[1..][..FirstUnique(vs[1..])] + vs[1..][FirstUnique(vs[1..]) + 1..]) ==
      vs[..FirstUnique(vs)] + vs[FirstUnique(vs) + 1..]
  {
    assert [vs[0]] + vs[1..] == vs;
    if Unique in vs[1..] {
      SpliceAfterHead(vs[0], vs[1..], FirstUnique(vs[1..]));
    }
  }

  /** Dropping position `j` of a tail is dropping position `j + 1` of the whole sequence. */
  lemma SpliceAfterHead(x: Validator, t: seq<Validator>, j: nat)
    requires j < |t|
    ensures [x] + (t[..j] + t[j + 1..]) == ([x] + t)[..j + 1] + ([x] + t)[j + 2..]
  {
    var a, b := t[..j], t[j + 1..];
    assert ([x] + t)[..j + 1] == [x] + a;
    assert ([x] + t)[j + 2..] == b;
  }

  /** Removing the first uniqueness check takes away one occurrence of it and nothing else. */
  lemma RemoveUniqueValidatorCounts(vs: seq<Validator>)
    requires Unique in vs
    ensures multiset(RemoveUniqueValidator(vs)) == multiset(vs) - multiset{Unique}
  {
    var i := FirstUnique(vs);
    assert vs == vs[..i] + [vs[i]] + vs[i + 1..];
  }

  /** `check_username_field`: when the submitted username (if any) is the stored user's own,
      the uniqueness check is dropped from the validators; an unknown user is `Http404`. */
  function CheckUsernameField(users: Table<User>, pk: nat, submitted: Option<string>, vs: seq<Validator>): (r: Result<seq<Validator>>)
    ensures r.Ok? <==> Has(users, pk)
    ensures r.Err? ==> r.error == NotFound
    ensures r.Ok? && submitted == Some(Get(users, pk).value.username) ==> r.value == RemoveUniqueValidator(vs)
    ensures r.Ok? && submitted != Some(Get(users, pk).value.username) ==> r.value == vs
  {
    var user :- GetUser(users, pk);
    if submitted == Some(user.username) then Ok(RemoveUniqueValidator(vs)) else Ok(vs)
  }

  /** Resubmitting one's own username drops exactly one uniqueness check when one is present,
      and never touches any other validator. */
  lemma OwnUsernameDropsOneUniqueCheck(users: Table<User>, pk: nat, vs: seq<Validator>, v: Validator)
    requires Has(users, pk)
    requires Unique in vs
    ensures var r := CheckUsernameField(users, pk, Some(Get(users, pk).value.username), vs);
      r.Ok? && multiset(r.value)[Unique] == multiset(vs)[Unique] - 1 &&
      (v != Unique ==> multiset(r.value)[v] == multiset(vs)[v])
  {
    RemoveUniqueValidatorCounts(vs);
  }
}
