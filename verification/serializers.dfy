/** `shop/serializers/__init__.py`: `DynamicFieldsModelSerializer` pops the named fields
    out of its ordered field map, one name after another. */
module Serializers {
  import opened Wrappers
  import opened Seqs

  /** The field names of an ordered field map, in order. */
  function Names<F>(fields: seq<(string, F)>): (names: seq<string>)
    ensures |names| == |fields|
    ensures forall i :: 0 <= i < |fields| ==> names[i] == fields[i].0
  {
    seq(|fields|, i requires 0 <= i < |fields| => fields[i].0)
  }

  /** A field map holds each name at most once. */
  predicate UniqueNames<F>(fields: seq<(string, F)>) {
    forall i, j :: 0 <= i < j < |fields| ==> fields[i].0 != fields[j].0
  }

  predicate Distinct(names: seq<string>) {
    forall i, j :: 0 <= i < j < |names| ==> names[i] != names[j]
  }

  /** The entries of `fields` whose names are not in `drop`, in their order. */
  function Without<F>(fields: seq<(string, F)>, drop: set<string>): (r: seq<(string, F)>)
    ensures |r| <= |fields|
    ensures forall n :: n in Names(r) <==> n in Names(fields) && n !in drop
  {
    if |fields| == 0 then []
    else
      var rest := Without(fields[1..], drop);
      assert Names(fields) == [fields[0].0] + Names(fields[1..]);
      if fields[0].0 in drop then rest
      else
        assert Names([fields[0]] + rest) == [fields[0].0] + Names(rest);
        [fields[0]] + rest
  }

  /** The kept entries are the map's own, unchanged and in their original order. */
  lemma {:induction false} WithoutKeepsOrder<F>(fields: seq<(string, F)>, drop: set<string>)
    ensures IsSubsequence(Without(fields, drop), fields)
    ensures forall i :: 0 <= i < |fields| && fields[i].0 !in drop ==> fields[i] in Without(fields, drop)
  {
    if |fields| > 0 {
      WithoutKeepsOrder(fields[1..], drop);
      var rest := Without(fields[1..], drop);
      if fields[0].0 in drop {
        SubsequenceOfTail(rest, fields);
      }
      forall i | 0 < i < |fields| && fields[i].0 !in drop ensures fields[i] in Without(fields, drop) {
        assert fields[1..][i - 1] == fields[i];
      }
    }
  }

  lemma {:induction false} WithoutUnique<F>(fields: seq<(string, F)>, drop: set<string>)
    requires UniqueNames(fields)
    ensures UniqueNames(Without(fields, drop))
  {
    if |fields| > 0 {
      WithoutUnique(fields[1..], drop);
      var rest := Without(fields[1..], drop);
      if fields[0].0 !in drop {
        forall j | 0 <= j < |rest| ensures rest[j].0 != fields[0].0 {
          assert Names(rest)[j] == rest[j].0;
          assert rest[j].0 in Names(fields[1..]);
          var m :| 0 <= m < |fields[1..]| && Names(fields[1..])[m] == rest[j].0;
          assert fields[m + 1].0 == rest[j].0;
        }
      }
    }
  }

  lemma {:induction false} WithoutWithout<F>(fields: seq<(string, F)>, a: set<string>, b: set<string>)
    ensures Without(Without(fields, a), b) == Without(fields, a + b)
  {
    if |fields| > 0 {
      WithoutWithout(fields[1..], a, b);
      if fields[0].0 !in a {
        assert ([fields[0]] + Without(fields[1..], a))[1..] == Without(fields[1..], a);
      }
    }
  }

  /** `fields.pop(name)` on a field map: the entry goes, or `KeyError` when there is none. */
  function Pop<F>(fields: seq<(string, F)>, name: string): (r: Result<seq<(string, F)>>)
    requires UniqueNames(fields)
    ensures r.Ok? <==> name in Names(fields)
    ensures r.Err? ==> r.error == KeyError(name)
    ensures r.Ok? ==> r.value == Without(fields, {name})
  {
    if name in Names(fields) then Ok(Without(fields, {name})) else Err(KeyError(name))
  }

  /** Popping `names[j]` fails after the pops before it: the name is not a field, or an earlier
      pop already took it. */
  predicate PopFails<F>(fields: seq<(string, F)>, names: seq<string>, j: nat)
    requires j < |names|
  {
    names[j] !in Names(fields) || names[j] in names[..j]
  }

  /** `names[j]` is the first name whose pop fails. */
  predicate FirstFailure<F>(fields: seq<(string, F)>, names: seq<string>, j: nat) {
    j < |names| && PopFails(fields, names, j) && forall i :: 0 <= i < j ==> !PopFails(fields, names, i)
  }

  /** The set of names a removal list mentions. */
  function NameSet(names: seq<string>): set<string> {
    set n | n in names
  }

  /** `DynamicFieldsModelSerializer.__init__`: with no list the map is unchanged; otherwise each
      listed name is popped in turn, so the removal succeeds exactly when every name is present
      and none is repeated, and then leaves every other field, unchanged and in order. */
  function RemoveFields<F>(fields: seq<(string, F)>, fieldsToRemove: Option<seq<string>>): (r: Result<seq<(string, F)>>)
    requires UniqueNames(fields)
    ensures fieldsToRemove.None? ==> r == Ok(fields)
    ensures fieldsToRemove.Some? ==>
      (r.Ok? <==> (Distinct(fieldsToRemove.value) &&
        forall i :: 0 <= i < |fieldsToRemove.value| ==> fieldsToRemove.value[i] in Names(fields)))
    ensures fieldsToRemove.Some? && r.Ok? ==> r.value == Without(fields, NameSet(fieldsToRemove.value))
    ensures fieldsToRemove.Some? && r.Err? ==>
      exists j: nat :: FirstFailure(fields, fieldsToRemove.value, j) && r.error == KeyError(fieldsToRemove.value[j])
  {
    if fieldsToRemove.None? then Ok(fields) else PopAll(fields, fieldsToRemove.value)
  }

  function PopAll<F>(fields: seq<(string, F)>, names: seq<string>): (r: Result<seq<(string, F)>>)
    requires UniqueNames(fields)
    ensures r.Ok? <==> Distinct(names) && forall i :: 0 <= i < |names| ==> names[i] in Names(fields)
    ensures r.Ok? ==> r.value == Without(fields, NameSet(names))
    ensures r.Err? ==> exists j: nat :: FirstFailure(fields, names, j) && r.error == KeyError(names[j])
    decreases |names|
  {
    if |names| == 0 then
      assert NameSet(names) == {};
      assert Without(fields, {}) == fields by {
        WithoutNothing(fields);
      }
      Ok(fields)
    else
      var n := names[0];
      match Pop(fields, n)
      case Err(e) =>
        assert FirstFailure(fields, names, 0);
        Err(e)
      case Ok(rest) =>
        WithoutUnique(fields, {n});
        var r := PopAll(rest, names[1..]);
        PopAllStep(fields, names, rest, r);
        r
  }

  /** One pop followed by the pops of the remaining names does what all the pops together promise. */
  lemma PopAllStep<F>(fields: seq<(string, F)>, names: seq<string>, rest: seq<(string, F)>, r: Result<seq<(string, F)>>)
    requires |names| > 0 && names[0] in Names(fields) && rest == Without(fields, {names[0]})
    requires r.Ok? <==> Distinct(names[1..]) && forall i :: 0 <= i < |names[1..]| ==> names[1..][i] in Names(rest)
    requires r.Ok? ==> r.value == Without(rest, NameSet(names[1..]))
    requires r.Err? ==> exists j: nat :: FirstFailure(rest, names[1..], j) && r.error == KeyError(names[1..][j])
    ensures r.Ok? <==> Distinct(names) && forall i :: 0 <= i < |names| ==> names[i] in Names(fields)
    ensures r.Ok? ==> r.value == Without(fields, NameSet(names))
    ensures r.Err? ==> exists j: nat :: FirstFailure(fields, names, j) && r.error == KeyError(names[j])
  {
    if r.Err? {
      var j: nat :| FirstFailure(rest, names[1..], j) && r.error == KeyError(names[1..][j]);
      FirstFailureShift(fields, names, rest, j);
    }
    if r.Ok? {
      WithoutWithout(fields, {names[0]}, NameSet(names[1..]));
      assert {names[0]} + NameSet(names[1..]) == NameSet(names) by {
        assert names == [names[0]] + names[1..];
      }
    }
    DistinctCons(names);
    PresentCons(names, fields, rest);
  }

  /** After a successful first pop, the first failing pop of the remaining names is the first
      failing pop of the whole list, one place later. */
  lemma FirstFailureShift<F>(fields: seq<(string, F)>, names: seq<string>, rest: seq<(string, F)>, j: nat)
    requires |names| > 0 && names[0] in Names(fields) && rest == Without(fields, {names[0]})
    requires FirstFailure(rest, names[1..], j)
    ensures FirstFailure(fields, names, j + 1) && names[1..][j] == names[j + 1]
  {
    forall i | 0 <= i < |names| - 1
      ensures PopFails(rest, names[1..], i) <==> PopFails(fields, names, i + 1)
    {
      assert names[1..][i] == names[i + 1];
      assert names[..i + 1] == [names[0]] + names[1..][..i];
    }
    assert !PopFails(fields, names, 0);
    forall i | 0 < i < j + 1 ensures !PopFails(fields, names, i) {
      assert !PopFails(rest, names[1..], i - 1);
    }
  }

  lemma WithoutNothing<F>(fields: seq<(string, F)>)
    ensures Without(fields, {}) == fields
  {
    if |fields| > 0 {
      WithoutNothing(fields[1..]);
    }
  }

  lemma DistinctCons(names: seq<string>)
    requires |names| > 0
    ensures Distinct(names) <==> names[0] !in names[1..] && Distinct(names[1..])
  {
    if Distinct(names) {
      forall j | 0 <= j < |names[1..]| ensures names[1..][j] != names[0] {
        assert names[1..][j] == names[j + 1];
      }
    }
    if names[0] !in names[1..] && Distinct(names[1..]) {
      forall i, j | 0 <= i < j < |names| ensures names[i] != names[j] {
        if i == 0 {
          assert names[j] == names[1..][j - 1];
        } else {
          assert names[i] == names[1..][i - 1] && names[j] == names[1..][j - 1];
        }
      }
    }
  }

  lemma PresentCons<F>(names: seq<string>, fields: seq<(string, F)>, rest: seq<(string, F)>)
    requires |names| > 0 && names[0] in Names(fields)
    requires rest == Without(fields, {names[0]})
    ensures (forall i :: 0 <= i < |names[1..]| ==> names[1..][i] in Names(rest)) <==>
      names[0] !in names[1..] && forall i :: 0 <= i < |names| ==> names[i] in Names(fields)
  {
    if forall i :: 0 <= i < |names[1..]| ==> names[1..][i] in Names(rest) {
      assert names[0] !in Names(rest);
      forall j | 0 <= j < |names[1..]| ensures names[1..][j] != names[0] {
        assert names[1..][j] in Names(rest);
      }
      forall i | 0 < i < |names| ensures names[i] in Names(fields) {
        assert names[1..][i - 1] == names[i];
      }
    }
  }
}
