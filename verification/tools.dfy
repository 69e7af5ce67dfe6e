/** `shop/tools.py`: the list-containment check and the "unhandled value" error. */
module Tools {
  import opened Wrappers

  /** `are_all_elements_in_list`: every element of `listToCheck` occurs in `checkList`. */
  function AreAllElementsInList<T(==)>(listToCheck: seq<T>, checkList: seq<T>): (r: bool)
    ensures r <==> forall i :: 0 <= i < |listToCheck| ==> listToCheck[i] in checkList
  {
    if |listToCheck| == 0 then true
    else listToCheck[0] in checkList && AreAllElementsInList(listToCheck[1..], checkList)
  }

  /** The check is set inclusion: it sees only which values occur, not their order or multiplicity. */
  lemma ContainmentIsInclusion<T>(a: seq<T>, b: seq<T>)
    ensures AreAllElementsInList(a, b) <==> (set x | x in a) <= (set x | x in b)
  {
    if AreAllElementsInList(a, b) {
      forall x | x in a ensures x in b {
        var i :| 0 <= i < |a| && a[i] == x;
      }
    }
    var inA, inB := set x | x in a, set x | x in b;
    if inA <= inB {
      forall i | 0 <= i < |a| ensures a[i] in b {
        assert a[i] in inA;
        assert a[i] in inB;
      }
    }
  }

  /** Reordering or repeating entries of either list does not change the verdict. */
  lemma ContainmentIgnoresOrderAndRepeats<T>(a: seq<T>, a': seq<T>, b: seq<T>, b': seq<T>)
    requires (set x | x in a) == (set x | x in a')
    requires (set x | x in b) == (set x | x in b')
    ensures AreAllElementsInList(a, b) == AreAllElementsInList(a', b')
  {
    ContainmentIsInclusion(a, b);
    ContainmentIsInclusion(a', b');
  }

  const UnhandledPrefix := "Unhandled value: "

  /** The message text of `create_unhandled_value_error`: the value's `str` and its type's name. */
  function UnhandledValueMessage(value: string, typeName: string): string {
    UnhandledPrefix + value + " (" + typeName + ")"
  }

  /** The position of the last `c` in `s`, if any. */
  function LastIndexOf(s: string, c: char): (r: Option<nat>)
    ensures r.None? ==> c !in s
    ensures r.Some? ==> r.value < |s| && s[r.value] == c && c !in s[r.value + 1..]
  {
    if |s| == 0 then None
    else if s[|s| - 1] == c then Some(|s| - 1)
    else
      var r := LastIndexOf(s[..|s| - 1], c);
      assert r.Some? ==> s[r.value + 1..] == s[..|s| - 1][r.value + 1..] + [s[|s| - 1]];
      r
  }

  /** The last `c` of `a + [c] + b` is the one after `a` when `b` holds none. */
  lemma {:induction false} LastIndexOfSplit(a: string, c: char, b: string)
    requires c !in b
    ensures LastIndexOf(a + [c] + b, c) == Some(|a|)
    decreases |b|
  {
    var s := a + [c] + b;
    if |b| > 0 {
      var b' := b[..|b| - 1];
      assert s[|s| - 1] == b[|b| - 1];
      assert s[..|s| - 1] == a + [c] + b';
      LastIndexOfSplit(a, c, b');
    }
  }

  /** A message body `v (t` splits at the blank before the opening parenthesis. */
  lemma SplitAtParen(body: string, k: nat)
    requires 1 <= k < |body| && body[k - 1] == ' ' && body[k] == '('
    ensures body == body[..k - 1] + " (" + body[k + 1..]
  {
    assert body[k - 1..k + 1] == " (";
    assert body == body[..k - 1] + body[k - 1..k + 1] + body[k + 1..];
  }

  lemma Reassemble(msg: string, n: nat)
    requires n < |msg| && msg[|msg| - 1] == ')'
    ensures msg == msg[..n] + msg[n..|msg| - 1] + ")"
  {
    assert msg == msg[..n] + msg[n..|msg| - 1] + msg[|msg| - 1..];
  }

  /** Recovers the value text and the type name from an unhandled-value message. */
  function ParseUnhandledValueMessage(msg: string): (r: Option<(string, string)>)
    ensures r.Some? ==> UnhandledValueMessage(r.value.0, r.value.1) == msg
  {
    if |msg| < |UnhandledPrefix| + 1 || msg[..|UnhandledPrefix|] != UnhandledPrefix || msg[|msg| - 1] != ')' then
      None
    else
      var body := msg[|UnhandledPrefix|..|msg| - 1];
      match LastIndexOf(body, '(')
      case None => None
      case Some(k) =>
        if 1 <= k && body[k - 1] == ' ' then
          SplitAtParen(body, k);
          Reassemble(msg, |UnhandledPrefix|);
          Some((body[..k - 1], body[k + 1..]))
        else None
  }

  /** Reading a message back yields the value text and type name it was made from,
      provided the type name holds no parenthesis (ordinary Python type names do not). */
  lemma ParseUnhandledValueRoundTrip(value: string, typeName: string)
    requires '(' !in typeName
    ensures ParseUnhandledValueMessage(UnhandledValueMessage(value, typeName)) == Some((value, typeName))
  {
    var msg := UnhandledValueMessage(value, typeName);
    var body := value + " (" + typeName;
    assert msg == UnhandledPrefix + body + ")";
    assert msg[..|UnhandledPrefix|] == UnhandledPrefix;
    assert msg[|UnhandledPrefix|..|msg| - 1] == body;
    assert value + " " + ['('] + typeName == body;
    LastIndexOfSplit(value + " ", '(', typeName);
    var k := |value| + 1;
    assert body[k - 1] == ' ';
    assert body[..k - 1] == value;
    assert body[k + 1..] == typeName;
  }

  /** `create_unhandled_value_error`: a `ValueError` whose message names the value and, for an
      ordinary type name (one without a parenthesis), can be read back into both parts. */
  function CreateUnhandledValueError(value: string, typeName: string): (e: Error)
    ensures e.ValueError?
    ensures '(' !in typeName ==> ParseUnhandledValueMessage(e.message) == Some((value, typeName))
  {
    assert '(' !in typeName ==>
      ParseUnhandledValueMessage(UnhandledValueMessage(value, typeName)) == Some((value, typeName)) by {
      if '(' !in typeName {
        ParseUnhandledValueRoundTrip(value, typeName);
      }
    }
    ValueError(UnhandledValueMessage(value, typeName))
  }
}
