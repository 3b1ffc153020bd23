/** The two `String.prototype` methods the node search relies on: `toLowerCase`
    (on ASCII letters) and `includes`. */
module JsString {
  import opened Ascii

  /** `s.toLowerCase()`, folding the ASCII letters. */
  function ToLowerCase(s: string): (r: string)
    ensures |r| == |s|
    ensures forall i :: 0 <= i < |s| ==> r[i] == LowerChar(s[i])
  {
    if s == [] then [] else [LowerChar(s[0])] + ToLowerCase(s[1..])
  }

  /** Lower-casing a lower-cased string changes nothing. */
  lemma ToLowerCaseIdempotent(s: string)
    ensures ToLowerCase(ToLowerCase(s)) == ToLowerCase(s)
  {
  }

  /** `search` occurs in `s` starting at index `i`. */
  predicate OccursAt(s: string, search: string, i: nat)
  {
    i + |search| <= |s| && s[i..i + |search|] == search
  }

  /** `s.includes(search)`: tries every start position from the left. */
  function Includes(s: string, search: string): (b: bool)
    ensures b ==> |search| <= |s|
    ensures search == [] ==> b
    decreases |s|
  {
    if |search| > |s| then false
    else if s[..|search|] == search then true
    else Includes(s[1..], search)
  }

  /** `includes` holds exactly when `search` occurs somewhere in `s`. */
  lemma {:induction false} IncludesIffOccurs(s: string, search: string)
    ensures Includes(s, search) <==> exists i: nat :: OccursAt(s, search, i)
    decreases |s|
  {
    if |search| <= |s| && s[..|search|] != search {
      IncludesIffOccurs(s[1..], search);
      if exists i: nat :: OccursAt(s, search, i) {
        var i: nat :| OccursAt(s, search, i);
        assert i != 0;
        assert s[1..][i - 1..i - 1 + |search|] == s[i..i + |search|];
        assert OccursAt(s[1..], search, i - 1);
      }
      if exists i: nat :: OccursAt(s[1..], search, i) {
        var i: nat :| OccursAt(s[1..], search, i);
        assert s[1..][i..i + |search|] == s[i + 1..i + 1 + |search|];
        assert OccursAt(s, search, i + 1);
      }
    } else if |search| <= |s| {
      assert OccursAt(s, search, 0);
    }
  }
}
