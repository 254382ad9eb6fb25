/** Case folding and substring search on the viewer's strings: node keys,
    node labels and the two search queries. The viewer uses JavaScript's
    `toLowerCase` and `includes`; this model folds ASCII letters only. */
module Text {

  predicate IsUpper(c: char) {
    'A' <= c <= 'Z'
  }

  /** Lower-cases an ASCII capital and leaves every other character alone. */
  function LowerChar(c: char): (r: char)
    ensures !IsUpper(r)
    ensures !IsUpper(c) ==> r == c
    ensures IsUpper(c) ==> r as int == c as int + 32
  {
    if IsUpper(c) then (c as int + 32) as char else c
  }

  /** `s.toLowerCase()`, character by character. */
  function Lower(s: string): (r: string)
    ensures |r| == |s|
    ensures forall i :: 0 <= i < |s| ==> r[i] == LowerChar(s[i])
  {
    if s == [] then [] else [LowerChar(s[0])] + Lower(s[1..])
  }

  /** Folding twice is folding once, and only the empty string folds to "". */
  lemma LowerIdempotent(s: string)
    ensures Lower(Lower(s)) == Lower(s)
    ensures Lower(s) == "" <==> s == ""
  {
    var once := Lower(s);
    assert forall i :: 0 <= i < |s| ==> Lower(once)[i] == once[i];
  }

  /** `s.includes(q)`: some suffix of `s` starts with `q`. */
  predicate Includes(s: string, q: string)
    ensures Includes(s, q) ==> |q| <= |s|
    ensures q <= s ==> Includes(s, q)
  {
    assert s[0..] == s;
    exists i | 0 <= i <= |s| :: q <= s[i..]
  }

  lemma IncludesItself(s: string)
    ensures Includes(s, s)
  {
    assert s <= s[0..];
  }

  /** A non-empty query is never found in the empty string. */
  lemma EmptyIncludesOnlyEmpty(q: string)
    ensures Includes("", q) <==> q == ""
  {
    if q == "" {
      assert q <= ""[0..];
    }
  }
}
