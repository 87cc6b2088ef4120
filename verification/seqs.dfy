/** The list edits every form performs with `Array.prototype.filter`,
    spread-append and index assignment. */
module Seqs {

  /** `xs.filter((_, i) => i !== index)`: drops the element at `index`;
      an index outside the list matches nothing and drops nothing. */
  function RemoveAt<T>(xs: seq<T>, index: int): (r: seq<T>)
    ensures 0 <= index < |xs| ==> |r| == |xs| - 1
    ensures 0 <= index < |xs| ==>
              (forall j :: 0 <= j < index ==> r[j] == xs[j])
              && (forall j :: index <= j < |r| ==> r[j] == xs[j + 1])
    ensures !(0 <= index < |xs|) ==> r == xs
  {
    if 0 <= index < |xs| then xs[..index] + xs[index + 1..] else xs
  }

  /** `xs.filter(x => x !== v)`: every element equal to `v` goes, the rest
      keep their order. */
  function RemoveAll<T(==,!new)>(xs: seq<T>, v: T): (r: seq<T>)
    ensures v !in r
    ensures forall x :: x in r <==> x in xs && x != v
    ensures |r| <= |xs|
    ensures v !in xs ==> r == xs
    ensures multiset(r) == multiset(xs)[v := 0]
  {
    if xs == [] then []
    else
      var rest := RemoveAll(xs[1..], v);
      assert xs == [xs[0]] + xs[1..];
      assert multiset(xs) == multiset{xs[0]} + multiset(xs[1..]);
      if xs[0] == v then rest
      else
        assert multiset([xs[0]] + rest) == multiset{xs[0]} + multiset(rest);
        [xs[0]] + rest
  }

  /** `s` is obtained from `t` by deleting some elements (order kept). */
  predicate IsSubsequence<T(==)>(s: seq<T>, t: seq<T>)
    decreases |t|
  {
    s == [] || (t != [] && (if s[0] == t[0] then IsSubsequence(s[1..], t[1..])
                            else IsSubsequence(s, t[1..])))
  }

  /** Removing every copy of a value keeps the survivors in their original order. */
  lemma {:induction false} RemoveAllKeepsOrder<T(!new)>(xs: seq<T>, v: T)
    ensures IsSubsequence(RemoveAll(xs, v), xs)
    decreases |xs|
  {
    if xs != [] {
      RemoveAllKeepsOrder(xs[1..], v);
      var r := RemoveAll(xs, v);
      if xs[0] != v {
        assert r[0] == xs[0] && r[1..] == RemoveAll(xs[1..], v);
      }
    }
  }
}
