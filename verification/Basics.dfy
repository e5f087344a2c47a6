/** What several modules share. */
module Basics {

  datatype Option<+T> = None | Some(value: T)

  /** The elements of interest, in order. */
  function Only<T>(s: seq<T>, wanted: T -> bool): seq<T> {
    if s == [] then []
    else
      var n := |s| - 1;
      Only(s[..n], wanted) + (if wanted(s[n]) then [s[n]] else [])
  }

  /** How often an element occurs. */
  function Times<T(==)>(s: seq<T>, x: T): nat { multiset(s)[x] }

  lemma {:induction false} OnlyCounts<T>(s: seq<T>, wanted: T -> bool, x: T)
    requires wanted(x)
    ensures Times(Only(s, wanted), x) == Times(s, x)
  {
    if s != [] {
      var n := |s| - 1;
      OnlyCounts(s[..n], wanted, x);
      assert s == s[..n] + [s[n]];
    }
  }

  function Min(a: nat, b: nat): nat { if a < b then a else b }
}
