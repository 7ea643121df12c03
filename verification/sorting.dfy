/** The stable sort the source calls twice: `sort_by_key(OrderedFloat(score))`
    on hypotheses (ascending) and `sort_by` on keyword scores. Both are
    insertion by key: equal keys keep their arrival order. */
module Sorting {

  import opened Scores

  ghost predicate SortedBy<T>(s: seq<T>, key: T -> Score) {
    forall i, j :: 0 <= i < j < |s| ==> Le(key(s[i]), key(s[j]))
  }

  /** Places `x` after every element whose key does not exceed its own. */
  function Insert<T>(s: seq<T>, x: T, key: T -> Score): (r: seq<T>)
    requires SortedBy(s, key)
    ensures SortedBy(r, key)
    ensures multiset(r) == multiset(s) + multiset{x}
    ensures |r| == |s| + 1
  {
    if |s| == 0 || Le(key(s[|s| - 1]), key(x)) then
      s + [x]
    else
      var init, last := s[..|s| - 1], s[|s| - 1];
      assert s == init + [last];
      var r' := Insert(init, x, key);
      forall e | e in r'
        ensures Le(key(e), key(last))
      {
        assert e in multiset(r');
        if e != x {
          assert e in multiset(init);
          var i :| 0 <= i < |init| && init[i] == e;
          assert s[i] == e;
        }
      }
      r' + [last]
  }

  /** Stable ascending sort by `key`. */
  function SortBy<T>(s: seq<T>, key: T -> Score): (r: seq<T>)
    ensures SortedBy(r, key)
    ensures multiset(r) == multiset(s)
    ensures |r| == |s|
  {
    if |s| == 0 then []
    else
      assert s == s[..|s| - 1] + [s[|s| - 1]];
      Insert(SortBy(s[..|s| - 1], key), s[|s| - 1], key)
  }
}
