/** The order in which the functions found inside a package run: functions
    declared deeper in the directory tree run before shallower ones. */
module Ordering {
  import opened Functions

  /** Home-directory depth of a function. */
  function FnDepth(f: FunctionSpec): nat
  {
    Depth(f.path)
  }

  /** No function runs before one that is declared deeper than it. */
  predicate DeepestFirst(s: seq<FunctionSpec>)
  {
    forall i, j :: 0 <= i < j < |s| ==> FnDepth(s[j]) <= FnDepth(s[i])
  }

  /** A function no shallower than everything after it may run first. */
  lemma PrependDeepest(x: FunctionSpec, s: seq<FunctionSpec>)
    requires DeepestFirst(s)
    requires forall j :: 0 <= j < |s| ==> FnDepth(s[j]) <= FnDepth(x)
    ensures DeepestFirst([x] + s)
  {
  }

  /** Puts `x` in front of the first function that is not deeper than it. */
  function Insert(x: FunctionSpec, s: seq<FunctionSpec>): (r: seq<FunctionSpec>)
    requires DeepestFirst(s)
    ensures DeepestFirst(r)
    ensures multiset(r) == multiset(s) + multiset{x}
    decreases |s|
  {
    if s == [] || FnDepth(s[0]) <= FnDepth(x) then
      PrependDeepest(x, s);
      [x] + s
    else
      var tail := Insert(x, s[1..]);
      assert forall j :: 0 <= j < |tail| ==> FnDepth(tail[j]) <= FnDepth(s[0]) by {
        forall j | 0 <= j < |tail|
          ensures FnDepth(tail[j]) <= FnDepth(s[0])
        {
          assert tail[j] in multiset(s[1..]) + multiset{x};
          if tail[j] != x {
            var k :| 0 <= k < |s[1..]| && s[1..][k] == tail[j];
            assert s[k + 1] == tail[j];
          }
        }
      }
      PrependDeepest(s[0], tail);
      assert multiset(s) == multiset{s[0]} + multiset(s[1..]) by {
        assert s == [s[0]] + s[1..];
      }
      [s[0]] + tail
  }

  /** The kept implicit functions in execution order: deepest directory first.
      The result is a rearrangement of the input and nothing else. */
  function SortDeepestFirst(s: seq<FunctionSpec>): (r: seq<FunctionSpec>)
    ensures DeepestFirst(r)
    ensures multiset(r) == multiset(s)
    decreases |s|
  {
    if s == [] then []
    else
      assert s == [s[0]] + s[1..];
      Insert(s[0], SortDeepestFirst(s[1..]))
  }

  /** Sorting does not lose or duplicate functions. */
  lemma SortKeepsLength(s: seq<FunctionSpec>)
    ensures |SortDeepestFirst(s)| == |s|
  {
    assert |multiset(SortDeepestFirst(s))| == |multiset(s)|;
  }

  /** For two functions at different depths the outcome does not depend on the
      order in which they were discovered: the deeper one runs first. */
  lemma {:induction false} DeeperRunsFirst(r: seq<FunctionSpec>, a: FunctionSpec, b: FunctionSpec)
    requires FnDepth(b) < FnDepth(a)
    requires multiset(r) == multiset{a, b}
    requires DeepestFirst(r)
    ensures r == [a, b]
  {
    assert |r| == 2 by {
      assert |multiset(r)| == 2;
    }
  }

  /** Two functions make up the same collection in either order. */
  lemma PairMultiset(a: FunctionSpec, b: FunctionSpec)
    ensures multiset([a, b]) == multiset{a, b} == multiset([b, a])
  {
  }
}
