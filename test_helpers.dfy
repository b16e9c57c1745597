/** The exhaustive check of the depth-first search over a range of integer
    targets: probe every integer below a bound and report the hits. */
module TestHelpers {
  import opened BinaryTree

  /** Extends `acc` one search result at a time, the entry at index `i` being
      the search for `i`, until it holds `n` entries. */
  function RecurseTestCases(t: Tree<int>, n: nat, acc: seq<bool>): (r: seq<bool>)
    requires |acc| <= n
    ensures |r| == n
    ensures r[..|acc|] == acc
    ensures forall i :: |acc| <= i < n ==> r[i] == DFS(t, i)
    decreases n - |acc|
  {
    if |acc| == n then acc
    else RecurseTestCases(t, n, acc + [DFS(t, |acc|)])
  }

  /** The integers in `[0, n)` that the search finds in `t`. */
  function RunTests(t: Tree<int>, n: nat): (hits: set<int>)
    ensures hits == set i | 0 <= i < n && DFS(t, i)
  {
    var cases := RecurseTestCases(t, n, []);
    // the keys of the test cases whose entry is true
    set i | 0 <= i < |cases| && cases[i]
  }

  /** The hits are exactly the values of the tree that lie in `[0, n)`. */
  lemma RunTestsAreValuesInRange(t: Tree<int>, n: nat)
    ensures RunTests(t, n) == set x | x in Values(t) && 0 <= x < n
  {
  }
}
