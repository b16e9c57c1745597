/** The worked examples of the library: a sample tree, its mirror image,
    the hits of the range search below 15, and an update of one subtree. */
module Samples {
  import opened BinaryTree
  import opened TestHelpers

  function TestTree(): Tree<int>
  {
    Node(1,
      Node(7, Leaf(2), Node(6, Leaf(5), Leaf(11))),
      Node(9, Empty, Node(9, Leaf(5), Empty)))
  }

  lemma ReverseSample()
    ensures Reverse(TestTree()) ==
      Node(1,
        Node(9, Node(9, Empty, Leaf(5)), Empty),
        Node(7, Node(6, Leaf(11), Leaf(5)), Leaf(2)))
  {
  }

  /** The hits below 15 of any tree holding the sample's values. The tree
      and the bound are parameters because, stated on the literal tree and
      bound, the solver unfolds the search on them and runs out of
      resource. */
  lemma SampleValueHits(t: Tree<int>, n: nat)
    requires Values(t) == multiset{1, 7, 2, 6, 5, 11, 9, 9, 5}
    requires n == 15
    ensures RunTests(t, n) == {1, 2, 5, 6, 7, 9, 11}
  {
    RunTestsAreValuesInRange(t, n);
    var expected: set<int> := {1, 2, 5, 6, 7, 9, 11};
    forall x | x in Values(t) ensures x in expected {
    }
    forall x | x in expected ensures x in Values(t) {
    }
  }

  lemma RunTestsSample()
    ensures RunTests(TestTree(), 15) == {1, 2, 5, 6, 7, 9, 11}
  {
    assert Values(TestTree()) == multiset{1, 7, 2, 6, 5, 11, 9, 9, 5};
    SampleValueHits(TestTree(), 15);
  }

  /** Setting `left.right` to a node replaces exactly that position. */
  lemma SetSample(x: Tree<int>)
    requires x.Node?
    ensures Set(TestTree(), L(R(Terminal(x)))) ==
      Ok(Node(1,
        Node(7, Leaf(2), x),
        Node(9, Empty, Node(9, Leaf(5), Empty))))
  {
  }
}
