/** A persistent binary tree: positions are empty, bare leaf values or nodes
    carrying a value and two child positions. Every operation builds a new
    tree; none changes its argument. */
module BinaryTree {

  /** A position of a tree. `Empty` is the absent child (`null` in the
      source's literals), `Leaf` a bare value standing in a child position,
      `Node` the `{value, left, right}` record. */
  datatype Tree<V> = Empty | Leaf(value: V) | Node(value: V, left: Tree<V>, right: Tree<V>)

  datatype Option<T> = None | Some(get: T)

  datatype Result<T, E> = Ok(ok: T) | Err(error: E)

  /** The multiset of every value held at a leaf or node position. */
  function Values<V>(t: Tree<V>): multiset<V>
  {
    match t
    case Empty => multiset{}
    case Leaf(v) => multiset{v}
    case Node(v, l, r) => multiset{v} + Values(l) + Values(r)
  }

  // ---------------------------------------------------------------------
  // Addresses: positions reached by following left/right directions
  // ---------------------------------------------------------------------

  datatype Dir = Left | Right

  function Opposite(d: Dir): Dir
  {
    if d == Left then Right else Left
  }

  /** The address obtained by swapping every direction. */
  function Flip(a: seq<Dir>): (f: seq<Dir>)
    ensures |f| == |a|
  {
    if a == [] then [] else [Opposite(a[0])] + Flip(a[1..])
  }

  /** The position reached from the root of `t` by following `a`; `None`
      when a direction has to be taken at a position that is not a node. */
  function Subtree<V>(t: Tree<V>, a: seq<Dir>): Option<Tree<V>>
    decreases |a|
  {
    if a == [] then Some(t)
    else match t
      case Node(_, l, r) => Subtree(if a[0] == Left then l else r, a[1..])
      case _ => None
  }

  /** The value held at address `a`, if that position is a leaf or a node. */
  function ValueAt<V>(t: Tree<V>, a: seq<Dir>): Option<V>
  {
    match Subtree(t, a)
    case Some(Leaf(v)) => Some(v)
    case Some(Node(v, _, _)) => Some(v)
    case _ => None
  }

  lemma {:induction false} SubtreeAppend<V>(t: Tree<V>, a: seq<Dir>, b: seq<Dir>)
    ensures Subtree(t, a + b) == match Subtree(t, a) case Some(s) => Subtree(s, b) case None => None
    decreases |a|
  {
    if a == [] {
      assert a + b == b;
    } else {
      assert (a + b)[0] == a[0] && (a + b)[1..] == a[1..] + b;
      match t
      case Node(_, l, r) => SubtreeAppend(if a[0] == Left then l else r, a[1..], b);
      case _ =>
    }
  }

  // ---------------------------------------------------------------------
  // Reverse (mirror)
  // ---------------------------------------------------------------------

  /** Swaps the children of every node, at every depth. Positions that are
      not nodes are returned as they are. */
  function Reverse<V>(t: Tree<V>): (r: Tree<V>)
    ensures r.Node? <==> t.Node?
    ensures !t.Node? ==> r == t
    ensures t.Node? ==> r.value == t.value
    ensures Values(r) == Values(t)
  {
    match t
    case Node(v, l, r) => Node(v, Reverse(r), Reverse(l))
    case _ => t
  }

  lemma {:induction false} ReverseInvolution<V>(t: Tree<V>)
    ensures Reverse(Reverse(t)) == t
  {
    match t
    case Node(_, l, r) =>
      ReverseInvolution(l);
      ReverseInvolution(r);
    case _ =>
  }

  /** The position at `a` in `t` is, mirrored, the position at `Flip(a)` in
      `Reverse(t)`. */
  lemma {:induction false} ReverseAt<V>(t: Tree<V>, a: seq<Dir>)
    ensures Subtree(t, a).None? ==> Subtree(Reverse(t), Flip(a)).None?
    ensures Subtree(t, a).Some? ==> Subtree(Reverse(t), Flip(a)) == Some(Reverse(Subtree(t, a).get))
    decreases |a|
  {
    if a != [] {
      assert Flip(a)[0] == Opposite(a[0]) && Flip(a)[1..] == Flip(a[1..]);
      match t
      case Node(_, l, r) => ReverseAt(if a[0] == Left then l else r, a[1..]);
      case _ =>
    }
  }

  /** Mirroring moves every value to the flipped address. */
  lemma ReverseValueAt<V>(t: Tree<V>, a: seq<Dir>)
    ensures ValueAt(Reverse(t), Flip(a)) == ValueAt(t, a)
  {
    ReverseAt(t, a);
  }

  // ---------------------------------------------------------------------
  // Depth-first search
  // ---------------------------------------------------------------------

  /** Whether `x` is held anywhere in `t`: the node's own value is tested
      first, then the left subtree, and the right subtree only when the left
      one holds no match. A leaf matches when it is `x`; `Empty` never does. */
  function DFS<V(==)>(t: Tree<V>, x: V): (found: bool)
    ensures found <==> x in Values(t)
  {
    match t
    case Node(v, l, r) =>
      if v == x then true
      else if DFS(l, x) then true
      else DFS(r, x)
    case Leaf(v) => v == x
    case Empty => false
  }

  /** A match found by the search is at some address of the tree. */
  lemma {:induction false} DFSWitness<V>(t: Tree<V>, x: V) returns (a: seq<Dir>)
    requires DFS(t, x)
    ensures ValueAt(t, a) == Some(x)
  {
    match t
    case Leaf(_) => a := [];
    case Node(v, l, r) =>
      if v == x {
        a := [];
      } else if DFS(l, x) {
        var b := DFSWitness(l, x);
        a := [Left] + b;
        assert a[1..] == b;
      } else {
        var b := DFSWitness(r, x);
        a := [Right] + b;
        assert a[1..] == b;
      }
  }

  /** A value held at any address is found by the search. */
  lemma {:induction false} DFSFindsValueAt<V>(t: Tree<V>, a: seq<Dir>, x: V)
    requires ValueAt(t, a) == Some(x)
    ensures DFS(t, x)
    decreases |a|
  {
    if a != [] {
      match t
      case Node(_, l, r) => DFSFindsValueAt(if a[0] == Left then l else r, a[1..], x);
    }
  }

  /** The search answers true exactly when some leaf or node position holds
      `x`. */
  lemma DFSIsMembership<V>(t: Tree<V>, x: V)
    ensures DFS(t, x) <==> exists a :: ValueAt(t, a) == Some(x)
  {
    if DFS(t, x) {
      var a := DFSWitness(t, x);
    }
    forall a | ValueAt(t, a) == Some(x) ensures DFS(t, x) {
      DFSFindsValueAt(t, a, x);
    }
  }

  lemma ReversePreservesDFS<V>(t: Tree<V>, x: V)
    ensures DFS(Reverse(t), x) == DFS(t, x)
  {
  }

  // ---------------------------------------------------------------------
  // Set: path-directed functional update
  // ---------------------------------------------------------------------

  /** A chain of left/right steps ending in the payload to splice in. */
  datatype Path<V> = L(next: Path<V>) | R(next: Path<V>) | Terminal(payload: Tree<V>)

  /** Why a `Set` has no result: a step must be taken at a position that is
      not a node, or the terminal payload is not a node. */
  datatype SetError = PathOutOfBounds | PayloadNotNode

  /** The directions of a path. */
  function Address<V>(p: Path<V>): seq<Dir>
  {
    match p
    case L(n) => [Left] + Address(n)
    case R(n) => [Right] + Address(n)
    case Terminal(_) => []
  }

  /** The payload at the end of a path. */
  function Payload<V>(p: Path<V>): Tree<V>
  {
    match p
    case L(n) => Payload(n)
    case R(n) => Payload(n)
    case Terminal(x) => x
  }

  /** A path can be applied to `t` when its directions lead to a position of
      `t` and its payload is a node. */
  predicate ValidPath<V>(t: Tree<V>, p: Path<V>)
  {
    Subtree(t, Address(p)).Some? && Payload(p).Node?
  }

  /** Replaces the position that `p` addresses with `p`'s payload. An `L`
      step rebuilds the node with its value and right child and an updated
      left child; `R` is symmetric. */
  function Set<V>(t: Tree<V>, p: Path<V>): (r: Result<Tree<V>, SetError>)
    ensures r.Ok? <==> ValidPath(t, p)
    ensures Subtree(t, Address(p)).None? ==> r == Err(PathOutOfBounds)
    ensures Subtree(t, Address(p)).Some? && !Payload(p).Node? ==> r == Err(PayloadNotNode)
    ensures r.Ok? ==> Subtree(r.ok, Address(p)) == Some(Payload(p))
    ensures r.Ok? && !p.Terminal? ==> r.ok.Node? && r.ok.value == t.value
    ensures r.Ok? && p.L? ==> r.ok.right == t.right
    ensures r.Ok? && p.R? ==> r.ok.left == t.left
  {
    match p
    case L(n) =>
      if !t.Node? then Err(PathOutOfBounds)
      else (match Set(t.left, n)
        case Ok(l) => Ok(Node(t.value, l, t.right))
        case Err(e) => Err(e))
    case R(n) =>
      if !t.Node? then Err(PathOutOfBounds)
      else (match Set(t.right, n)
        case Ok(r) => Ok(Node(t.value, t.left, r))
        case Err(e) => Err(e))
    case Terminal(x) =>
      if x.Node? then Ok(x) else Err(PayloadNotNode)
  }

  /** Below the addressed position the result is the payload. */
  lemma SetBelow<V>(t: Tree<V>, p: Path<V>, b: seq<Dir>)
    requires Set(t, p).Ok?
    ensures Subtree(Set(t, p).ok, Address(p) + b) == Subtree(Payload(p), b)
  {
    SubtreeAppend(Set(t, p).ok, Address(p), b);
  }

  /** Every address that is neither on the way to the updated position nor
      below it leads to the same subtree as before. */
  lemma {:induction false} SetOffPath<V>(t: Tree<V>, p: Path<V>, a: seq<Dir>)
    requires Set(t, p).Ok?
    requires !(a <= Address(p)) && !(Address(p) <= a)
    ensures Subtree(Set(t, p).ok, a) == Subtree(t, a)
  {
    match p
    case L(n) =>
      if a[0] == Left {
        assert Address(p)[1..] == Address(n);
        SetOffPath(t.left, n, a[1..]);
      }
    case R(n) =>
      if a[0] == Right {
        assert Address(p)[1..] == Address(n);
        SetOffPath(t.right, n, a[1..]);
      }
  }

  /** The positions on the way to the updated one keep their values. */
  lemma {:induction false} SetOnPath<V>(t: Tree<V>, p: Path<V>, a: seq<Dir>)
    requires Set(t, p).Ok?
    requires a < Address(p)
    ensures ValueAt(Set(t, p).ok, a) == ValueAt(t, a)
  {
    if a != [] {
      match p
      case L(n) =>
        assert Address(p)[1..] == Address(n);
        SetOnPath(t.left, n, a[1..]);
      case R(n) =>
        assert Address(p)[1..] == Address(n);
        SetOnPath(t.right, n, a[1..]);
    }
  }

  /** Setting the same path again changes nothing more. */
  lemma {:induction false} SetIdempotent<V>(t: Tree<V>, p: Path<V>)
    requires Set(t, p).Ok?
    ensures Set(Set(t, p).ok, p) == Set(t, p)
  {
    match p
    case L(n) => SetIdempotent(t.left, n);
    case R(n) => SetIdempotent(t.right, n);
    case Terminal(_) =>
  }

  /** The path that takes the opposite step everywhere and carries the
      mirrored payload. */
  function MirrorPath<V>(p: Path<V>): (m: Path<V>)
    ensures Address(m) == Flip(Address(p))
    ensures Payload(m) == Reverse(Payload(p))
  {
    match p
    case L(n) => R(MirrorPath(n))
    case R(n) => L(MirrorPath(n))
    case Terminal(x) => Terminal(Reverse(x))
  }

  /** Mirroring commutes with setting along the mirrored path. */
  lemma {:induction false} SetReverse<V>(t: Tree<V>, p: Path<V>)
    ensures Set(Reverse(t), MirrorPath(p)) == match Set(t, p) case Ok(s) => Ok(Reverse(s)) case Err(e) => Err(e)
  {
    match p
    case L(n) => if t.Node? { SetReverse(t.left, n); }
    case R(n) => if t.Node? { SetReverse(t.right, n); }
    case Terminal(_) =>
  }
}
