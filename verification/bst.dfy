/** The binary search tree of create_a_binary_search_tree_in_attempt_1.py: an
    unbalanced tree in which smaller values go left and values greater than or
    equal to a node go right. The `BST` object holding a mutable root becomes
    the tree value itself; `insert` returns the new tree. */
module SearchTree {

  datatype Tree = Leaf | Node(left: Tree, val: int, right: Tree)

  /** The values stored in a tree, with their multiplicities. */
  function Elements(t: Tree): multiset<int> {
    match t
    case Leaf => multiset{}
    case Node(l, v, r) => Elements(l) + multiset{v} + Elements(r)
  }

  /** Every value of `t` is smaller than `bound`. */
  predicate AllBelow(t: Tree, bound: int) {
    match t
    case Leaf => true
    case Node(l, v, r) => v < bound && AllBelow(l, bound) && AllBelow(r, bound)
  }

  /** Every value of `t` is at least `bound`. */
  predicate AllAtLeast(t: Tree, bound: int) {
    match t
    case Leaf => true
    case Node(l, v, r) => v >= bound && AllAtLeast(l, bound) && AllAtLeast(r, bound)
  }

  /** At every node, the left subtree holds smaller values and the right
      subtree values at least the node's. */
  predicate IsSearchTree(t: Tree) {
    match t
    case Leaf => true
    case Node(l, v, r) => IsSearchTree(l) && IsSearchTree(r) && AllBelow(l, v) && AllAtLeast(r, v)
  }

  /** The bounds say what they mean about the stored values. */
  lemma {:induction false} BoundsMean(t: Tree, bound: int)
    ensures AllBelow(t, bound) <==> forall x :: x in Elements(t) ==> x < bound
    ensures AllAtLeast(t, bound) <==> forall x :: x in Elements(t) ==> x >= bound
  {
    match t
    case Leaf =>
    case Node(l, v, r) =>
      BoundsMean(l, bound);
      BoundsMean(r, bound);
      assert forall x :: x in Elements(t) <==> x in Elements(l) || x == v || x in Elements(r);
  }

  /** `_insert`: a new leaf where the search for `val` falls off the tree. */
  function Insert(t: Tree, val: int): (r: Tree)
    ensures Elements(r) == Elements(t) + multiset{val}
    ensures r.Node?
  {
    match t
    case Leaf => Node(Leaf, val, Leaf)
    case Node(l, v, rt) =>
      if val < v then Node(Insert(l, val), v, rt) else Node(l, v, Insert(rt, val))
  }

  /** `_search`: follow the comparisons until the value or a missing child. */
  function Search(t: Tree, val: int): (found: bool)
    ensures found ==> val in Elements(t)
  {
    match t
    case Leaf => false
    case Node(l, v, r) =>
      if v == val then true else if val < v then Search(l, val) else Search(r, val)
  }

  lemma {:induction false} InsertBelow(t: Tree, val: int, bound: int)
    requires AllBelow(t, bound) && val < bound
    ensures AllBelow(Insert(t, val), bound)
  {
    match t
    case Leaf =>
    case Node(l, v, r) =>
      if val < v {
        InsertBelow(l, val, bound);
      } else {
        InsertBelow(r, val, bound);
      }
  }

  lemma {:induction false} InsertAtLeast(t: Tree, val: int, bound: int)
    requires AllAtLeast(t, bound) && val >= bound
    ensures AllAtLeast(Insert(t, val), bound)
  {
    match t
    case Leaf =>
    case Node(l, v, r) =>
      if val < v {
        InsertAtLeast(l, val, bound);
      } else {
        InsertAtLeast(r, val, bound);
      }
  }

  /** Insertion keeps the ordering invariant. */
  lemma {:induction false} InsertKeepsOrder(t: Tree, val: int)
    requires IsSearchTree(t)
    ensures IsSearchTree(Insert(t, val))
  {
    match t
    case Leaf =>
    case Node(l, v, r) =>
      if val < v {
        InsertKeepsOrder(l, val);
        InsertBelow(l, val, v);
      } else {
        InsertKeepsOrder(r, val);
        InsertAtLeast(r, val, v);
      }
  }

  /** In a search tree a stored value is always found. */
  lemma {:induction false} SearchComplete(t: Tree, val: int)
    requires IsSearchTree(t) && val in Elements(t)
    ensures Search(t, val)
  {
    match t
    case Leaf =>
    case Node(l, v, r) =>
      if v != val {
        BoundsMean(l, v);
        BoundsMean(r, v);
        if val < v {
          SearchComplete(l, val);
        } else {
          SearchComplete(r, val);
        }
      }
  }

  /** Under the invariant, `search` decides membership. */
  lemma SearchIffMember(t: Tree, val: int)
    requires IsSearchTree(t)
    ensures Search(t, val) <==> val in Elements(t)
  {
    if val in Elements(t) {
      SearchComplete(t, val);
    }
  }

  /** A value just inserted is found, in any tree. */
  lemma {:induction false} FoundAfterInsert(t: Tree, val: int)
    ensures Search(Insert(t, val), val)
  {
    match t
    case Leaf =>
    case Node(l, v, r) =>
      if val < v {
        FoundAfterInsert(l, val);
      } else if v != val {
        FoundAfterInsert(r, val);
      }
  }

  /** Inserting keeps every value found before. */
  lemma {:induction false} InsertKeepsFound(t: Tree, val: int, x: int)
    requires Search(t, x)
    ensures Search(Insert(t, val), x)
  {
    match t
    case Leaf =>
    case Node(l, v, r) =>
      if v != x {
        if x < v {
          if val < v {
            InsertKeepsFound(l, val, x);
          }
        } else if val >= v {
          InsertKeepsFound(r, val, x);
        }
      }
  }

  /** The tree built by inserting `vals` one after another into the empty tree. */
  function FromValues(vals: seq<int>): (t: Tree)
    ensures IsSearchTree(t)
    ensures Elements(t) == multiset(vals)
  {
    if vals == [] then Leaf
    else
      var t := FromValues(vals[..|vals| - 1]);
      var v := vals[|vals| - 1];
      InsertKeepsOrder(t, v);
      assert vals == vals[..|vals| - 1] + [v];
      assert multiset(vals) == multiset(vals[..|vals| - 1]) + multiset{v};
      Insert(t, v)
  }

  /** A tree built by successive inserts finds exactly the inserted values. */
  lemma FoundIffInserted(vals: seq<int>, x: int)
    ensures Search(FromValues(vals), x) <==> x in vals
  {
    SearchIffMember(FromValues(vals), x);
    assert x in multiset(vals) <==> x in vals;
  }

  /** The embedded test: after inserting 5, 3 and 7, the tree finds 5 and 3
      but not 10. */
  lemma InsertedFound(a: int, b: int, c: int)
    requires a == 5 && b == 3 && c == 7
    ensures var t := FromValues([a, b, c]);
            Search(t, 5) && Search(t, 3) && !Search(t, 10)
  {
    var t := FromValues([a, b, c]);
    SearchIffMember(t, 5);
    SearchIffMember(t, 3);
    SearchIffMember(t, 10);
    assert multiset([a, b, c]) == multiset{5, 3, 7};
  }

  /** The demonstration run: after 5, 3, 7, 2, 4, 6, 8 the tree finds 4 and
      not 9. */
  lemma DemoSearches(vals: seq<int>)
    requires vals == [5, 3, 7, 2, 4, 6, 8]
    ensures Search(FromValues(vals), 4) && !Search(FromValues(vals), 9)
  {
    FoundIffInserted(vals, 4);
    FoundIffInserted(vals, 9);
    assert vals[4] == 4;
    assert 9 !in vals;
  }
}
