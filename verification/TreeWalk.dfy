/** Depth-first traversal with an explicit stack (omnicode/ast_engine/inheritance.py, `_walk`). */
module TreeWalk {
  import opened Sequences

  datatype Tree<T> = Node(value: T, children: seq<Tree>)

  /** The nodes of some trees: each node, then its descendants, from left to right. */
  function Preorder<T>(trees: seq<Tree<T>>): seq<Tree<T>> {
    if trees == [] then [] else [trees[0]] + Preorder(trees[0].children) + Preorder(trees[1..])
  }

  /** A stack of trees, the next one to visit on top at the end. */
  function Pending<T>(stack: seq<Tree<T>>): seq<Tree<T>> {
    if stack == [] then [] else [stack[|stack| - 1]] + Pending(stack[..|stack| - 1])
  }

  function Size<T>(trees: seq<Tree<T>>): nat {
    if trees == [] then 0 else 1 + Size(trees[0].children) + Size(trees[1..])
  }

  lemma {:induction false} PreorderAppend<T>(xs: seq<Tree<T>>, ys: seq<Tree<T>>)
    ensures Preorder(xs + ys) == Preorder(xs) + Preorder(ys) && Size(xs + ys) == Size(xs) + Size(ys)
    decreases |xs|
  {
    if xs == [] {
      assert xs + ys == ys;
    } else {
      assert (xs + ys)[1..] == xs[1..] + ys && (xs + ys)[0] == xs[0];
      PreorderAppend(xs[1..], ys);
      ConcatAssociates([xs[0]] + Preorder(xs[0].children), Preorder(xs[1..]), Preorder(ys));
    }
  }

  lemma PendingPush<T>(stack: seq<Tree<T>>, tree: Tree<T>)
    ensures Pending(stack + [tree]) == [tree] + Pending(stack)
  {
    assert (stack + [tree])[..|stack|] == stack;
  }

  /** Pushing children in reverse puts them on the stack in order. */
  method PushReversed<T>(stack: seq<Tree<T>>, children: seq<Tree<T>>) returns (pushed: seq<Tree<T>>)
    ensures Pending(pushed) == children + Pending(stack)
  {
    pushed := stack;
    var i := |children|;
    assert children[i..] == [];
    while i > 0
      invariant 0 <= i <= |children|
      invariant Pending(pushed) == children[i..] + Pending(stack)
    {
      i := i - 1;
      PendingPush(pushed, children[i]);
      assert children[i..] == [children[i]] + children[i + 1..];
      ConcatAssociates([children[i]], children[i + 1..], Pending(stack));
      pushed := pushed + [children[i]];
    }
    assert children[0..] == children;
  }

  lemma VisitTop<T>(tree: Tree<T>, rest: seq<Tree<T>>)
    ensures Preorder([tree] + rest) == [tree] + Preorder(tree.children + rest)
    ensures Size(tree.children + rest) < Size([tree] + rest)
  {
    assert ([tree] + rest)[1..] == rest;
    PreorderAppend(tree.children, rest);
    ConcatAssociates([tree], Preorder(tree.children), Preorder(rest));
  }

  /** `_walk`: the nodes in the order in which they are yielded. */
  method Walk<T>(root: Tree<T>) returns (visited: seq<Tree<T>>)
    ensures visited == Preorder([root])
  {
    visited := [];
    var stack := [root];
    PendingPush([], root);
    while stack != []
      invariant visited + Preorder(Pending(stack)) == Preorder([root])
      decreases Size(Pending(stack))
    {
      var n, below := stack[|stack| - 1], stack[..|stack| - 1];
      VisitTop(n, Pending(below));
      ConcatAssociates(visited, [n], Preorder(n.children + Pending(below)));
      visited := visited + [n];
      stack := PushReversed(below, n.children);
    }
  }

  /** A node is a descendant of a forest: it is one of the roots, or a descendant of one's children. */
  predicate Under<T(==)>(node: Tree<T>, trees: seq<Tree<T>>) {
    trees != [] && (node == trees[0] || Under(node, trees[0].children) || Under(node, trees[1..]))
  }

  /** The traversal yields every descendant and nothing else, as many nodes as there are. */
  lemma {:induction false} WalkIsComplete<T>(node: Tree<T>, trees: seq<Tree<T>>)
    ensures node in Preorder(trees) <==> Under(node, trees)
    ensures |Preorder(trees)| == Size(trees)
  {
    if trees != [] {
      WalkIsComplete(node, trees[0].children);
      WalkIsComplete(node, trees[1..]);
    }
  }
}
