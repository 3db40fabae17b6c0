/** Binary trees with a stored balance field, the shape `tsearch` maintains.

    Keys are integers under their usual order (standing in for the `compar`
    callback). A position in a tree is a path from the root, `true` for a
    step to the left child and `false` for a step to the right child. */
module AvlTree {

  datatype Tree = Leaf | Node(key: int, left: Tree, right: Tree, balance: int)

  function Max(a: int, b: int): int
  {
    if a < b then b else a
  }

  function Height(t: Tree): nat
  {
    match t
    case Leaf => 0
    case Node(_, l, r, _) => 1 + Max(Height(l), Height(r))
  }

  function Keys(t: Tree): set<int>
  {
    match t
    case Leaf => {}
    case Node(k, l, r, _) => Keys(l) + {k} + Keys(r)
  }

  /** Keys read left to right. */
  function InOrder(t: Tree): seq<int>
  {
    match t
    case Leaf => []
    case Node(k, l, r, _) => InOrder(l) + [k] + InOrder(r)
  }

  predicate Increasing(s: seq<int>)
  {
    forall i, j :: 0 <= i < j < |s| ==> s[i] < s[j]
  }

  /** Search-tree order: every key of a left subtree is below its node's key,
      every key of a right subtree above it. */
  predicate Bst(t: Tree)
  {
    match t
    case Leaf => true
    case Node(k, l, r, _) =>
      && Bst(l) && Bst(r)
      && (forall x :: x in Keys(l) ==> x < k)
      && (forall x :: x in Keys(r) ==> k < x)
  }

  /** The AVL invariant together with the meaning of the balance field: at
      every node the balance is the left height minus the right height, and
      it is -1, 0 or 1. */
  predicate Avl(t: Tree)
  {
    match t
    case Leaf => true
    case Node(_, l, r, b) =>
      && Avl(l) && Avl(r)
      && b == Height(l) - Height(r)
      && -1 <= b <= 1
  }

  /** The balance field of a node; an empty slot counts as balanced. */
  function Bal(t: Tree): int
  {
    if t.Node? then t.balance else 0
  }

  /** The subtree found by following `p`; `Leaf` once the path leaves the tree. */
  function Subtree(t: Tree, p: seq<bool>): Tree
    decreases |p|
  {
    if p == [] then t
    else match t
      case Leaf => Leaf
      case Node(_, l, r, _) => if p[0] then Subtree(l, p[1..]) else Subtree(r, p[1..])
  }

  /** Every step of `p` except possibly the last position leaves from a node,
      so `p` names a child slot of the tree (a node or an empty slot). */
  predicate ValidPath(t: Tree, p: seq<bool>)
    decreases |p|
  {
    p == [] || (t.Node? && ValidPath(if p[0] then t.left else t.right, p[1..]))
  }

  /** The tree with the subtree at `p` replaced by `s`: what a store through
      the child pointer at that position does. */
  function Replace(t: Tree, p: seq<bool>, s: Tree): Tree
    decreases |p|
  {
    if p == [] then s
    else match t
      case Leaf => Leaf
      case Node(k, l, r, b) =>
        if p[0] then Node(k, Replace(l, p[1..], s), r, b)
        else Node(k, l, Replace(r, p[1..], s), b)
  }

  lemma {:induction false} InOrderKeys(t: Tree)
    ensures forall x :: x in InOrder(t) <==> x in Keys(t)
  {
    match t
    case Leaf =>
    case Node(k, l, r, _) =>
      InOrderKeys(l);
      InOrderKeys(r);
  }

  /** A sequence around a pivot is increasing exactly when both sides are
      and the pivot separates them. */
  lemma {:induction false} IncreasingAround(a: seq<int>, k: int, b: seq<int>)
    ensures Increasing(a + [k] + b) <==>
      && Increasing(a) && Increasing(b)
      && (forall x :: x in a ==> x < k)
      && (forall x :: x in b ==> k < x)
  {
    var s := a + [k] + b;
    if Increasing(a) && Increasing(b) && (forall x :: x in a ==> x < k) && (forall x :: x in b ==> k < x) {
      forall i, j | 0 <= i < j < |s|
        ensures s[i] < s[j]
      {
        if j < |a| {
          assert s[i] == a[i] && s[j] == a[j];
        } else if j == |a| {
          assert s[i] == a[i] && a[i] in a;
        } else if i < |a| {
          assert s[i] == a[i] && s[j] == b[j - |a| - 1];
          assert a[i] in a && b[j - |a| - 1] in b;
        } else if i == |a| {
          assert s[j] == b[j - |a| - 1] && b[j - |a| - 1] in b;
        } else {
          assert s[i] == b[i - |a| - 1] && s[j] == b[j - |a| - 1];
        }
      }
    }
    if Increasing(s) {
      forall i, j | 0 <= i < j < |a| ensures a[i] < a[j] {
        assert a[i] == s[i] && a[j] == s[j];
      }
      forall i, j | 0 <= i < j < |b| ensures b[i] < b[j] {
        assert b[i] == s[|a| + 1 + i] && b[j] == s[|a| + 1 + j];
      }
      forall x | x in a ensures x < k {
        var i :| 0 <= i < |a| && a[i] == x;
        assert s[i] == x && s[|a|] == k;
      }
      forall x | x in b ensures k < x {
        var i :| 0 <= i < |b| && b[i] == x;
        assert s[|a| + 1 + i] == x && s[|a|] == k;
      }
    }
  }

  /** The recursive search-tree order and a strictly increasing in-order
      sequence are the same property. */
  lemma {:induction false} BstIffIncreasing(t: Tree)
    ensures Bst(t) <==> Increasing(InOrder(t))
  {
    match t
    case Leaf =>
    case Node(k, l, r, _) =>
      BstIffIncreasing(l);
      BstIffIncreasing(r);
      InOrderKeys(l);
      InOrderKeys(r);
      IncreasingAround(InOrder(l), k, InOrder(r));
  }

  lemma {:induction false} ValidPathPrefix(t: Tree, p: seq<bool>, i: nat)
    requires ValidPath(t, p) && i <= |p|
    ensures ValidPath(t, p[..i])
    decreases |p|
  {
    if i > 0 {
      assert p[..i][0] == p[0] && p[..i][1..] == p[1..][..i - 1];
      ValidPathPrefix(if p[0] then t.left else t.right, p[1..], i - 1);
    }
  }

  /** Reading back a replaced position yields the new subtree. */
  lemma {:induction false} SubtreeOfReplace(t: Tree, p: seq<bool>, s: Tree, q: seq<bool>)
    requires ValidPath(t, p)
    ensures Subtree(Replace(t, p, s), p + q) == Subtree(s, q)
    decreases |p|
  {
    if p == [] {
      assert p + q == q;
    } else {
      assert (p + q)[0] == p[0] && (p + q)[1..] == p[1..] + q;
      SubtreeOfReplace(if p[0] then t.left else t.right, p[1..], s, q);
    }
  }

  /** Following `p + q` is following `p`, then `q`. */
  lemma {:induction false} SubtreeAppend(t: Tree, p: seq<bool>, q: seq<bool>)
    requires ValidPath(t, p)
    ensures Subtree(t, p + q) == Subtree(Subtree(t, p), q)
    ensures ValidPath(t, p + q) <==> ValidPath(Subtree(t, p), q)
    decreases |p|
  {
    if p == [] {
      assert p + q == q;
    } else {
      assert (p + q)[0] == p[0] && (p + q)[1..] == p[1..] + q;
      SubtreeAppend(if p[0] then t.left else t.right, p[1..], q);
    }
  }

  /** Two replacements at nested positions are one replacement at the
      deeper position. */
  lemma {:induction false} ReplaceNested(t: Tree, p: seq<bool>, q: seq<bool>, s: Tree)
    requires ValidPath(t, p)
    ensures Replace(t, p, Replace(Subtree(t, p), q, s)) == Replace(t, p + q, s)
    decreases |p|
  {
    if p == [] {
      assert p + q == q;
    } else {
      assert (p + q)[0] == p[0] && (p + q)[1..] == p[1..] + q;
      ReplaceNested(if p[0] then t.left else t.right, p[1..], q, s);
    }
  }

  /** Replacing a subtree by one with the same in-order sequence keeps the
      whole tree's in-order sequence. */
  lemma {:induction false} ReplaceInOrder(t: Tree, p: seq<bool>, s1: Tree, s2: Tree)
    requires InOrder(s1) == InOrder(s2)
    ensures InOrder(Replace(t, p, s1)) == InOrder(Replace(t, p, s2))
    decreases |p|
  {
    if p != [] && t.Node? {
      ReplaceInOrder(if p[0] then t.left else t.right, p[1..], s1, s2);
    }
  }

  /** Replacing a subtree by an AVL tree of the same height keeps the whole
      tree AVL and of the same height. */
  lemma {:induction false} ReplaceAvl(t: Tree, p: seq<bool>, s: Tree)
    requires Avl(t) && ValidPath(t, p)
    requires Avl(s) && Height(s) == Height(Subtree(t, p))
    ensures Avl(Replace(t, p, s)) && Height(Replace(t, p, s)) == Height(t)
    decreases |p|
  {
    if p != [] {
      ReplaceAvl(if p[0] then t.left else t.right, p[1..], s);
    }
  }
}
