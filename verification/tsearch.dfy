/** `tsearch`: non-recursive AVL insertion (src/libc/search/tsearch.c).

    The C code walks child pointers; here a child pointer is named by its
    path from the root, `*base` by the depth of the base node on the search
    path, and the returned key slot by the path of its node in the final
    tree. */
module TSearch {
  import opened Prelude
  import opened AvlTree

  /** The node `malloc`ed and initialised by lines 53-59. */
  function NewNode(key: int): Tree
  {
    Node(key, Leaf, Leaf, 0)
  }

  /** Outcome of the search loop: the path to a node holding an equal key,
      or the path to the empty slot where the key belongs together with the
      depth of the base node. */
  datatype Search = Hit(path: seq<bool>) | Miss(path: seq<bool>, base: nat)

  /** `p` is the path the comparisons choose for `key`: every node on it
      holds a different key, and the step taken is left exactly when `key`
      is smaller. */
  predicate SearchPath(t: Tree, key: int, p: seq<bool>)
    decreases |p|
  {
    p == [] ||
    (t.Node? && t.key != key && p[0] == (key < t.key) &&
     SearchPath(if p[0] then t.left else t.right, key, p[1..]))
  }

  /** What the search loop establishes about a miss at `p` with base depth
      `b`: `p` ends in an empty slot, the base node (or the root when no
      node on the way is unbalanced) is unbalanced, and every node strictly
      between the base and the slot has balance 0. */
  predicate MissFacts(t: Tree, key: int, p: seq<bool>, b: nat)
  {
    && SearchPath(t, key, p)
    && Subtree(t, p) == Leaf
    && (b < |p| || b == 0)
    && (b == 0 || Bal(Subtree(t, p[..b])) != 0)
    && (forall i :: b < i < |p| ==> Bal(Subtree(t, p[..i])) == 0)
  }

  /** The search loop (lines 28-50): `prefix` is the path walked so far,
      `base` the depth of the last unbalanced node met. */
  function Descend(t: Tree, key: int, prefix: seq<bool>, base: nat): (r: Search)
    ensures |prefix| <= |r.path| && r.path[..|prefix|] == prefix
    ensures SearchPath(t, key, r.path[|prefix|..])
    ensures r.Hit? ==> Subtree(t, r.path[|prefix|..]).Node? && Subtree(t, r.path[|prefix|..]).key == key
    ensures r.Miss? ==> Subtree(t, r.path[|prefix|..]) == Leaf
  {
    match t
    case Leaf => Miss(prefix, base)
    case Node(k, l, rt, bal) =>
      var base' := if bal != 0 then |prefix| else base;
      if key != k then
        var d := key < k;
        var s := Descend(if d then l else rt, key, prefix + [d], base');
        assert s.path[..|prefix|] == (prefix + [d])[..|prefix|];
        assert s.path[|prefix|..] == [d] + s.path[|prefix| + 1..];
        s
      else Hit(prefix)
  }

  /** The whole search loop, from the root with no unbalanced node met:
      on a hit the path leads to a node holding `key`, on a miss the path
      and base satisfy `MissFacts`. */
  function Find(t: Tree, key: int): (r: Search)
    ensures r.Hit? ==> SearchPath(t, key, r.path) && Subtree(t, r.path).Node? && Subtree(t, r.path).key == key
    ensures r.Miss? ==> MissFacts(t, key, r.path, r.base)
  {
    DescendFacts(t, key, [], 0);
    Descend(t, key, [], 0)
  }

  /** The balance walk (lines 61-72): every node from the base down to, but
      not including, the new node gains 1 when the path goes left and loses
      1 when it goes right. */
  function Adjust(t: Tree, q: seq<bool>): (r: Tree)
    ensures SameShape(r, t)
    ensures InOrder(r) == InOrder(t)
    ensures q != [] && t.Node? ==> r.balance == t.balance + (if q[0] then 1 else -1)
    decreases |q|
  {
    if q == [] then SameShapeRefl(t); t
    else match t
      case Leaf => Leaf
      case Node(k, l, r, b) =>
        SameShapeRefl(l);
        SameShapeRefl(r);
        if q[0] then Node(k, Adjust(l, q[1..]), r, b + 1)
        else Node(k, l, Adjust(r, q[1..]), b - 1)
  }

  /** Two trees with the same keys in the same places; only the balance
      fields may differ. */
  predicate SameShape(a: Tree, b: Tree)
  {
    match a
    case Leaf => b.Leaf?
    case Node(k, l, r, _) => b.Node? && b.key == k && SameShape(l, b.left) && SameShape(r, b.right)
  }

  lemma {:induction false} SameShapeRefl(t: Tree)
    ensures SameShape(t, t)
  {
    if t.Node? {
      SameShapeRefl(t.left);
      SameShapeRefl(t.right);
    }
  }

  /** Lines 53-72: the new node is stored into the empty slot at `p`, then
      the balances on the path from the base depth `b` down are adjusted.
      The result is the new base subtree. */
  function LinkAndAdjust(t: Tree, key: int, p: seq<bool>, b: nat): (r: Tree)
    requires Avl(t) && MissFacts(t, key, p, b)
    ensures b <= |p| && ValidPath(r, p[b..]) && Subtree(r, p[b..]) == NewNode(key)
    ensures InOrder(r) == InOrder(Replace(Subtree(t, p[..b]), p[b..], NewNode(key)))
  {
    BaseSplit(t, key, p, b);
    BasePath(Subtree(t, p[..b]), p[b..], key);
    Adjust(Replace(Subtree(t, p[..b]), p[b..], NewNode(key)), p[b..])
  }

  /** The pointers the rotation code dereferences are non-NULL. */
  predicate RotateOk(x: Tree)
  {
    && x.Node?
    && (x.balance > 1 ==> x.left.Node? && (x.left.balance < 0 ==> x.left.right.Node?))
    && (x.balance < -1 ==> x.right.Node? && (x.right.balance > 0 ==> x.right.left.Node?))
  }

  /** The rotation at the base (lines 76-151), with the balance assignments
      of the source. Each of the four cases keeps the in-order sequence of
      keys. */
  function Rotate(x: Tree): (r: Tree)
    requires RotateOk(x)
    ensures InOrder(r) == InOrder(x)
  {
    if x.balance > 1 then
      var y := x.left;
      if y.balance < 0 then
        // Left-right case.
        var z := y.right;
        DoubleInOrder(y.left, z.left, z.right, x.right, x.key, y.key, z.key, x.balance, y.balance, z.balance,
                      if z.balance > 0 then -1 else 0, if z.balance < 0 then 1 else 0, 0);
        Node(z.key,
             Node(y.key, y.left, z.left, if z.balance < 0 then 1 else 0),
             Node(x.key, z.right, x.right, if z.balance > 0 then -1 else 0),
             0)
      else
        // Left-left case.
        SingleInOrder(y.left, y.right, x.right, x.key, y.key, x.balance, y.balance, 0, 0);
        Node(y.key, y.left, Node(x.key, y.right, x.right, 0), 0)
    else if x.balance < -1 then
      var y := x.right;
      if y.balance > 0 then
        // Right-left case.
        var z := y.left;
        DoubleInOrderMirror(x.left, z.left, z.right, y.right, x.key, y.key, z.key, x.balance, y.balance, z.balance,
                            if z.balance < 0 then 1 else 0, if z.balance > 0 then -1 else 0, 0);
        Node(z.key,
             Node(x.key, x.left, z.left, if z.balance < 0 then 1 else 0),
             Node(y.key, z.right, y.right, if z.balance > 0 then -1 else 0),
             0)
      else
        // Right-right case.
        SingleInOrder(x.left, y.left, y.right, y.key, x.key, 0, 0, y.balance, x.balance);
        Node(y.key, Node(x.key, x.left, y.left, 0), y.right, 0)
    else x
  }

  /** The new node's path through the base subtree follows the heavy side
      in each rotation case. */
  predicate SlotFollowsRotation(x: Tree, q: seq<bool>)
  {
    && RotateOk(x)
    && (x.balance > 1 ==> |q| >= 2 && q[0] && (q[1] <==> x.left.balance >= 0))
    && (x.balance < -1 ==> |q| >= 2 && !q[0] && (!q[1] <==> x.right.balance <= 0))
  }

  /** Where the node at path `q` of the base subtree `x` sits after
      `Rotate(x)`: the identity of the node `result` points to, which the
      rotation moves but does not change. */
  function RotatedSlot(x: Tree, q: seq<bool>): (rs: seq<bool>)
    requires SlotFollowsRotation(x, q)
    ensures Subtree(x, q).Node? ==>
      Subtree(Rotate(x), rs).Node? && Subtree(Rotate(x), rs).key == Subtree(x, q).key
  {
    if x.balance > 1 || x.balance < -1 then
      var heavyInner := if x.balance > 1 then x.left.balance < 0 else x.right.balance > 0;
      var r := q[2..];
      var c1 := if q[0] then x.left else x.right;
      var c2 := if q[1] then c1.left else c1.right;
      assert q[1..][0] == q[1] && q[1..][1..] == r;
      assert Subtree(x, q) == Subtree(c2, r);
      if heavyInner then
        // The node is z itself, or sits in one of z's subtrees, which
        // become the inner children of the two halves.
        if r == [] then []
        else
          var rs := if r[0] then [true, false] + r[1..] else [false, true] + r[1..];
          assert rs[1..][0] == rs[1] && rs[1..][1..] == r[1..];
          assert Subtree(c2, r) == Subtree(if r[0] then c2.left else c2.right, r[1..]);
          rs
      else
        var rs := [q[0]] + r;
        assert rs[0] == q[0] && rs[1..] == r;
        rs
    else q
  }

  /** Linking the new node, adjusting balances and rotating (lines 53-155),
      once the search has missed at `p` with base depth `b`. Everything
      above the base stays as it was; only the subtree at the base is
      rebuilt. */
  function InsertAt(t: Tree, key: int, p: seq<bool>, b: nat): (r: (Tree, seq<bool>))
    requires Avl(t) && MissFacts(t, key, p, b)
    ensures Avl(r.0)
    ensures Height(r.0) == Height(t) || Height(r.0) == Height(t) + 1
    ensures InOrder(r.0) == InOrder(Replace(t, p, NewNode(key)))
    ensures Keys(r.0) == Keys(t) + {key}
    ensures Bst(t) ==> Bst(r.0)
    ensures b <= |p| && r.0 == Replace(t, p[..b], Subtree(r.0, p[..b]))
    ensures Subtree(r.0, r.1).Node? && Subtree(r.0, r.1).key == key
  {
    InsertFacts(t, key, p, b);
    var g := LinkAndAdjust(t, key, p, b);
    (Replace(t, p[..b], Rotate(g)), p[..b] + RotatedSlot(g, p[b..]))
  }

  /** The whole of `tsearch`: `rootp` is `None` for a NULL `rootp`, and
      `allocOk` is whether `malloc` succeeds. The result carries the new
      value of `*rootp` and the returned key slot (`None` for NULL). */
  datatype TSearchResult = TSearchResult(root: Option<Tree>, slot: Option<seq<bool>>)

  function TSearch(rootp: Option<Tree>, key: int, allocOk: bool): (r: TSearchResult)
    requires rootp.Some? ==> Avl(rootp.value)
    ensures rootp.None? ==> r == TSearchResult(None, None)
    ensures r.slot.None? ==> r.root == rootp
    ensures rootp.Some? && allocOk ==> r.slot.Some?
    ensures rootp.Some? ==> r.root.Some? && Avl(r.root.value)
    ensures rootp.Some? ==>
      Height(r.root.value) == Height(rootp.value) || Height(r.root.value) == Height(rootp.value) + 1
    ensures r.slot.Some? ==>
      && r.root.Some?
      && Subtree(r.root.value, r.slot.value).Node?
      && Subtree(r.root.value, r.slot.value).key == key
      && Keys(r.root.value) == Keys(rootp.value) + {key}
    ensures rootp.Some? && Bst(rootp.value) ==> Bst(r.root.value)
    ensures rootp.Some? && Bst(rootp.value) && key in Keys(rootp.value) ==> r.root == rootp && r.slot.Some?
    ensures rootp.Some? && Bst(rootp.value) && key !in Keys(rootp.value) && !allocOk ==>
      r == TSearchResult(rootp, None)
  {
    if rootp.None? then TSearchResult(None, None)
    else
      var t := rootp.value;
      FindFacts(t, key);
      match Find(t, key)
      case Hit(p) =>
        SubtreeKeys(t, p);
        TSearchResult(rootp, Some(p))
      case Miss(p, b) =>
        if !allocOk then TSearchResult(rootp, None)
        else
          var ins := InsertAt(t, key, p, b);
          TSearchResult(Some(ins.0), Some(ins.1))
  }

  // ---------------------------------------------------------------------
  // Proofs.

  lemma {:induction false} SearchPathValid(t: Tree, key: int, p: seq<bool>)
    requires SearchPath(t, key, p)
    ensures ValidPath(t, p)
    decreases |p|
  {
    if p != [] {
      SearchPathValid(if p[0] then t.left else t.right, key, p[1..]);
    }
  }

  /** A search path can be extended by one more comparison step. */
  lemma {:induction false} SearchPathExtend(t: Tree, key: int, p: seq<bool>, d: bool)
    requires SearchPath(t, key, p)
    requires Subtree(t, p).Node? && Subtree(t, p).key != key
    requires d == (key < Subtree(t, p).key)
    ensures SearchPath(t, key, p + [d])
    decreases |p|
  {
    if p == [] {
      assert p + [d] == [d];
      assert [d][1..] == [];
    } else {
      assert (p + [d])[0] == p[0] && (p + [d])[1..] == p[1..] + [d];
      SearchPathExtend(if p[0] then t.left else t.right, key, p[1..], d);
    }
  }

  lemma {:induction false} SubtreeKeys(t: Tree, p: seq<bool>)
    ensures Keys(Subtree(t, p)) <= Keys(t)
    decreases |p|
  {
    if p != [] && t.Node? {
      SubtreeKeys(if p[0] then t.left else t.right, p[1..]);
    }
  }

  lemma {:induction false} SubtreeAvl(t: Tree, p: seq<bool>)
    requires Avl(t)
    ensures Avl(Subtree(t, p))
    decreases |p|
  {
    if p != [] && t.Node? {
      SubtreeAvl(if p[0] then t.left else t.right, p[1..]);
    }
  }

  /** In a search tree, the comparisons miss only keys that are absent. */
  lemma {:induction false} MissAbsent(t: Tree, key: int, p: seq<bool>)
    requires Bst(t) && SearchPath(t, key, p) && Subtree(t, p) == Leaf
    ensures key !in Keys(t)
    decreases |p|
  {
    if p == [] {
    } else {
      MissAbsent(if p[0] then t.left else t.right, key, p[1..]);
    }
  }

  /** The loop invariant of the search loop, carried through `Descend`. */
  lemma {:induction false} DescendFacts(t0: Tree, key: int, prefix: seq<bool>, base: nat)
    requires SearchPath(t0, key, prefix)
    requires base < |prefix| || base == 0
    requires base == 0 || Bal(Subtree(t0, prefix[..base])) != 0
    requires forall i :: base < i < |prefix| ==> Bal(Subtree(t0, prefix[..i])) == 0
    ensures var r := Descend(Subtree(t0, prefix), key, prefix, base);
      && (r.Hit? ==> SearchPath(t0, key, r.path) && Subtree(t0, r.path).Node? && Subtree(t0, r.path).key == key)
      && (r.Miss? ==> MissFacts(t0, key, r.path, r.base))
    decreases Subtree(t0, prefix)
  {
    var t := Subtree(t0, prefix);
    SearchPathValid(t0, key, prefix);
    match t
    case Leaf =>
    case Node(k, l, r, bal) =>
      if key != k {
        var d := key < k;
        var base' := if bal != 0 then |prefix| else base;
        var prefix' := prefix + [d];
        SearchPathExtend(t0, key, prefix, d);
        SubtreeAppend(t0, prefix, [d]);
        assert Subtree(t, [d]) == (if d then l else r) by {
          assert [d][1..] == [];
        }
        assert prefix'[..|prefix|] == prefix;
        forall i | 0 <= i <= |prefix|
          ensures prefix'[..i] == prefix[..i]
        {
        }
        DescendFacts(t0, key, prefix', base');
      }
  }

  /** In a search tree the loop hits exactly when the key is present. */
  lemma {:induction false} FindFacts(t: Tree, key: int)
    ensures Bst(t) ==> (Find(t, key).Hit? <==> key in Keys(t))
  {
    match Find(t, key)
    case Hit(p) => SubtreeKeys(t, p);
    case Miss(p, b) =>
      if Bst(t) {
        MissAbsent(t, key, p);
      }
  }

  /** The search loop stops at the first node holding `key`, or at the slot
      where `key` belongs; on a miss the base is the deepest unbalanced node
      on the path, and every node below it on the path has balance 0. */
  lemma {:induction false} SearchFindsKey(t: Tree, key: int)
    requires Bst(t)
    ensures Find(t, key).Hit? <==> key in Keys(t)
    ensures Find(t, key).Hit? ==> Subtree(t, Find(t, key).path).Node? && Subtree(t, Find(t, key).path).key == key
    ensures Find(t, key).Miss? ==> MissFacts(t, key, Find(t, key).path, Find(t, key).base)
  {
    FindFacts(t, key);
  }

  /** Adjusting never touches the node at the end of the path. */
  lemma {:induction false} AdjustKeepsEnd(t: Tree, q: seq<bool>)
    requires ValidPath(t, q)
    ensures Subtree(Adjust(t, q), q) == Subtree(t, q)
    decreases |q|
  {
    if q != [] {
      AdjustKeepsEnd(if q[0] then t.left else t.right, q[1..]);
    }
  }

  lemma {:induction false} ReplaceValid(t: Tree, q: seq<bool>, s: Tree)
    requires ValidPath(t, q)
    ensures ValidPath(Replace(t, q, s), q)
    decreases |q|
  {
    if q != [] {
      ReplaceValid(if q[0] then t.left else t.right, q[1..], s);
    }
  }

  lemma {:induction false} AdjustValid(t: Tree, q: seq<bool>)
    requires ValidPath(t, q)
    ensures ValidPath(Adjust(t, q), q)
    decreases |q|
  {
    if q != [] {
      AdjustValid(if q[0] then t.left else t.right, q[1..]);
    }
  }

  /** Below the base every node on the path had balance 0: linking the new
      node and adjusting those balances yields an AVL subtree one level
      higher, leaning towards the new node. */
  lemma {:induction false} Grow(t: Tree, q: seq<bool>, key: int)
    requires Avl(t) && ValidPath(t, q) && Subtree(t, q) == Leaf
    requires forall i :: 0 <= i < |q| ==> Bal(Subtree(t, q[..i])) == 0
    ensures var g := Adjust(Replace(t, q, NewNode(key)), q);
      && g.Node? && Avl(g) && Height(g) == Height(t) + 1
      && g.balance == (if q == [] then 0 else if q[0] then 1 else -1)
    decreases |q|
  {
    if q != [] {
      assert q[..0] == [];
      var c := if q[0] then t.left else t.right;
      var q' := q[1..];
      forall i | 0 <= i < |q'|
        ensures Bal(Subtree(c, q'[..i])) == 0
      {
        assert q[..i + 1][0] == q[0] && q[..i + 1][1..] == q'[..i];
        assert Bal(Subtree(t, q[..i + 1])) == 0;
      }
      Grow(c, q', key);
    }
  }

  lemma {:induction false} RotateLeftHeavy(x: Tree)
    requires x.Node? && x.balance == 2
    requires Avl(x.left) && Avl(x.right) && Height(x.left) == Height(x.right) + 2
    requires x.left.Node? && x.left.balance != 0
    ensures RotateOk(x) && Avl(Rotate(x)) && Height(Rotate(x)) == Height(x.left)
  {
    var y := x.left;
    if y.balance < 0 {
      var z := y.right;
      assert z.Node?;
    }
  }

  lemma {:induction false} RotateRightHeavy(x: Tree)
    requires x.Node? && x.balance == -2
    requires Avl(x.left) && Avl(x.right) && Height(x.right) == Height(x.left) + 2
    requires x.right.Node? && x.right.balance != 0
    ensures RotateOk(x) && Avl(Rotate(x)) && Height(Rotate(x)) == Height(x.right)
  {
    var y := x.right;
    if y.balance > 0 {
      var z := y.left;
      assert z.Node?;
    }
  }

  /** The new node sits at the end of the path after linking and
      adjusting. */
  lemma {:induction false} BasePath(s: Tree, q: seq<bool>, key: int)
    requires ValidPath(s, q)
    ensures var g := Adjust(Replace(s, q, NewNode(key)), q);
      ValidPath(g, q) && Subtree(g, q) == NewNode(key)
  {
    ReplaceValid(s, q, NewNode(key));
    AdjustValid(Replace(s, q, NewNode(key)), q);
    AdjustKeepsEnd(Replace(s, q, NewNode(key)), q);
    SubtreeOfReplace(s, q, NewNode(key), []);
    assert q + [] == q;
  }

  /** The work at the base: after linking and adjusting, the rotation is
      defined, restores the AVL invariant, and leaves the base subtree as
      high as before when the base was unbalanced (one level higher only
      when the whole tree had no unbalanced node on the path). */
  lemma {:induction false} BaseInsert(s: Tree, q: seq<bool>, key: int)
    requires Avl(s) && ValidPath(s, q) && Subtree(s, q) == Leaf
    requires forall i :: 0 < i < |q| ==> Bal(Subtree(s, q[..i])) == 0
    ensures var g := Adjust(Replace(s, q, NewNode(key)), q);
      && RotateOk(g) && SlotFollowsRotation(g, q)
      && Avl(Rotate(g))
      && Height(Rotate(g)) == (if s.Node? && s.balance != 0 then Height(s) else Height(s) + 1)
  {
    if q != [] {
      BaseChild(s, q, key);
      if q[0] {
        BaseLeft(s, q, key);
      } else {
        BaseRight(s, q, key);
      }
    }
  }

  /** Below the base the path only meets balanced nodes, so the child
      subtree on the path grows by one level. */
  lemma {:induction false} BaseChild(s: Tree, q: seq<bool>, key: int)
    requires Avl(s) && ValidPath(s, q) && Subtree(s, q) == Leaf && q != []
    requires forall i :: 0 < i < |q| ==> Bal(Subtree(s, q[..i])) == 0
    ensures s.Node?
    ensures var c := if q[0] then s.left else s.right;
      var c' := Adjust(Replace(c, q[1..], NewNode(key)), q[1..]);
      && c'.Node? && Avl(c') && Height(c') == Height(c) + 1
      && c'.balance == (if q[1..] == [] then 0 else if q[1] then 1 else -1)
  {
    var c := if q[0] then s.left else s.right;
    var q' := q[1..];
    forall i | 0 <= i < |q'|
      ensures Bal(Subtree(c, q'[..i])) == 0
    {
      assert q[..i + 1][0] == q[0] && q[..i + 1][1..] == q'[..i];
      assert Bal(Subtree(s, q[..i + 1])) == 0;
    }
    Grow(c, q', key);
  }

  /** The path goes left at the base: the base leans further left, and
      rotates when it already leaned left. */
  lemma {:induction false} BaseLeft(s: Tree, q: seq<bool>, key: int)
    requires Avl(s) && s.Node? && q != [] && q[0]
    requires var c' := Adjust(Replace(s.left, q[1..], NewNode(key)), q[1..]);
      && c'.Node? && Avl(c') && Height(c') == Height(s.left) + 1
      && c'.balance == (if q[1..] == [] then 0 else if q[1] then 1 else -1)
    ensures var g := Adjust(Replace(s, q, NewNode(key)), q);
      && RotateOk(g) && SlotFollowsRotation(g, q)
      && Avl(Rotate(g))
      && Height(Rotate(g)) == (if s.balance != 0 then Height(s) else Height(s) + 1)
  {
    var c' := Adjust(Replace(s.left, q[1..], NewNode(key)), q[1..]);
    var g := Adjust(Replace(s, q, NewNode(key)), q);
    assert g == Node(s.key, c', s.right, s.balance + 1);
    if s.balance == 1 {
      assert q[1..] != [];
      RotateLeftHeavy(g);
    }
  }

  /** The mirror image of `BaseLeft`. */
  lemma {:induction false} BaseRight(s: Tree, q: seq<bool>, key: int)
    requires Avl(s) && s.Node? && q != [] && !q[0]
    requires var c' := Adjust(Replace(s.right, q[1..], NewNode(key)), q[1..]);
      && c'.Node? && Avl(c') && Height(c') == Height(s.right) + 1
      && c'.balance == (if q[1..] == [] then 0 else if q[1] then 1 else -1)
    ensures var g := Adjust(Replace(s, q, NewNode(key)), q);
      && RotateOk(g) && SlotFollowsRotation(g, q)
      && Avl(Rotate(g))
      && Height(Rotate(g)) == (if s.balance != 0 then Height(s) else Height(s) + 1)
  {
    var c' := Adjust(Replace(s.right, q[1..], NewNode(key)), q[1..]);
    var g := Adjust(Replace(s, q, NewNode(key)), q);
    assert g == Node(s.key, s.left, c', s.balance - 1);
    if s.balance == -1 {
      assert q[1..] != [];
      RotateRightHeavy(g);
    }
  }

  /** Linking a new node at the slot a search path ends in adds exactly the
      key, and keeps search-tree order. */
  lemma {:induction false} GraftKeys(t: Tree, key: int, p: seq<bool>)
    requires SearchPath(t, key, p) && Subtree(t, p) == Leaf
    ensures Keys(Replace(t, p, NewNode(key))) == Keys(t) + {key}
    ensures Bst(t) ==> Bst(Replace(t, p, NewNode(key)))
    decreases |p|
  {
    if p != [] {
      GraftKeys(if p[0] then t.left else t.right, key, p[1..]);
    }
  }

  /** A single rotation keeps the in-order sequence: `a y b x c`
      either way. */
  lemma {:induction false} SingleInOrder(a: Tree, b: Tree, c: Tree, xk: int, yk: int, xb: int, yb: int, xb': int, yb': int)
    ensures InOrder(Node(xk, Node(yk, a, b, yb), c, xb)) == InOrder(Node(yk, a, Node(xk, b, c, xb'), yb'))
  {
    var A, B, C := InOrder(a), InOrder(b), InOrder(c);
    assert (A + [yk] + B) + [xk] + C == A + [yk] + (B + [xk] + C);
  }

  /** A double rotation keeps the in-order sequence: `a y b z c x d`
      either way. */
  lemma {:induction false} DoubleInOrder(a: Tree, b: Tree, c: Tree, d: Tree, xk: int, yk: int, zk: int,
                                         xb: int, yb: int, zb: int, xb': int, yb': int, zb': int)
    ensures InOrder(Node(xk, Node(yk, a, Node(zk, b, c, zb), yb), d, xb))
         == InOrder(Node(zk, Node(yk, a, b, yb'), Node(xk, c, d, xb'), zb'))
  {
    var A, B, C, D := InOrder(a), InOrder(b), InOrder(c), InOrder(d);
    assert InOrder(Node(zk, b, c, zb)) == B + [zk] + C;
    assert InOrder(Node(yk, a, b, yb')) == A + [yk] + B;
    assert InOrder(Node(xk, c, d, xb')) == C + [xk] + D;
    assert (A + [yk] + (B + [zk] + C)) + [xk] + D == (A + [yk] + B) + [zk] + (C + [xk] + D);
  }

  /** The mirror image of `DoubleInOrder`: `a x b z c y d` either way. */
  lemma {:induction false} DoubleInOrderMirror(a: Tree, b: Tree, c: Tree, d: Tree, xk: int, yk: int, zk: int,
                                               xb: int, yb: int, zb: int, xb': int, yb': int, zb': int)
    ensures InOrder(Node(xk, a, Node(yk, Node(zk, b, c, zb), d, yb), xb))
         == InOrder(Node(zk, Node(xk, a, b, xb'), Node(yk, c, d, yb'), zb'))
  {
    var A, B, C, D := InOrder(a), InOrder(b), InOrder(c), InOrder(d);
    assert InOrder(Node(zk, b, c, zb)) == B + [zk] + C;
    assert InOrder(Node(xk, a, b, xb')) == A + [xk] + B;
    assert InOrder(Node(yk, c, d, yb')) == C + [yk] + D;
    assert A + [xk] + ((B + [zk] + C) + [yk] + D) == (A + [xk] + B) + [zk] + (C + [yk] + D);
  }

  /** The search path splits at the base depth into the path to the base
      and the path below it, with the facts `BaseInsert` needs. */
  lemma {:induction false} BaseSplit(t: Tree, key: int, p: seq<bool>, b: nat)
    requires Avl(t) && MissFacts(t, key, p, b)
    ensures b <= |p| && p == p[..b] + p[b..]
    ensures ValidPath(t, p) && ValidPath(t, p[..b])
    ensures var s := Subtree(t, p[..b]);
      var q := p[b..];
      && Avl(s) && ValidPath(s, q) && Subtree(s, q) == Leaf
      && (forall i :: 0 < i < |q| ==> Bal(Subtree(s, q[..i])) == 0)
      && (b > 0 ==> s.Node? && s.balance != 0)
  {
    var pb, q := p[..b], p[b..];
    assert p == pb + q;
    SearchPathValid(t, key, p);
    ValidPathPrefix(t, p, b);
    SubtreeAppend(t, pb, q);
    var s := Subtree(t, pb);
    SubtreeAvl(t, pb);
    forall i | 0 < i < |q|
      ensures Bal(Subtree(s, q[..i])) == 0
    {
      assert p[..b + i] == pb + q[..i];
      SubtreeAppend(t, pb, q[..i]);
    }
  }

  /** Rebuilding the base subtree into `x` with the in-order sequence of a
      plain leaf insertion gives the whole tree that sequence, adds exactly
      the key and keeps search-tree order. */
  lemma {:induction false} InsertOrder(t: Tree, key: int, p: seq<bool>, b: nat, x: Tree)
    requires SearchPath(t, key, p) && Subtree(t, p) == Leaf
    requires b <= |p| && ValidPath(t, p[..b])
    requires InOrder(x) == InOrder(Replace(Subtree(t, p[..b]), p[b..], NewNode(key)))
    ensures InOrder(Replace(t, p[..b], x)) == InOrder(Replace(t, p, NewNode(key)))
    ensures Keys(Replace(t, p[..b], x)) == Keys(t) + {key}
    ensures Bst(t) ==> Bst(Replace(t, p[..b], x))
  {
    var pb, q, n := p[..b], p[b..], NewNode(key);
    assert p == pb + q;
    var r := Replace(t, pb, x);
    ReplaceInOrder(t, pb, x, Replace(Subtree(t, pb), q, n));
    ReplaceNested(t, pb, q, n);
    GraftKeys(t, key, p);
    InOrderKeys(r);
    InOrderKeys(Replace(t, p, n));
    assert pb + q == p;
    assert InOrder(r) == InOrder(Replace(t, p, n));
    assert Keys(r) == Keys(Replace(t, p, n)) by {
      forall z
        ensures z in Keys(r) <==> z in Keys(Replace(t, p, n))
      {
        assert z in Keys(r) <==> z in InOrder(r);
        assert z in Keys(Replace(t, p, n)) <==> z in InOrder(Replace(t, p, n));
      }
    }
    BstIffIncreasing(r);
    BstIffIncreasing(Replace(t, p, n));
  }

  lemma {:induction false} InsertFacts(t: Tree, key: int, p: seq<bool>, b: nat)
    requires Avl(t) && MissFacts(t, key, p, b)
    ensures b <= |p|
    ensures SlotFollowsRotation(LinkAndAdjust(t, key, p, b), p[b..])
    ensures var g := LinkAndAdjust(t, key, p, b);
      var r := Replace(t, p[..b], Rotate(g));
      && Avl(r)
      && (Height(r) == Height(t) || Height(r) == Height(t) + 1)
      && InOrder(r) == InOrder(Replace(t, p, NewNode(key)))
      && Keys(r) == Keys(t) + {key}
      && (Bst(t) ==> Bst(r))
      && r == Replace(t, p[..b], Subtree(r, p[..b]))
      && Subtree(r, p[..b] + RotatedSlot(g, p[b..])).Node?
      && Subtree(r, p[..b] + RotatedSlot(g, p[b..])).key == key
  {
    BaseSplit(t, key, p, b);
    var pb, q := p[..b], p[b..];
    var s := Subtree(t, pb);
    BaseInsert(s, q, key);
    BasePath(s, q, key);
    var n := NewNode(key);
    var g := Adjust(Replace(s, q, n), q);
    var x := Rotate(g);
    var r := Replace(t, pb, x);
    // Shape: only the base subtree changes, and it holds the new slot.
    SubtreeOfReplace(t, pb, x, []);
    assert pb + [] == pb;
    SubtreeOfReplace(t, pb, x, RotatedSlot(g, q));
    // Order and keys.
    InsertOrder(t, key, p, b, x);
    // Balance: the base subtree keeps its height unless the base is the root.
    if b > 0 {
      ReplaceAvl(t, pb, x);
    }
  }
}
