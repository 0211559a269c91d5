/** The pointer tree: nodes rewritten in place, proved to do what the model's functions compute. */
module AvlTree {
  import opened Bytes
  import opened Lsm
  import Coding
  import M = AvlModel

  class Node {
    var key: Key
    var value: Entry
    var left: Node?
    var right: Node?
    var height: nat
    ghost var tree: M.Tree
    ghost var repr: set<Node>

    ghost predicate Valid()
      reads this, repr
      decreases repr
    {
      && this in repr
      && (left != null ==> left in repr && left.repr <= repr && this !in left.repr && left.Valid())
      && (right != null ==> right in repr && right.repr <= repr && this !in right.repr && right.Valid())
      && (left != null && right != null ==> left.repr !! right.repr)
      && tree == M.Node(TreeOf(left), KV(key, value), height, TreeOf(right))
      && repr == {this} + ReprOf(left) + ReprOf(right)
    }

    constructor (k: Key, v: Entry)
      ensures Valid() && repr == {this} && tree == M.Node(M.Leaf, KV(k, v), 1, M.Leaf)
    {
      key, value, left, right, height := k, v, null, null, 1;
      tree, repr := M.Node(M.Leaf, KV(k, v), 1, M.Leaf), {this};
    }
  }

  ghost function TreeOf(n: Node?): M.Tree
    reads n
  {
    if n == null then M.Leaf else n.tree
  }

  ghost function ReprOf(n: Node?): set<Node>
    reads n
  {
    if n == null then {} else n.repr
  }

  /** Two possible subtrees that share no node. */
  ghost predicate Apart(a: Node?, b: Node?)
    reads a, b
  {
    ReprOf(a) !! ReprOf(b)
  }

  ghost predicate ValidOrNull(n: Node?)
    reads n, ReprOf(n)
  {
    n != null ==> n.Valid()
  }

  /** What validity says of a node and its children. */
  lemma {:induction false} Parts(n: Node)
    requires n.Valid()
    ensures n in n.repr && Linked(n) && n.repr == Whole(n)
    ensures n.tree == M.Node(TreeOf(n.left), KV(n.key, n.value), n.height, TreeOf(n.right))
    ensures n.left != null ==> n.left.tree.Node? && n.left.height == n.left.tree.height
    ensures n.right != null ==> n.right.tree.Node? && n.right.height == n.right.tree.height
  {
  }

  /** A node whose children are in order, whatever its own height and ghost state say. */
  ghost predicate Linked(n: Node)
    reads n, n.left, n.right, ReprOf(n.left), ReprOf(n.right)
  {
    && ValidOrNull(n.left) && ValidOrNull(n.right) && Apart(n.left, n.right)
    && n !in ReprOf(n.left) && n !in ReprOf(n.right)
    && (n.left != null ==> n.left in n.left.repr)
    && (n.right != null ==> n.right in n.right.repr)
  }

  ghost function Whole(n: Node): set<Node>
    reads n, n.left, n.right
  {
    {n} + ReprOf(n.left) + ReprOf(n.right)
  }

  method Height(n: Node?) returns (h: nat)
    requires ValidOrNull(n)
    ensures h == M.Height(TreeOf(n))
  {
    if n != null { Parts(n); }
    h := if n == null then 0 else n.height;
  }

  /** Recomputes the height and, with it, the node's view of its children. */
  method UpdateHeight(n: Node)
    requires Linked(n)
    modifies n`height, n`tree, n`repr
    ensures n.Valid() && n.repr == Whole(n)
    ensures n.tree == M.Join(TreeOf(n.left), KV(n.key, n.value), TreeOf(n.right))
  {
    hide Node.Valid;
    var lh := Height(n.left);
    var rh := Height(n.right);
    n.height := 1 + if lh > rh then lh else rh;
    Relink(n);
  }

  method RotateRight(y: Node) returns (x: Node)
    requires y.Valid() && y.left != null && y.tree.Node? && y.tree.left.Node?
    modifies y, y.left
    ensures x.Valid() && x.repr == old(y.repr)
    ensures x.tree == M.RotateRight(old(y.tree))
  {
    hide Node.Valid;
    x := y.left;
    Parts(y);
    Parts(x);
    var b := x.right;
    if b != null { Parts(b); }
    x.right := y;
    y.left := b;
    UpdateHeight(y);
    UpdateHeight(x);
  }

  method RotateLeft(x: Node) returns (y: Node)
    requires x.Valid() && x.right != null && x.tree.Node? && x.tree.right.Node?
    modifies x, x.right
    ensures y.Valid() && y.repr == old(x.repr)
    ensures y.tree == M.RotateLeft(old(x.tree))
  {
    hide Node.Valid;
    y := x.right;
    Parts(x);
    Parts(y);
    var b := y.left;
    if b != null { Parts(b); }
    y.left := x;
    x.right := b;
    UpdateHeight(x);
    UpdateHeight(y);
  }

  method Balance(node: Node) returns (r: Node)
    requires Linked(node)
    modifies Whole(node)
    ensures r.Valid() && r.repr == old(Whole(node))
    ensures r.tree
         == old(M.Balance(M.Node(TreeOf(node.left), KV(node.key, node.value), node.height, TreeOf(node.right))))
  {
    hide Node.Valid;
    UpdateHeight(node);
    Parts(node);
    var lh := Height(node.left);
    var rh := Height(node.right);
    if lh > rh + 1 {
      r := LeftHeavy(node);
    } else if rh > lh + 1 {
      r := RightHeavy(node);
    } else {
      r := node;
    }
  }

  /** The left child rotated to the left: the first half of the LR case. */
  method RotateLeftChild(node: Node)
    requires node.Valid() && node.tree.Node? && node.tree.left.Node? && node.tree.left.right.Node?
    modifies node.repr
    ensures node.Valid() && node.repr == old(node.repr)
    ensures node.tree == old(node.tree.(left := M.RotateLeft(node.tree.left)))
  {
    hide Node.Valid;
    Parts(node);
    Parts(node.left);
    var t := RotateLeft(node.left);
    Parts(t);
    node.left := t;
    Relink(node);
  }

  method RotateRightChild(node: Node)
    requires node.Valid() && node.tree.Node? && node.tree.right.Node? && node.tree.right.left.Node?
    modifies node.repr
    ensures node.Valid() && node.repr == old(node.repr)
    ensures node.tree == old(node.tree.(right := M.RotateRight(node.tree.right)))
  {
    hide Node.Valid;
    Parts(node);
    Parts(node.right);
    var t := RotateRight(node.right);
    Parts(t);
    node.right := t;
    Relink(node);
  }

  /** The left-heavy cases: LL, and LR after rotating the left child. */
  method LeftHeavy(node: Node) returns (r: Node)
    requires node.Valid() && node.tree.Node? && M.BalanceFactor(node.tree) > 1
    modifies node.repr
    ensures r.Valid() && r.repr == old(node.repr)
    ensures r.tree == old(var u := node.tree;
              M.RotateRight(if M.BalanceFactor(u.left) < 0 then u.(left := M.RotateLeft(u.left)) else u))
  {
    hide Node.Valid, M.RotateRight, M.RotateLeft;
    Parts(node);
    Parts(node.left);
    var a := Height(node.left.left);
    var b := Height(node.left.right);
    if a < b { RotateLeftChild(node); }
    Parts(node);
    r := RotateRight(node);
  }

  method RightHeavy(node: Node) returns (r: Node)
    requires node.Valid() && node.tree.Node? && M.BalanceFactor(node.tree) < -1
    modifies node.repr
    ensures r.Valid() && r.repr == old(node.repr)
    ensures r.tree == old(var u := node.tree;
              M.RotateLeft(if M.BalanceFactor(u.right) > 0 then u.(right := M.RotateRight(u.right)) else u))
  {
    hide Node.Valid, M.RotateRight, M.RotateLeft;
    Parts(node);
    Parts(node.right);
    var a := Height(node.right.left);
    var b := Height(node.right.right);
    if a > b { RotateRightChild(node); }
    Parts(node);
    r := RotateLeft(node);
  }

  /** Brings a node's ghost state up to date with its children and leaves its height alone. */
  ghost method Relink(n: Node)
    requires Linked(n)
    modifies n`tree, n`repr
    ensures n.Valid() && n.repr == Whole(n)
    ensures n.tree == M.Node(TreeOf(n.left), KV(n.key, n.value), n.height, TreeOf(n.right))
  {
    n.tree := M.Node(TreeOf(n.left), KV(n.key, n.value), n.height, TreeOf(n.right));
    n.repr := Whole(n);
  }

  /** `t` can be hung under `n` beside its other child `other`. */
  ghost predicate Fits(n: Node, t: Node?, other: Node?)
    reads n, t, other, ReprOf(t), ReprOf(other)
  {
    && ValidOrNull(t) && ValidOrNull(other) && Apart(t, other)
    && n !in ReprOf(t) && n !in ReprOf(other)
    && (t != null ==> t in t.repr) && (other != null ==> other in other.repr)
  }

  method BalanceWithLeft(node: Node, t: Node?) returns (r: Node)
    requires Fits(node, t, node.right)
    modifies {node} + ReprOf(t) + ReprOf(node.right)
    ensures r.Valid() && r.repr == old({node} + ReprOf(t) + ReprOf(node.right))
    ensures r.tree == old(M.Balance(M.Node(TreeOf(t), KV(node.key, node.value), node.height, TreeOf(node.right))))
  {
    hide Node.Valid, M.Balance;
    node.left := t;
    r := Balance(node);
  }

  method BalanceWithRight(node: Node, t: Node?) returns (r: Node)
    requires Fits(node, t, node.left)
    modifies {node} + ReprOf(t) + ReprOf(node.left)
    ensures r.Valid() && r.repr == old({node} + ReprOf(t) + ReprOf(node.left))
    ensures r.tree == old(M.Balance(M.Node(TreeOf(node.left), KV(node.key, node.value), node.height, TreeOf(t))))
  {
    hide Node.Valid, M.Balance;
    node.right := t;
    r := Balance(node);
  }

  /** Recursive insertion; `inserted` tells whether the key is new. */
  method InsertAt(node: Node?, k: Key, v: Entry) returns (r: Node, inserted: bool)
    requires ValidOrNull(node)
    modifies ReprOf(node)
    ensures r.Valid() && fresh(r.repr - old(ReprOf(node)))
    ensures r.tree == M.Insert(old(TreeOf(node)), KV(k, v))
    ensures inserted <==> M.Lookup(old(TreeOf(node)), k).None?
    decreases ReprOf(node)
  {
    hide Node.Valid, Less, M.Balance;
    if node == null {
      r := new Node(k, v);
      return r, true;
    }
    Parts(node);
    if Less(k, node.key) {
      var t;
      t, inserted := InsertAt(node.left, k, v);
      Parts(t);
      r := BalanceWithLeft(node, t);
    } else if Less(node.key, k) {
      var t;
      t, inserted := InsertAt(node.right, k, v);
      Parts(t);
      r := BalanceWithRight(node, t);
    } else {
      node.value := v;
      Relink(node);
      r, inserted := node, false;
    }
  }

  method FindMin(root: Node) returns (n: Node)
    requires root.Valid()
    ensures root.tree.Node? && KV(n.key, n.value) == M.Min(root.tree)
  {
    hide Node.Valid;
    Parts(root);
    n := root;
    while n.left != null
      invariant n.Valid() && n.tree.Node? && M.Min(n.tree) == M.Min(root.tree)
      decreases n.repr
    {
      Parts(n);
      n := n.left;
      Parts(n);
    }
    Parts(n);
  }

  /** Recursive removal; `found` tells whether the key was there. */
  method RemoveAt(node: Node?, k: Key) returns (r: Node?, found: bool)
    requires ValidOrNull(node)
    modifies ReprOf(node)
    ensures ValidOrNull(r) && ReprOf(r) <= old(ReprOf(node))
    ensures TreeOf(r) == M.Remove(old(TreeOf(node)), k)
    ensures found <==> M.Lookup(old(TreeOf(node)), k).Some?
    decreases ReprOf(node)
  {
    hide Node.Valid, Less, M.Balance;
    if node == null { return null, false; }
    Parts(node);
    if Less(k, node.key) {
      var t;
      t, found := RemoveAt(node.left, k);
      if t != null { Parts(t); }
      r := BalanceWithLeft(node, t);
    } else if Less(node.key, k) {
      var t;
      t, found := RemoveAt(node.right, k);
      if t != null { Parts(t); }
      r := BalanceWithRight(node, t);
    } else {
      found := true;
      r := RemoveNode(node);
    }
  }

  /** Takes the node itself out: its only child moves up, or its in-order successor replaces it. */
  method RemoveNode(node: Node) returns (r: Node?)
    requires node.Valid() && node.tree.Node?
    modifies node.repr
    ensures ValidOrNull(r) && ReprOf(r) <= old(node.repr)
    ensures TreeOf(r) == old(var t := node.tree;
              if t.left.Leaf? then t.right else if t.right.Leaf? then t.left
              else M.Balance(M.Node(t.left, M.Min(t.right), t.height, M.Remove(t.right, M.Min(t.right).key))))
    decreases node.repr, 0
  {
    hide Node.Valid, Less, M.Balance;
    Parts(node);
    if node.left == null || node.right == null {
      r := if node.left != null then node.left else node.right;
    } else {
      var successor := FindMin(node.right);
      var k := successor.key;
      node.key, node.value := successor.key, successor.value;
      var t, _ := RemoveAt(node.right, k);
      if t != null { Parts(t); }
      r := BalanceWithRight(node, t);
    }
  }

  /** The tree object: a sorted map with its size, balanced after every operation. */
  class Tree {
    var root: Node?
    var size: nat

    ghost function Repr(): set<object>
      reads this, root
    {
      {this} + ReprOf(root)
    }

    ghost function Entries(): seq<KV>
      reads this, root
    {
      M.InOrder(TreeOf(root))
    }

    ghost function Contents(): Source
      reads this, root
    {
      Data(Entries())
    }

    ghost predicate Valid()
      reads this, root, Repr()
    {
      && ValidOrNull(root) && (root != null ==> root in root.repr)
      && Ascending(Entries()) && M.Balanced(TreeOf(root)) && size == |Entries()|
    }

    /** The stored height of the root. */
    ghost function RootHeight(): nat
      reads this, root
    {
      if root == null then 0 else root.height
    }

    /** The tree is low: its size counter is at least a Fibonacci number of its height, which is its depth and so
        at most about twice the logarithm of the size. */
    lemma {:induction false} SizeBound()
      requires Valid()
      ensures size >= M.Fib(RootHeight() + 2) - 1
      ensures RootHeight() == M.Depth(TreeOf(root)) && size + 1 >= Coding.Pow2(M.Depth(TreeOf(root)) / 2)
    {
      hide Node.Valid, Ascending, M.Balanced, M.InOrder, M.Fib, M.Depth, Coding.Pow2;
      if root != null { Parts(root); }
      M.SizeAtLeastFib(TreeOf(root));
      M.HeightIsDepth(TreeOf(root));
      M.DepthIsLogarithmic(TreeOf(root));
    }

    constructor ()
      ensures Valid() && fresh(Repr()) && Entries() == []
    {
      root, size := null, 0;
    }

    method Insert(k: Key, v: Entry)
      requires Valid()
      modifies Repr()
      ensures Valid() && fresh(Repr() - old(Repr()))
      ensures Entries() == M.ListInsert(old(Entries()), KV(k, v))
      ensures Contents() == old(Contents())[k := v]
    {
      hide Node.Valid, Data, Ascending, M.ListInsert, M.Insert, M.Lookup, M.InOrder, M.Balanced;
      ghost var t := TreeOf(root);
      M.InsertIsListInsert(t, KV(k, v));
      M.ListInsertIsUpdate(M.InOrder(t), KV(k, v));
      M.InsertBalanced(t, KV(k, v));
      M.LookupIsFind(t, k);
      var n, inserted := InsertAt(root, k, v);
      Parts(n);
      root := n;
      if inserted { size := size + 1; }
    }

    method Remove(k: Key) returns (found: bool)
      requires Valid()
      modifies Repr()
      ensures Valid() && Repr() <= old(Repr())
      ensures Contents() == old(Contents()) - {k} && found == (k in old(Contents()))
    {
      hide Node.Valid, Data, Ascending, M.ListRemove, M.Remove, M.Lookup, M.InOrder, M.Balanced;
      ghost var t := TreeOf(root);
      M.RemoveIsListRemove(t, k);
      M.ListRemoveIsRemoval(M.InOrder(t), k);
      M.RemoveBalanced(t, k);
      M.LookupIsFind(t, k);
      var n: Node?;
      n, found := RemoveAt(root, k);
      if n != null { Parts(n); }
      root := n;
      if found { size := size - 1; }
    }

    method Find(k: Key) returns (r: Option<Entry>)
      requires Valid()
      ensures r == Lsm.Find(Contents(), k)
    {
      hide Node.Valid, Data, Ascending, Less;
      M.LookupIsFind(TreeOf(root), k);
      var n := root;
      while n != null
        invariant ValidOrNull(n) && M.Lookup(TreeOf(n), k) == Lsm.Find(Contents(), k)
        decreases ReprOf(n)
      {
        Parts(n);
        if Less(k, n.key) {
          n := n.left;
        } else if Less(n.key, k) {
          n := n.right;
        } else {
          return Some(n.value);
        }
      }
      return None;
    }
  }

  // ---- The explicit-stack iterator ----

  ghost predicate StackOk(st: seq<Node>)
    reads st, set n, o | n in st && o in n.repr :: o
  {
    forall n :: n in st ==> n.Valid() && n.tree.Node?
  }

  /** What an iterator with this stack has still to visit: the top, its right subtree, the rest. */
  ghost function Rest(st: seq<Node>): seq<KV>
    reads st
  {
    if st == [] then []
    else
      var n := st[|st| - 1];
      (if n.tree.Leaf? then [] else [n.tree.kv] + M.InOrder(n.tree.right)) + Rest(st[..|st| - 1])
  }

  /** Pushing a node and moving to its left child leaves the same entries to visit. */
  lemma {:induction false} Pushed(st: seq<Node>, n: Node)
    requires n.Valid() && StackOk(st)
    ensures StackOk(st + [n])
    ensures M.InOrder(TreeOf(n.left)) + Rest(st + [n]) == M.InOrder(n.tree) + Rest(st)
  {
    hide Node.Valid;
    Parts(n);
    ghost var l, r := M.InOrder(TreeOf(n.left)), M.InOrder(TreeOf(n.right));
    assert (st + [n])[..|st|] == st;
    assert l + ([n.tree.kv] + r + Rest(st)) == l + [n.tree.kv] + r + Rest(st);
  }

  /** Popping the top visits it and leaves its right subtree in front of the rest. */
  lemma {:induction false} Popped(st: seq<Node>)
    requires StackOk(st) && st != []
    ensures var n := |st| - 1;
            && StackOk(st[..n]) && ValidOrNull(st[n].right)
            && Rest(st) == [Top(st)] + (M.InOrder(TreeOf(st[n].right)) + Rest(st[..n]))
  {
    hide Node.Valid, M.InOrder;
    var n := |st| - 1;
    assert st[n] in st;
    Parts(st[n]);
  }

  ghost function Top(st: seq<Node>): KV
    requires st != []
    reads st
  {
    var n := st[|st| - 1];
    KV(n.key, n.value)
  }

  class Iterator {
    var stack: seq<Node>

    constructor (root: Node?)
      requires ValidOrNull(root)
      ensures StackOk(stack) && Rest(stack) == M.InOrder(TreeOf(root))
    {
      stack := [];
      new;
      PushLeft(root);
    }

    method PushLeft(node: Node?)
      requires ValidOrNull(node) && StackOk(stack)
      modifies this
      ensures StackOk(stack) && Rest(stack) == M.InOrder(TreeOf(node)) + Rest(old(stack))
    {
      hide Node.Valid, Rest, M.InOrder;
      var n := node;
      while n != null
        invariant ValidOrNull(n) && StackOk(stack)
        invariant M.InOrder(TreeOf(n)) + Rest(stack) == M.InOrder(TreeOf(node)) + Rest(old(stack))
        decreases ReprOf(n)
      {
        Parts(n);
        Pushed(stack, n);
        stack := stack + [n];
        n := n.left;
      }
      M.EmptyOrder();
    }

    /** Moves past the top node. */
    method Next()
      requires StackOk(stack)
      modifies this
      ensures StackOk(stack)
      ensures old(stack) == [] ==> stack == []
      ensures old(stack) != [] ==> old(Rest(stack)) == [old(Top(stack))] + Rest(stack)
    {
      hide Node.Valid, Rest, StackOk, M.InOrder;
      if stack == [] { return; }
      var n := stack[|stack| - 1];
      Popped(stack);
      stack := stack[..|stack| - 1];
      PushLeft(n.right);
    }
  }

  /** A full walk visits every entry once, in key order. */
  method Walk(t: Tree) returns (es: seq<KV>)
    requires t.Valid()
    ensures es == t.Entries()
  {
    hide Node.Valid, M.InOrder, M.Balanced, Ascending, StackOk;
    ghost var all := t.Entries();
    var it := new Iterator(t.root);
    es := [];
    while it.stack != []
      invariant StackOk(it.stack) && es + Rest(it.stack) == all
      decreases |Rest(it.stack)|
    {
      var n := it.stack[|it.stack| - 1];
      es := es + [KV(n.key, n.value)];
      it.Next();
    }
  }
}
