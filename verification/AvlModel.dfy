/** What the pointer tree's operations compute, as functions on immutable trees: the same rotations,
    the same stored heights. */
module AvlModel {
  import opened Bytes
  import opened Lsm
  import opened Coding

  datatype Tree = Leaf | Node(left: Tree, kv: KV, height: nat, right: Tree)

  // ---- Operations ----

  function Height(t: Tree): nat {
    if t.Leaf? then 0 else t.height
  }

  function Max(a: nat, b: nat): nat {
    if a > b then a else b
  }

  function BalanceFactor(t: Tree): int {
    if t.Leaf? then 0 else Height(t.left) - Height(t.right)
  }

  /** A node with its height recomputed. */
  function Join(l: Tree, kv: KV, r: Tree): Tree {
    Node(l, kv, 1 + Max(Height(l), Height(r)), r)
  }

  function RotateRight(t: Tree): (r: Tree)
    requires t.Node? && t.left.Node?
    ensures r.Node?
  {
    Join(t.left.left, t.left.kv, Join(t.left.right, t.kv, t.right))
  }

  function RotateLeft(t: Tree): (r: Tree)
    requires t.Node? && t.right.Node?
    ensures r.Node?
  {
    Join(Join(t.left, t.kv, t.right.left), t.right.kv, t.right.right)
  }

  function Balance(t: Tree): Tree
    requires t.Node?
  {
    var u := Join(t.left, t.kv, t.right);
    var bf := BalanceFactor(u);
    if bf > 1 then
      RotateRight(if BalanceFactor(u.left) < 0 then u.(left := RotateLeft(u.left)) else u)
    else if bf < -1 then
      RotateLeft(if BalanceFactor(u.right) > 0 then u.(right := RotateRight(u.right)) else u)
    else u
  }

  function Insert(t: Tree, x: KV): (r: Tree)
    ensures r.Node?
  {
    match t
    case Leaf => Node(Leaf, x, 1, Leaf)
    case Node(l, kv, h, r) =>
      if Less(x.key, kv.key) then Balance(Node(Insert(l, x), kv, h, r))
      else if Less(kv.key, x.key) then Balance(Node(l, kv, h, Insert(r, x)))
      else Node(l, KV(kv.key, x.entry), h, r)
  }

  function Min(t: Tree): KV
    requires t.Node?
  {
    if t.left.Leaf? then t.kv else Min(t.left)
  }

  function Remove(t: Tree, k: Key): Tree {
    match t
    case Leaf => Leaf
    case Node(l, kv, h, r) =>
      if Less(k, kv.key) then Balance(Node(Remove(l, k), kv, h, r))
      else if Less(kv.key, k) then Balance(Node(l, kv, h, Remove(r, k)))
      else if l.Leaf? then r
      else if r.Leaf? then l
      else Balance(Node(l, Min(r), h, Remove(r, Min(r).key)))
  }

  /** The search path finds the key. */
  function Lookup(t: Tree, k: Key): Option<Entry> {
    match t
    case Leaf => None
    case Node(l, kv, _, r) =>
      if Less(k, kv.key) then Lookup(l, k)
      else if Less(kv.key, k) then Lookup(r, k)
      else Some(kv.entry)
  }

  // ---- Shape: exact heights, balance within one ----

  predicate Balanced(t: Tree) {
    t.Node? ==>
      && Balanced(t.left) && Balanced(t.right)
      && t.height == 1 + Max(Height(t.left), Height(t.right))
      && -1 <= BalanceFactor(t) <= 1
  }

  lemma {:induction false} LeftHeavyRepairs(t: Tree)
    requires t.Node? && Balanced(t.left) && Balanced(t.right)
    requires Height(t.left) == Height(t.right) + 2
    ensures Balanced(Balance(t)) && Height(t.left) <= Height(Balance(t)) <= Height(t.left) + 1
  {
    var u := Join(t.left, t.kv, t.right);
    var l := t.left;
    if BalanceFactor(l) < 0 {
      assert Balance(t) == Join(Join(l.left, l.kv, l.right.left), l.right.kv, Join(l.right.right, t.kv, t.right));
    } else {
      assert Balance(t) == Join(l.left, l.kv, Join(l.right, t.kv, t.right));
    }
  }

  lemma {:induction false} RightHeavyRepairs(t: Tree)
    requires t.Node? && Balanced(t.left) && Balanced(t.right)
    requires Height(t.right) == Height(t.left) + 2
    ensures Balanced(Balance(t)) && Height(t.right) <= Height(Balance(t)) <= Height(t.right) + 1
  {
    var u := Join(t.left, t.kv, t.right);
    var r := t.right;
    if BalanceFactor(r) > 0 {
      assert Balance(t) == Join(Join(t.left, t.kv, r.left.left), r.left.kv, Join(r.left.right, r.kv, r.right));
    } else {
      assert Balance(t) == Join(Join(t.left, t.kv, r.left), r.kv, r.right);
    }
  }

  /** One rotation, single or double, repairs a difference of two. */
  lemma {:induction false} BalanceRepairs(t: Tree)
    requires t.Node? && Balanced(t.left) && Balanced(t.right)
    requires -2 <= Height(t.left) - Height(t.right) <= 2
    ensures Balanced(Balance(t))
    ensures var m := Max(Height(t.left), Height(t.right));
            && m <= Height(Balance(t)) <= m + 1
            && (-1 <= Height(t.left) - Height(t.right) <= 1 ==> Height(Balance(t)) == m + 1)
  {
    if Height(t.left) == Height(t.right) + 2 {
      hide Balance;
      LeftHeavyRepairs(t);
    } else if Height(t.right) == Height(t.left) + 2 {
      hide Balance;
      RightHeavyRepairs(t);
    } else {
      assert Balance(t) == Join(t.left, t.kv, t.right);
    }
  }

  lemma {:induction false} InsertBalanced(t: Tree, x: KV)
    requires Balanced(t)
    ensures Balanced(Insert(t, x))
    ensures Height(t) <= Height(Insert(t, x)) <= Height(t) + 1
  {
    hide Balance;
    match t
    case Leaf =>
    case Node(l, kv, h, r) =>
      if Less(x.key, kv.key) {
        InsertBalanced(l, x);
        BalanceRepairs(Node(Insert(l, x), kv, h, r));
      } else if Less(kv.key, x.key) {
        InsertBalanced(r, x);
        BalanceRepairs(Node(l, kv, h, Insert(r, x)));
      }
  }

  lemma {:induction false} RemoveBalanced(t: Tree, k: Key)
    requires Balanced(t)
    ensures Balanced(Remove(t, k))
    ensures Height(t) - 1 <= Height(Remove(t, k)) <= Height(t)
  {
    hide Balance;
    match t
    case Leaf =>
    case Node(l, kv, h, r) =>
      if Less(k, kv.key) {
        RemoveBalanced(l, k);
        BalanceRepairs(Node(Remove(l, k), kv, h, r));
      } else if Less(kv.key, k) {
        RemoveBalanced(r, k);
        BalanceRepairs(Node(l, kv, h, Remove(r, k)));
      } else if l.Node? && r.Node? {
        RemoveBalanced(r, Min(r).key);
        BalanceRepairs(Node(l, Min(r), h, Remove(r, Min(r).key)));
      }
  }

  // ---- Contents: the in-order list ----

  function InOrder(t: Tree): seq<KV> {
    if t.Leaf? then [] else InOrder(t.left) + [t.kv] + InOrder(t.right)
  }

  lemma EmptyOrder()
    ensures InOrder(Leaf) == []
  {
  }

  /** Rotations do not move anything in the list. */
  lemma {:induction false} BalanceKeepsOrder(t: Tree)
    requires t.Node?
    ensures InOrder(Balance(t)) == InOrder(t.left) + [t.kv] + InOrder(t.right)
  {
    var u := Join(t.left, t.kv, t.right);
    var bf := BalanceFactor(u);
    if bf > 1 {
      if BalanceFactor(u.left) < 0 {
        RotateLeftKeepsOrder(u.left);
        RotateRightKeepsOrder(u.(left := RotateLeft(u.left)));
      } else {
        RotateRightKeepsOrder(u);
      }
    } else if bf < -1 {
      if BalanceFactor(u.right) > 0 {
        RotateRightKeepsOrder(u.right);
        RotateLeftKeepsOrder(u.(right := RotateRight(u.right)));
      } else {
        RotateLeftKeepsOrder(u);
      }
    }
  }

  lemma {:induction false} RotateRightKeepsOrder(t: Tree)
    requires t.Node? && t.left.Node?
    ensures InOrder(RotateRight(t)) == InOrder(t)
  {
    var a, b, c := InOrder(t.left.left), InOrder(t.left.right), InOrder(t.right);
    assert a + [t.left.kv] + (b + [t.kv] + c) == (a + [t.left.kv] + b) + [t.kv] + c;
  }

  lemma {:induction false} RotateLeftKeepsOrder(t: Tree)
    requires t.Node? && t.right.Node?
    ensures InOrder(RotateLeft(t)) == InOrder(t)
  {
    var a, b, c := InOrder(t.left), InOrder(t.right.left), InOrder(t.right.right);
    assert (a + [t.kv] + b) + [t.right.kv] + c == a + [t.kv] + (b + [t.right.kv] + c);
  }

  /** Sorted-list insertion and removal, the reference for the tree's. */
  function ListInsert(es: seq<KV>, x: KV): seq<KV> {
    if es == [] then [x]
    else if Less(x.key, es[0].key) then [x] + es
    else if Less(es[0].key, x.key) then [es[0]] + ListInsert(es[1..], x)
    else [KV(es[0].key, x.entry)] + es[1..]
  }

  function ListRemove(es: seq<KV>, k: Key): seq<KV> {
    if es == [] then []
    else if Less(k, es[0].key) then es
    else if Less(es[0].key, k) then [es[0]] + ListRemove(es[1..], k)
    else es[1..]
  }

  predicate AllBelow(es: seq<KV>, k: Key) {
    forall i :: 0 <= i < |es| ==> Less(es[i].key, k)
  }

  lemma {:induction false} ListInsertLeft(l: seq<KV>, kv: KV, r: seq<KV>, x: KV)
    requires Less(x.key, kv.key)
    ensures ListInsert(l + [kv] + r, x) == ListInsert(l, x) + [kv] + r
  {
    hide Less;
    var all := l + [kv] + r;
    if l == [] {
      assert all[0] == kv;
    } else {
      ListInsertLeft(l[1..], kv, r, x);
      assert all[0] == l[0] && all[1..] == l[1..] + [kv] + r;
    }
  }

  lemma {:induction false} SkipBelow(h: KV, rest: seq<KV>, x: KV)
    requires Less(h.key, x.key)
    ensures ListInsert([h] + rest, x) == [h] + ListInsert(rest, x)
    ensures ListRemove([h] + rest, x.key) == [h] + ListRemove(rest, x.key)
  {
    hide Rank;
    var es := [h] + rest;
    assert es[0] == h && es[1..] == rest;
  }

  lemma {:induction false} ListInsertRight(l: seq<KV>, r: seq<KV>, x: KV)
    requires AllBelow(l, x.key)
    ensures ListInsert(l + r, x) == l + ListInsert(r, x)
  {
    hide Less, ListInsert;
    if l == [] {
      assert l + r == r;
    } else {
      ListInsertRight(l[1..], r, x);
      assert l + r == [l[0]] + (l[1..] + r);
      SkipBelow(l[0], l[1..] + r, x);
    }
  }

  lemma {:induction false} ListRemoveLeft(l: seq<KV>, kv: KV, r: seq<KV>, k: Key)
    requires Less(k, kv.key)
    ensures ListRemove(l + [kv] + r, k) == ListRemove(l, k) + [kv] + r
  {
    hide Less;
    var all := l + [kv] + r;
    if l == [] {
      assert all[0] == kv;
    } else {
      ListRemoveLeft(l[1..], kv, r, k);
      assert all[0] == l[0] && all[1..] == l[1..] + [kv] + r;
    }
  }

  lemma {:induction false} ListRemoveRight(l: seq<KV>, r: seq<KV>, k: Key)
    requires AllBelow(l, k)
    ensures ListRemove(l + r, k) == l + ListRemove(r, k)
  {
    hide Less, ListRemove;
    if l == [] {
      assert l + r == r;
    } else {
      ListRemoveRight(l[1..], r, k);
      assert l + r == [l[0]] + (l[1..] + r);
      SkipBelow(l[0], l[1..] + r, KV(k, Del(0)));
    }
  }

  /** An ascending node list splits into ascending sides around its key. */
  lemma {:induction false} SplitAscending(l: seq<KV>, kv: KV, r: seq<KV>)
    requires Ascending(l + [kv] + r)
    ensures Ascending(l) && Ascending(r) && AllBelow(l, kv.key)
    ensures forall i :: 0 <= i < |r| ==> Less(kv.key, r[i].key)
  {
    hide Less;
    var all := l + [kv] + r;
    assert forall i :: 0 <= i < |l| ==> all[i] == l[i];
    assert all[|l|] == kv;
    assert forall i :: 0 <= i < |r| ==> all[|l| + 1 + i] == r[i];
  }

  lemma {:induction false} BelowThrough(l: seq<KV>, kv: KV, k: Key)
    requires AllBelow(l, kv.key) && Less(kv.key, k)
    ensures AllBelow(l + [kv], k)
  {
    hide Rank;
  }

  lemma {:induction false} InsertIsListInsert(t: Tree, x: KV)
    requires Ascending(InOrder(t))
    ensures InOrder(Insert(t, x)) == ListInsert(InOrder(t), x)
  {
    hide Less, Balance, Ascending;
    match t
    case Leaf =>
    case Node(l, kv, h, r) =>
      var a, b := InOrder(l), InOrder(r);
      SplitAscending(a, kv, b);
      if Less(x.key, kv.key) {
        InsertIsListInsert(l, x);
        BalanceKeepsOrder(Node(Insert(l, x), kv, h, r));
        ListInsertLeft(a, kv, b, x);
      } else if Less(kv.key, x.key) {
        InsertIsListInsert(r, x);
        BalanceKeepsOrder(Node(l, kv, h, Insert(r, x)));
        BelowThrough(a, kv, x.key);
        ListInsertRight(a + [kv], b, x);
      } else {
        InsertHere(a, kv, b, x);
      }
  }

  lemma {:induction false} InsertHere(a: seq<KV>, kv: KV, b: seq<KV>, x: KV)
    requires AllBelow(a, kv.key) && !Less(x.key, kv.key) && !Less(kv.key, x.key)
    ensures ListInsert(a + [kv] + b, x) == a + [KV(kv.key, x.entry)] + b
  {
    LessIsTotal(x.key, kv.key);
    assert a + [kv] + b == a + ([kv] + b);
    ListInsertRight(a, [kv] + b, x);
    assert ([kv] + b)[1..] == b;
  }

  lemma {:induction false} MinIsFirst(t: Tree)
    requires t.Node?
    ensures InOrder(t) != [] && InOrder(t)[0] == Min(t)
  {
    if t.left.Node? { MinIsFirst(t.left); }
  }

  lemma {:induction false} RemoveFirst(es: seq<KV>)
    requires es != []
    ensures ListRemove(es, es[0].key) == es[1..]
  {
  }

  lemma {:induction false} RemoveIsListRemove(t: Tree, k: Key)
    requires Ascending(InOrder(t))
    ensures InOrder(Remove(t, k)) == ListRemove(InOrder(t), k)
  {
    hide Less, Balance, Ascending;
    match t
    case Leaf =>
    case Node(l, kv, h, r) =>
      var a, b := InOrder(l), InOrder(r);
      SplitAscending(a, kv, b);
      if Less(k, kv.key) {
        RemoveIsListRemove(l, k);
        BalanceKeepsOrder(Node(Remove(l, k), kv, h, r));
        ListRemoveLeft(a, kv, b, k);
      } else if Less(kv.key, k) {
        RemoveIsListRemove(r, k);
        BalanceKeepsOrder(Node(l, kv, h, Remove(r, k)));
        BelowThrough(a, kv, k);
        ListRemoveRight(a + [kv], b, k);
      } else {
        RemoveHere(a, kv, b, k);
        if l.Node? && r.Node? {
          MinIsFirst(r);
          RemoveIsListRemove(r, Min(r).key);
          RemoveFirst(b);
          BalanceKeepsOrder(Node(l, Min(r), h, Remove(r, Min(r).key)));
          assert a + [b[0]] + b[1..] == a + b;
        } else {
          assert a + b == if l.Leaf? then b else a;
        }
      }
  }

  lemma {:induction false} RemoveHere(a: seq<KV>, kv: KV, b: seq<KV>, k: Key)
    requires AllBelow(a, kv.key) && !Less(k, kv.key) && !Less(kv.key, k)
    ensures ListRemove(a + [kv] + b, k) == a + b
  {
    LessIsTotal(k, kv.key);
    assert a + [kv] + b == a + ([kv] + b);
    ListRemoveRight(a, [kv] + b, k);
    assert ([kv] + b)[1..] == b;
  }

  // ---- As a map ----

  predicate AllAbove(es: seq<KV>, k: Key) {
    forall i :: 0 <= i < |es| ==> Less(k, es[i].key)
  }

  lemma {:induction false} FindPlace(es: seq<KV>, k: Key) returns (p: nat)
    ensures p <= |es| && AllBelow(es[..p], k) && (p < |es| ==> !Less(es[p].key, k))
  {
    hide Less;
    p := 0;
    while p < |es| && Less(es[p].key, k)
      invariant p <= |es| && AllBelow(es[..p], k)
    {
      p := p + 1;
    }
  }

  lemma {:induction false} AboveFrom(es: seq<KV>, p: nat, k: Key)
    requires Ascending(es) && p <= |es| && (p < |es| ==> Less(k, es[p].key))
    ensures AllAbove(es[p..], k)
  {
    hide Rank;
    assert forall i :: p < i < |es| ==> Less(es[p].key, es[i].key);
  }

  lemma {:induction false} AtHead(rest: seq<KV>, x: KV)
    requires rest != [] ==> !Less(rest[0].key, x.key)
    ensures rest == [] || Less(x.key, rest[0].key) ==>
              ListInsert(rest, x) == [x] + rest && ListRemove(rest, x.key) == rest
    ensures rest != [] && !Less(x.key, rest[0].key) ==>
              ListInsert(rest, x) == [x] + rest[1..] && ListRemove(rest, x.key) == rest[1..]
  {
    if rest != [] { LessIsTotal(x.key, rest[0].key); }
  }

  lemma {:induction false} SliceAscending(es: seq<KV>, i: nat, j: nat)
    requires Ascending(es) && i <= j <= |es|
    ensures Ascending(es[i..j])
  {
    hide Less;
  }

  /** The key is not in the list: it goes in front of position `p`. */
  lemma {:induction false} SplitAbsent(es: seq<KV>, x: KV, p: nat)
    requires Ascending(es) && p <= |es| && AllBelow(es[..p], x.key) && (p < |es| ==> Less(x.key, es[p].key))
    ensures AllAbove(es[p..], x.key)
    ensures ListInsert(es, x) == es[..p] + [x] + es[p..] && ListRemove(es, x.key) == es[..p] + es[p..]
  {
    hide Rank, AllBelow, AllAbove, ListInsert, ListRemove, Ascending;
    var a, rest := es[..p], es[p..];
    assert es == a + rest && a + [x] + rest == a + ([x] + rest);
    ListInsertRight(a, rest, x);
    ListRemoveRight(a, rest, x.key);
    AtHead(rest, x);
    AboveFrom(es, p, x.key);
  }

  /** The key is at position `p`: its entry is replaced or removed. */
  lemma {:induction false} SplitPresent(es: seq<KV>, x: KV, p: nat)
    requires Ascending(es) && p < |es| && AllBelow(es[..p], x.key) && es[p].key == x.key
    ensures AllAbove(es[p + 1..], x.key)
    ensures ListInsert(es, x) == es[..p] + [x] + es[p + 1..] && ListRemove(es, x.key) == es[..p] + es[p + 1..]
  {
    hide Rank, AllBelow, AllAbove, ListInsert, ListRemove;
    var a, rest := es[..p], es[p..];
    assert es == a + rest && rest[1..] == es[p + 1..];
    assert a + [x] + rest[1..] == a + ([x] + rest[1..]);
    ListInsertRight(a, rest, x);
    ListRemoveRight(a, rest, x.key);
    AtHead(rest, x);
    AboveFrom(es, p + 1, x.key);
  }

  /** Where a key belongs in an ascending list: what is below it, the entry it has there, what is above. */
  lemma {:induction false} ListSplit(es: seq<KV>, x: KV) returns (a: seq<KV>, mid: seq<KV>, b: seq<KV>)
    requires Ascending(es)
    ensures es == a + mid + b && AllBelow(a, x.key) && AllAbove(b, x.key) && Ascending(a) && Ascending(b)
    ensures mid == [] || (|mid| == 1 && mid[0].key == x.key)
    ensures ListInsert(es, x) == a + [x] + b && ListRemove(es, x.key) == a + b
  {
    hide Less, AllBelow, AllAbove, ListInsert, ListRemove, Ascending;
    var p := FindPlace(es, x.key);
    a := es[..p];
    SliceAscending(es, 0, p);
    if p == |es| || Less(x.key, es[p].key) {
      mid, b := [], es[p..];
      SplitAbsent(es, x, p);
    } else {
      LessIsTotal(x.key, es[p].key);
      mid, b := [es[p]], es[p + 1..];
      SplitPresent(es, x, p);
    }
    SliceAscending(es, |es| - |b|, |es|);
    assert es[0..p] == a && es[|es| - |b|..|es|] == b;
  }

  lemma {:induction false} JoinAscending(a: seq<KV>, x: KV, b: seq<KV>)
    requires Ascending(a) && Ascending(b) && AllBelow(a, x.key) && AllAbove(b, x.key)
    ensures Ascending(a + [x] + b) && Ascending(a + b)
  {
    hide Rank;
    assert forall i, j :: 0 <= i < |a| && 0 <= j < |b| ==> Less(a[i].key, b[j].key);
  }

  /** An entry inside a list can be applied last if no later entry has its key. */
  lemma {:induction false} DataMiddle(a: seq<KV>, x: KV, b: seq<KV>)
    requires AllAbove(b, x.key)
    ensures Data(a + [x] + b) == Data(a + b)[x.key := x.entry]
  {
    hide Data;
    if b == [] {
      DataSnoc(a, x);
      assert a + [x] + b == a + [x] && a + b == a;
    } else {
      var n := |b| - 1;
      DataMiddle(a, x, b[..n]);
      assert a + [x] + b == a + [x] + b[..n] + [b[n]] && a + b == a + b[..n] + [b[n]];
      DataSnoc(a + [x] + b[..n], b[n]);
      DataSnoc(a + b[..n], b[n]);
      assert Less(x.key, b[n].key);
    }
  }

  lemma {:induction false} NotInSides(a: seq<KV>, b: seq<KV>, k: Key)
    requires AllBelow(a, k) && AllAbove(b, k)
    ensures k !in Data(a + b)
  {
    if k in Data(a + b) {
      DataSource(a + b, k);
    }
  }

  /** Insertion is map update, and the list grows exactly when the key is new. */
  lemma {:induction false} ListInsertIsUpdate(es: seq<KV>, x: KV)
    requires Ascending(es)
    ensures Ascending(ListInsert(es, x)) && Data(ListInsert(es, x)) == Data(es)[x.key := x.entry]
    ensures |ListInsert(es, x)| == if x.key in Data(es) then |es| else |es| + 1
  {
    hide Less, ListInsert, ListRemove, Ascending, Data;
    var a, mid, b := ListSplit(es, x);
    JoinAscending(a, x, b);
    DataMiddle(a, x, b);
    NotInSides(a, b, x.key);
    if mid == [] {
      assert a + mid + b == a + b;
    } else {
      DataMiddle(a, mid[0], b);
      assert mid == [mid[0]];
    }
  }

  /** Removal is map removal, and the list shrinks exactly when the key was there. */
  lemma {:induction false} ListRemoveIsRemoval(es: seq<KV>, k: Key)
    requires Ascending(es)
    ensures Ascending(ListRemove(es, k)) && Data(ListRemove(es, k)) == Data(es) - {k}
    ensures |ListRemove(es, k)| == if k in Data(es) then |es| - 1 else |es|
  {
    hide Less, ListInsert, ListRemove, Ascending, Data;
    var a, mid, b := ListSplit(es, KV(k, Del(0)));
    JoinAscending(a, KV(k, Del(0)), b);
    NotInSides(a, b, k);
    if mid == [] {
      assert a + mid + b == a + b;
    } else {
      DataMiddle(a, mid[0], b);
      assert mid == [mid[0]];
    }
  }

  /** An ascending list has as many entries as its map has keys. */
  lemma {:induction false} DataSize(es: seq<KV>)
    requires Ascending(es)
    ensures |Data(es)| == |es|
  {
    if es == [] {
    } else {
      var n := |es| - 1;
      DataSize(es[..n]);
      assert es[n].key !in Data(es[..n]) by {
        if es[n].key in Data(es[..n]) { DataSource(es[..n], es[n].key); }
      }
    }
  }

  /** The search path answers as the map does. */
  lemma {:induction false} LookupIsFind(t: Tree, k: Key)
    requires Ascending(InOrder(t))
    ensures Lookup(t, k) == Find(Data(InOrder(t)), k)
  {
    hide Less, Ascending, Data;
    match t
    case Leaf => assert Data([]) == map[] by { EmptyData(); }
    case Node(l, kv, h, r) =>
      var a, b := InOrder(l), InOrder(r);
      SplitAscending(a, kv, b);
      DataMiddle(a, kv, b);
      LessIsTotal(k, kv.key);
      LookupSide(a, b, kv, k);
      if Less(k, kv.key) { LookupIsFind(l, k); } else if Less(kv.key, k) { LookupIsFind(r, k); }
  }

  lemma EmptyData()
    ensures Data([]) == map[]
  {
  }

  lemma {:induction false} LookupSide(a: seq<KV>, b: seq<KV>, kv: KV, k: Key)
    requires AllBelow(a, kv.key) && AllAbove(b, kv.key) && Ascending(a) && Ascending(b)
    ensures Less(k, kv.key) ==> k != kv.key && Find(Data(a + b), k) == Find(Data(a), k)
    ensures Less(kv.key, k) ==> k != kv.key && Find(Data(a + b), k) == Find(Data(b), k)
  {
    if Less(k, kv.key) {
      DropLater(a, b, k);
    } else if Less(kv.key, k) {
      DropEarlier(a, b, k);
    }
  }

  lemma {:induction false} DropLater(a: seq<KV>, b: seq<KV>, k: Key)
    requires forall i :: 0 <= i < |b| ==> b[i].key != k
    ensures Find(Data(a + b), k) == Find(Data(a), k)
  {
    if b == [] {
      assert a + b == a;
    } else {
      var n := |b| - 1;
      DropLater(a, b[..n], k);
      assert a + b == a + b[..n] + [b[n]];
      DataSnoc(a + b[..n], b[n]);
    }
  }

  lemma {:induction false} DropEarlier(a: seq<KV>, b: seq<KV>, k: Key)
    requires forall i :: 0 <= i < |a| ==> a[i].key != k
    ensures Find(Data(a + b), k) == Find(Data(b), k)
  {
    if b == [] {
      assert a + b == a;
      if k in Data(a) { DataSource(a, k); }
    } else {
      var n := |b| - 1;
      DropEarlier(a, b[..n], k);
      assert a + b == a + b[..n] + [b[n]] && b == b[..n] + [b[n]];
      DataSnoc(a + b[..n], b[n]);
      DataSnoc(b[..n], b[n]);
    }
  }

  // ---- How low the tree is ----

  /** The longest path from the root. */
  function Depth(t: Tree): nat {
    if t.Leaf? then 0
    else if Depth(t.left) > Depth(t.right) then Depth(t.left) + 1
    else Depth(t.right) + 1
  }

  lemma {:induction false} HeightIsDepth(t: Tree)
    requires Balanced(t)
    ensures Height(t) == Depth(t)
  {
    if t.Leaf? {
    } else {
      HeightIsDepth(t.left);
      HeightIsDepth(t.right);
    }
  }

  lemma {:induction false} FibDoubles(n: nat)
    ensures Fib(n + 2) >= Pow2(n / 2)
  {
    if n < 2 {
      FibTwo();
      assert Fib(3) == Fib(2) + Fib(1);
    } else {
      FibDoubles(n - 2);
      assert Fib(n + 2) == Fib(n + 1) + Fib(n);
      FibGrows(n);
      assert n / 2 - 1 == (n - 2) / 2;
    }
  }

  /** A balanced tree is low: no path is longer than about twice the logarithm of the number of its entries. */
  lemma {:induction false} DepthIsLogarithmic(t: Tree)
    requires Balanced(t)
    ensures |InOrder(t)| + 1 >= Pow2(Depth(t) / 2)
  {
    hide Fib, Depth, InOrder, Balanced, Pow2;
    HeightIsDepth(t);
    SizeAtLeastFib(t);
    FibDoubles(Depth(t));
  }

  function Fib(n: nat): nat {
    if n < 2 then n else Fib(n - 1) + Fib(n - 2)
  }

  lemma {:induction false} FibGrows(n: nat)
    ensures Fib(n) <= Fib(n + 1)
  {
    if n >= 2 { FibGrows(n - 1); FibGrows(n - 2); }
  }

  lemma FibTwo()
    ensures Fib(2) == 1
  {
  }

  lemma {:induction false} FibSplit(h: nat, a: nat, b: nat)
    requires h == 1 + Max(a, b) && -1 <= a - b <= 1
    ensures Fib(h + 2) <= Fib(a + 2) + Fib(b + 2)
  {
    assert Fib(h + 2) == Fib(h + 1) + Fib(h);
    FibGrows(h);
  }

  /** A balanced tree of height h holds at least Fib(h + 2) - 1 entries. */
  lemma {:induction false} SizeAtLeastFib(t: Tree)
    requires Balanced(t)
    ensures |InOrder(t)| >= Fib(Height(t) + 2) - 1
  {
    hide Fib;
    if t.Node? {
      SizeAtLeastFib(t.left);
      SizeAtLeastFib(t.right);
      FibSplit(t.height, Height(t.left), Height(t.right));
    } else {
      FibTwo();
    }
  }
}
