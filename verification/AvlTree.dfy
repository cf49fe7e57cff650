/** Nodes of the AVL table (dev/src/lib/Agg/Table.c) and the ghost tree that
    gives their links a meaning.

    A `Tree` is a value over node references: it says which node stands where,
    and nothing about the heap.  `Rep` ties the mutable links and balance fields
    to it.  A `Ctx` is the path from a root down to a hole, with the subtrees
    that hang off it; the stacks `pa`, `da` and `Stack` of the source are the
    nodes and directions of such a path.
*/
module AvlTree {

  /** A run-time object, known here only by its identity. */
  type Obj = int

  const NIL: Obj := 0

  /** What a table orders by: the hash first, the comparison function on ties. */
  datatype Item = Item(hash: nat, key: Obj)

  type Comparer = (Obj, Obj) -> int

  ghost predicate TotalOrder(f: Comparer) {
    && (forall a, b :: f(a, b) < 0 <==> f(b, a) > 0)
    && (forall a, b, c :: f(a, b) <= 0 && f(b, c) <= 0 ==> f(a, c) <= 0)
  }

  type Order = f: Comparer | TotalOrder(f) witness (a: Obj, b: Obj) => a - b

  function Cmp(f: Order, a: Item, b: Item): int {
    if a.hash < b.hash then -1
    else if a.hash > b.hash then 1
    else f(a.key, b.key)
  }

  lemma CmpSym(f: Order, a: Item, b: Item)
    ensures Cmp(f, a, b) < 0 <==> Cmp(f, b, a) > 0
    ensures Cmp(f, a, b) == 0 <==> Cmp(f, b, a) == 0
  {
    assert TotalOrder(f);
  }

  lemma CmpTrans(f: Order, a: Item, b: Item, c: Item)
    requires Cmp(f, a, b) <= 0 && Cmp(f, b, c) <= 0
    ensures Cmp(f, a, c) <= 0
    ensures Cmp(f, a, b) < 0 || Cmp(f, b, c) < 0 ==> Cmp(f, a, c) < 0
  {
    assert TotalOrder(f);
    var x, y, z := a.key, b.key, c.key;
    assert f(x, y) < 0 <==> f(y, x) > 0;
    assert f(y, z) < 0 <==> f(z, y) > 0;
    assert f(x, z) < 0 <==> f(z, x) > 0;
    assert f(x, y) <= 0 && f(y, z) <= 0 ==> f(x, z) <= 0;
    assert f(z, x) <= 0 && f(x, y) <= 0 ==> f(z, y) <= 0;
    assert f(y, z) <= 0 && f(z, x) <= 0 ==> f(y, x) <= 0;
  }

  /** The smaller hash comes first, whatever the keys; equal hashes leave it to the
      comparison function. */
  lemma CmpMeans(f: Order, a: Item, b: Item)
    ensures Cmp(f, a, b) < 0 <==> a.hash < b.hash || (a.hash == b.hash && f(a.key, b.key) < 0)
    ensures Cmp(f, a, b) == 0 <==> a.hash == b.hash && f(a.key, b.key) == 0
    ensures Cmp(f, a, b) > 0 <==> b.hash < a.hash || (a.hash == b.hash && f(b.key, a.key) < 0)
  {
    assert TotalOrder(f);
    var x, y := a.key, b.key;
    assert f(y, x) < 0 <==> f(x, y) > 0;
  }

  class Node {
    const Key: Obj
    const Hash: nat
    var Value: Obj
    var Link0: Node?
    var Link1: Node?
    var Balance: int

    constructor (key: Obj, hash: nat)
      ensures Key == key && Hash == hash && Value == NIL
      ensures Link0 == null && Link1 == null && Balance == 0
    {
      Key, Hash, Value := key, hash, NIL;
      Link0, Link1, Balance := null, null, 0;
    }

    function At(): Item { Item(Hash, Key) }

    function Link(d: bool): Node?
      reads this
    {
      if d then Link1 else Link0
    }
  }

  // ----- trees -----

  datatype Tree = Leaf | Br(l: Tree, n: Node, r: Tree)

  function Max(a: int, b: int): int { if a > b then a else b }

  ghost function Nodes(t: Tree): set<Node> {
    match t case Leaf => {} case Br(l, n, r) => Nodes(l) + {n} + Nodes(r)
  }

  /** The nodes in table order. */
  ghost function Seq(t: Tree): seq<Node> {
    match t case Leaf => [] case Br(l, n, r) => Seq(l) + [n] + Seq(r)
  }

  ghost function H(t: Tree): nat {
    match t case Leaf => 0 case Br(l, n, r) => 1 + Max(H(l), H(r))
  }

  ghost function RootOf(t: Tree): Node? {
    if t.Leaf? then null else t.n
  }

  ghost predicate Distinct(t: Tree) {
    t.Br? ==>
      && t.n !in Nodes(t.l) && t.n !in Nodes(t.r) && Nodes(t.l) !! Nodes(t.r)
      && Distinct(t.l) && Distinct(t.r)
  }

  /** The links and balance fields of the nodes of `t` are those of `t`, and
      every balance is in -1..1. */
  ghost predicate Rep(t: Tree)
    reads Nodes(t)
  {
    t.Br? ==>
      && t.n.Link0 == RootOf(t.l) && t.n.Link1 == RootOf(t.r)
      && t.n.Balance == H(t.r) - H(t.l) && -1 <= t.n.Balance <= 1
      && Rep(t.l) && Rep(t.r)
  }

  lemma SeqNodes(t: Tree)
    ensures forall x :: x in Seq(t) <==> x in Nodes(t)
  {
  }

  lemma SeqNode(t: Tree, x: Node)
    ensures x in Seq(t) <==> x in Nodes(t)
  {
    SeqNodes(t);
  }

  lemma SameNodes(t: Tree)
    ensures forall x :: x in Nodes(t) ==> x in Seq(t)
    ensures forall x :: x in Seq(t) ==> x in Nodes(t)
  {
    forall x | x in Nodes(t) ensures x in Seq(t) {
      SeqNode(t, x);
    }
    forall x | x in Seq(t) ensures x in Nodes(t) {
      SeqNode(t, x);
    }
  }

  // ----- paths -----

  datatype Ctx = Top | Down(up: Ctx, n: Node, dir: bool, other: Tree)

  ghost function Join(n: Node, dir: bool, t: Tree, other: Tree): Tree {
    if dir then Br(other, n, t) else Br(t, n, other)
  }

  ghost function Plug(c: Ctx, t: Tree): Tree {
    if c.Top? then t else Plug(c.up, Join(c.n, c.dir, t, c.other))
  }

  ghost function CtxNodes(c: Ctx): set<Node> {
    if c.Top? then {} else CtxNodes(c.up) + {c.n} + Nodes(c.other)
  }

  ghost predicate CtxDistinct(c: Ctx) {
    c.Down? ==>
      && c.n !in Nodes(c.other) && c.n !in CtxNodes(c.up)
      && Nodes(c.other) !! CtxNodes(c.up)
      && Distinct(c.other) && CtxDistinct(c.up)
  }

  ghost function Pre(c: Ctx): seq<Node> {
    if c.Top? then [] else if c.dir then Pre(c.up) + Seq(c.other) + [c.n] else Pre(c.up)
  }

  ghost function Post(c: Ctx): seq<Node> {
    if c.Top? then [] else if c.dir then Post(c.up) else [c.n] + Seq(c.other) + Post(c.up)
  }

  ghost function Depth(c: Ctx): nat {
    if c.Top? then 0 else Depth(c.up) + 1
  }

  /** Height of the whole tree when the hole holds a tree of height `h`. */
  ghost function Ht(c: Ctx, h: nat): nat {
    if c.Top? then h else Ht(c.up, 1 + Max(h, H(c.other)))
  }

  ghost function Path(c: Ctx): seq<Node> {
    if c.Top? then [] else Path(c.up) + [c.n]
  }

  ghost function Dirs(c: Ctx): seq<bool> {
    if c.Top? then [] else Dirs(c.up) + [c.dir]
  }

  /** The path as a stack that starts with the table header (null). */
  ghost function PathN(c: Ctx): seq<Node?> {
    if c.Top? then [null] else PathN(c.up) + [c.n]
  }

  ghost function DirsN(c: Ctx): seq<bool> {
    if c.Top? then [false] else DirsN(c.up) + [c.dir]
  }

  ghost function Last(c: Ctx): Node? {
    if c.Top? then null else c.n
  }

  lemma PathLengths(c: Ctx)
    ensures |Path(c)| == |Dirs(c)| == Depth(c)
    ensures |PathN(c)| == |DirsN(c)| == Depth(c) + 1
    ensures PathN(c)[0] == null && !DirsN(c)[0]
    ensures PathN(c)[Depth(c)] == Last(c)
    ensures c.Down? ==> DirsN(c)[Depth(c)] == c.dir
  {
  }

  lemma PathNDown(c: Ctx, n: Node, d: bool, o: Tree)
    ensures Depth(Down(c, n, d, o)) == Depth(c) + 1
    ensures PathN(Down(c, n, d, o)) == PathN(c) + [n] && DirsN(Down(c, n, d, o)) == DirsN(c) + [d]
  {
  }

  ghost predicate CtxLinks(root: Node?, c: Ctx, hole: Node?)
    reads CtxNodes(c)
  {
    if c.Top? then root == hole
    else
      && c.n.Link(c.dir) == hole && c.n.Link(!c.dir) == RootOf(c.other)
      && Rep(c.other)
      && CtxLinks(root, c.up, c.n)
  }

  ghost function BalOf(dir: bool, h: nat, other: nat): int {
    if dir then h - other else other - h
  }

  ghost predicate CtxBal(c: Ctx, h: nat)
    reads CtxNodes(c)
  {
    c.Down? ==>
      && c.n.Balance == BalOf(c.dir, h, H(c.other)) && -1 <= c.n.Balance <= 1
      && CtxBal(c.up, 1 + Max(h, H(c.other)))
  }

  lemma DownLinks(root: Node?, c: Ctx, hole: Node?)
    requires c.Down?
    ensures CtxLinks(root, c, hole) <==>
            && (if c.dir then c.n.Link1 else c.n.Link0) == hole
            && (if c.dir then c.n.Link0 else c.n.Link1) == RootOf(c.other)
            && Rep(c.other) && CtxLinks(root, c.up, c.n)
  {
  }

  lemma DownBal(c: Ctx, h: nat)
    requires c.Down?
    ensures CtxBal(c, h) <==>
            && c.n.Balance == (if c.dir then h - H(c.other) else H(c.other) - h) && -1 <= c.n.Balance <= 1
            && CtxBal(c.up, 1 + Max(h, H(c.other)))
  {
  }

  lemma BrRep(t: Tree)
    requires t.Br?
    ensures Rep(t) <==>
            && t.n.Link0 == RootOf(t.l) && t.n.Link1 == RootOf(t.r)
            && t.n.Balance == H(t.r) - H(t.l) && -1 <= t.n.Balance <= 1
            && Rep(t.l) && Rep(t.r)
    ensures H(t) == 1 + (if H(t.l) > H(t.r) then H(t.l) else H(t.r)) == 1 + Max(H(t.l), H(t.r))
            == 1 + Max(H(t.r), H(t.l))
    ensures RootOf(t) == t.n
  {
  }

  lemma BrDistinct(t: Tree)
    requires t.Br?
    ensures Nodes(t) == Nodes(t.l) + {t.n} + Nodes(t.r)
    ensures Distinct(t) <==>
            && t.n !in Nodes(t.l) && t.n !in Nodes(t.r) && Nodes(t.l) !! Nodes(t.r)
            && Distinct(t.l) && Distinct(t.r)
    ensures Seq(t) == Seq(t.l) + [t.n] + Seq(t.r)
  {
  }

  lemma DownDistinct(c: Ctx)
    requires c.Down?
    ensures CtxNodes(c) == CtxNodes(c.up) + {c.n} + Nodes(c.other)
    ensures CtxDistinct(c) <==>
            && c.n !in Nodes(c.other) && c.n !in CtxNodes(c.up)
            && Nodes(c.other) !! CtxNodes(c.up)
            && Distinct(c.other) && CtxDistinct(c.up)
  {
  }

  /** The empty tree. */
  lemma LeafParts(t: Tree)
    requires t.Leaf?
    ensures Nodes(t) == {} && Seq(t) == [] && H(t) == 0 && RootOf(t) == null && Distinct(t) && Rep(t)
  {
  }

  lemma {:induction false} PlugDistinct(c: Ctx, t: Tree)
    ensures Nodes(Plug(c, t)) == CtxNodes(c) + Nodes(t)
    ensures Distinct(Plug(c, t)) <==> CtxDistinct(c) && Distinct(t) && CtxNodes(c) !! Nodes(t)
  {
    if c.Down? {
      PlugDistinct(c.up, Join(c.n, c.dir, t, c.other));
    }
  }

  lemma {:induction false} PlugRep(c: Ctx, t: Tree)
    ensures Rep(Plug(c, t)) <==>
            CtxLinks(RootOf(Plug(c, t)), c, RootOf(t)) && CtxBal(c, H(t)) && Rep(t)
  {
    hide Rep, BalOf;
    if c.Down? {
      var j := Join(c.n, c.dir, t, c.other);
      PlugRep(c.up, j);
      assert H(j) == 1 + Max(H(t), H(c.other)) && RootOf(j) == c.n;
      JoinRep(c, t);
    }
  }

  lemma JoinRep(c: Ctx, t: Tree)
    requires c.Down?
    ensures Rep(Join(c.n, c.dir, t, c.other)) <==>
            && c.n.Link(c.dir) == RootOf(t) && c.n.Link(!c.dir) == RootOf(c.other)
            && c.n.Balance == BalOf(c.dir, H(t), H(c.other)) && -1 <= c.n.Balance <= 1
            && Rep(t) && Rep(c.other)
  {
  }

  /** The root that the links lead from is the root of the plugged tree. */
  lemma {:induction false} PlugRoot(root: Node?, c: Ctx, t: Tree)
    requires CtxLinks(root, c, RootOf(t))
    ensures RootOf(Plug(c, t)) == root
  {
    if c.Down? {
      PlugRoot(root, c.up, Join(c.n, c.dir, t, c.other));
    }
  }

  lemma {:induction false} PlugSeq(c: Ctx, t: Tree)
    ensures Seq(Plug(c, t)) == Pre(c) + Seq(t) + Post(c)
  {
    if c.Down? {
      PlugSeq(c.up, Join(c.n, c.dir, t, c.other));
    }
  }

  lemma {:induction false} PlugHeight(c: Ctx, t: Tree)
    ensures H(Plug(c, t)) == Ht(c, H(t))
    ensures H(Plug(c, t)) >= Depth(c) + H(t)
  {
    if c.Down? {
      PlugHeight(c.up, Join(c.n, c.dir, t, c.other));
    }
  }

  // ----- joining paths -----

  ghost function Append(a: Ctx, b: Ctx): Ctx {
    if b.Top? then a else Down(Append(a, b.up), b.n, b.dir, b.other)
  }

  /** The node a path starts at. */
  ghost function First(c: Ctx, hole: Node?): Node? {
    if c.Top? then hole else First(c.up, c.n)
  }

  lemma AppendPlug(a: Ctx, b: Ctx, t: Tree)
    ensures Plug(Append(a, b), t) == Plug(a, Plug(b, t))
  {
    if b.Down? {
      AppendPlug(a, b.up, Join(b.n, b.dir, t, b.other));
    }
  }

  lemma {:induction false} AppendPath(a: Ctx, b: Ctx)
    ensures Path(Append(a, b)) == Path(a) + Path(b)
    ensures Dirs(Append(a, b)) == Dirs(a) + Dirs(b)
    ensures PathN(Append(a, b)) == PathN(a) + Path(b)
    ensures DirsN(Append(a, b)) == DirsN(a) + Dirs(b)
    ensures Depth(Append(a, b)) == Depth(a) + Depth(b)
    ensures Last(Append(a, b)) == if b.Top? then Last(a) else b.n
  {
    if b.Down? {
      AppendPath(a, b.up);
    }
  }

  lemma AppendDistinct(a: Ctx, b: Ctx)
    ensures CtxNodes(Append(a, b)) == CtxNodes(a) + CtxNodes(b)
    ensures CtxDistinct(Append(a, b)) <==> CtxDistinct(a) && CtxDistinct(b) && CtxNodes(a) !! CtxNodes(b)
  {
  }

  lemma {:induction false} AppendLinks(root: Node?, a: Ctx, b: Ctx, hole: Node?)
    ensures CtxLinks(root, Append(a, b), hole) <==>
            CtxLinks(root, a, First(b, hole)) && CtxLinks(First(b, hole), b, hole)
  {
    if b.Down? {
      AppendLinks(root, a, b.up, b.n);
    }
  }

  lemma {:induction false} AppendBal(a: Ctx, b: Ctx, h: nat)
    ensures CtxBal(Append(a, b), h) <==> CtxBal(b, h) && CtxBal(a, Ht(b, h))
  {
    if b.Down? {
      AppendBal(a, b.up, 1 + Max(h, H(b.other)));
    }
  }

  lemma FirstDown(c: Ctx, hole: Node?)
    requires c.Down?
    ensures First(c, hole) != null
  {
  }

  /** Splits off the first step of a path. */
  lemma {:induction false} SplitFront(c: Ctx) returns (y: Node, d: bool, o: Tree, rest: Ctx)
    requires c.Down?
    ensures c == Append(Down(Top, y, d, o), rest)
    ensures Dirs(c) == [d] + Dirs(rest) && Path(c) == [y] + Path(rest)
    ensures forall hole :: First(c, hole) == y
  {
    if c.up.Top? {
      y, d, o, rest := c.n, c.dir, c.other, Top;
    } else {
      y, d, o, rest := SplitFront(c.up);
      rest := Down(rest, c.n, c.dir, c.other);
      assert forall hole :: First(c, hole) == First(c.up, c.n);
    }
  }

  // ----- balance along the path of an insertion -----

  /** Every subtree off the path is as high as the hole at its level. */
  ghost predicate Flat(c: Ctx, h: nat) {
    c.Down? ==> H(c.other) == h && Flat(c.up, h + 1)
  }

  ghost function Delta(d: bool): int { if d then 1 else -1 }

  lemma {:induction false} FlatZero(c: Ctx, h: nat)
    requires CtxBal(c, h) && Flat(c, h)
    ensures forall x :: x in Path(c) ==> x.Balance == 0
  {
    if c.Down? {
      FlatZero(c.up, 1 + Max(h, H(c.other)));
    }
  }

  lemma {:induction false} FlatGrown(c: Ctx, h: nat)
    requires Flat(c, h)
    requires forall j :: 0 <= j < Depth(c) ==>
               |Path(c)| == |Dirs(c)| == Depth(c) && Path(c)[j].Balance == Delta(Dirs(c)[j])
    ensures CtxBal(c, h + 1)
    ensures Ht(c, h + 1) == Ht(c, h) + 1
  {
    if c.Down? {
      PathLengths(c);
      PathLengths(c.up);
      assert Path(c)[Depth(c) - 1] == c.n && Dirs(c)[Depth(c) - 1] == c.dir;
      forall j | 0 <= j < Depth(c.up)
        ensures |Path(c.up)| == |Dirs(c.up)| == Depth(c.up) && Path(c.up)[j].Balance == Delta(Dirs(c.up)[j])
      {
        assert Path(c)[j] == Path(c.up)[j] && Dirs(c)[j] == Dirs(c.up)[j];
      }
      FlatGrown(c.up, h + 1);
    }
  }

  // ----- a path as parallel sequences -----

  ghost function OtherNodes(c: Ctx): set<Node> {
    if c.Top? then {} else OtherNodes(c.up) + Nodes(c.other)
  }

  /** The subtrees beside a path are in order. */
  ghost predicate OthersRep(c: Ctx)
    reads OtherNodes(c)
  {
    c.Down? ==> Rep(c.other) && OthersRep(c.up)
  }

  ghost function Siblings(c: Ctx): seq<Node?> {
    if c.Top? then [] else Siblings(c.up) + [RootOf(c.other)]
  }

  /** Nodes of a path are pairwise different, and not in the subtrees beside it. */
  lemma {:induction false} PathDistinct(c: Ctx)
    requires CtxDistinct(c)
    ensures forall x :: x in Path(c) ==> x in CtxNodes(c) && x !in OtherNodes(c)
    ensures forall i, j :: 0 <= i < j < |Path(c)| ==> Path(c)[i] != Path(c)[j]
    ensures OtherNodes(c) <= CtxNodes(c)
  {
    if c.Down? {
      PathDistinct(c.up);
    }
  }

  /** One level of a path: its node points down the path and to the sibling. */
  ghost predicate Level(c: Ctx, hole: Node?, j: nat)
    requires |Path(c)| == |Dirs(c)| == |Siblings(c)| && j < |Path(c)|
    reads Path(c)[j]
  {
    && Path(c)[j].Link(Dirs(c)[j]) == (if j + 1 < |Path(c)| then Path(c)[j + 1] else hole)
    && Path(c)[j].Link(!Dirs(c)[j]) == Siblings(c)[j]
  }

  lemma PathParts(c: Ctx)
    ensures |Path(c)| == |Dirs(c)| == |Siblings(c)| == Depth(c)
  {
  }

  lemma LevelUp(c: Ctx, hole: Node?, j: nat)
    requires c.Down? && |Path(c)| == |Dirs(c)| == |Siblings(c)| == Depth(c)
    requires |Path(c.up)| == |Dirs(c.up)| == |Siblings(c.up)| == Depth(c.up) && j < Depth(c)
    ensures j < Depth(c.up) ==> (Level(c, hole, j) <==> Level(c.up, c.n, j))
    ensures j == Depth(c.up) ==> (Level(c, hole, j) <==> c.n.Link(c.dir) == hole && c.n.Link(!c.dir) == RootOf(c.other))
  {
  }

  /** `CtxLinks`, level by level. */
  lemma {:induction false} PathLinks(root: Node?, c: Ctx, hole: Node?)
    requires CtxLinks(root, c, hole)
    ensures |Path(c)| == |Dirs(c)| == |Siblings(c)| == Depth(c)
    ensures OthersRep(c) && root == (if Path(c) == [] then hole else Path(c)[0])
    ensures forall j :: 0 <= j < |Path(c)| ==> Level(c, hole, j)
  {
    PathParts(c);
    if c.Down? {
      PathLinks(root, c.up, c.n);
      forall j | 0 <= j < |Path(c)| ensures Level(c, hole, j) {
        LevelUp(c, hole, j);
      }
    }
  }

  lemma {:induction false} LinksOfPath(root: Node?, c: Ctx, hole: Node?)
    requires |Path(c)| == |Dirs(c)| == |Siblings(c)| == Depth(c)
    requires OthersRep(c) && root == (if Path(c) == [] then hole else Path(c)[0])
    requires forall j :: 0 <= j < |Path(c)| ==> Level(c, hole, j)
    ensures CtxLinks(root, c, hole)
  {
    if c.Down? {
      PathParts(c.up);
      forall j | 0 <= j < |Path(c.up)| ensures Level(c.up, c.n, j) {
        LevelUp(c, hole, j);
      }
      LevelUp(c, hole, Depth(c.up));
      LinksOfPath(root, c.up, c.n);
    }
  }

  // ----- height and size -----

  ghost function Fib(n: nat): nat {
    if n < 2 then n else Fib(n - 1) + Fib(n - 2)
  }

  lemma FibMono(m: nat, n: nat)
    requires m <= n
    ensures Fib(m) <= Fib(n)
  {
    if m < n {
      FibMono(m, n - 1);
    }
  }

  /** A balanced tree of height h has at least F(h+2) - 1 nodes. */
  lemma {:induction false} MinNodes(t: Tree)
    requires Rep(t)
    ensures |Seq(t)| + 1 >= Fib(H(t) + 2)
  {
    if t.Br? {
      BrRep(t);
      BrSize(t);
      hide *;
      MinNodes(t.l);
      MinNodes(t.r);
      FibStep(H(t), H(t.l), H(t.r));
    } else {
      LeafParts(t);
      hide *;
      FibTwo(H(t) + 2);
    }
  }

  lemma FibTwo(n: nat)
    requires n == 2
    ensures Fib(n) == 1
  {
    assert Fib(0) == 0 && Fib(1) == 1;
  }

  lemma BrSize(t: Tree)
    requires t.Br? && Rep(t)
    ensures H(t) == 1 + Max(H(t.l), H(t.r)) && H(t.l) <= H(t.r) + 1 && H(t.r) <= H(t.l) + 1
    ensures |Seq(t)| == |Seq(t.l)| + 1 + |Seq(t.r)|
  {
  }

  lemma FibStep(h: nat, l: nat, r: nat)
    requires h == 1 + Max(l, r) && l <= r + 1 && r <= l + 1
    ensures Fib(h + 2) <= Fib(l + 2) + Fib(r + 2)
  {
    FibMono(h, (if l < r then l else r) + 2);
  }

  lemma Fib34(n: nat)
    requires n == 34
    ensures Fib(n) == 5702887
  {
    assert Fib(8) == 21 && Fib(9) == 34;
    assert Fib(14) == 377 && Fib(15) == 610;
    assert Fib(20) == 6765 && Fib(21) == 10946;
    assert Fib(26) == 121393 && Fib(27) == 196418;
    assert Fib(30) == 832040 && Fib(31) == 1346269;
  }

  lemma {:induction false} FibBig(n: nat)
    requires n >= 34
    ensures Fib(n) >= 5702887
  {
    if n == 34 {
      Fib34(n);
    } else {
      FibBig(n - 1);
    }
  }

  /** Below F(34) - 1 nodes the height is at most 31. */
  lemma HeightBound(t: Tree)
    requires Rep(t)
    requires |Seq(t)| < 5702886
    ensures H(t) <= 31
  {
    hide *;
    MinNodes(t);
    if H(t) >= 32 {
      FibBig(H(t) + 2);
    }
  }

  // ----- where a node stands -----

  /** The ancestors of `n`, from the root down. */
  ghost function PathTo(t: Tree, n: Node): seq<Node> {
    if t.Leaf? || t.n == n then []
    else [t.n] + PathTo(if n in Nodes(t.l) then t.l else t.r, n)
  }

  lemma {:induction false} PathToBelow(c: Ctx, t: Tree, m: Node)
    requires Distinct(Plug(c, t)) && m in Nodes(t)
    ensures PathTo(Plug(c, t), m) == Path(c) + PathTo(t, m)
  {
    if c.Down? {
      var j := Join(c.n, c.dir, t, c.other);
      PlugDistinct(c.up, j);
      PathToBelow(c.up, j, m);
    }
  }

  /** What fills the hole does not change where the other nodes stand. */
  lemma {:induction false} PathToBeside(c: Ctx, t: Tree, t': Tree, m: Node)
    requires Distinct(Plug(c, t)) && Distinct(Plug(c, t')) && m in CtxNodes(c)
    ensures PathTo(Plug(c, t), m) == PathTo(Plug(c, t'), m)
  {
    var j, j' := Join(c.n, c.dir, t, c.other), Join(c.n, c.dir, t', c.other);
    PlugDistinct(c, t);
    PlugDistinct(c, t');
    PlugDistinct(c.up, j);
    PlugDistinct(c.up, j');
    if m in CtxNodes(c.up) {
      PathToBeside(c.up, j, j', m);
    } else {
      PathToBelow(c.up, j, m);
      PathToBelow(c.up, j', m);
    }
  }

  /** Every node of a tree is at the end of a path. */
  lemma {:induction false} Unplug(c0: Ctx, t0: Tree, m: Node) returns (c: Ctx, t: Tree)
    requires m in Nodes(t0)
    ensures Plug(c, t) == Plug(c0, t0) && t.Br? && t.n == m
    decreases t0
  {
    if t0.n == m {
      c, t := c0, t0;
    } else if m in Nodes(t0.l) {
      c, t := Unplug(Down(c0, t0.n, false, t0.r), t0.l, m);
    } else {
      c, t := Unplug(Down(c0, t0.n, true, t0.l), t0.r, m);
    }
  }
}
