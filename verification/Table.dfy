/** The table of dev/src/lib/Agg/Table.c: avl_find, avl_probe and avl_delete on
    mutable nodes.  The ghost field `T` is the tree that the links spell out. */
module Table {
  import opened AvlTree
  import opened Options
  import opened TableSpec

  const AVL_MAX_HEIGHT := 32

  /** F(34) - 1: below this size a tree fits the 32-slot stacks. */
  const MAX_COUNT := 5702886

  class Table {
    const Compare: Order
    var Root: Node?
    var Count: nat
    var Generation: nat
    ghost var T: Tree

    ghost predicate Valid()
      reads this, Nodes(T)
    {
      && Distinct(T) && Rep(T) && Root == RootOf(T)
      && Sorted(Compare, Seq(T)) && Count == |Seq(T)|
    }

    constructor (compare: Order)
      ensures Valid() && T == Leaf && Generation == 0 && Compare == compare
    {
      Compare := compare;
      Root, Count, Generation, T := null, 0, 0, Leaf;
    }

    /** avl_find */
    method Find(key: Obj, hash: nat) returns (p: Node?)
      requires Valid()
      ensures p == Lookup(Compare, Seq(T), Item(hash, key))
      ensures p == null <==> forall m :: m in Nodes(T) ==> !(m.Hash == hash && Compare(m.Key, key) == 0)
      ensures p != null ==> p in Nodes(T) && p.Hash == hash && Compare(p.Key, key) == 0
    {
      var x := Item(hash, key);
      FindMeans(key, hash);
      ghost var c, t := Top, T;
      p := Root;
      while p != null
        invariant Plug(c, t) == T && RootOf(t) == p && Rep(t) && Between(Compare, c, x)
        decreases t
      {
        var cmp := Cmp(Compare, x, p.At());
        if cmp < 0 {
          GoLeft(Compare, c, t.l, p, t.r, x);
          c, t := Down(c, p, false, t.r), t.l;
          p := p.Link0;
        } else if cmp > 0 {
          GoRight(Compare, c, t.l, p, t.r, x);
          c, t := Down(c, p, true, t.l), t.r;
          p := p.Link1;
        } else {
          Hit(Compare, c, t.l, p, t.r, x);
          return;
        }
      }
      Miss(Compare, c, x);
    }

    /** Writes one link of a node, or the root slot for the table header. */
    method SetLink(p: Node?, d: bool, w: Node?)
      modifies `Root, (if p == null then {} else {p})`Link0, (if p == null then {} else {p})`Link1
      ensures p == null ==> Root == w
      ensures p != null ==> Root == old(Root) && p.Link(d) == w && p.Link(!d) == old(p.Link(!d))
    {
      if p == null {
        Root := w;
      } else if d {
        p.Link1 := w;
      } else {
        p.Link0 := w;
      }
    }

    lemma FindMeans(key: Obj, hash: nat)
      requires Valid()
      ensures var p := Lookup(Compare, Seq(T), Item(hash, key));
              && (p == null <==> forall m :: m in Nodes(T) ==> !(m.Hash == hash && Compare(m.Key, key) == 0))
              && (p != null ==> p in Nodes(T) && p.Hash == hash && Compare(p.Key, key) == 0)
    {
      hide *;
      ValidParts();
      FoundMeans(Compare, Seq(T), key, hash);
      SameNodes(T);
    }

    /** In the order of a table the smaller hash comes first, and among equal hashes
        the key that compares less. */
    lemma InOrder(i: nat, j: nat)
      requires Valid() && i < j < |Seq(T)|
      ensures var a, b := Seq(T)[i], Seq(T)[j];
              a.Hash < b.Hash || (a.Hash == b.Hash && Compare(a.Key, b.Key) < 0)
    {
      OrderMeans(Compare, Seq(T), i, j);
    }

    // ----- avl_probe -----

    /** The descent of avl_probe.  `lower` is the path from `y`, the last
        unbalanced node met (or the root), `upper` the path above it. */
    method Descend(x: Item, da: array<bool>)
      returns (found: bool, p: Node?, q: Node?, d: bool, y: Node?, z: Node?, k: nat, ghost upper: Ctx, ghost lower: Ctx)
      requires Valid() && Count < MAX_COUNT && da.Length == AVL_MAX_HEIGHT
      modifies da
      ensures found <==> Has(Compare, Seq(T), x)
      ensures found ==> p != null && p == Lookup(Compare, Seq(T), x)
      ensures !found ==>
                && Descent(Compare, T, x, upper, lower, Leaf)
                && q == Last(Append(upper, lower)) && d == DirOf(Append(upper, lower))
                && y == First(lower, null) && z == Last(upper)
                && k == Depth(lower) <= da.Length && da[..k] == Dirs(lower)
    {
      hide Rep, Distinct, Sorted, Seq, H;
      NotNodes(T, da);
      p, q, d, y, z, k := Root, null, false, Root, null, 0;
      upper, lower := Top, Top;
      ghost var t := T;
      while p != null
        invariant Valid()
        invariant Descent(Compare, T, x, upper, lower, t) && RootOf(t) == p
        invariant q == Last(Append(upper, lower)) && d == DirOf(Append(upper, lower))
        invariant y == First(lower, p) && z == Last(upper)
        invariant k == Depth(lower) <= da.Length && da[..k] == Dirs(lower)
        decreases t
      {
        DescentDepth(Compare, T, x, upper, lower, t);
        if p.Balance != 0 {
          z, y, k := q, p, 0;
          upper, lower := Restart(Compare, T, x, upper, lower, t);
        }
        q := p;
        var cmp := Cmp(Compare, x, p.At());
        if cmp < 0 {
          p := p.Link0;
          lower, t := StepDown(Compare, T, x, upper, lower, t, false);
          d, da[k], k := false, false, k + 1;
        } else if cmp > 0 {
          p := p.Link1;
          lower, t := StepDown(Compare, T, x, upper, lower, t, true);
          d, da[k], k := true, true, k + 1;
        } else {
          Hit(Compare, Append(upper, lower), t.l, p, t.r, x);
          found := true;
          return;
        }
      }
      Miss(Compare, Append(upper, lower), x);
      found := false;
    }

    /** avl_probe: the node whose value belongs to the key, made if need be.
        `upper` and `lower` are the path above and from the last unbalanced
        node on the way; nothing else in the tree moves. */
    method Probe(key: Obj, hash: nat) returns (slot: Node, ghost upper: Ctx, ghost lower: Ctx)
      requires Valid() && Count < MAX_COUNT
      modifies this, Nodes(T)`Link0, Nodes(T)`Link1, Nodes(T)`Balance
      ensures Valid() && Kept(old(T), old(Generation), T, Generation)
      ensures Has(Compare, old(Seq(T)), Item(hash, key)) ==>
                && slot == Lookup(Compare, Seq(T), Item(hash, key))
                && T == old(T) && Count == old(Count) && Generation == old(Generation)
      ensures !Has(Compare, old(Seq(T)), Item(hash, key)) ==>
                && fresh(slot) && slot.Key == key && slot.Hash == hash && slot.Value == NIL
                && Seq(T) == Inserted(old(Seq(T)), Rank(Compare, old(Seq(T)), Item(hash, key)), slot)
                && Count == old(Count) + 1
                && old(Generation) <= Generation <= old(Generation) + 1
                && Probed(old(T), upper, lower, slot, T, Generation > old(Generation))
    {
      var x := Item(hash, key);
      var da := new bool[AVL_MAX_HEIGHT];
      hide *;
      assert allocated(Nodes(T));
      var found, p, q, d, y, z, k;
      found, p, q, d, y, z, k, upper, lower := Descend(x, da);
      ghost var T0, g0 := T, Generation;
      if found {
        slot := p;
        KeptSame(T, Generation);
      } else {
        ValidParts();
        slot := AddNew(key, hash, y, z, q, d, k, da, upper, lower);
        ValidParts();
        ProbeKeeps(T0, g0, upper, lower, slot, T, Generation);
      }
    }

    /** avl_probe from where the descent ended. */
    method AddNew(key: Obj, hash: nat, y: Node?, z: Node?, q: Node?, d: bool, k: nat, da: array<bool>,
        ghost upper: Ctx, ghost lower: Ctx)
      returns (slot: Node)
      requires Valid() && Descent(Compare, T, Item(hash, key), upper, lower, Leaf)
      requires q == Last(Append(upper, lower)) && d == DirOf(Append(upper, lower))
      requires y == First(lower, null) && z == Last(upper)
      requires k == Depth(lower) <= da.Length && da[..k] == Dirs(lower)
      modifies this, Nodes(T)`Link0, Nodes(T)`Link1, Nodes(T)`Balance
      ensures Valid()
      ensures fresh(slot) && slot.Key == key && slot.Hash == hash && slot.Value == NIL
      ensures Seq(T) == Inserted(old(Seq(T)), Rank(Compare, old(Seq(T)), Item(hash, key)), slot)
      ensures Count == old(Count) + 1 && old(Generation) <= Generation <= old(Generation) + 1
      ensures Probed(old(T), upper, lower, slot, T, Generation > old(Generation))
    {
      hide *;
      ghost var T0 := T;
      assert allocated(Nodes(T));
      slot := new Node(key, hash);
      ghost var t := Br(Leaf, slot, Leaf);
      var turned := false;
      ValidParts();
      NewParts(Item(hash, key), slot, upper, lower, q, d, y);
      if y == null {
        SetLink(q, d, slot);
        Count := Count + 1;
        ProbeResult(Compare, T0, Item(hash, key), upper, lower, slot, t, turned);
      } else {
        turned, t := AddBelow(y, z, slot, q, d, da, upper, lower);
        ProbeResult(Compare, T0, Item(hash, key), upper, lower, slot, t, turned);
      }
      T := Plug(upper, t);
      if turned {
        Generation := Generation + 1;
      }
      MakeValid();
    }

    lemma {:induction false} ValidParts()
      requires Valid()
      ensures Distinct(T) && Rep(T) && Root == RootOf(T) && Sorted(Compare, Seq(T)) && Count == |Seq(T)|
    {
    }

    lemma {:induction false} MakeValid()
      requires Distinct(T) && Rep(T) && Root == RootOf(T) && Sorted(Compare, Seq(T)) && Count == |Seq(T)|
      ensures Valid()
    {
    }

    lemma {:induction false} NewParts(x: Item, n: Node, upper: Ctx, lower: Ctx, q: Node?, d: bool, y: Node?)
      requires q == Last(Append(upper, lower)) && d == DirOf(Append(upper, lower)) && y == First(lower, null)
      requires Descent(Compare, T, x, upper, lower, Leaf)
      requires n.Link0 == null && n.Link1 == null && n.Balance == 0
      ensures y == null ==> upper.Top? && q == null && Plug(upper, Br(Leaf, n, Leaf)) == Plug(lower, Br(Leaf, n, Leaf))
      ensures y != null ==> lower.Down? && q == lower.n && d == lower.dir
      ensures LastUnbalanced(upper, lower, 0) && T == Plug(Append(upper, lower), Leaf)
      ensures Rep(Br(Leaf, n, Leaf)) && RootOf(Br(Leaf, n, Leaf)) == n && Nodes(Br(Leaf, n, Leaf)) == {n}
      ensures upper.Top? ==> Plug(upper, Br(Leaf, n, Leaf)) == Br(Leaf, n, Leaf)
    {
      if lower.Down? {
        FirstDown(lower, null);
      }
    }

    /** The part of avl_probe for a tree that is not empty: hang the node, count
        it, adjust balances, rotate. */
    method AddBelow(y: Node, z: Node?, n: Node, q: Node, d: bool, da: array<bool>, ghost upper: Ctx, ghost lower: Ctx)
      returns (turned: bool, ghost t: Tree)
      requires Valid() && T == Plug(Append(upper, lower), Leaf) && lower.Down? && y == First(lower, null)
               && z == Last(upper)
      requires q == lower.n && d == lower.dir && LastUnbalanced(upper, lower, 0)
      requires Depth(lower) <= da.Length && da[..Depth(lower)] == Dirs(lower)
      requires Rep(Br(Leaf, n, Leaf)) && n !in Nodes(T)
      modifies `Root, `Count, Nodes(T)`Link0, Nodes(T)`Link1, Nodes(T)`Balance, n`Link0, n`Link1, n`Balance
      ensures Count == old(Count) + 1
      ensures var g := Plug(lower, Br(Leaf, n, Leaf)); if turned then t in Rotations(g) else t == g
      ensures Rep(Plug(upper, t)) && Root == RootOf(Plug(upper, t))
    {
      hide *;
      AddReady(upper, lower, n);
      assert allocated(CtxNodes(lower)) && allocated(CtxNodes(upper));
      Hang(y, n, q, d, upper, lower);
      Count := Count + 1;
      ghost var g := Grow(Root, y, n, da, upper, lower, Path(lower));
      turned, t := Rebalance(y, z, g, upper, H(Plug(lower, Leaf)));
    }

    lemma {:induction false} AddReady(upper: Ctx, lower: Ctx, n: Node)
      requires Valid() && T == Plug(Append(upper, lower), Leaf) && lower.Down? && n !in Nodes(T)
      ensures CtxDistinct(upper) && CtxDistinct(lower) && CtxNodes(upper) !! CtxNodes(lower)
      ensures Nodes(T) == CtxNodes(upper) + CtxNodes(lower) && n !in CtxNodes(lower) && n !in CtxNodes(upper)
      ensures Nodes(Plug(lower, Br(Leaf, n, Leaf))) == CtxNodes(lower) + {n}
      ensures Nodes(Br(Leaf, n, Leaf)) == {n} && lower.n in CtxNodes(lower)
      ensures forall x :: x in Path(lower) ==> x in CtxNodes(lower)
    {
      OldParts(T, upper, lower);
      PlugDistinct(lower, Br(Leaf, n, Leaf));
      PathDistinct(lower);
    }

    /** Hangs the new node in the link where the descent of avl_probe ended. */
    method Hang(y: Node, n: Node, q: Node, d: bool, ghost upper: Ctx, ghost lower: Ctx)
      requires Valid() && T == Plug(Append(upper, lower), Leaf) && lower.Down? && y == First(lower, null)
      requires q == lower.n && d == lower.dir
      modifies `Root, q`Link0, q`Link1
      ensures Root == old(Root) && HangsFrom(Root, upper, y, lower, n)
    {
      OldParts(T, upper, lower);
      ghost var h := H(Plug(lower, Leaf));
      ghost var h' := 1 + Max(0, H(lower.other));
      assert CtxLinks(y, lower.up, q) && CtxBal(lower.up, h') && Rep(lower.other);
      assert q.Link(!d) == RootOf(lower.other) && q.Balance == BalOf(d, 0, H(lower.other)) && -1 <= q.Balance <= 1;
      assert q !in CtxNodes(lower.up) && q !in Nodes(lower.other) && q !in CtxNodes(upper);
      assert allocated(CtxNodes(lower.up)) && allocated(Nodes(lower.other)) && allocated(CtxNodes(upper));
      hide *;
      SetLink(q, d, n);
      assert CtxLinks(y, lower.up, q);
      assert Rep(lower.other);
      assert CtxLinks(Root, upper, y);
      assert CtxBal(upper, h);
      assert CtxBal(lower.up, h');
      HangsNow(Root, upper, y, lower, n);
    }

    /** Counts the new node in the balances from `y` on; `g` is the subtree at
        `y` afterwards. */
    static method Grow(root: Node?, y: Node, n: Node, da: array<bool>, ghost upper: Ctx, ghost lower: Ctx,
        ghost ns: seq<Node>)
      returns (ghost g: Tree)
      requires HangsFrom(root, upper, y, lower, n) && Rep(Br(Leaf, n, Leaf))
      requires CtxDistinct(upper) && CtxDistinct(lower) && CtxNodes(upper) !! CtxNodes(lower) && n !in CtxNodes(lower)
      requires LastUnbalanced(upper, lower, 0) && lower.Down? && y == First(lower, null) && ns == Path(lower)
      requires Depth(lower) <= da.Length && da[..Depth(lower)] == Dirs(lower)
      modifies (set x | x in ns)`Balance
      ensures g == Plug(lower, Br(Leaf, n, Leaf)) && Loose(g) && g.n == y
      ensures CtxLinks(root, upper, y) && CtxBal(upper, H(Plug(lower, Leaf)))
      ensures y.Balance == H(g.r) - H(g.l)
      ensures GrownHeights(g, H(Plug(lower, Leaf))) && (upper.Down? ==> y.Balance != 1 && y.Balance != -1)
    {
      hide *;
      ghost var d0, o, rest := GrowReady(root, upper, y, lower, n, ns);
      ghost var b := y.Balance;
      assert allocated(CtxNodes(upper)) && allocated(OtherNodes(lower));
      CountNew(y, n, da, lower, ns);
      LinksOfPath(y, lower, n);
      assert forall j :: 0 <= j < |Path(rest)| ==> Path(rest)[j] == ns[j + 1];
      GrownTree(lower, y, d0, o, rest, n, b);
      g := Plug(lower, Br(Leaf, n, Leaf));
    }

    /** The last part of avl_probe: at most one rotation, at `y`, and its
        result linked where `y` was. */
    method Rebalance(y: Node, z: Node?, ghost g: Tree, ghost upper: Ctx, ghost h: nat)
      returns (turned: bool, ghost t: Tree)
      requires Loose(g) && g.n == y && y.Balance == H(g.r) - H(g.l) && GrownHeights(g, h)
      requires CtxLinks(Root, upper, y) && CtxBal(upper, h) && z == Last(upper)
      requires upper.Down? ==> y.Balance != 1 && y.Balance != -1
      requires CtxDistinct(upper) && CtxNodes(upper) !! Nodes(g)
      modifies `Root, Nodes(g)`Link0, Nodes(g)`Link1, Nodes(g)`Balance, CtxNodes(upper)`Link0, CtxNodes(upper)`Link1
      ensures if turned then t in Rotations(g) else t == g
      ensures Rep(Plug(upper, t)) && Root == RootOf(Plug(upper, t))
    {
      assert allocated(CtxNodes(upper)) && allocated(Nodes(g));
      assert y in Nodes(g) && (z == null || z !in Nodes(g));
      hide *;
      if -1 <= y.Balance <= 1 {
        turned, t := false, g;
        Unturned(Root, upper, g, h);
        return;
      }
      var w;
      w, t := RotateGrown(y, g, h);
      turned := true;
      assert CtxLinks(Root, upper, y) && CtxBal(upper, h) && y !in CtxNodes(upper);
      Relink(y, z, w, upper, h);
      assert Rep(t);
      PlugRepBack(Root, upper, t);
    }

    static method RotateGrown(y: Node, ghost g: Tree, ghost h: nat) returns (w: Node, ghost t: Tree)
      requires Loose(g) && g.n == y && y.Balance == H(g.r) - H(g.l) && GrownHeights(g, h)
      requires y.Balance == -2 || y.Balance == 2
      modifies Nodes(g)`Link0, Nodes(g)`Link1, Nodes(g)`Balance
      ensures t in Rotations(g) && Rep(t) && RootOf(t) == w && H(t) == h && Nodes(t) == Nodes(g)
    {
      hide Rep, Distinct, Nodes, H;
      if y.Balance == -2 {
        w, t := RotateGrownRight(y, g);
      } else {
        w, t := RotateGrownLeft(y, g);
      }
      RotatedSame(g, t);
    }

    /** Puts `w` in place of `y` below `z`, on the side where `y` was. */
    method Relink(y: Node, z: Node?, w: Node, ghost c: Ctx, ghost h: nat)
      requires CtxLinks(Root, c, y) && CtxBal(c, h) && CtxDistinct(c) && y !in CtxNodes(c) && z == Last(c)
      modifies `Root, (if z == null then {} else {z})`Link0, (if z == null then {} else {z})`Link1
      ensures CtxLinks(Root, c, w) && CtxBal(c, h)
    {
      var link0 := if z == null then Root else z.Link0;
      assert c.Down? ==> y !in Nodes(c.other);
      LinkAt(z, y != link0, w, c, y, h);
    }

    /** Walks from `y` to the new node and counts it in every balance met. */
    static method CountNew(y: Node, n: Node, da: array<bool>, ghost c: Ctx, ghost ns: seq<Node>)
      requires CtxDistinct(c) && ns == Path(c) && n !in ns && CtxLinks(y, c, n)
      requires Depth(c) <= da.Length && da[..Depth(c)] == Dirs(c)
      modifies (set x | x in ns)`Balance
      ensures |ns| == |Dirs(c)| == |Siblings(c)| == Depth(c)
      ensures forall j :: 0 <= j < |ns| ==> Level(c, n, j)
      ensures forall j :: 0 <= j < |ns| ==> ns[j].Balance == old(ns[j].Balance) + Delta(Dirs(c)[j])
    {
      PathLengths(c);
      PathDistinct(c);
      PathLinks(y, c, n);
      ghost var ds := Dirs(c);
      var p, k := y, 0;
      while p != n
        invariant k <= |ns| && p == if k < |ns| then ns[k] else n
        invariant forall j :: 0 <= j < k ==> ns[j].Balance == old(ns[j].Balance) + Delta(ds[j])
        invariant forall j :: k <= j < |ns| ==> ns[j].Balance == old(ns[j].Balance)
        decreases |ns| - k
      {
        assert da[k] == da[..Depth(c)][k];
        assert Level(c, n, k);
        assert ns[k].Link(ds[k]) == if k + 1 < |ns| then ns[k + 1] else n;
        k := k + 1;
        if !da[k - 1] {
          p.Balance := p.Balance - 1;
          p := p.Link0;
        } else {
          p.Balance := p.Balance + 1;
          p := p.Link1;
        }
      }
      forall j | 0 <= j < |ns| ensures Level(c, n, j) {
        assert old(Level(c, n, j));
        assert ns[j].Link0 == old(ns[j].Link0) && ns[j].Link1 == old(ns[j].Link1);
      }
    }

    // ----- link moves of the rotations -----

    static method TurnRight(y: Node, ghost g: Tree) returns (x: Node)
      requires Loose(g) && g.n == y && g.l.Br?
      modifies {y, g.l.n}`Link0, {y, g.l.n}`Link1
      ensures x == g.l.n && Singled(RotR(g), RotR(g).r, RotR(g).l)
    {
      hide Rep, Distinct, Nodes;
      Parts2(g, g.l, g.r);
      x := y.Link0;
      y.Link0 := x.Link1;
      x.Link1 := y;
    }

    static method TurnLeft(y: Node, ghost g: Tree) returns (x: Node)
      requires Loose(g) && g.n == y && g.r.Br?
      modifies {y, g.r.n}`Link0, {y, g.r.n}`Link1
      ensures x == g.r.n && Singled(RotL(g), RotL(g).l, RotL(g).r)
    {
      hide Rep, Distinct, Nodes;
      Parts2(g, g.r, g.l);
      x := y.Link1;
      y.Link1 := x.Link0;
      x.Link0 := y;
    }

    static method TurnRightTwice(y: Node, ghost g: Tree) returns (x: Node, w: Node)
      requires Loose(g) && g.n == y && g.l.Br? && g.l.r.Br?
      modifies {y, g.l.n, g.l.r.n}`Link0, {y, g.l.n, g.l.r.n}`Link1
      ensures x == g.l.n && w == g.l.r.n && Doubled(RotLR(g))
    {
      hide Rep, Distinct, Nodes;
      Parts2(g, g.l, g.r);
      Parts3(g, g.l, g.r, g.l.r, g.l.l);
      x := y.Link0;
      w := x.Link1;
      x.Link1 := w.Link0;
      w.Link0 := x;
      y.Link0 := w.Link1;
      w.Link1 := y;
    }

    static method TurnLeftTwice(y: Node, ghost g: Tree) returns (x: Node, w: Node)
      requires Loose(g) && g.n == y && g.r.Br? && g.r.l.Br?
      modifies {y, g.r.n, g.r.l.n}`Link0, {y, g.r.n, g.r.l.n}`Link1
      ensures x == g.r.n && w == g.r.l.n && Doubled(RotRL(g))
    {
      hide Rep, Distinct, Nodes;
      Parts2(g, g.r, g.l);
      Parts3(g, g.r, g.l, g.r.l, g.r.r);
      x := y.Link1;
      w := x.Link0;
      x.Link0 := w.Link1;
      w.Link1 := x;
      y.Link1 := w.Link0;
      w.Link0 := y;
    }

    /** Balances of both roots after a single rotation. */
    static method SetBalances(x: Node, bx: int, y: Node, b: int, ghost t: Tree, ghost low: Tree, ghost o: Tree)
      requires Singled(t, low, o) && x == t.n && y == low.n
      requires b == H(low.r) - H(low.l) && bx == H(t.r) - H(t.l) && -1 <= bx <= 1 && -1 <= b <= 1
      modifies {x, y}`Balance
      ensures Rep(t)
    {
      x.Balance := bx;
      y.Balance := b;
    }

    // ----- rotations of avl_probe -----

    /** Balances of the two lower nodes after a double rotation. */
    static method LookUpBalances(x: Node, y: Node, w: Node, i: nat, ghost t: Tree)
      requires Doubled(t) && DoubledHeights(t) && w == t.n
      requires (x == t.l.n && y == t.r.n && i == 1) || (x == t.r.n && y == t.l.n && i == 4)
      modifies {x, y, w}`Balance
      ensures Rep(t) && H(t) == H(t.l.l) + 2
    {
      hide Rep, Nodes;
      x.Balance := BALANCES[w.Balance + i].0;
      y.Balance := BALANCES[w.Balance + i].1;
      w.Balance := 0;
      RepBr3(t);
    }

    static method RotateGrownRight(y: Node, ghost g: Tree) returns (w: Node, ghost t: Tree)
      requires Loose(g) && g.n == y && y.Balance == -2 == H(g.r) - H(g.l)
      requires H(g.l.l) != H(g.l.r)
      modifies Nodes(g)`Link0, Nodes(g)`Link1, Nodes(g)`Balance
      ensures t in Rotations(g) && Rep(t) && RootOf(t) == w && H(t) == H(g.l)
    {
      Parts2(g, g.l, g.r);
      var x := y.Link0;
      if x.Balance == -1 {
        t := RotR(g);
        hide Rep, Distinct;
        w := TurnRight(y, g);
        SetBalances(w, 0, y, 0, t, t.r, t.l);
      } else {
        w, t := RotateTwiceGrownRight(y, g);
      }
    }

    static method RotateTwiceGrownRight(y: Node, ghost g: Tree) returns (w: Node, ghost t: Tree)
      requires Loose(g) && g.n == y && H(g.r) - H(g.l) == -2 && g.l.Br? && g.l.n.Balance == 1
      modifies Nodes(g)`Link0, Nodes(g)`Link1, Nodes(g)`Balance
      ensures t in Rotations(g) && Rep(t) && RootOf(t) == w && H(t) == H(g.l)
    {
      Parts2(g, g.l, g.r);
      Parts3(g, g.l, g.r, g.l.r, g.l.l);
      hide Rep, Distinct;
      t := RotLR(g);
      var x;
      x, w := TurnRightTwice(y, g);
      LookUpBalances(x, y, w, 1, t);
    }

    static method RotateGrownLeft(y: Node, ghost g: Tree) returns (w: Node, ghost t: Tree)
      requires Loose(g) && g.n == y && y.Balance == 2 == H(g.r) - H(g.l)
      requires H(g.r.l) != H(g.r.r)
      modifies Nodes(g)`Link0, Nodes(g)`Link1, Nodes(g)`Balance
      ensures t in Rotations(g) && Rep(t) && RootOf(t) == w && H(t) == H(g.r)
    {
      Parts2(g, g.r, g.l);
      var x := y.Link1;
      if x.Balance == 1 {
        t := RotL(g);
        hide Rep, Distinct;
        w := TurnLeft(y, g);
        SetBalances(w, 0, y, 0, t, t.l, t.r);
      } else {
        w, t := RotateTwiceGrownLeft(y, g);
      }
    }

    static method RotateTwiceGrownLeft(y: Node, ghost g: Tree) returns (w: Node, ghost t: Tree)
      requires Loose(g) && g.n == y && H(g.r) - H(g.l) == 2 && g.r.Br? && g.r.n.Balance == -1
      modifies Nodes(g)`Link0, Nodes(g)`Link1, Nodes(g)`Balance
      ensures t in Rotations(g) && Rep(t) && RootOf(t) == w && H(t) == H(g.r)
    {
      Parts2(g, g.r, g.l);
      Parts3(g, g.r, g.l, g.r.l, g.r.r);
      hide Rep, Distinct;
      t := RotRL(g);
      var x;
      x, w := TurnLeftTwice(y, g);
      LookUpBalances(x, y, w, 4, t);
    }

    // ----- avl_delete -----

    /** The search of avl_delete, which stacks nodes and directions; the table
        header is the null at the bottom of the stack. */
    method Locate(x: Item, pa: array<Node?>, da: array<bool>) returns (k: nat, p: Node?, ghost c: Ctx, ghost t: Tree)
      requires Valid() && Count < MAX_COUNT && pa.Length == da.Length == AVL_MAX_HEIGHT
      modifies pa, da
      ensures Plug(c, t) == T && RootOf(t) == p
      ensures if p == null then !Has(Compare, Seq(T), x) else Cmp(Compare, x, p.At()) == 0
      ensures p != null ==>
                && k == Depth(c) + 1 <= AVL_MAX_HEIGHT && pa[..k] == PathN(c) && da[..k] == DirsN(c)
                && Depth(c) + H(t) <= 31
    {
      assert AVL_MAX_HEIGHT == 32;
      hide *;
      assert allocated(Nodes(T));
      NotNodes(T, da);
      assert forall n | n in Nodes(T) :: n as object != pa;
      k, p, c, t := 0, null, Top, T;
      LocateStart(x);
      var cmp := -1;
      while cmp != 0
        invariant Valid() && Plug(c, t) == T && Between(Compare, c, x) && Depth(c) + H(t) <= 31
        invariant p == null ==> k == 0 && cmp == -1 && c == Top && t == T
        invariant p != null ==> t.Br? && t.n == p && cmp == Cmp(Compare, x, p.At())
        invariant p != null ==> k == Depth(c) + 1 <= AVL_MAX_HEIGHT && pa[..k] == PathN(c) && da[..k] == DirsN(c)
        decreases p == null, t
      {
        var dir := cmp > 0;
        k := Push(pa, da, k, p, dir);
        if p == null {
          p := Root;
        } else {
          ghost var q := p;
          p := p.Link(dir);
          c, t := LocateStep(x, c, t, dir);
        }
        if p == null {
          LocateMiss(x, c, t);
          return;
        }
        IsRoot(t, p);
        cmp := Cmp(Compare, x, p.At());
      }
    }

    static method Push(pa: array<Node?>, da: array<bool>, k: nat, p: Node?, dir: bool) returns (k': nat)
      requires k < pa.Length && k < da.Length
      modifies pa, da
      ensures k' == k + 1 && pa[..k'] == old(pa[..k]) + [p] && da[..k'] == old(da[..k]) + [dir]
    {
      pa[k] := p;
      da[k] := dir;
      k' := k + 1;
    }

    lemma {:induction false} LocateStep(x: Item, c: Ctx, t: Tree, d: bool) returns (c': Ctx, t': Tree)
      requires Valid() && Plug(c, t) == T && Between(Compare, c, x) && t.Br? && Depth(c) + H(t) <= 31
      requires Cmp(Compare, x, t.n.At()) != 0 && d == (Cmp(Compare, x, t.n.At()) > 0)
      ensures Plug(c', t') == T && Between(Compare, c', x) && Depth(c') + H(t') <= 31 && t'< t
      ensures RootOf(t') == t.n.Link(d)
      ensures Depth(c') == Depth(c) + 1 && PathN(c') == PathN(c) + [t.n] && DirsN(c') == DirsN(c) + [d]
    {
      PlugRep(c, t);
      if d {
        GoRight(Compare, c, t.l, t.n, t.r, x);
        c', t' := Down(c, t.n, true, t.l), t.r;
      } else {
        GoLeft(Compare, c, t.l, t.n, t.r, x);
        c', t' := Down(c, t.n, false, t.r), t.l;
      }
    }

    lemma {:induction false} LocateMiss(x: Item, c: Ctx, t: Tree)
      requires Plug(c, t) == T && Between(Compare, c, x) && RootOf(t) == null
      ensures !Has(Compare, Seq(T), x)
    {
      Miss(Compare, c, x);
    }

    lemma {:induction false} LocateStart(x: Item)
      requires Valid() && Count < MAX_COUNT
      ensures Root == RootOf(T) && Plug(Top, T) == T && Between(Compare, Top, x) && Depth(Top) == 0 && H(T) <= 31
      ensures PathN(Top) == [null] && DirsN(Top) == [false]
    {
      HeightBound(T);
    }

    // ----- rotations of avl_delete -----

    static method SplitBalancesLeft(x: Node, y: Node, w: Node, ghost t: Tree)
      requires Doubled(t) && DoubledHeights(t) && w == t.n && x == t.r.n && y == t.l.n
      modifies {x, y, w}`Balance
      ensures Rep(t) && H(t) == H(t.l.l) + 2
    {
      hide Rep, Nodes;
      if w.Balance == 1 {
        x.Balance, y.Balance := 0, -1;
      } else if w.Balance == 0 {
        x.Balance, y.Balance := 0, 0;
      } else {
        x.Balance, y.Balance := 1, 0;
      }
      w.Balance := 0;
      RepBr3(t);
    }

    static method SplitBalancesRight(x: Node, y: Node, w: Node, ghost t: Tree)
      requires Doubled(t) && DoubledHeights(t) && w == t.n && x == t.l.n && y == t.r.n
      modifies {x, y, w}`Balance
      ensures Rep(t) && H(t) == H(t.l.l) + 2
    {
      hide Rep, Nodes;
      if w.Balance == -1 {
        x.Balance, y.Balance := 0, 1;
      } else if w.Balance == 0 {
        x.Balance, y.Balance := 0, 0;
      } else {
        x.Balance, y.Balance := -1, 0;
      }
      w.Balance := 0;
      RepBr3(t);
    }

    /** The rotation of avl_delete when the left side has shrunk. */
    static method RotateShrunkLeft(y: Node, ghost g: Tree) returns (w: Node, stop: bool, ghost t: Tree)
      requires Loose(g) && g.n == y && y.Balance == 2 == H(g.r) - H(g.l)
      modifies Nodes(g)`Link0, Nodes(g)`Link1, Nodes(g)`Balance
      ensures t in Rotations(g) && Rep(t) && RootOf(t) == w && H(g) == H(t) + if stop then 0 else 1
    {
      Parts2(g, g.r, g.l);
      var x := y.Link1;
      if x.Balance == -1 {
        w, t := RotateTwiceShrunkLeft(y, g);
        stop := false;
      } else {
        hide Rep, Distinct;
        t := RotL(g);
        w := TurnLeft(y, g);
        if x.Balance == 0 {
          SetBalances(x, -1, y, 1, t, t.l, t.r);
          stop := true;
        } else {
          SetBalances(x, 0, y, 0, t, t.l, t.r);
          stop := false;
        }
      }
    }

    static method RotateTwiceShrunkLeft(y: Node, ghost g: Tree) returns (w: Node, ghost t: Tree)
      requires Loose(g) && g.n == y && H(g.r) - H(g.l) == 2 && g.r.Br? && g.r.n.Balance == -1
      modifies Nodes(g)`Link0, Nodes(g)`Link1, Nodes(g)`Balance
      ensures t in Rotations(g) && Rep(t) && RootOf(t) == w && H(g) == H(t) + 1
    {
      Parts2(g, g.r, g.l);
      Parts3(g, g.r, g.l, g.r.l, g.r.r);
      hide Rep, Distinct;
      t := RotRL(g);
      var x;
      x, w := TurnLeftTwice(y, g);
      SplitBalancesLeft(x, y, w, t);
    }

    /** The rotation of avl_delete when the right side has shrunk. */
    static method RotateShrunkRight(y: Node, ghost g: Tree) returns (w: Node, stop: bool, ghost t: Tree)
      requires Loose(g) && g.n == y && y.Balance == -2 == H(g.r) - H(g.l)
      modifies Nodes(g)`Link0, Nodes(g)`Link1, Nodes(g)`Balance
      ensures t in Rotations(g) && Rep(t) && RootOf(t) == w && H(g) == H(t) + if stop then 0 else 1
    {
      Parts2(g, g.l, g.r);
      var x := y.Link0;
      if x.Balance == 1 {
        w, t := RotateTwiceShrunkRight(y, g);
        stop := false;
      } else {
        hide Rep, Distinct;
        t := RotR(g);
        w := TurnRight(y, g);
        if x.Balance == 0 {
          SetBalances(x, 1, y, -1, t, t.r, t.l);
          stop := true;
        } else {
          SetBalances(x, 0, y, 0, t, t.r, t.l);
          stop := false;
        }
      }
    }

    static method RotateTwiceShrunkRight(y: Node, ghost g: Tree) returns (w: Node, ghost t: Tree)
      requires Loose(g) && g.n == y && H(g.r) - H(g.l) == -2 && g.l.Br? && g.l.n.Balance == 1
      modifies Nodes(g)`Link0, Nodes(g)`Link1, Nodes(g)`Balance
      ensures t in Rotations(g) && Rep(t) && RootOf(t) == w && H(g) == H(t) + 1
    {
      Parts2(g, g.l, g.r);
      Parts3(g, g.l, g.r, g.l.r, g.l.l);
      hide Rep, Distinct;
      t := RotLR(g);
      var x;
      x, w := TurnRightTwice(y, g);
      SplitBalancesRight(x, y, w, t);
    }

    // ----- the way back up -----

    /** Puts `w` into the hole at the end of a path. */
    method LinkAt(z: Node?, d: bool, w: Node?, ghost c: Ctx, ghost hole: Node?, ghost h: nat)
      requires CtxLinks(Root, c, hole) && CtxBal(c, h) && CtxDistinct(c) && z == Last(c) && d == DirOf(c)
      modifies `Root, (if z == null then {} else {z})`Link0, (if z == null then {} else {z})`Link1
      ensures CtxLinks(Root, c, w) && CtxBal(c, h)
    {
      if c.Down? {
        assert allocated(CtxNodes(c.up)) && allocated(Nodes(c.other));
      }
      SetLink(z, d, w);
    }

    /** One round of avl_delete's loop: the hole below `y` got lower by one. */
    method Settle(y: Node, d: bool, up: Node?, upd: bool, ghost c: Ctx, ghost t: Tree)
      returns (stop: bool, ghost t': Tree)
      requires c.Down? && y == c.n && d == c.dir && up == Last(c.up) && upd == DirOf(c.up)
      requires CtxLinks(Root, c, RootOf(t)) && CtxBal(c, H(t) + 1) && Rep(t) && Distinct(Plug(c, t))
      modifies `Root, Nodes(Plug(c, t))`Link0, Nodes(Plug(c, t))`Link1, Nodes(Plug(c, t))`Balance
      ensures CtxLinks(Root, c.up, RootOf(t')) && CtxBal(c.up, H(t') + if stop then 0 else 1) && Rep(t')
      ensures var g := Join(y, d, t, c.other); t' == g || t' in Rotations(g)
    {
      hide *;
      ghost var g := SettleReady(Root, c, t);
      assert allocated(CtxNodes(c.up)) && allocated(Nodes(g)) && allocated(Nodes(t)) && allocated(Nodes(c.other));
      Tip(y, if d then -1 else 1, g);
      if !d {
        if y.Balance == 1 {
          stop, t' := true, g;
          LooseRep(g);
        } else if y.Balance == 2 {
          var w;
          w, stop, t' := RotateShrunkLeft(y, g);
          RotatedSame(g, t');
          LinkAt(up, upd, w, c.up, y, H(g));
        } else {
          stop, t' := false, g;
          LooseRep(g);
        }
      } else {
        if y.Balance == -1 {
          stop, t' := true, g;
          LooseRep(g);
        } else if y.Balance == -2 {
          var w;
          w, stop, t' := RotateShrunkRight(y, g);
          RotatedSame(g, t');
          LinkAt(up, upd, w, c.up, y, H(g));
        } else {
          stop, t' := false, g;
          LooseRep(g);
        }
      }
    }

    static method Tip(y: Node, delta: int, ghost g: Tree)
      requires Loose(g) && g.n == y
      modifies y`Balance
      ensures Loose(g) && y.Balance == old(y.Balance) + delta
    {
      assert allocated(Nodes(g.l)) && allocated(Nodes(g.r));
      y.Balance := y.Balance + delta;
    }

    /** avl_delete's loop back to the root. */
    method Retrace(pa: array<Node?>, da: array<bool>, k0: nat, ghost c0: Ctx, ghost t0: Tree) returns (ghost t: Tree)
      requires k0 == Depth(c0) + 1 <= pa.Length == da.Length && pa[..k0] == PathN(c0) && da[..k0] == DirsN(c0)
      requires CtxLinks(Root, c0, RootOf(t0)) && CtxBal(c0, H(t0) + 1) && Rep(t0) && Distinct(Plug(c0, t0))
      modifies `Root, Nodes(Plug(c0, t0))`Link0, Nodes(Plug(c0, t0))`Link1, Nodes(Plug(c0, t0))`Balance
      ensures Rep(t) && RootOf(t) == Root && Distinct(t)
      ensures Seq(t) == Seq(Plug(c0, t0)) && Nodes(t) == Nodes(Plug(c0, t0))
    {
      hide *;
      var k := k0 - 1;
      ghost var c := c0;
      t := t0;
      while k > 0
        invariant k == Depth(c) < pa.Length && pa[..k + 1] == PathN(c) && da[..k + 1] == DirsN(c)
        invariant CtxLinks(Root, c, RootOf(t)) && CtxBal(c, H(t) + 1) && Rep(t) && Distinct(Plug(c, t))
        invariant Seq(Plug(c, t)) == Seq(Plug(c0, t0)) && Nodes(Plug(c, t)) == Nodes(Plug(c0, t0))
        decreases k
      {
        StackTop(c);
        var y := pa[k];
        assert y == pa[..k + 1][k] && pa[k - 1] == pa[..k + 1][k - 1] && da[k] == da[..k + 1][k]
            && da[k - 1] == da[..k + 1][k - 1];
        ghost var g := Join(y, da[k], t, c.other);
        var stop;
        stop, t := Settle(y, da[k], pa[k - 1], da[k - 1], c, t);
        if t != g {
          PlugRotated(c.up, g, t);
        }
        c := c.up;
        if stop {
          PlugRepBack(Root, c, t);
          t := Plug(c, t);
          return;
        }
        k := k - 1;
        assert pa[..k + 1] == pa[..k + 2][..k + 1] && da[..k + 1] == da[..k + 2][..k + 1];
      }
      DepthTop(c, H(t));
      PlugRepBack(Root, c, t);
      t := Plug(c, t);
    }

    // ----- taking a node out -----

    /** avl_delete */
    method Delete(key: Obj, hash: nat) returns (data: Option<Obj>)
      requires Valid() && Count < MAX_COUNT
      modifies this, Nodes(T)`Link0, Nodes(T)`Link1, Nodes(T)`Balance
      ensures Valid() && Kept(old(T), old(Generation), T, Generation)
      ensures !Has(Compare, old(Seq(T)), Item(hash, key)) ==>
                data == None && T == old(T) && Count == old(Count) && Generation == old(Generation)
      ensures Has(Compare, old(Seq(T)), Item(hash, key)) ==>
                var s, i := old(Seq(T)), Rank(Compare, old(Seq(T)), Item(hash, key));
                && data == Some(s[i].Value) && Seq(T) == Removed(s, i)
                && Count == old(Count) - 1 && Generation == old(Generation) + 1
    {
      var x := Item(hash, key);
      var pa, da := new Node?[AVL_MAX_HEIGHT](_ => null), new bool[AVL_MAX_HEIGHT];
      hide *;
      ghost var T0 := T;
      assert allocated(Nodes(T));
      var k, p;
      ghost var c, t;
      k, p, c, t := Locate(x, pa, da);
      ghost var g0 := Generation;
      if p == null {
        data := None;
        KeptSame(T, Generation);
        return;
      }
      LocatedNow(x, c, t, p);
      data := Some(p.Value);
      TakeAway(x, pa, da, k, p, c, t);
      KeptNewer(T0, g0, T, Generation);
    }

    /** avl_delete once the node is found. */
    method TakeAway(x: Item, pa: array<Node?>, da: array<bool>, k0: nat, p: Node, ghost c0: Ctx, ghost t0: Tree)
      requires Valid() && Plug(c0, t0) == T && Located(Root, c0, t0) && t0.n == p
      requires Has(Compare, Seq(T), x)
               && Removed(Seq(T), Rank(Compare, Seq(T), x)) == Pre(c0) + Seq(t0.l) + Seq(t0.r) + Post(c0)
      requires pa.Length == da.Length == AVL_MAX_HEIGHT && k0 == Depth(c0) + 1 && pa[..k0] == PathN(c0)
               && da[..k0] == DirsN(c0)
      modifies this, pa, da, Nodes(T)`Link0, Nodes(T)`Link1, Nodes(T)`Balance
      ensures Valid() && Seq(T) == Removed(old(Seq(T)), Rank(Compare, old(Seq(T)), x))
      ensures Count == old(Count) - 1 && Generation == old(Generation) + 1
    {
      hide *;
      RemovedOrder(x);
      ValidParts();
      assert allocated(Nodes(T));
      ghost var t := TakeOff(pa, da, k0, p, c0, t0);
      Drop(t);
    }

    /** Takes `p` out of the links and restores the balances above. */
    method TakeOff(pa: array<Node?>, da: array<bool>, k0: nat, p: Node, ghost c0: Ctx, ghost t0: Tree)
      returns (ghost t: Tree)
      requires Located(Root, c0, t0) && t0.n == p && pa.Length == da.Length == AVL_MAX_HEIGHT
      requires k0 == Depth(c0) + 1 && pa[..k0] == PathN(c0) && da[..k0] == DirsN(c0)
      modifies pa, da, `Root, Nodes(Plug(c0, t0))`Link0, Nodes(Plug(c0, t0))`Link1, Nodes(Plug(c0, t0))`Balance
      ensures Rep(t) && RootOf(t) == Root && Distinct(t)
      ensures Seq(t) == Pre(c0) + Seq(t0.l) + Seq(t0.r) + Post(c0)
    {
      hide *;
      assert allocated(Nodes(Plug(c0, t0)));
      ghost var c, t1;
      var k;
      k, c, t1 := Splice(pa, da, k0, p, c0, t0);
      UseTakenOut(c0, t0, Plug(c, t1));
      UseUnsettled(Root, c, t1);
      t := Retrace(pa, da, k, c, t1);
    }

    method Drop(ghost t: Tree)
      requires Distinct(t) && Rep(t) && Root == RootOf(t) && Sorted(Compare, Seq(t)) && Count == |Seq(t)| + 1
      modifies `T, `Count, `Generation
      ensures Valid() && T == t && Count == old(Count) - 1 && Generation == old(Generation) + 1
    {
      assert allocated(Nodes(t));
      T, Count, Generation := t, Count - 1, Generation + 1;
    }

    lemma {:induction false} RemovedOrder(x: Item)
      requires Valid() && Has(Compare, Seq(T), x)
      ensures var s := Removed(Seq(T), Rank(Compare, Seq(T), x)); Sorted(Compare, s) && |s| == |Seq(T)| - 1
    {
      SortedRemoved(Compare, Seq(T), Rank(Compare, Seq(T), x));
    }

    lemma {:induction false} LocatedNow(x: Item, c: Ctx, t: Tree, p: Node)
      requires Valid() && Plug(c, t) == T && RootOf(t) == p && Cmp(Compare, x, p.At()) == 0 && Depth(c) + H(t) <= 31
      ensures Located(Root, c, t) && t.n == p
      ensures Has(Compare, Seq(T), x)
      ensures var i := Rank(Compare, Seq(T), x);
              i < |Seq(T)| && Seq(T)[i] == p && Removed(Seq(T), i) == Pre(c) + Seq(t.l) + Seq(t.r) + Post(c)
    {
      PlugRep(c, t);
      Hit(Compare, c, t.l, p, t.r, x);
    }

    /** Records the nodes on the left spine of the subtree at `r0`, above slot
        `j`; `s` is its least node and `r` the parent of `s`. */
    static method StackLeft(pa: array<Node?>, da: array<bool>, j: nat, r0: Node, ghost t0: Tree)
      returns (k: nat, r: Node, s: Node, ghost c: Ctx, ghost t: Tree)
      requires Rep(t0) && t0.Br? && t0.n == r0 && t0.l.Br? && j + 1 + H(t0) <= pa.Length == da.Length
      modifies pa, da
      ensures Plug(c, t) == t0 && c.Down? && c.n == r && !c.dir && t.Br? && t.n == s && t.l == Leaf && Pre(c) == []
      ensures j + 1 < k == j + 1 + Depth(c) <= pa.Length && pa[j + 1..k] == Path(c) && da[j + 1..k] == Dirs(c)
      ensures pa[..j] == old(pa[..j]) && da[..j] == old(da[..j])
    {
      hide *;
      assert allocated(Nodes(t0));
      r, k, c, t := r0, j + 1, Top, t0;
      SpineStart(t0);
      while true
        invariant Rep(t0) && Plug(c, t) == t0 && t.Br? && t.n == r && t.l.Br? && Pre(c) == []
        invariant k == j + 1 + Depth(c) && Depth(c) + H(t) <= H(t0)
        invariant pa[j + 1..k] == Path(c) && da[j + 1..k] == Dirs(c)
        invariant pa[..j] == old(pa[..j]) && da[..j] == old(da[..j])
        decreases t
      {
        c, t := SpineStep(c, t);
        k := PushAbove(pa, da, j, k, r);
        s := r.Link0;
        if s.Link0 == null {
          break;
        }
        r := s;
      }
    }

    method StackRight(pa: array<Node?>, da: array<bool>, j: nat, r0: Node, ghost c0: Ctx, ghost t0: Tree)
      returns (k: nat, r: Node, s: Node, ghost c: Ctx, ghost t: Tree)
      requires Located(Root, c0, t0) && RootOf(t0.r) == r0 && r0.Link0 != null
               && pa.Length == da.Length == AVL_MAX_HEIGHT
      requires j == Depth(c0) + 1
      modifies pa, da
      ensures Located(Root, c0, t0)
      ensures Plug(c, t) == t0.r && c.Down? && c.n == r && !c.dir && t.Br? && t.n == s && t.l == Leaf && Pre(c) == []
      ensures j + 1 < k == j + 1 + Depth(c) <= pa.Length && pa[j + 1..k] == Path(c) && da[j + 1..k] == Dirs(c)
      ensures pa[..j] == old(pa[..j]) && da[..j] == old(da[..j])
    {
      assert AVL_MAX_HEIGHT == 32;
      hide *;
      SpliceParts(Root, c0, t0);
      DeepStart(t0);
      assert allocated(CtxNodes(c0)) && allocated(Nodes(t0));
      k, r, s, c, t := StackLeft(pa, da, j, r0, t0.r);
    }

    static method PushAbove(pa: array<Node?>, da: array<bool>, j: nat, k: nat, r: Node) returns (k': nat)
      requires j < k < pa.Length == da.Length
      modifies pa, da
      ensures k' == k + 1 && pa[..j] == old(pa[..j]) && da[..j] == old(da[..j])
      ensures pa[j + 1..k'] == old(pa[j + 1..k]) + [r] && da[j + 1..k'] == old(da[j + 1..k]) + [false]
    {
      da[k] := false;
      pa[k] := r;
      k' := k + 1;
    }

    /** The least node `s` of the right subtree moves to the place of `p`. */
    method SpliceDeep(pa: array<Node?>, da: array<bool>, j: nat, p: Node, r0: Node, up: Node?, d: bool,
        ghost c: Ctx, ghost t: Tree)
      returns (k: nat, ghost c': Ctx, ghost t': Tree)
      requires Located(Root, c, t) && t.n == p && RootOf(t.r) == r0 && r0.Link0 != null
               && pa.Length == da.Length == AVL_MAX_HEIGHT
      requires j == Depth(c) + 1 && pa[..j] == PathN(c) && da[..j] == DirsN(c) && up == Last(c) && d == DirOf(c)
      modifies pa, da, `Root, Nodes(Plug(c, t))`Link0, Nodes(Plug(c, t))`Link1, Nodes(Plug(c, t))`Balance
      ensures k == Depth(c') + 1 <= AVL_MAX_HEIGHT && pa[..k] == PathN(c') && da[..k] == DirsN(c')
      ensures Unsettled(Root, c', t') && TakenOut(c, t, Plug(c', t'))
    {
      assert AVL_MAX_HEIGHT == 32;
      hide *;
      var r, s;
      ghost var c3, ts;
      k, r, s, c3, ts := StackRight(pa, da, j, r0, c, t);
      c', t' := MoveUp(p, r, s, up, d, c, t, c3, ts);
      assert allocated(CtxNodes(c')) && allocated(Nodes(t'));
      SetSlot(pa, da, j, s, k, PathN(c), Path(c3), DirsN(c), Dirs(c3));
    }

    static method SetSlot(pa: array<Node?>, da: array<bool>, j: nat, s: Node, k: nat,
                          ghost a: seq<Node?>, ghost b: seq<Node>, ghost a': seq<bool>, ghost b': seq<bool>)
      requires j < k <= pa.Length == da.Length
      requires pa[..j] == a && pa[j + 1..k] == b && da[..j] == a' && da[j + 1..k] == b'
      modifies pa, da
      ensures pa[..k] == a + [s] + b && da[..k] == a' + [true] + b'
    {
      da[j] := true;
      pa[j] := s;
    }

    /** The link moves of that case. */
    method MoveUp(p: Node, r: Node, s: Node, up: Node?, d: bool, ghost c: Ctx, ghost t: Tree, ghost c3: Ctx,
        ghost ts: Tree)
      returns (ghost c': Ctx, ghost t': Tree)
      requires Located(Root, c, t) && t.n == p && up == Last(c) && d == DirOf(c)
      requires Plug(c3, ts) == t.r && c3.Down? && c3.n == r && !c3.dir && ts.Br? && ts.n == s && ts.l == Leaf
               && Pre(c3) == []
      modifies `Root, Nodes(Plug(c, t))`Link0, Nodes(Plug(c, t))`Link1, Nodes(Plug(c, t))`Balance
      ensures Unsettled(Root, c', t') && TakenOut(c, t, Plug(c', t')) && Depth(c') == Depth(c) + 1 + Depth(c3)
      ensures PathN(c') == PathN(c) + [s] + Path(c3) && DirsN(c') == DirsN(c) + [true] + Dirs(c3)
    {
      hide *;
      SpliceParts(Root, c, t);
      DeepParts(t, c3, ts);
      DeepApart(t, c3, ts);
      ghost var h := 1 + Max(H(ts), H(c3.other));
      assert allocated(CtxNodes(c)) && allocated(CtxNodes(c3.up)) && allocated(Nodes(t.l))
          && allocated(Nodes(ts.r)) && allocated(Nodes(c3.other));
      s.Link0 := p.Link0;
      r.Link0 := s.Link1;
      s.Link1 := p.Link1;
      s.Balance := p.Balance;
      LinkAt(up, d, s, c, p, H(t));
      MovedUp(Root, c, t, c3, ts);
      c', t' := DeepUp(c, t, c3, ts);
    }

    /** The right child `r` of `p`, which has no left child, takes its place. */
    method SpliceNext(p: Node, r: Node, up: Node?, d: bool, ghost c: Ctx, ghost t: Tree)
      returns (ghost c': Ctx, ghost t': Tree)
      requires Located(Root, c, t) && t.n == p && RootOf(t.r) == r && r.Link0 == null && up == Last(c) && d == DirOf(c)
      modifies `Root, Nodes(Plug(c, t))`Link0, Nodes(Plug(c, t))`Link1, Nodes(Plug(c, t))`Balance
      ensures Unsettled(Root, c', t') && TakenOut(c, t, Plug(c', t'))
      ensures Depth(c') == Depth(c) + 1 && PathN(c') == PathN(c) + [r] && DirsN(c') == DirsN(c) + [true]
    {
      hide *;
      SpliceParts(Root, c, t);
      IsRoot(t.r, r);
      NextParts(t);
      assert allocated(CtxNodes(c)) && allocated(Nodes(t.l)) && allocated(Nodes(t.r.r));
      r.Link0 := p.Link0;
      r.Balance := p.Balance;
      LinkAt(up, d, r, c, p, H(t));
      c', t' := NextUp(Root, c, t);
    }

    /** The three ways in which avl_delete takes `p` out of its place. */
    method Splice(pa: array<Node?>, da: array<bool>, k0: nat, p: Node, ghost c: Ctx, ghost t: Tree)
      returns (k: nat, ghost c': Ctx, ghost t': Tree)
      requires Located(Root, c, t) && t.n == p && pa.Length == da.Length == AVL_MAX_HEIGHT
      requires k0 == Depth(c) + 1 && pa[..k0] == PathN(c) && da[..k0] == DirsN(c)
      modifies pa, da, `Root, Nodes(Plug(c, t))`Link0, Nodes(Plug(c, t))`Link1, Nodes(Plug(c, t))`Balance
      ensures k == Depth(c') + 1 <= AVL_MAX_HEIGHT && pa[..k] == PathN(c') && da[..k] == DirsN(c')
      ensures Unsettled(Root, c', t') && TakenOut(c, t, Plug(c', t'))
    {
      assert AVL_MAX_HEIGHT == 32;
      hide *;
      SpliceParts(Root, c, t);
      assert pa[k0 - 1] == pa[..k0][k0 - 1] && da[k0 - 1] == da[..k0][k0 - 1];
      var up, d := pa[k0 - 1], da[k0 - 1];
      if p.Link1 == null {
        k, c', t' := k0, c, t.l;
        SpliceLast(p, up, d, c, t);
      } else if p.Link1.Link0 == null {
        k, c', t' := SpliceHere(pa, da, k0, p, p.Link1, up, d, c, t);
      } else {
        k, c', t' := SpliceDeep(pa, da, k0, p, p.Link1, up, d, c, t);
      }
    }

    /** The left child of `p`, if any, takes its place. */
    method SpliceLast(p: Node, up: Node?, d: bool, ghost c: Ctx, ghost t: Tree)
      requires Located(Root, c, t) && t.n == p && RootOf(t.r) == null && up == Last(c) && d == DirOf(c)
      modifies `Root, Nodes(Plug(c, t))`Link0, Nodes(Plug(c, t))`Link1
      ensures Unsettled(Root, c, t.l) && TakenOut(c, t, Plug(c, t.l))
    {
      hide *;
      SpliceParts(Root, c, t);
      assert allocated(CtxNodes(c)) && allocated(Nodes(t.l));
      LinkAt(up, d, p.Link0, c, p, H(t));
      NoRight(Root, c, t);
    }

    method SpliceHere(pa: array<Node?>, da: array<bool>, k0: nat, p: Node, r: Node, up: Node?, d: bool,
                      ghost c: Ctx, ghost t: Tree)
      returns (k: nat, ghost c': Ctx, ghost t': Tree)
      requires Located(Root, c, t) && t.n == p && RootOf(t.r) == r && r.Link0 == null
      requires pa.Length == da.Length == AVL_MAX_HEIGHT
      requires k0 == Depth(c) + 1 && pa[..k0] == PathN(c) && da[..k0] == DirsN(c) && up == Last(c) && d == DirOf(c)
      modifies pa, da, `Root, Nodes(Plug(c, t))`Link0, Nodes(Plug(c, t))`Link1, Nodes(Plug(c, t))`Balance
      ensures k == Depth(c') + 1 <= AVL_MAX_HEIGHT && pa[..k] == PathN(c') && da[..k] == DirsN(c')
      ensures Unsettled(Root, c', t') && TakenOut(c, t, Plug(c', t'))
    {
      assert AVL_MAX_HEIGHT == 32;
      hide *;
      SpliceParts(Root, c, t);
      c', t' := SpliceNext(p, r, up, d, c, t);
      assert allocated(CtxNodes(c')) && allocated(Nodes(t'));
      k := Push(pa, da, k0, r, true);
    }
  }

  /** Two roots, `low` below that of `t`, over well-formed trees; their balances
      may be off. */
  ghost predicate Singled(t: Tree, low: Tree, o: Tree)
    reads Nodes(t)
  {
    && t.Br? && low.Br? && ((low == t.l && o == t.r) || (low == t.r && o == t.l))
    && Wired(t) && Wired(low) && Rep(low.l) && Rep(low.r) && Rep(o)
    && t.n != low.n && Outside(t.n, low.l, low.r, o, o) && Outside(low.n, low.l, low.r, o, o)
  }

  /** Three roots over four well-formed trees; their balances may be off. */
  ghost predicate Doubled(t: Tree)
    reads Nodes(t)
  {
    && t.Br? && t.l.Br? && t.r.Br? && Wired(t) && Wired(t.l) && Wired(t.r)
    && Rep(t.l.l) && Rep(t.l.r) && Rep(t.r.l) && Rep(t.r.r)
    && t.n != t.l.n && t.n != t.r.n && t.l.n != t.r.n
    && Outside(t.n, t.l.l, t.l.r, t.r.l, t.r.r)
    && Outside(t.l.n, t.l.l, t.l.r, t.r.l, t.r.r)
    && Outside(t.r.n, t.l.l, t.l.r, t.r.l, t.r.r)
  }

  /** Heights after a double rotation; the new root still has its old balance. */
  ghost predicate DoubledHeights(t: Tree)
    requires t.Br? && t.l.Br? && t.r.Br?
    reads t.n
  {
    && H(t.l.l) == H(t.r.r) == Max(H(t.l.r), H(t.r.l))
    && t.n.Balance == H(t.r.l) - H(t.l.r) && -1 <= t.n.Balance <= 1
  }

  ghost predicate Wired(t: Tree)
    reads Nodes(t)
  {
    t.Br? && t.n.Link0 == RootOf(t.l) && t.n.Link1 == RootOf(t.r)
  }

  /** A node with right links over two well-formed trees; its balance may be off. */
  ghost predicate Loose(g: Tree)
    reads Nodes(g)
  {
    Wired(g) && Distinct(g) && Rep(g.l) && Rep(g.r)
  }

  /** Balances of the lower two nodes after a double rotation. */
  const BALANCES: seq<(int, int)> := [(0, 1), (0, 0), (-1, 0), (1, 0), (0, 0), (0, -1)]

  ghost predicate Outside(n: Node, a: Tree, b: Tree, c: Tree, d: Tree) {
    n !in Nodes(a) && n !in Nodes(b) && n !in Nodes(c) && n !in Nodes(d)
  }

  /** Two nested trees: their roots are not in what hangs below them. */
  lemma {:induction false} Parts2(g: Tree, x: Tree, o: Tree)
    requires Loose(g) && x.Br? && ((x == g.l && o == g.r) || (x == g.r && o == g.l))
    ensures Rep(x.l) && Rep(x.r) && Rep(o)
    ensures x.n.Link0 == RootOf(x.l) && x.n.Link1 == RootOf(x.r) && x.n.Balance == H(x.r) - H(x.l)
            && -1 <= x.n.Balance <= 1
    ensures H(x) == 1 + Max(H(x.l), H(x.r))
    ensures g.n != x.n
    ensures Outside(g.n, x.l, x.r, o, o) && Outside(x.n, x.l, x.r, o, o)
  {
    RepParts(x);
  }

  /** Three nested trees: likewise. */
  lemma {:induction false} Parts3(g: Tree, x: Tree, o: Tree, w: Tree, u: Tree)
    requires Loose(g) && x.Br? && ((x == g.l && o == g.r) || (x == g.r && o == g.l))
    requires w.Br? && ((w == x.l && u == x.r) || (w == x.r && u == x.l))
    ensures Rep(w.l) && Rep(w.r) && Rep(u) && Rep(o)
    ensures w.n.Link0 == RootOf(w.l) && w.n.Link1 == RootOf(w.r) && w.n.Balance == H(w.r) - H(w.l)
            && -1 <= w.n.Balance <= 1
    ensures H(w) == 1 + Max(H(w.l), H(w.r))
    ensures g.n != w.n && x.n != w.n
    ensures Outside(g.n, w.l, w.r, u, o) && Outside(x.n, w.l, w.r, u, o) && Outside(w.n, w.l, w.r, u, o)
  {
    RepParts(x);
    RepParts(w);
  }

  ghost predicate BalancedRoot(t: Tree)
    reads Nodes(t)
  {
    Wired(t) && t.n.Balance == H(t.r) - H(t.l) && -1 <= t.n.Balance <= 1
  }

  lemma {:induction false} RepBr3(t: Tree)
    requires BalancedRoot(t) && BalancedRoot(t.l) && BalancedRoot(t.r)
    requires Rep(t.l.l) && Rep(t.l.r) && Rep(t.r.l) && Rep(t.r.r)
    ensures Rep(t)
  {
  }

  lemma {:induction false} RepParts(t: Tree)
    requires Rep(t) && Distinct(t) && t.Br?
    ensures Rep(t.l) && Rep(t.r) && Distinct(t.l) && Distinct(t.r)
    ensures t.n.Link0 == RootOf(t.l) && t.n.Link1 == RootOf(t.r) && t.n.Balance == H(t.r) - H(t.l)
    ensures -1 <= t.n.Balance <= 1
    ensures t.n !in Nodes(t.l) && t.n !in Nodes(t.r) && Nodes(t.l) !! Nodes(t.r)
  {
  }

  ghost function DirOf(c: Ctx): bool {
    if c.Top? then false else c.dir
  }

  /** With a subtree of height `h` below, only the first node of `lower` may
      be unbalanced, and it is unless it is the root. */
  ghost predicate LastUnbalanced(upper: Ctx, lower: Ctx, h: nat) {
    lower.Down? ==>
      if lower.up.Top? then upper.Down? ==> h != H(lower.other)
      else h == H(lower.other) && LastUnbalanced(upper, lower.up, h + 1)
  }

  /** The state of avl_probe's descent: `x` belongs in the subtree `t`. */
  ghost predicate Descent(f: Order, T: Tree, x: Item, upper: Ctx, lower: Ctx, t: Tree) {
    && Plug(Append(upper, lower), t) == T && Between(f, Append(upper, lower), x)
    && LastUnbalanced(upper, lower, H(t)) && (lower.Top? ==> upper.Top?)
  }

  /** At an unbalanced node the recorded path starts afresh. */
  lemma {:induction false} Restart(f: Order, T: Tree, x: Item, upper: Ctx, lower: Ctx, t: Tree)
    returns (upper': Ctx, lower': Ctx)
    requires Descent(f, T, x, upper, lower, t)
    ensures upper' == Append(upper, lower) && lower' == Top
    ensures Plug(Append(upper', lower'), t) == T && Between(f, Append(upper', lower'), x)
  {
    upper', lower' := Append(upper, lower), Top;
  }

  lemma {:induction false} StepDown(f: Order, T: Tree, x: Item, upper: Ctx, lower: Ctx, t: Tree, d: bool)
    returns (lower': Ctx, t': Tree)
    requires Plug(Append(upper, lower), t) == T && Between(f, Append(upper, lower), x)
    requires LastUnbalanced(upper, lower, H(t)) && Sorted(f, Seq(T))
    requires t.Br? && (if d then Cmp(f, x, t.n.At()) > 0 else Cmp(f, x, t.n.At()) < 0)
    requires if lower.Top? then upper.Down? ==> H(t.l) != H(t.r) else H(t.l) == H(t.r)
    ensures lower' == Down(lower, t.n, d, if d then t.l else t.r) && t' == if d then t.r else t.l
    ensures Descent(f, T, x, upper, lower', t')
  {
    var c := Append(upper, lower);
    if d {
      GoRight(f, c, t.l, t.n, t.r, x);
    } else {
      GoLeft(f, c, t.l, t.n, t.r, x);
    }
    lower', t' := Down(lower, t.n, d, if d then t.l else t.r), if d then t.r else t.l;
  }

  /** What the links and balances of a whole tree say about a path in it. */
  lemma {:induction false} OldParts(T: Tree, upper: Ctx, lower: Ctx)
    requires Rep(T) && Distinct(T) && T == Plug(Append(upper, lower), Leaf)
    ensures CtxLinks(RootOf(T), upper, First(lower, null)) && CtxBal(upper, H(Plug(lower, Leaf)))
    ensures CtxLinks(First(lower, null), lower, null) && CtxBal(lower, 0)
    ensures CtxDistinct(upper) && CtxDistinct(lower) && CtxNodes(upper) !! CtxNodes(lower)
    ensures Nodes(T) == CtxNodes(upper) + CtxNodes(lower)
  {
    PlugRep(Append(upper, lower), Leaf);
    PlugDistinct(Append(upper, lower), Leaf);
    AppendLinks(RootOf(T), upper, lower, null);
    AppendBal(upper, lower, 0);
    AppendDistinct(upper, lower);
    PlugHeight(lower, Leaf);
  }

  /** The new node hangs at the end of the path; balances are still the old ones. */
  ghost predicate HangsFrom(root: Node?, upper: Ctx, y: Node, lower: Ctx, n: Node)
    reads CtxNodes(upper), CtxNodes(lower)
  {
    && CtxLinks(root, upper, y) && CtxBal(upper, H(Plug(lower, Leaf)))
    && CtxLinks(y, lower, n) && CtxBal(lower, 0)
  }

  lemma {:induction false} GrowReady(root: Node?, upper: Ctx, y: Node, lower: Ctx, n: Node, ns: seq<Node>)
    returns (d: bool, o: Tree, rest: Ctx)
    requires HangsFrom(root, upper, y, lower, n) && CtxDistinct(lower)
    requires CtxNodes(upper) !! CtxNodes(lower) && n !in CtxNodes(lower)
    requires LastUnbalanced(upper, lower, 0) && lower.Down? && y == First(lower, null) && ns == Path(lower)
    ensures CtxLinks(root, upper, y) && CtxBal(upper, H(Plug(lower, Leaf))) && CtxLinks(y, lower, n)
    ensures lower == Append(Down(Top, y, d, o), rest) && upper.Down? ==> Ht(rest, 0) != H(o)
    ensures lower == Append(Down(Top, y, d, o), rest) && Flat(rest, 0)
    ensures |Path(lower)| == |Dirs(lower)| == |Siblings(lower)| == Depth(lower) && |Path(rest)| == |Dirs(rest)|
    ensures Dirs(lower) == [d] + Dirs(rest) && Path(lower) == [y] + Path(rest)
    ensures forall x :: x in Path(rest) ==> x.Balance == 0
    ensures y.Balance == BalOf(d, Ht(rest, 0), H(o)) && -1 <= y.Balance <= 1
    ensures OthersRep(lower) && y == (if Path(lower) == [] then n else Path(lower)[0])
    ensures Nodes(Br(Leaf, n, Leaf)) == {n} && n !in ns
    ensures forall x :: x in CtxNodes(upper) ==> x !in ns
    ensures forall x :: x in OtherNodes(lower) ==> x !in ns
  {
    d, o, rest := Front(upper, lower, y);
    PathDistinct(lower);
    PathLinks(y, lower, n);
    PathParts(rest);
  }

  lemma {:induction false} HangsNow(root: Node?, upper: Ctx, y: Node, lower: Ctx, n: Node)
    requires lower.Down? && CtxLinks(y, lower.up, lower.n) && CtxBal(lower.up, 1 + Max(0, H(lower.other)))
             && Rep(lower.other)
    requires lower.n.Link(lower.dir) == n && lower.n.Link(!lower.dir) == RootOf(lower.other)
    requires lower.n.Balance == BalOf(lower.dir, 0, H(lower.other)) && -1 <= lower.n.Balance <= 1
    requires CtxLinks(root, upper, y) && CtxBal(upper, H(Plug(lower, Leaf)))
    ensures HangsFrom(root, upper, y, lower, n)
  {
  }

  /** An unchanged generation means that every node is still there, below the
      same ancestors. */
  ghost predicate Kept(T: Tree, g: nat, T': Tree, g': nat) {
    && g <= g'
    && (g == g' ==> forall m | m in Nodes(T) :: m in Nodes(T') && PathTo(T', m) == PathTo(T, m))
  }

  lemma {:induction false} KeptSame(T: Tree, g: nat)
    ensures Kept(T, g, T, g)
  {
  }

  lemma {:induction false} KeptNewer(T: Tree, g: nat, T': Tree, g': nat)
    requires g < g'
    ensures Kept(T, g, T', g')
  {
  }

  lemma {:induction false} ProbeKeeps(T: Tree, g: nat, upper: Ctx, lower: Ctx, n: Node, T': Tree, g': nat)
    requires g <= g' && Probed(T, upper, lower, n, T', g' > g) && Distinct(T) && Distinct(T')
    ensures Kept(T, g, T', g')
  {
    if g == g' {
      var c, leaf := Append(upper, lower), Br(Leaf, n, Leaf);
      AppendPlug(upper, lower, leaf);
      PlugDistinct(c, Leaf);
      PlugDistinct(c, leaf);
      forall m | m in Nodes(T) ensures m in Nodes(T') && PathTo(T', m) == PathTo(T, m) {
        PathToBeside(c, Leaf, leaf, m);
      }
    }
  }

  /** The new node at the end of the path, and possibly one rotation at the
      last unbalanced node. */
  ghost predicate Probed(T: Tree, upper: Ctx, lower: Ctx, n: Node, T': Tree, turned: bool) {
    && T == Plug(Append(upper, lower), Leaf) && LastUnbalanced(upper, lower, 0) && (lower.Top? ==> upper.Top?)
    && var g := Plug(lower, Br(Leaf, n, Leaf));
       if turned then exists t | t in Rotations(g) :: T' == Plug(upper, t)
       else T' == Plug(upper, g)
  }

  /** A rotation inside a tree keeps its nodes and their order. */
  lemma {:induction false} PlugRotated(c: Ctx, g: Tree, t: Tree)
    requires t in Rotations(g)
    ensures Seq(Plug(c, t)) == Seq(Plug(c, g)) && Nodes(Plug(c, t)) == Nodes(Plug(c, g))
    ensures Distinct(Plug(c, g)) ==> Distinct(Plug(c, t))
  {
    hide *;
    RotatedSame(g, t);
    PlugSeq(c, g);
    PlugSeq(c, t);
    PlugDistinct(c, g);
    PlugDistinct(c, t);
  }

  lemma {:induction false} LeafFacts(n: Node)
    ensures var leaf := Br(Leaf, n, Leaf); Seq(leaf) == [n] && Nodes(leaf) == {n} && Distinct(leaf)
    ensures Nodes(Leaf) == {} && Distinct(Leaf)
  {
  }

  lemma {:induction false} LeafAdded(f: Order, T: Tree, x: Item, c: Ctx, n: Node)
    requires T == Plug(c, Leaf) && Between(f, c, x) && Sorted(f, Seq(T)) && Distinct(T) && n !in Nodes(T) && n.At() == x
    ensures var T' := Plug(c, Br(Leaf, n, Leaf));
            && Distinct(T') && Nodes(T') == Nodes(T) + {n} && Sorted(f, Seq(T'))
            && !Has(f, Seq(T), x) && Seq(T') == Inserted(Seq(T), Rank(f, Seq(T), x), n)
  {
    var leaf := Br(Leaf, n, Leaf);
    hide *;
    LeafFacts(n);
    Miss(f, c, x);
    PlugSeq(c, leaf);
    PlugDistinct(c, Leaf);
    PlugDistinct(c, leaf);
    SortedInserted(f, Seq(T), x, n);
  }

  lemma {:induction false} ProbeResult(f: Order, T: Tree, x: Item, upper: Ctx, lower: Ctx, n: Node, t: Tree,
      turned: bool)
    requires Descent(f, T, x, upper, lower, Leaf) && Sorted(f, Seq(T)) && Distinct(T) && n !in Nodes(T)
    requires n.Key == x.key && n.Hash == x.hash
    requires var g := Plug(lower, Br(Leaf, n, Leaf)); if turned then t in Rotations(g) else t == g
    ensures var T' := Plug(upper, t);
            && Distinct(T') && Nodes(T') == Nodes(T) + {n} && Sorted(f, Seq(T'))
            && !Has(f, Seq(T), x) && Seq(T') == Inserted(Seq(T), Rank(f, Seq(T), x), n) && |Seq(T')| == |Seq(T)| + 1
            && Probed(T, upper, lower, n, T', turned)
  {
    var leaf := Br(Leaf, n, Leaf);
    var c, g := Append(upper, lower), Plug(lower, leaf);
    assert T == Plug(c, Leaf) && Between(f, c, x) && LastUnbalanced(upper, lower, 0) && (lower.Top? ==> upper.Top?);
    assert Probed(T, upper, lower, n, Plug(upper, t), turned);
    hide *;
    LeafAdded(f, T, x, c, n);
    AppendPlug(upper, lower, leaf);
    if turned {
      PlugRotated(upper, g, t);
    }
  }

  lemma {:induction false} Unturned(root: Node?, upper: Ctx, g: Tree, h: nat)
    requires Loose(g) && g.n.Balance == H(g.r) - H(g.l) && GrownHeights(g, h)
    requires CtxLinks(root, upper, g.n) && CtxBal(upper, h)
    requires -1 <= g.n.Balance <= 1 && (upper.Down? ==> g.n.Balance == 0)
    ensures Rep(Plug(upper, g)) && RootOf(Plug(upper, g)) == root
  {
    PlugRepBack(root, upper, g);
  }

  lemma {:induction false} PlugRepBack(root: Node?, c: Ctx, t: Tree)
    requires CtxLinks(root, c, RootOf(t)) && CtxBal(c, H(t)) && Rep(t)
    ensures Rep(Plug(c, t)) && RootOf(Plug(c, t)) == root
  {
    PlugRoot(root, c, t);
    PlugRep(c, t);
  }

  lemma {:induction false} FrontFlat(upper: Ctx, y: Node, d: bool, o: Tree, rest: Ctx, h: nat)
    requires LastUnbalanced(upper, Append(Down(Top, y, d, o), rest), h)
    ensures Flat(rest, h) && (upper.Down? ==> Ht(rest, h) != H(o))
  {
    if rest.Down? {
      FrontFlat(upper, y, d, o, rest.up, h + 1);
    }
  }

  /** Below the first node of `lower` everything is balanced. */
  lemma {:induction false} Front(upper: Ctx, lower: Ctx, y: Node) returns (d: bool, o: Tree, rest: Ctx)
    requires lower.Down? && LastUnbalanced(upper, lower, 0) && CtxBal(lower, 0) && y == First(lower, null)
    ensures lower == Append(Down(Top, y, d, o), rest)
    ensures Dirs(lower) == [d] + Dirs(rest) && Path(lower) == [y] + Path(rest)
    ensures Flat(rest, 0) && (upper.Down? ==> Ht(rest, 0) != H(o))
    ensures y.Balance == BalOf(d, Ht(rest, 0), H(o)) && -1 <= y.Balance <= 1
    ensures forall x :: x in Path(rest) ==> x.Balance == 0
  {
    var y0;
    y0, d, o, rest := SplitFront(lower);
    assert First(lower, null) == y0;
    FrontFlat(upper, y, d, o, rest, 0);
    AppendBal(Down(Top, y, d, o), rest, 0);
    FlatZero(rest, 0);
  }

  /** What a subtree of old height `before` looks like when one side has grown. */
  ghost predicate GrownHeights(g: Tree, before: int) {
    g.Br? &&
    var b := H(g.r) - H(g.l);
    && -2 <= b <= 2 && (b == 0 ==> H(g) == before)
    && (b == -2 ==> g.l.Br? && H(g.l) == before && H(g.l.l) != H(g.l.r))
    && (b == 2 ==> g.r.Br? && H(g.r) == before && H(g.r.l) != H(g.r.r))
  }

  /** The side of a subtree that holds the new node `n`. */
  lemma {:induction false} GrownSide(rest: Ctx, n: Node, root: Node?) returns (s: Tree)
    requires CtxLinks(root, rest, n) && Rep(Br(Leaf, n, Leaf)) && Flat(rest, 0) && |Path(rest)| == |Dirs(rest)|
    requires forall j :: 0 <= j < |Path(rest)| ==> Path(rest)[j].Balance == Delta(Dirs(rest)[j])
    ensures s == Plug(rest, Br(Leaf, n, Leaf)) && Rep(s) && RootOf(s) == root
    ensures H(s) == Ht(rest, 0) + 1 && (H(s) >= 2 ==> H(s.l) != H(s.r))
  {
    s := Plug(rest, Br(Leaf, n, Leaf));
    PathLengths(rest);
    FlatGrown(rest, 0);
    PlugHeight(rest, Br(Leaf, n, Leaf));
    PlugRoot(root, rest, Br(Leaf, n, Leaf));
    PlugRep(rest, Br(Leaf, n, Leaf));
    PathLinks(root, rest, n);
    if rest.Down? {
      assert Path(rest)[0] == root;
    }
  }

  lemma {:induction false} GrownTree(lower: Ctx, y: Node, d: bool, o: Tree, rest: Ctx, n: Node, b: int)
    requires lower == Append(Down(Top, y, d, o), rest) && CtxDistinct(lower) && n !in CtxNodes(lower)
    requires CtxLinks(y, lower, n) && Rep(Br(Leaf, n, Leaf)) && Flat(rest, 0)
    requires b == BalOf(d, Ht(rest, 0), H(o)) && -1 <= b <= 1 && y.Balance == b + Delta(d)
    requires |Path(rest)| == |Dirs(rest)|
    requires forall j :: 0 <= j < |Path(rest)| ==> Path(rest)[j].Balance == Delta(Dirs(rest)[j])
    ensures var g := Plug(lower, Br(Leaf, n, Leaf));
            Loose(g) && g.n == y && y.Balance == H(g.r) - H(g.l) && GrownHeights(g, H(Plug(lower, Leaf)))
    ensures Ht(rest, 0) != H(o) ==> y.Balance != 1 && y.Balance != -1
  {
    var front, leaf := Down(Top, y, d, o), Br(Leaf, n, Leaf);
    AppendLinks(y, front, rest, n);
    var s := GrownSide(rest, n, First(rest, n));
    AppendPlug(front, rest, leaf);
    AppendPlug(front, rest, Leaf);
    PlugHeight(rest, Leaf);
    PlugDistinct(lower, leaf);
    assert Plug(front, s) == Join(y, d, s, o);
    assert Plug(front, Plug(rest, Leaf)) == Join(y, d, Plug(rest, Leaf), o);
  }

  lemma {:induction false} IsRoot(t: Tree, p: Node)
    requires RootOf(t) == p
    ensures t.Br? && t.n == p && H(t) >= 1
  {
  }

  lemma {:induction false} SettleReady(root: Node?, c: Ctx, t: Tree) returns (g: Tree)
    requires c.Down? && CtxLinks(root, c, RootOf(t)) && CtxBal(c, H(t) + 1) && Rep(t) && Distinct(Plug(c, t))
    ensures g == Join(c.n, c.dir, t, c.other) && Loose(g) && g.n == c.n && RootOf(g) == c.n
    ensures H(if c.dir then g.r else g.l) == H(t) && H(if c.dir then g.l else g.r) == H(c.other)
    ensures c.n.Balance == BalOf(c.dir, H(t) + 1, H(c.other))
            == (if c.dir then H(t) + 1 - H(c.other) else H(c.other) - (H(t) + 1))
    ensures -1 <= c.n.Balance <= 1
    ensures CtxLinks(root, c.up, c.n) && CtxBal(c.up, 1 + Max(H(t) + 1, H(c.other)))
    ensures CtxDistinct(c.up) && CtxNodes(c.up) !! Nodes(g) && Nodes(Plug(c, t)) == CtxNodes(c.up) + Nodes(g)
    ensures H(g) == 1 + Max(H(t), H(c.other)) && c.n in Nodes(g)
    ensures Max(H(t), H(c.other)) == (if H(t) > H(c.other) then H(t) else H(c.other))
    ensures Max(H(t) + 1, H(c.other)) == (if H(t) + 1 > H(c.other) then H(t) + 1 else H(c.other))
    ensures c.up.Down? ==> Last(c.up) in CtxNodes(c.up)
    ensures c.up.Top? ==> Last(c.up) == null
  {
    g := Join(c.n, c.dir, t, c.other);
    PlugDistinct(c.up, g);
  }

  lemma {:induction false} LooseRep(g: Tree)
    requires Loose(g) && g.n.Balance == H(g.r) - H(g.l) && -1 <= g.n.Balance <= 1
    ensures Rep(g) && RootOf(g) == g.n
  {
  }

  lemma {:induction false} StackTop(c: Ctx)
    requires Depth(c) > 0
    ensures c.Down? && Depth(c.up) == Depth(c) - 1
    ensures |PathN(c)| == |DirsN(c)| == Depth(c) + 1
    ensures PathN(c)[Depth(c)] == c.n && DirsN(c)[Depth(c)] == c.dir
    ensures PathN(c)[Depth(c) - 1] == Last(c.up) && DirsN(c)[Depth(c) - 1] == DirOf(c.up)
    ensures PathN(c)[..Depth(c)] == PathN(c.up) && DirsN(c)[..Depth(c)] == DirsN(c.up)
    ensures forall t :: Plug(c.up, Join(c.n, c.dir, t, c.other)) == Plug(c, t)
  {
    PathLengths(c);
    PathLengths(c.up);
  }

  lemma {:induction false} DepthTop(c: Ctx, h: nat)
    requires Depth(c) == 0
    ensures c.Top? && CtxBal(c, h)
  {
  }

  /** The node to delete is at the root of `t`, below the path `c`. */
  ghost predicate Located(root: Node?, c: Ctx, t: Tree)
    reads CtxNodes(c), Nodes(t)
  {
    && t.Br? && CtxLinks(root, c, t.n) && CtxBal(c, H(t)) && Rep(t) && Distinct(Plug(c, t))
    && Depth(c) + H(t) <= 31
  }

  /** A tree in order but for a path whose balances still count one more level
      in the hole. */
  ghost predicate Unsettled(root: Node?, c: Ctx, t: Tree)
    reads CtxNodes(c), Nodes(t)
  {
    CtxLinks(root, c, RootOf(t)) && CtxBal(c, H(t) + 1) && Rep(t)
  }

  /** `u` is the tree at hand without the root of `t`. */
  ghost predicate TakenOut(c: Ctx, t: Tree, u: Tree) {
    && t.Br? && Distinct(u) && Nodes(u) == Nodes(Plug(c, t)) - {t.n}
    && Seq(u) == Pre(c) + Seq(t.l) + Seq(t.r) + Post(c)
  }

  lemma {:induction false} UseTakenOut(c: Ctx, t: Tree, u: Tree)
    requires TakenOut(c, t, u)
    ensures Distinct(u) && Nodes(u) <= Nodes(Plug(c, t)) && Seq(u) == Pre(c) + Seq(t.l) + Seq(t.r) + Post(c)
  {
  }

  lemma {:induction false} UseUnsettled(root: Node?, c: Ctx, t: Tree)
    requires Unsettled(root, c, t)
    ensures CtxLinks(root, c, RootOf(t)) && CtxBal(c, H(t) + 1) && Rep(t)
  {
  }

  lemma {:induction false} SpineStart(t: Tree)
    ensures Plug(Top, t) == t && Pre(Top) == [] && Depth(Top) == 0 && Path(Top) == [] && Dirs(Top) == []
  {
  }

  lemma {:induction false} SpineStep(c: Ctx, t: Tree) returns (c': Ctx, t': Tree)
    requires Rep(Plug(c, t)) && t.Br? && t.l.Br? && Pre(c) == []
    ensures Plug(c', t') == Plug(c, t) && Pre(c') == [] && Depth(c') == Depth(c) + 1
    ensures Path(c') == Path(c) + [t.n] && Dirs(c') == Dirs(c) + [false]
    ensures c'.Down? && c'.n == t.n && !c'.dir && t'.Br? && t'.n == t.n.Link0
    ensures H(t) >= H(t') + 1 && H(t') >= 1
    ensures t'.n.Link0 == null <==> t'.l == Leaf
    ensures t' < t
  {
    PlugRep(c, t);
    c', t' := Down(c, t.n, false, t.r), t.l;
    assert Rep(t');
  }

  lemma {:induction false} SpliceParts(root: Node?, c: Ctx, t: Tree)
    requires Located(root, c, t)
    ensures t.Br? && CtxLinks(root, c, t.n) && CtxBal(c, H(t)) && Rep(t) && Distinct(Plug(c, t))
    ensures CtxDistinct(c) && Distinct(t) && CtxNodes(c) !! Nodes(t)
    ensures Nodes(Plug(c, t)) == CtxNodes(c) + Nodes(t) && t.n in Nodes(t)
    ensures c.Down? ==> Last(c) in CtxNodes(c)
    ensures c.Top? ==> Last(c) == null
    ensures |PathN(c)| == |DirsN(c)| == Depth(c) + 1 && PathN(c)[Depth(c)] == Last(c) && DirsN(c)[Depth(c)] == DirOf(c)
    ensures t.n.Link0 == RootOf(t.l) && t.n.Link1 == RootOf(t.r) && t.n.Balance == H(t.r) - H(t.l)
    ensures Rep(t.l) && Rep(t.r) && Nodes(t.l) <= Nodes(t) && Nodes(t.r) <= Nodes(t)
    ensures H(t) == 1 + Max(H(t.l), H(t.r)) && Depth(c) <= 30 && Depth(c) + H(t) <= 31
    ensures H(t.r) < H(t)
  {
    PlugDistinct(c, t);
    PathLengths(c);
  }

  lemma {:induction false} TakeOut(c: Ctx, t: Tree, u: Tree)
    requires t.Br? && Distinct(Plug(c, t)) && Distinct(u) && Nodes(u) == Nodes(t) - {t.n}
             && Seq(u) == Seq(t.l) + Seq(t.r)
    ensures TakenOut(c, t, Plug(c, u))
  {
    assert t.n in Nodes(t);
    hide Distinct, Nodes, Seq, Plug, Pre, Post, CtxNodes, CtxDistinct;
    PlugDistinct(c, t);
    PlugDistinct(c, u);
    PlugSeq(c, u);
    Regroup4(Pre(c), Seq(t.l), Seq(t.r), Post(c));
  }

  lemma {:induction false} Regroup4(a: seq<Node>, b: seq<Node>, c: seq<Node>, d: seq<Node>)
    ensures a + (b + c) + d == a + b + c + d
  {
  }

  /** Taking out the root of a tree whose right part is `u` behind one node. */
  lemma {:induction false} TakenParts(t: Tree, s: Node, u: Tree)
    requires t.Br? && Distinct(t) && Seq(t.r) == [s] + Seq(u) && Nodes(t.r) == Nodes(u) + {s} && Distinct(u)
             && s !in Nodes(u)
    ensures var v := Br(t.l, s, u); Distinct(v) && Nodes(v) == Nodes(t) - {t.n} && Seq(v) == Seq(t.l) + Seq(t.r)
  {
    hide *;
    BrDistinct(t);
    BrDistinct(Br(t.l, s, u));
    assert s in Nodes(t.r);
    assert Seq(t.l) + [s] + Seq(u) == Seq(t.l) + ([s] + Seq(u));
  }

  lemma {:induction false} NoRightParts(t: Tree)
    requires t.Br? && Distinct(t) && t.r == Leaf
    ensures Distinct(t.l) && Nodes(t.l) == Nodes(t) - {t.n} && Seq(t.l) == Seq(t.l) + Seq(t.r) && H(t) == H(t.l) + 1
  {
  }

  lemma {:induction false} NoRight(root: Node?, c: Ctx, t: Tree)
    requires t.Br? && Distinct(Plug(c, t)) && RootOf(t.r) == null && Rep(t.l)
    requires CtxLinks(root, c, RootOf(t.l)) && CtxBal(c, H(t))
    ensures Unsettled(root, c, t.l) && TakenOut(c, t, Plug(c, t.l))
  {
    hide Distinct, Nodes, Seq, Plug, CtxNodes, CtxDistinct, CtxLinks, CtxBal, Rep, H, TakenOut;
    PlugDistinct(c, t);
    NoRightParts(t);
    TakeOut(c, t, t.l);
  }

  lemma {:induction false} NextParts(t: Tree)
    requires t.Br? && t.r.Br? && Rep(t) && Distinct(t)
    ensures t.r.n.Link0 == RootOf(t.r.l) && t.r.n.Link1 == RootOf(t.r.r) && (t.r.n.Link0 == null ==> t.r.l == Leaf)
    ensures Rep(t.r.l) && Rep(t.r.r) && t.n != t.r.n && t.r.n in Nodes(t)
    ensures t.r.n !in Nodes(t.l) && t.r.n !in Nodes(t.r.l) && t.r.n !in Nodes(t.r.r)
    ensures Nodes(t.r.l) <= Nodes(t) && Nodes(t.r.r) <= Nodes(t)
  {
    assert Rep(t.r) && Distinct(t.r);
  }

  lemma {:induction false} NextSeq(t: Tree)
    requires t.Br? && t.l == Leaf && Distinct(t)
    ensures Seq(t) == [t.n] + Seq(t.r) && Nodes(t) == Nodes(t.r) + {t.n} && Distinct(t.r) && t.n !in Nodes(t.r)
    ensures H(t) == 1 + H(t.r)
  {
  }

  lemma {:induction false} NextUp(root: Node?, c: Ctx, t: Tree) returns (c': Ctx, t': Tree)
    requires t.Br? && t.r.Br? && t.r.l == Leaf && Distinct(Plug(c, t)) && Rep(t.l) && Rep(t.r.r)
    requires CtxLinks(root, c, t.r.n) && CtxBal(c, H(t))
    requires t.r.n.Link0 == RootOf(t.l) && t.r.n.Link1 == RootOf(t.r.r) && t.r.n.Balance == H(t.r) - H(t.l)
             && -1 <= t.r.n.Balance <= 1
    ensures c' == Down(c, t.r.n, true, t.l) && t' == t.r.r
    ensures Unsettled(root, c', t') && TakenOut(c, t, Plug(c', t'))
    ensures Depth(c') == Depth(c) + 1 && PathN(c') == PathN(c) + [t.r.n] && DirsN(c') == DirsN(c) + [true]
  {
    hide *;
    c', t' := Down(c, t.r.n, true, t.l), t.r.r;
    PlugDistinct(c, t);
    BrDistinct(t);
    NextSeq(t.r);
    BrRep(t);
    DownLinks(root, c', RootOf(t'));
    DownBal(c', H(t') + 1);
    MakeUnsettled(root, c', t');
    PathNDown(c, t.r.n, true, t.l);
    PlugDown(c, t.r.n, true, t.l, t');
    TakenParts(t, t.r.n, t.r.r);
    TakeOut(c, t, Br(t.l, t.r.n, t.r.r));
  }

  lemma {:induction false} DeepStart(t: Tree)
    requires t.Br? && Rep(t) && RootOf(t.r) != null && t.r.n.Link0 != null
    ensures t.r.Br? && t.r.l.Br? && RootOf(t.r) == t.r.n && Rep(t.r)
  {
    assert Rep(t.r);
  }

  lemma {:induction false} PlugDown(c: Ctx, n: Node, d: bool, o: Tree, t: Tree)
    ensures Plug(Down(c, n, d, o), t) == Plug(c, if d then Br(o, n, t) else Br(t, n, o))
  {
  }

  /** Where the nodes stand before the least node of the right subtree moves. */
  lemma {:induction false} DeepParts(t: Tree, c3: Ctx, ts: Tree)
    requires t.Br? && Rep(t) && Distinct(t) && Plug(c3, ts) == t.r && c3.Down? && !c3.dir && ts.Br? && ts.l == Leaf
    ensures CtxLinks(RootOf(t.r), c3.up, c3.n) && CtxBal(c3.up, 1 + Max(H(ts), H(c3.other)))
    ensures Rep(c3.other) && Rep(ts.r) && Rep(t.l)
    ensures c3.n.Link1 == RootOf(c3.other) && c3.n.Balance == H(c3.other) - H(ts) && -1 <= c3.n.Balance <= 1
    ensures ts.n.Link1 == RootOf(ts.r)
    ensures -1 <= t.n.Balance <= 1 && t.n.Balance == H(t.r) - H(t.l)
  {
    hide *;
    BrRep(t);
    EndOfPath(c3, ts);
  }

  lemma {:induction false} EndOfPath(c: Ctx, t: Tree)
    requires Rep(Plug(c, t)) && c.Down? && t.Br?
    ensures CtxLinks(RootOf(Plug(c, t)), c.up, c.n) && CtxBal(c.up, 1 + Max(H(t), H(c.other)))
    ensures Rep(c.other) && Rep(t.l) && Rep(t.r)
    ensures (if c.dir then c.n.Link0 else c.n.Link1) == RootOf(c.other) && t.n.Link1 == RootOf(t.r)
    ensures c.n.Balance == (if c.dir then H(t) - H(c.other) else H(c.other) - H(t)) && -1 <= c.n.Balance <= 1
  {
    hide *;
    PlugRep(c, t);
    DownLinks(RootOf(Plug(c, t)), c, RootOf(t));
    DownBal(c, H(t));
    BrRep(t);
  }

  lemma {:induction false} DeepApart(t: Tree, c3: Ctx, ts: Tree)
    requires t.Br? && Distinct(t) && Plug(c3, ts) == t.r && c3.Down? && ts.Br? && ts.l == Leaf
    ensures t.n != c3.n && t.n != ts.n && c3.n != ts.n
    ensures c3.n in Nodes(t) && ts.n in Nodes(t)
    ensures t.n !in CtxNodes(c3.up) && t.n !in Nodes(c3.other) && t.n !in Nodes(ts.r) && t.n !in Nodes(t.l)
    ensures c3.n !in CtxNodes(c3.up) && c3.n !in Nodes(c3.other) && c3.n !in Nodes(ts.r) && c3.n !in Nodes(t.l)
    ensures ts.n !in CtxNodes(c3.up) && ts.n !in Nodes(c3.other) && ts.n !in Nodes(ts.r) && ts.n !in Nodes(t.l)
    ensures CtxNodes(c3.up) <= Nodes(t) && Nodes(c3.other) <= Nodes(t) && Nodes(ts.r) <= Nodes(t)
            && Nodes(t.l) <= Nodes(t)
  {
    hide *;
    BrDistinct(t);
    PlugDistinct(c3, ts);
    DownDistinct(c3);
    BrDistinct(ts);
    assert c3.n in CtxNodes(c3) && ts.n in Nodes(ts);
    assert CtxNodes(c3) <= Nodes(t.r) && Nodes(ts) <= Nodes(t.r);
  }

  /** The path in its new shape. */
  lemma {:induction false} MovedUp(root: Node?, c: Ctx, t: Tree, c3: Ctx, ts: Tree)
    requires t.Br? && Plug(c3, ts) == t.r && c3.Down? && !c3.dir && ts.Br? && ts.l == Leaf
    requires CtxLinks(root, c, ts.n) && CtxBal(c, H(t)) && Rep(t.l) && Rep(ts.r) && Rep(c3.other)
    requires CtxLinks(RootOf(t.r), c3.up, c3.n) && CtxBal(c3.up, 1 + Max(H(ts), H(c3.other)))
    requires ts.n.Link0 == RootOf(t.l) && ts.n.Link1 == RootOf(t.r) && ts.n.Balance == H(t.r) - H(t.l)
             && -1 <= ts.n.Balance <= 1
    requires c3.n.Link0 == RootOf(ts.r) && c3.n.Link1 == RootOf(c3.other) && c3.n.Balance == H(c3.other) - H(ts)
             && -1 <= c3.n.Balance <= 1
    ensures Unsettled(root, Append(Down(c, ts.n, true, t.l), c3), ts.r)
  {
    hide *;
    var a, hole := Down(c, ts.n, true, t.l), RootOf(ts.r);
    BrRep(t);
    BrRep(ts);
    LeafParts(ts.l);
    DownLinks(RootOf(t.r), c3, hole);
    DownBal(c3, H(ts));
    DownLinks(root, a, RootOf(t.r));
    DownBal(a, H(t.r));
    PlugHeight(c3, ts);
    Rejoin(root, a, c3, RootOf(t.r), ts.r);
  }

  lemma {:induction false} Rejoin(root: Node?, a: Ctx, b: Ctx, mid: Node?, t: Tree)
    requires CtxLinks(root, a, mid) && CtxLinks(mid, b, RootOf(t)) && Rep(t)
    requires CtxBal(b, H(t) + 1) && CtxBal(a, Ht(b, H(t) + 1))
    ensures Unsettled(root, Append(a, b), t)
  {
    hide *;
    FirstOf(mid, b, RootOf(t));
    AppendLinks(root, a, b, RootOf(t));
    AppendBal(a, b, H(t) + 1);
    MakeUnsettled(root, Append(a, b), t);
  }

  lemma {:induction false} MakeUnsettled(root: Node?, c: Ctx, t: Tree)
    requires CtxLinks(root, c, RootOf(t)) && CtxBal(c, H(t) + 1) && Rep(t)
    ensures Unsettled(root, c, t)
  {
  }

  lemma FirstOf(root: Node?, c: Ctx, hole: Node?)
    requires CtxLinks(root, c, hole)
    ensures First(c, hole) == root
  {
  }

  lemma {:induction false} DeepUp(c: Ctx, t: Tree, c3: Ctx, ts: Tree) returns (c': Ctx, t': Tree)
    requires t.Br? && Distinct(Plug(c, t)) && Plug(c3, ts) == t.r && Pre(c3) == [] && ts.Br? && ts.l == Leaf
    ensures c' == Append(Down(c, ts.n, true, t.l), c3) && t' == ts.r
    ensures TakenOut(c, t, Plug(c', t'))
    ensures Depth(c') == Depth(c) + 1 + Depth(c3)
    ensures PathN(c') == PathN(c) + [ts.n] + Path(c3) && DirsN(c') == DirsN(c) + [true] + Dirs(c3)
  {
    var a, right := Down(c, ts.n, true, t.l), Plug(c3, ts.r);
    hide *;
    c', t' := Append(a, c3), ts.r;
    PlugDistinct(c, t);
    BrDistinct(t);
    PlugDown(c, ts.n, true, t.l, right);
    PathNDown(c, ts.n, true, t.l);
    AppendPath(a, c3);
    AppendPlug(a, c3, ts.r);
    SpineSeq(c3, ts);
    TakenParts(t, ts.n, right);
    TakeOut(c, t, Br(t.l, ts.n, right));
  }

  /** The least node of a tree comes first, and the rest is the tree without it. */
  lemma {:induction false} SpineSeq(c3: Ctx, ts: Tree)
    requires Pre(c3) == [] && ts.Br? && ts.l == Leaf && Distinct(Plug(c3, ts))
    ensures var right := Plug(c3, ts.r);
            && Seq(Plug(c3, ts)) == [ts.n] + Seq(right) && Nodes(Plug(c3, ts)) == Nodes(right) + {ts.n}
            && Distinct(right) && ts.n !in Nodes(right)
  {
    hide *;
    PlugSeq(c3, ts.r);
    PlugSeq(c3, ts);
    PlugDistinct(c3, ts);
    PlugDistinct(c3, ts.r);
    NextSeq(ts);
    assert ts.n in Nodes(ts);
    assert Seq(Plug(c3, ts)) == [ts.n] + Seq(ts.r) + Post(c3);
    assert Seq(Plug(c3, ts.r)) == Seq(ts.r) + Post(c3);
    assert [ts.n] + Seq(ts.r) + Post(c3) == [ts.n] + (Seq(ts.r) + Post(c3));
  }

  lemma {:induction false} NotNodes(t: Tree, a: array<bool>)
    ensures forall n | n in Nodes(t) :: n as object != a
  {
  }

  lemma {:induction false} DescentDepth(f: Order, T: Tree, x: Item, upper: Ctx, lower: Ctx, t: Tree)
    requires Plug(Append(upper, lower), t) == T
    requires Distinct(T) && Rep(T) && |Seq(T)| < MAX_COUNT
    ensures Rep(t) && Depth(lower) + H(t) <= 31
    ensures t.Br? ==>
              && t.n.Link0 == RootOf(t.l) && t.n.Link1 == RootOf(t.r)
              && t.n.Balance == H(t.r) - H(t.l) && H(t) > 0
  {
    HeightBound(T);
    PlugRep(Append(upper, lower), t);
    PlugHeight(Append(upper, lower), t);
    AppendPath(upper, lower);
  }
}
