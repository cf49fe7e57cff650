/** The traverser of dev/src/lib/Agg/Table.c: avl_t_first, avl_t_next and
    trav_refresh.  A cursor keeps the path to its node on a stack, and repairs
    itself when the table's generation has moved on. */
module Traverser {
  import opened AvlTree
  import opened TableSpec
  import opened Table

  /** A cursor is in step with a table: if it saw the table's last generation,
      its stack is the path to its node. */
  ghost predicate InStep(T: Tree, g: nat, cur: Node?, stack: seq<Node?>, seen: nat) {
    && seen <= g
    && (seen == g && cur != null ==> cur in Nodes(T) && stack == PathTo(T, cur))
  }

  /** The first node, if any. */
  ghost function FirstOfSeq(s: seq<Node>): Node? {
    if s == [] then null else s[0]
  }

  /** The node a cursor that stood on `cur` goes to. */
  ghost function NextFrom(f: Order, T: Tree, cur: Node): Node? {
    if cur in Nodes(T) then Successor(f, Seq(T), cur.At())
    else
      var s := Seq(T);
      var r := Rank(f, s, cur.At());
      if r < |s| then s[r] else null
  }

  /** A cursor whose own node is gone can find its place again as long as a
      smaller key remains, or no key at all. */
  ghost predicate CanResume(f: Order, T: Tree, cur: Node) {
    cur in Nodes(T) || T.Leaf? || Rank(f, Seq(T), cur.At()) > 0
  }

  /** The node refresh leaves a cursor on. */
  ghost function Resumed(f: Order, T: Tree, cur: Node?): Node? {
    if cur == null || T.Leaf? then null
    else if cur in Nodes(T) then cur
    else
      var r := Rank(f, Seq(T), cur.At());
      if 0 < r then Seq(T)[r - 1] else null
  }

  class Cursor {
    var table: Table
    var Cur: Node?
    const Stack: array<Node?>
    var Height: nat
    var Generation: nat

    ghost predicate Sound()
      reads `table, table, Nodes(table.T)
    {
      && table.Valid() && table.Count < MAX_COUNT && Stack.Length == AVL_MAX_HEIGHT
    }

    ghost predicate Ready()
      reads this, table, Nodes(table.T), Stack
    {
      Sound() && Height <= Stack.Length && InStep(table.T, table.Generation, Cur, Stack[..Height], Generation)
    }

    constructor (table: Table)
      requires table.Valid() && table.Count < MAX_COUNT
      ensures Ready() && this.table == table && Cur == null && fresh(Stack)
    {
      this.table := table;
      Cur, Height, Generation := null, 0, 0;
      Stack := new Node?[AVL_MAX_HEIGHT](_ => null);
    }

    method Push(x: Node, ghost path: seq<Node>)
      requires Height < Stack.Length && Stack[..Height] == path
      modifies `Height, Stack
      ensures Height == old(Height) + 1 && Stack[..Height] == path + [x]
    {
      Stack[Height] := x;
      Height := Height + 1;
    }

    /** Pushes the left spine of the subtree at `x0`. */
    method RunLeft(x0: Node, ghost c0: Ctx, ghost t0: Tree) returns (x: Node, ghost c: Ctx, ghost t: Tree)
      requires Sound() && Plug(c0, t0) == table.T && t0.Br? && t0.n == x0
      requires Height == Depth(c0) <= Stack.Length && Stack[..Height] == Path(c0)
      modifies `Height, Stack
      ensures Sound() && Plug(c, t) == table.T && t.Br? && t.n == x && t.l == Leaf && Pre(c) == Pre(c0)
      ensures Height == Depth(c) <= Stack.Length && Stack[..Height] == Path(c)
    {
      hide *;
      assert allocated(Nodes(table.T));
      x, c, t := x0, c0, t0;
      SoundAt(c, t);
      while x.Link0 != null
        invariant Sound() && Plug(c, t) == table.T && t.Br? && t.n == x && Pre(c) == Pre(c0)
        invariant Height == Depth(c) <= Stack.Length && Stack[..Height] == Path(c)
        invariant x.Link0 == null <==> t.l == Leaf
        decreases t
      {
        SoundAt(c, t);
        Push(x, Path(c));
        x := x.Link0;
        c, t := LeftOf(c, t);
      }
    }

    /** avl_t_first */
    method First(t: Table) returns (x: Node?)
      requires t.Valid() && t.Count < MAX_COUNT && Stack.Length == AVL_MAX_HEIGHT
      modifies this, Stack
      ensures Ready() && table == t && Cur == x && Generation == t.Generation
      ensures x == FirstOfSeq(Seq(t.T))
      ensures x == null <==> Nodes(t.T) == {}
      ensures x != null ==> x in Nodes(t.T) && forall m :: m in Nodes(t.T) && m != x ==>
                x.Hash < m.Hash || (x.Hash == m.Hash && t.Compare(x.Key, m.Key) < 0)
    {
      hide *;
      assert allocated(Nodes(t.T));
      table := t;
      Height := 0;
      Generation := t.Generation;
      x := t.Root;
      MakeSound();
      RootFacts();
      ghost var c, u := Top, t.T;
      if x != null {
        x, c, u := RunLeft(x, Top, t.T);
        LeftmostIsFirst(c, u);
      }
      Cur := x;
      MakeReady(c, u);
      LeastOfAll();
    }

    lemma FirstIs(T: Tree)
      ensures var s := Seq(T);
              && (FirstOfSeq(s) == if s == [] then null else s[0])
              && (s == [] <==> Nodes(T) == {}) && (s != [] ==> s[0] in Nodes(T))
    {
      SeqNodes(T);
      if Seq(T) != [] {
        assert Seq(T)[0] in Seq(T);
      }
    }

    /** What it is to be the first node. */
    lemma LeastOfAll()
      requires Sound()
      ensures var x := FirstOfSeq(Seq(table.T));
              && (x == null <==> Nodes(table.T) == {})
              && (x != null ==> x in Nodes(table.T) && forall m :: m in Nodes(table.T) && m != x ==>
                    x.Hash < m.Hash || (x.Hash == m.Hash && table.Compare(x.Key, m.Key) < 0))
    {
      FirstIs(table.T);
      SoundParts();
      hide *;
      var s := Seq(table.T);
      forall m | m in Nodes(table.T)
        ensures s != [] && (m == s[0] || s[0].Hash < m.Hash
                  || (s[0].Hash == m.Hash && table.Compare(s[0].Key, m.Key) < 0))
      {
        SeqNode(table.T, m);
        FirstMeans(table.Compare, s, m);
      }
    }

    /** trav_refresh: finds the path to the cursor's node again, or, when that
        node has been deleted, the path to the node before it. */
    method Refresh()
      requires Sound() && Height <= Stack.Length && (Cur != null ==> CanResume(table.Compare, table.T, Cur))
      modifies `Cur, `Height, `Generation, Stack
      ensures Ready() && Generation == table.Generation
      ensures Cur == Resumed(table.Compare, table.T, old(Cur))
      ensures old(Cur) != null && old(Cur) in Nodes(table.T) ==> Cur == old(Cur)
      ensures var c, f := old(Cur), table.Compare;
              c != null && c !in Nodes(table.T) && Nodes(table.T) != {} ==>
                && Cur != null && Cur in Nodes(table.T)
                && (Cur.Hash < c.Hash || (Cur.Hash == c.Hash && f(Cur.Key, c.Key) < 0))
                && forall m :: m in Nodes(table.T) && (m.Hash < c.Hash || (m.Hash == c.Hash && f(m.Key, c.Key) < 0)) ==>
                     m == Cur || m.Hash < Cur.Hash || (m.Hash == Cur.Hash && f(m.Key, Cur.Key) < 0)
    {
      hide *;
      assert allocated(Nodes(table.T));
      if Cur != null {
        ResumedMeans(Cur);
      }
      Generation := table.Generation;
      var root := table.Root;
      RootFacts();
      ResumedFacts(table.Compare, table.T);
      if root == null {
        Cur := null;
        Forget();
        return;
      }
      if Cur == null {
        Forget();
        return;
      }
      Seek(Cur, root);
    }

    /** What the place of a cursor is, in terms of hash and key. */
    lemma {:induction false} ResumedMeans(c: Node)
      requires Sound() && CanResume(table.Compare, table.T, c)
      ensures var x, f := Resumed(table.Compare, table.T, c), table.Compare;
              && (c in Nodes(table.T) ==> x == c)
              && (c !in Nodes(table.T) && Nodes(table.T) != {} ==>
                    && x != null && x in Nodes(table.T)
                    && (x.Hash < c.Hash || (x.Hash == c.Hash && f(x.Key, c.Key) < 0))
                    && forall m :: m in Nodes(table.T) ==>
                         (m.Hash < c.Hash || (m.Hash == c.Hash && f(m.Key, c.Key) < 0)) ==>
                         m == x || m.Hash < x.Hash || (m.Hash == x.Hash && f(m.Key, x.Key) < 0))
    {
      SoundParts();
      var f, T := table.Compare, table.T;
      ResumedIs(f, T, c);
      AtIs(c);
      hide *;
      SameNodes(T);
      if c !in Nodes(T) && Nodes(T) != {} {
        BeforeMeans(f, Seq(T), c.Key, c.Hash, c);
        forall m | m in Nodes(T) && (m.Hash < c.Hash || (m.Hash == c.Hash && f(m.Key, c.Key) < 0))
          ensures var x := Seq(T)[Rank(f, Seq(T), c.At()) - 1];
                  m == x || m.Hash < x.Hash || (m.Hash == x.Hash && f(m.Key, x.Key) < 0)
        {
          BeforeMeans(f, Seq(T), c.Key, c.Hash, m);
        }
      }
    }

    lemma {:induction false} ResumedIs(f: Order, T: Tree, c: Node)
      requires CanResume(f, T, c)
      ensures c in Nodes(T) ==> Resumed(f, T, c) == c
      ensures c !in Nodes(T) && Nodes(T) != {} ==>
                var r := Rank(f, Seq(T), c.At());
                0 < r <= |Seq(T)| && Resumed(f, T, c) == Seq(T)[r - 1] && Seq(T)[r - 1] in Seq(T)
    {
    }

    /** The search of trav_refresh. */
    method Seek(node: Node, root: Node)
      requires Sound() && Cur == node && table.Root == root && Generation == table.Generation
      requires CanResume(table.Compare, table.T, node)
      modifies `Cur, `Height, Stack
      ensures Ready() && Cur == Resumed(table.Compare, table.T, node)
    {
      hide *;
      assert allocated(Nodes(table.T));
      RootFacts();
      var i: Node?, j: Node? := root, null;
      Height := 0;
      ghost var c, t := Top, table.T;
      SeekStart(node);
      assert Seeking(table.Compare, table.T, node, c, t);
      while i != node
        invariant Sound() && Cur == node && Generation == table.Generation && i != null
        invariant Plug(c, t) == table.T && Seeking(table.Compare, table.T, node, c, t) && t.Br? && t.n == i
                  && j == LastRight(c)
        invariant Height == Depth(c) <= Stack.Length && Stack[..Height] == Path(c)
        decreases t
      {
        SoundAt(c, t);
        var cmp := Cmp(table.Compare, node.At(), i.At());
        if cmp > 0 {
          j := i;
        }
        Push(i, Path(c));
        i := if cmp > 0 then i.Link1 else i.Link0;
        c, t := SeekStep(node, c, t, cmp > 0);
        if i == null {
          SeekEnd(node, c, t);
          if cmp > 0 {
            Height := Height - 1;
            Cur := Stack[Height];
            PathTop(c);
          } else {
            c, t := PopTo(j, c, t);
            Cur := j;
          }
          c, t := AtTop(c, t);
          MakeReady(c, t);
          return;
        }
      }
      MakeReady(c, t);
      SeekFound(node, c, t);
    }

    /** Pops the stack until `j` comes off. */
    method PopTo(j: Node?, ghost c0: Ctx, ghost t0: Tree) returns (ghost c: Ctx, ghost t: Tree)
      requires Plug(c0, t0) == table.T && c0.Down? && Height == Depth(c0) <= Stack.Length && Stack[..Height] == Path(c0)
      requires j != null && j == LastRight(c0)
      modifies `Height
      ensures Plug(c, t) == table.T && c.Down? && c.n == j
      ensures Height + 1 == Depth(c) <= Stack.Length && Stack[..Height + 1] == Path(c)
    {
      c, t := c0, t0;
      Height := Height - 1;
      while Stack[Height] != j
        invariant Plug(c, t) == table.T && c.Down? && j == LastRight(c)
        invariant Height + 1 == Depth(c) <= Stack.Length && Stack[..Height + 1] == Path(c)
        decreases Height
      {
        PathTop(c);
        assert Stack[..Height + 1][Height] == Stack[Height] && Stack[..Height] == Stack[..Height + 1][..Height];
        c, t := c.up, Join(c.n, c.dir, t, c.other);
        PathParts(c);
        Height := Height - 1;
      }
      PathTop(c);
      assert Stack[..Height + 1][Height] == Stack[Height];
    }

    lemma {:induction false} Forget()
      requires Sound() && Cur == null && Generation == table.Generation && Height <= Stack.Length
      ensures Ready()
    {
    }

    lemma {:induction false} SeekStart(node: Node)
      requires Sound()
      ensures Seeking(table.Compare, table.T, node, Top, table.T) && LastRight(Top) == null
    {
    }

    lemma {:induction false} SeekStep(node: Node, c: Ctx, t: Tree, d: bool) returns (c': Ctx, t': Tree)
      requires Sound() && Seeking(table.Compare, table.T, node, c, t) && t.Br? && t.n != node
      requires d == (Cmp(table.Compare, node.At(), t.n.At()) > 0)
      ensures Seeking(table.Compare, table.T, node, c', t') && c'.Down? && c'.n == t.n && c'.dir == d && t' < t
      ensures RootOf(t') == (if d then t.n.Link1 else t.n.Link0) && (RootOf(t') == null ==> t' == Leaf)
      ensures RootOf(t') != null ==> t'.Br? && t'.n == RootOf(t')
      ensures LastRight(c') == if d then t.n else LastRight(c)
      ensures Depth(c') == Depth(c) + 1 && Path(c') == Path(c) + [t.n] && Plug(c', t') == table.T
    {
      SoundAt(c, t);
      c', t' := Down(c, t.n, d, if d then t.l else t.r), if d then t.r else t.l;
      SeekSide(table.Compare, table.T, node, c, t, d);
    }

    lemma {:induction false} SeekEnd(node: Node, c: Ctx, t: Tree)
      requires Sound() && Seeking(table.Compare, table.T, node, c, t) && t == Leaf && c.Down?
      requires CanResume(table.Compare, table.T, node)
      ensures LastRight(c) != null && Resumed(table.Compare, table.T, node) == LastRight(c)
    {
      hide Cmp, Rank, Distinct, Rep, Nodes, Sorted;
      PlugSeq(c, Leaf);
      SeqLeaf();
      assert Pre(c) + [] + Post(c) == Pre(c) + Post(c);
      RankSplit(table.Compare, Pre(c), Post(c), node.At());
      LastOfPre(c);
      PlugHeight(c, Leaf);
      NotLeaf(c, t);
    }

    lemma {:induction false} SeekFound(node: Node, c: Ctx, t: Tree)
      requires Seeking(table.Compare, table.T, node, c, t) && t.Br? && t.n == node
      ensures Resumed(table.Compare, table.T, node) == node
    {
      EndOf(table.T, c, t);
    }

    lemma {:induction false} ResumedFacts(f: Order, T: Tree)
      ensures Resumed(f, T, null) == null && (T == Leaf ==> forall x :: Resumed(f, T, x) == null)
    {
    }

    lemma {:induction false} AtTop(c: Ctx, t: Tree) returns (c': Ctx, t': Tree)
      requires Plug(c, t) == table.T && c.Down?
      ensures Plug(c', t') == table.T && t'.Br? && t'.n == c.n && Depth(c') + 1 == Depth(c)
              && Path(c) == Path(c') + [c.n]
      ensures |Path(c')| == Depth(c') && c' == c.up && t' == Join(c.n, c.dir, t, c.other)
    {
      c', t' := c.up, Join(c.n, c.dir, t, c.other);
      PathParts(c');
    }

    /** avl_t_next */
    method Next() returns (x: Node?)
      requires Ready() && (Cur != null ==> CanResume(table.Compare, table.T, Cur))
      modifies this, Stack
      ensures Ready() && table == old(table) && x == Cur && Generation == table.Generation
      ensures old(Cur) == null ==> x == FirstOfSeq(Seq(table.T))
      ensures old(Cur) != null ==> x == NextFrom(table.Compare, table.T, old(Cur))
      ensures var c, f := old(Cur), table.Compare;
              c != null && (c in Nodes(table.T) ||
                            forall m :: m in Nodes(table.T) ==> !(m.Hash == c.Hash && f(m.Key, c.Key) == 0)) ==>
                && (x != null ==> x in Nodes(table.T) &&
                                  (c.Hash < x.Hash || (c.Hash == x.Hash && f(c.Key, x.Key) < 0)))
                && forall m :: m in Nodes(table.T) && (c.Hash < m.Hash || (c.Hash == m.Hash && f(c.Key, m.Key) < 0)) ==>
                     x != null && (m == x || x.Hash < m.Hash || (x.Hash == m.Hash && f(x.Key, m.Key) < 0))
    {
      hide *;
      assert allocated(Nodes(table.T));
      ReadyParts();
      ghost var cur := Cur;
      if Generation != table.Generation {
        Refresh();
        ReadyParts();
      }
      ResumedNext(cur);
      if Cur == null {
        x := First(table);
      } else {
        x := Onward();
      }
      NextMeans(cur);
    }

    /** avl_t_next for a cursor that has its place. */
    method Onward() returns (x: Node?)
      requires Ready() && Cur != null && Generation == table.Generation
      modifies `Cur, `Height, Stack
      ensures Ready() && x == Cur && x == Successor(table.Compare, Seq(table.T), old(Cur).At())
    {
      hide *;
      assert allocated(Nodes(table.T));
      ReadyParts();
      x := Cur;
      ghost var c, t := Here(x);
      if x.Link1 != null {
        Push(x, Path(c));
        x := x.Link1;
        ghost var i := |Pre(c)| + |Seq(t.l)|;
        c, t := RightOf(c, t);
        x, c, t := RunLeft(x, c, t);
        NextBelow(c, t, i);
        Cur := x;
        MakeReady(c, t);
      } else {
        x := Climb(x, c, t);
        Cur := x;
        if x == null {
          Forget();
        } else {
          c, t := Here2(x);
          MakeReady(c, t);
        }
      }
    }

    lemma AtIs(n: Node)
      ensures n.At() == Item(n.Hash, n.Key)
    {
    }

    /** What the next node is, in terms of hash and key. */
    lemma NextMeans(c: Node?)
      requires Sound()
      ensures c != null ==>
                var x, f := NextFrom(table.Compare, table.T, c), table.Compare;
                (c in Nodes(table.T) ||
                 forall m :: m in Nodes(table.T) ==> !(m.Hash == c.Hash && f(m.Key, c.Key) == 0)) ==>
                  && (x != null ==> x in Nodes(table.T) &&
                                    (c.Hash < x.Hash || (c.Hash == x.Hash && f(c.Key, x.Key) < 0)))
                  && forall m :: m in Nodes(table.T) ==>
                       (c.Hash < m.Hash || (c.Hash == m.Hash && f(c.Key, m.Key) < 0)) ==>
                       x != null && (m == x || x.Hash < m.Hash || (x.Hash == m.Hash && f(x.Key, m.Key) < 0))
    {
      if c != null {
        SoundParts();
        var f, T := table.Compare, table.T;
        NextIsLeastGreater(f, T, c);
        AtIs(c);
        hide *;
        SameNodes(T);
        FoundMeans(f, Seq(T), c.Key, c.Hash);
        var x := NextFrom(f, T, c);
        if c in Nodes(T) || forall m :: m in Nodes(T) ==> !(m.Hash == c.Hash && f(m.Key, c.Key) == 0) {
          SuccessorIn(f, Seq(T), c);
          forall m | m in Nodes(T)
            ensures c.Hash < m.Hash || (c.Hash == m.Hash && f(c.Key, m.Key) < 0) ==>
                      x != null && (m == x || x.Hash < m.Hash || (x.Hash == m.Hash && f(x.Key, m.Key) < 0))
          {
            AfterMeans(f, Seq(T), c.Key, c.Hash, m);
          }
        }
      }
    }

    lemma SuccessorIn(f: Order, s: seq<Node>, c: Node)
      requires Sorted(f, s)
      ensures var x := Successor(f, s, Item(c.Hash, c.Key));
              x != null ==> x in s && (c.Hash < x.Hash || (c.Hash == x.Hash && f(c.Key, x.Key) < 0))
    {
      AfterMeans(f, s, c.Key, c.Hash, c);
    }

    /** The part of avl_t_next for a node without a right child. */
    method Climb(x0: Node, ghost c0: Ctx, ghost t0: Tree) returns (x: Node?)
      requires Sound() && Plug(c0, t0) == table.T && t0.Br? && t0.n == x0 && t0.r == Leaf
      requires Height == Depth(c0) <= Stack.Length && Stack[..Height] == Path(c0)
      modifies `Height
      ensures Sound() && Height <= Stack.Length
      ensures x == EntryAfter(Seq(table.T), |Pre(c0)| + |Seq(t0.l)|)
      ensures x != null ==> x in Nodes(table.T) && Stack[..Height] == PathTo(table.T, x)
    {
      hide *;
      assert allocated(Nodes(table.T));
      ghost var i := |Pre(c0)| + |Seq(t0.l)|;
      ghost var c, t := c0, t0;
      x := x0;
      ClimbStart(t0);
      while true
        invariant Sound() && Plug(c, t) == table.T && t.Br? && t.n == x && |Pre(c)| + |Seq(t)| == i + 1
        invariant Height == Depth(c) <= Stack.Length && Stack[..Height] == Path(c)
        decreases Height
      {
        if Height == 0 {
          ClimbedOut(c, t, i);
          x := null;
          return;
        }
        var y := x;
        ClimbOne(c, t, i);
        assert Stack[..Height][Height - 1] == Stack[Height - 1] && Stack[..Height - 1] == Stack[..Height][..Height - 1];
        Height := Height - 1;
        x := Stack[Height];
        c, t := AtTop(c, t);
        if y != x.Link1 {
          return;
        }
      }
    }

    lemma {:induction false} ReadyParts()
      requires Ready()
      ensures Sound() && Height <= Stack.Length && Generation <= table.Generation
      ensures Generation == table.Generation && Cur != null ==>
                Cur in Nodes(table.T) && Stack[..Height] == PathTo(table.T, Cur)
    {
    }

    lemma {:induction false} Here(x: Node) returns (c: Ctx, t: Tree)
      requires Sound() && Height <= Stack.Length && x in Nodes(table.T) && Stack[..Height] == PathTo(table.T, x)
      ensures Plug(c, t) == table.T && t.Br? && t.n == x && Height == Depth(c) <= 30 && Stack[..Height] == Path(c)
      ensures Stack.Length == 32 && (x.Link1 == null <==> t.r == Leaf)
      ensures Successor(table.Compare, Seq(table.T), x.At()) == EntryAfter(Seq(table.T), |Pre(c)| + |Seq(t.l)|)
    {
      hide *;
      SoundParts();
      RootFacts();
      c, t := Unplug(Top, table.T, x);
      EndOf(table.T, c, t);
      SoundAt(c, t);
      PathParts(c);
      SuccessorAt(table.Compare, Seq(table.T), |Pre(c)| + |Seq(t.l)|);
    }

    lemma {:induction false} Here2(x: Node) returns (c: Ctx, t: Tree)
      requires Sound() && Height <= Stack.Length && x in Nodes(table.T) && Stack[..Height] == PathTo(table.T, x)
      ensures Plug(c, t) == table.T && t.Br? && t.n == x && Stack[..Height] == Path(c)
    {
      c, t := Here(x);
    }

    lemma {:induction false} RightOf(c: Ctx, t: Tree) returns (c': Ctx, t': Tree)
      requires Sound() && Plug(c, t) == table.T && t.Br? && t.n.Link1 != null
      ensures Plug(c', t') == table.T && t'.Br? && t'.n == t.n.Link1 && |Pre(c')| == |Pre(c)| + |Seq(t.l)| + 1
      ensures Depth(c') == Depth(c) + 1 && Path(c') == Path(c) + [t.n]
    {
      SoundAt(c, t);
      c', t' := Down(c, t.n, true, t.l), t.r;
    }

    lemma {:induction false} NextBelow(c: Ctx, t: Tree, i: nat)
      requires Plug(c, t) == table.T && t.Br? && t.l == Leaf && |Pre(c)| == i + 1 && Sound()
      ensures t.n == EntryAfter(Seq(table.T), i)
    {
      EndOf(table.T, c, t);
    }

    lemma {:induction false} ClimbStart(t: Tree)
      requires t.Br? && t.r == Leaf
      ensures |Seq(t)| == |Seq(t.l)| + 1
    {
    }

    lemma {:induction false} ClimbedOut(c: Ctx, t: Tree, i: nat)
      requires Plug(c, t) == table.T && Depth(c) == 0 && |Pre(c)| + |Seq(t)| == i + 1
      ensures EntryAfter(Seq(table.T), i) == null
    {
    }

    lemma {:induction false} ClimbOne(c: Ctx, t: Tree, i: nat)
      requires Sound() && Plug(c, t) == table.T && t.Br? && Depth(c) > 0 && |Pre(c)| + |Seq(t)| == i + 1
      ensures c.Down? && |Path(c)| == Depth(c) && Path(c)[Depth(c) - 1] == c.n
      ensures var g := Join(c.n, c.dir, t, c.other);
              && Plug(c.up, g) == table.T && g.Br? && g.n == c.n
              && (c.n.Link1 == t.n <==> c.dir)
              && (c.dir ==> |Pre(c.up)| + |Seq(g)| == i + 1)
              && (!c.dir ==>
                  c.n == EntryAfter(Seq(table.T), i) && PathTo(table.T, c.n) == Path(c.up) && c.n in Nodes(table.T))
    {
      hide *;
      SoundParts();
      assert c.Down? by {
        AtTopDepth(c);
      }
      PathTop(c);
      var g := Upward(table.T, c, t, i);
      SoundAt(c.up, g);
      EndOf(table.T, c.up, g);
      AtIndex(Seq(table.T), i);
    }

    lemma {:induction false} SoundParts()
      requires Sound()
      ensures Distinct(table.T) && Sorted(table.Compare, Seq(table.T))
    {
    }

    lemma {:induction false} ResumedNext(cur: Node?)
      requires Sound() && (cur != null ==> CanResume(table.Compare, table.T, cur))
      requires (Cur == cur && (cur != null ==> cur in Nodes(table.T))) || Cur == Resumed(table.Compare, table.T, cur)
      ensures cur == null ==> Cur == null
      ensures cur != null && Cur == null ==> NextFrom(table.Compare, table.T, cur) == FirstOfSeq(Seq(table.T))
      ensures cur != null && Cur != null ==>
                NextFrom(table.Compare, table.T, cur) == Successor(table.Compare, Seq(table.T), Cur.At())
    {
      if cur != null && cur !in Nodes(table.T) && table.T.Br? {
        SuccessorAt(table.Compare, Seq(table.T), Rank(table.Compare, Seq(table.T), cur.At()) - 1);
      }
    }

    lemma {:induction false} MakeSound()
      requires table.Valid() && table.Count < MAX_COUNT && Stack.Length == AVL_MAX_HEIGHT
      ensures Sound()
    {
    }

    lemma {:induction false} RootFacts()
      requires Sound()
      ensures table.Root == RootOf(table.T) && Plug(Top, table.T) == table.T && Depth(Top) == 0 && Path(Top) == []
              && Pre(Top) == []
      ensures table.Root == null ==> table.T == Leaf && FirstOfSeq(Seq(table.T)) == null
      ensures table.Root != null ==> table.T.Br? && table.T.n == table.Root
    {
    }

    lemma {:induction false} LeftmostIsFirst(c: Ctx, t: Tree)
      requires Plug(c, t) == table.T && t.Br? && t.l == Leaf && Pre(c) == []
      ensures t.n == FirstOfSeq(Seq(table.T))
    {
      PlugSeq(c, t);
    }

    lemma {:induction false} MakeReady(c: Ctx, t: Tree)
      requires Sound() && Height <= Stack.Length && Generation <= table.Generation
      requires Cur != null ==> Plug(c, t) == table.T && t.Br? && t.n == Cur && Stack[..Height] == Path(c)
      ensures Ready()
    {
      if Cur != null {
        EndOf(table.T, c, t);
      }
    }

    /** What a node on a path knows of its links. */
    lemma {:induction false} SoundAt(c: Ctx, t: Tree)
      requires Sound() && Plug(c, t) == table.T && t.Br?
      ensures Depth(c) <= 30 && Stack.Length == 32
      ensures t.n.Link0 == RootOf(t.l) && t.n.Link1 == RootOf(t.r)
      ensures (t.n.Link0 == null <==> t.l == Leaf) && (t.n.Link1 == null <==> t.r == Leaf)
    {
      PlugRep(c, t);
      PlugHeight(c, t);
      HeightBound(table.T);
    }

    lemma {:induction false} LeftOf(c: Ctx, t: Tree) returns (c': Ctx, t': Tree)
      requires Sound() && Plug(c, t) == table.T && t.Br? && t.n.Link0 != null
      ensures Plug(c', t') == table.T && t'.Br? && t'.n == t.n.Link0 && Pre(c') == Pre(c)
      ensures Depth(c') == Depth(c) + 1 && Path(c') == Path(c) + [t.n] && t' < t
      ensures t'.n.Link0 == null <==> t'.l == Leaf
    {
      SoundAt(c, t);
      c', t' := Down(c, t.n, false, t.r), t.l;
      SoundAt(c', t');
    }
  }

  /** The entry behind entry `i`. */
  ghost function EntryAfter(s: seq<Node>, i: nat): Node? {
    if i + 1 < |s| then s[i + 1] else null
  }

  lemma {:induction false} AtTopDepth(c: Ctx)
    ensures c.Down? <==> Depth(c) > 0
  {
  }

  lemma {:induction false} AtIndex(s: seq<Node>, i: nat)
    ensures i + 1 < |s| ==> EntryAfter(s, i) == s[i + 1]
  {
  }

  /** One step up from a subtree whose last entry is entry `i`. */
  lemma {:induction false} Upward(T: Tree, c: Ctx, t: Tree, i: nat) returns (g: Tree)
    requires Plug(c, t) == T && Distinct(T) && c.Down? && t.Br? && |Pre(c)| + |Seq(t)| == i + 1
    ensures g == Join(c.n, c.dir, t, c.other) && Plug(c.up, g) == T && g.Br? && g.n == c.n
    ensures RootOf(g.r) == t.n <==> c.dir
    ensures c.dir ==> |Pre(c.up)| + |Seq(g)| == i + 1
    ensures !c.dir ==> |Pre(c.up)| + |Seq(g.l)| == i + 1
  {
    g := Join(c.n, c.dir, t, c.other);
    PlugDistinct(c.up, g);
    hide Plug, CtxNodes, CtxDistinct;
    BrDistinct(g);
    BrDistinct(t);
    if g.r.Br? {
      BrDistinct(g.r);
    }
  }

  lemma {:induction false} SuccessorAt(f: Order, s: seq<Node>, i: nat)
    requires Sorted(f, s) && i < |s|
    ensures Successor(f, s, s[i].At()) == EntryAfter(s, i)
  {
    CmpSym(f, s[i].At(), s[i].At());
    RankHit(f, s, i, s[i].At());
  }

  /** Where the search for a cursor's node stands. */
  ghost predicate Seeking(f: Order, T: Tree, node: Node, c: Ctx, t: Tree) {
    && Plug(c, t) == T && Sorted(f, Seq(T)) && Distinct(T)
    && AllBefore(f, Pre(c), node.At()) && NoneBefore(f, Post(c), node.At())
    && (node in Nodes(T) ==> node in Nodes(t))
  }

  ghost predicate NoneBefore(f: Order, s: seq<Node>, x: Item) {
    forall i :: 0 <= i < |s| ==> Cmp(f, s[i].At(), x) >= 0
  }

  /** The last node at which a path turned right. */
  ghost function LastRight(c: Ctx): Node? {
    if c.Top? then null else if c.dir then c.n else LastRight(c.up)
  }

  lemma LastOfPre(c: Ctx)
    ensures if Pre(c) == [] then LastRight(c) == null else LastRight(c) == Pre(c)[|Pre(c)| - 1]
  {
  }

  lemma {:induction false} SeqLeaf()
    ensures Seq(Leaf) == [] && Nodes(Leaf) == {} && H(Leaf) == 0
  {
  }

  lemma {:induction false} NotLeaf(c: Ctx, t: Tree)
    requires c.Down?
    ensures Plug(c, t).Br?
  {
    PlugHeight(c, t);
  }

  lemma {:induction false} PathTop(c: Ctx)
    requires c.Down?
    ensures |Path(c)| == Depth(c) > 0 && Path(c)[Depth(c) - 1] == c.n && Path(c)[..Depth(c) - 1] == Path(c.up)
    ensures Depth(c.up) == Depth(c) - 1
  {
    PathParts(c);
    PathParts(c.up);
  }

  /** One step of the search. */
  lemma {:induction false} SeekSide(f: Order, T: Tree, node: Node, c: Ctx, t: Tree, d: bool)
    requires Seeking(f, T, node, c, t) && t.Br? && t.n != node && d == (Cmp(f, node.At(), t.n.At()) > 0)
    ensures Seeking(f, T, node, Down(c, t.n, d, if d then t.l else t.r), if d then t.r else t.l)
  {
    var x, s, k := node.At(), Seq(T), |Pre(c)| + |Seq(t.l)|;
    PlugSeq(c, t);
    Middle(Pre(c), Seq(t.l), t.n, Seq(t.r), Post(c));
    if d {
      TableSpec.Before(f, s, k, x);
    } else {
      NotBefore(f, s, k, x);
    }
    if node in Nodes(t) {
      SideOf(f, T, node, c, t);
    }
  }

  lemma {:induction false} NotBefore(f: Order, s: seq<Node>, k: nat, x: Item)
    requires Sorted(f, s) && k < |s| && Cmp(f, x, s[k].At()) <= 0
    ensures NoneBefore(f, s[k..], x)
  {
    var q := s[k..];
    forall i | 0 <= i < |q| ensures Cmp(f, q[i].At(), x) >= 0 {
      CmpSym(f, x, q[i].At());
      if 0 < i {
        CmpTrans(f, x, s[k].At(), q[i].At());
      }
    }
  }

  lemma {:induction false} SideOf(f: Order, T: Tree, node: Node, c: Ctx, t: Tree)
    requires Plug(c, t) == T && Sorted(f, Seq(T)) && t.Br? && node in Nodes(t) && node != t.n
    ensures Cmp(f, node.At(), t.n.At()) > 0 ==> node in Nodes(t.r)
    ensures Cmp(f, node.At(), t.n.At()) <= 0 ==> node in Nodes(t.l)
  {
    var a, b, d, e := Pre(c), Seq(t.l), Seq(t.r), Post(c);
    PlugSeq(c, t);
    SeqNodes(t.l);
    SeqNodes(t.r);
    assert Seq(T) == a + (b + [t.n] + d) + e;
    hide Seq, Plug, Pre, Post, Sorted, Cmp;
    if node in Nodes(t.l) {
      var i :| 0 <= i < |b| && b[i] == node;
      LeftBefore(f, a, b, t.n, d, e, i);
    } else {
      var i :| 0 <= i < |d| && d[i] == node;
      RightAfter(f, a, b, t.n, d, e, i);
    }
  }

  lemma {:induction false} LeftBefore(f: Order, a: seq<Node>, b: seq<Node>, n: Node, d: seq<Node>, e: seq<Node>, i: nat)
    requires Sorted(f, a + (b + [n] + d) + e) && i < |b|
    ensures Cmp(f, b[i].At(), n.At()) < 0
  {
    hide Cmp;
    var s := a + (b + [n] + d) + e;
    assert s[|a| + i] == b[i] && s[|a| + |b|] == n;
  }

  lemma {:induction false} RightAfter(f: Order, a: seq<Node>, b: seq<Node>, n: Node, d: seq<Node>, e: seq<Node>, i: nat)
    requires Sorted(f, a + (b + [n] + d) + e) && i < |d|
    ensures Cmp(f, d[i].At(), n.At()) > 0
  {
    hide Cmp;
    var s := a + (b + [n] + d) + e;
    assert s[|a| + |b| + 1 + i] == d[i] && s[|a| + |b|] == n;
    CmpSym(f, n.At(), d[i].At());
  }

  /** The node at the end of a path, and the path to it. */
  lemma {:induction false} EndOf(T: Tree, c: Ctx, t: Tree)
    requires Plug(c, t) == T && t.Br? && Distinct(T)
    ensures t.n in Nodes(T) && PathTo(T, t.n) == Path(c)
    ensures var i := |Pre(c)| + |Seq(t.l)|; i < |Seq(T)| && Seq(T)[i] == t.n
  {
    PlugDistinct(c, t);
    PathToBelow(c, t, t.n);
    PlugSeq(c, t);
    Middle(Pre(c), Seq(t.l), t.n, Seq(t.r), Post(c));
  }

  // ----- what a whole run of the table means for a cursor -----

  /** One moment of a table: its tree and its generation. */
  datatype Moment = Moment(T: Tree, g: nat)

  /** What Probe and Delete promise of every step, and a change of value too. */
  ghost predicate Run(ms: seq<Moment>) {
    forall i :: 0 <= i < |ms| - 1 ==> Kept(ms[i].T, ms[i].g, ms[i + 1].T, ms[i + 1].g)
  }

  /** Whatever the table does, a cursor that was in step stays in step without
      being touched: either it sees that the generation moved on, or its stack
      is still the path to its node. */
  lemma {:induction false} RunInStep(ms: seq<Moment>, cur: Node?, stack: seq<Node?>, seen: nat)
    requires ms != [] && Run(ms) && InStep(ms[0].T, ms[0].g, cur, stack, seen)
    ensures InStep(ms[|ms| - 1].T, ms[|ms| - 1].g, cur, stack, seen)
  {
    if |ms| > 1 {
      var k := |ms| - 2;
      RunInStep(ms[..k + 1], cur, stack, seen);
      assert ms[..k + 1][k] == ms[k];
      assert Kept(ms[k].T, ms[k].g, ms[k + 1].T, ms[k + 1].g);
    }
  }

  /** A cursor goes to the least key greater than its own, exactly as long as
      its node is in the table or its key is not: a key that was deleted and put
      back since is visited again. */
  lemma {:induction false} NextIsLeastGreater(f: Order, T: Tree, cur: Node)
    requires Sorted(f, Seq(T))
    ensures NextFrom(f, T, cur) == Successor(f, Seq(T), cur.At()) <==> cur in Nodes(T) || !Has(f, Seq(T), cur.At())
    ensures cur !in Nodes(T) && Has(f, Seq(T), cur.At()) ==> NextFrom(f, T, cur) == Lookup(f, Seq(T), cur.At())
  {
    var s, r := Seq(T), Rank(f, Seq(T), cur.At());
    if cur !in Nodes(T) && Has(f, s, cur.At()) && r + 1 < |s| && s[r + 1] == s[r] {
      CmpSym(f, s[r].At(), s[r + 1].At());
    }
  }

  /** The search for a deleted node ends below a right turn exactly when a
      smaller key remains.  Otherwise the pop loop looks for null on a stack
      that holds nodes only. */
  lemma {:induction false} NoStop(f: Order, T: Tree, node: Node, c: Ctx)
    requires Seeking(f, T, node, c, Leaf) && c.Down?
    ensures LastRight(c) == null <==> Rank(f, Seq(T), node.At()) == 0
    ensures LastRight(c) == null <==> !CanResume(f, T, node)
  {
    hide Cmp, Rank, Distinct, Rep, Nodes, Sorted;
    PlugSeq(c, Leaf);
    SeqLeaf();
    assert Pre(c) + [] + Post(c) == Pre(c) + Post(c);
    RankSplit(f, Pre(c), Post(c), node.At());
    LastOfPre(c);
    NotLeaf(c, Leaf);
  }
}
