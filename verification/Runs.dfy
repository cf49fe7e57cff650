/** Whole runs of a table with a cursor on it: any sequence of avl_probe and
    avl_delete, and then avl_t_next (dev/src/lib/Agg/Table.c). */
module TableRuns {
  import opened AvlTree
  import opened Options
  import opened TableSpec
  import opened Table
  import opened Traverser

  datatype Op = OpProbe(key: Obj, hash: nat) | OpDelete(key: Obj, hash: nat)

  function Target(op: Op): Item {
    Item(op.hash, op.key)
  }

  predicate Touches(f: Order, op: Op, w: Item) {
    Cmp(f, w, Target(op)) == 0
  }

  /** Whether key `w` is in a table after a run, if `before` says whether it was:
      the last operation on the key decides. */
  predicate Present(f: Order, before: bool, ops: seq<Op>, w: Item) {
    if ops == [] then before
    else
      var op := ops[|ops| - 1];
      if Touches(f, op, w) then op.OpProbe? else Present(f, before, ops[..|ops| - 1], w)
  }

  /** No deletion of key `w`. */
  predicate Spared(f: Order, ops: seq<Op>, w: Item) {
    forall i :: 0 <= i < |ops| && ops[i].OpDelete? ==> !Touches(f, ops[i], w)
  }

  /** A key is present if the last operation on its hash and key put it there, or if
      there was none and it was there before. */
  lemma {:induction false} PresentMeans(f: Order, before: bool, ops: seq<Op>, w: Item)
    ensures Present(f, before, ops, w) <==>
            || (exists i :: 0 <= i < |ops| && ops[i].OpProbe? && ops[i].hash == w.hash && f(w.key, ops[i].key) == 0
                            && forall j :: i < j < |ops| ==> !(ops[j].hash == w.hash && f(w.key, ops[j].key) == 0))
            || (before && forall j :: 0 <= j < |ops| ==> !(ops[j].hash == w.hash && f(w.key, ops[j].key) == 0))
  {
    if ops != [] {
      var k := |ops| - 1;
      var op, rest := ops[k], ops[..k];
      CmpMeans(f, w, Target(op));
      PresentMeans(f, before, rest, w);
      hide Cmp;
      if !Touches(f, op, w) {
        assert forall i :: 0 <= i < k ==> rest[i] == ops[i];
      }
    }
  }

  // ----- one operation -----

  lemma {:induction false} HasIsLookup(f: Order, s: seq<Node>, x: Item)
    ensures Has(f, s, x) <==> Lookup(f, s, x) != null
  {
  }

  /** What an operation leaves of the table `s`. */
  ghost predicate After(f: Order, op: Op, s: seq<Node>, s': seq<Node>) {
    var r := Rank(f, s, Target(op));
    if op.OpProbe? then
      if Has(f, s, Target(op)) then s' == s
      else r < |s'| && s'[r].At() == Target(op) && s' == Inserted(s, r, s'[r])
    else
      if Has(f, s, Target(op)) then s' == Removed(s, r) else s' == s
  }

  lemma {:induction false} HasAfter(f: Order, op: Op, s: seq<Node>, s': seq<Node>, w: Item)
    requires Sorted(f, s) && After(f, op, s, s')
    ensures Has(f, s', w) <==> if Touches(f, op, w) then op.OpProbe? else Has(f, s, w)
  {
    var x := Target(op);
    hide Cmp, Rank, Inserted, Removed, Sorted;
    HasIsLookup(f, s, w);
    HasIsLookup(f, s', w);
    if op.OpProbe? && !Has(f, s, x) {
      LookupInserted(f, s, x, s'[Rank(f, s, x)], w);
    } else if op.OpDelete? && Has(f, s, x) {
      LookupRemoved(f, s, x, w);
    } else if Touches(f, op, w) {
      HasSame(f, s, w, x);
    }
  }

  lemma {:induction false} HasSame(f: Order, s: seq<Node>, w: Item, x: Item)
    requires Sorted(f, s) && Cmp(f, w, x) == 0
    ensures Has(f, s, w) <==> Has(f, s, x)
  {
    LookupMeaning(f, s, w);
    LookupMeaning(f, s, x);
    forall n | n in s
      ensures Cmp(f, n.At(), w) == 0 <==> Cmp(f, n.At(), x) == 0
    {
      CmpSame(f, w, x, n.At());
      CmpSym(f, w, n.At());
      CmpSym(f, x, n.At());
    }
    hide Cmp, Rank, Sorted;
    HasIsLookup(f, s, w);
    HasIsLookup(f, s, x);
  }

  /** A node stays unless its key is deleted. */
  lemma {:induction false} StaysAfter(f: Order, op: Op, s: seq<Node>, s': seq<Node>, n: Node)
    requires Sorted(f, s) && After(f, op, s, s') && n in s
    requires op.OpDelete? ==> !Touches(f, op, n.At())
    ensures n in s'
  {
    var x, r := Target(op), Rank(f, s, Target(op));
    hide Cmp, Rank, Inserted, Removed, Sorted;
    if op.OpProbe? && !Has(f, s, x) {
      InsertedMembers(s, r, s'[r]);
    } else if op.OpDelete? && Has(f, s, x) {
      RemovedMembers(f, s, r);
      CmpSym(f, s[r].At(), x);
    }
  }

  /** One call. */
  method Do(cur: Cursor, op: Op)
    requires cur.Ready() && cur.table.Count + 1 < MAX_COUNT
    modifies cur.table, Nodes(cur.table.T)`Link0, Nodes(cur.table.T)`Link1, Nodes(cur.table.T)`Balance
    ensures cur.Ready() && cur.table.Count <= old(cur.table.Count) + 1
    ensures After(cur.table.Compare, op, old(Seq(cur.table.T)), Seq(cur.table.T))
    ensures forall n :: n in Nodes(cur.table.T) ==> n in old(Nodes(cur.table.T)) || fresh(n)
  {
    hide *;
    var t := cur.table;
    assert allocated(Nodes(t.T));
    ghost var T0, g0 := t.T, t.Generation;
    InStepNow(cur);
    TargetIs(op);
    match op {
      case OpProbe(key, hash) =>
        var slot;
        ghost var upper, lower;
        slot, upper, lower := t.Probe(key, hash);
        AtIs(slot);
        ProbeAfter(t.Compare, op, Seq(T0), Seq(t.T), slot);
      case OpDelete(key, hash) =>
        var data := t.Delete(key, hash);
        DeleteAfter(t.Compare, op, Seq(T0), Seq(t.T));
    }
    ReadyAgain(cur, T0, g0);
    SortedNow(t);
    forall n | n in Nodes(t.T)
      ensures n in Nodes(T0) || fresh(n)
    {
      SeqNodes(T0);
      SeqNodes(t.T);
    }
  }

  lemma {:induction false} TargetIs(op: Op)
    ensures Target(op) == Item(op.hash, op.key)
  {
  }

  lemma {:induction false} AtIs(n: Node)
    ensures n.At() == Item(n.Hash, n.Key)
  {
  }

  lemma {:induction false} InStepNow(cur: Cursor)
    requires cur.Ready()
    ensures cur.table.Valid() && cur.table.Count < MAX_COUNT && cur.Height <= cur.Stack.Length == 32
    ensures Sorted(cur.table.Compare, Seq(cur.table.T))
    ensures InStep(cur.table.T, cur.table.Generation, cur.Cur, cur.Stack[..cur.Height], cur.Generation)
  {
  }

  lemma {:induction false} ReadyAgain(cur: Cursor, T0: Tree, g0: nat)
    requires cur.table.Valid() && cur.table.Count < MAX_COUNT && cur.Height <= cur.Stack.Length == 32
    requires InStep(T0, g0, cur.Cur, cur.Stack[..cur.Height], cur.Generation)
    requires Kept(T0, g0, cur.table.T, cur.table.Generation)
    ensures cur.Ready()
  {
  }

  lemma {:induction false} SortedNow(t: Table)
    requires t.Valid()
    ensures Sorted(t.Compare, Seq(t.T))
  {
  }

  lemma {:induction false} ProbeAfter(f: Order, op: Op, s: seq<Node>, s': seq<Node>, slot: Node)
    requires op.OpProbe? && (Has(f, s, Target(op)) ==> s' == s)
    requires !Has(f, s, Target(op)) ==> slot.At() == Target(op) && s' == Inserted(s, Rank(f, s, Target(op)), slot)
    ensures After(f, op, s, s')
    ensures forall n :: n in s' ==> n in s || (!Has(f, s, Target(op)) && n == slot)
  {
    hide Cmp, Rank;
    InsertedMembers(s, Rank(f, s, Target(op)), slot);
  }

  lemma {:induction false} DeleteAfter(f: Order, op: Op, s: seq<Node>, s': seq<Node>)
    requires op.OpDelete? && (!Has(f, s, Target(op)) ==> s' == s)
    requires Has(f, s, Target(op)) ==> s' == Removed(s, Rank(f, s, Target(op)))
    ensures After(f, op, s, s')
    ensures forall n :: n in s' ==> n in s
  {
    hide Cmp;
  }

  // ----- whole runs -----

  /** What is known of a table after the operations `ops` on it. */
  ghost predicate Ran(f: Order, T0: Tree, ops: seq<Op>, T: Tree) {
    && (forall w: Item :: Has(f, Seq(T), w) <==> Present(f, Has(f, Seq(T0), w), ops, w))
    && (forall n :: n in Nodes(T0) && Spared(f, ops, n.At()) ==> n in Nodes(T))
  }

  lemma {:induction false} RanNone(f: Order, T: Tree)
    ensures Ran(f, T, [], T)
  {
  }

  lemma {:induction false} RanMore(f: Order, T0: Tree, ops: seq<Op>, T: Tree, op: Op, T': Tree)
    requires Ran(f, T0, ops, T) && Sorted(f, Seq(T)) && After(f, op, Seq(T), Seq(T'))
    ensures Ran(f, T0, ops + [op], T')
  {
    hide Cmp, Rank, Has, After, Sorted, Touches;
    assert (ops + [op])[..|ops|] == ops;
    forall w: Item
      ensures Has(f, Seq(T'), w) <==> Present(f, Has(f, Seq(T0), w), ops + [op], w)
    {
      HasAfter(f, op, Seq(T), Seq(T'), w);
    }
    forall n | n in Nodes(T0) && Spared(f, ops + [op], n.At())
      ensures n in Nodes(T')
    {
      SparedMore(f, ops, op, n.At());
      SeqNodes(T);
      SeqNodes(T');
      StaysAfter(f, op, Seq(T), Seq(T'), n);
    }
  }

  lemma {:induction false} SparedMore(f: Order, ops: seq<Op>, op: Op, w: Item)
    requires Spared(f, ops + [op], w)
    ensures Spared(f, ops, w) && (op.OpDelete? ==> !Touches(f, op, w))
  {
    var all := ops + [op];
    assert all[|ops|] == op;
    assert forall i :: 0 <= i < |ops| ==> all[i] == ops[i];
  }

  /** Any operations, one after the other, with a cursor looking on: the cursor
      stays ready, and a key is in the table if the last operation on it put it
      there. */
  method Perform(cur: Cursor, ops: seq<Op>)
    requires cur.Ready() && cur.table.Count + |ops| < MAX_COUNT
    modifies cur.table, Nodes(cur.table.T)`Link0, Nodes(cur.table.T)`Link1, Nodes(cur.table.T)`Balance
    ensures cur.Ready() && Ran(cur.table.Compare, old(cur.table.T), ops, cur.table.T)
    ensures cur.table.Count <= old(cur.table.Count) + |ops|
    ensures forall n :: n in Nodes(cur.table.T) ==> n in old(Nodes(cur.table.T)) || fresh(n)
  {
    hide *;
    var t := cur.table;
    ghost var T0 := t.T;
    assert allocated(Nodes(T0));
    RanNone(t.Compare, T0);
    assert ops[..0] == [];
    for i := 0 to |ops|
      invariant cur.Ready() && t.Count <= old(t.Count) + i
      invariant Ran(t.Compare, T0, ops[..i], t.T)
      invariant forall n :: n in Nodes(t.T) ==> n in Nodes(T0) || fresh(n)
    {
      ghost var T := t.T;
      InStepNow(cur);
      Do(cur, ops[i]);
      RanMore(t.Compare, T0, ops[..i], T, ops[i], t.T);
      assert ops[..i + 1] == ops[..i] + [ops[i]];
    }
    assert ops[..|ops|] == ops;
  }

  /** After the run, the place of a cursor at `x` can be found again: its node was
      spared, or no key is left, or a smaller one is. */
  ghost predicate Findable(f: Order, T: Tree, x: Node, ops: seq<Op>) {
    || (x in Nodes(T) && Spared(f, ops, x.At()))
    || (forall w: Item :: !Present(f, Has(f, Seq(T), w), ops, w))
    || (exists w: Item :: Cmp(f, w, x.At()) < 0 && Present(f, Has(f, Seq(T), w), ops, w))
  }

  lemma {:induction false} CanFind(f: Order, T0: Tree, ops: seq<Op>, T: Tree, x: Node)
    requires Ran(f, T0, ops, T) && Sorted(f, Seq(T)) && Findable(f, T0, x, ops)
    ensures CanResume(f, T, x)
  {
    hide Cmp, Rank, Has, Present, Spared, Sorted;
    if w: Item :| Cmp(f, w, x.At()) < 0 && Present(f, Has(f, Seq(T0), w), ops, w) {
      SmallerRanks(f, Seq(T), w, x.At());
    } else if T.Br? && !(x in Nodes(T0) && Spared(f, ops, x.At())) {
      NodeFound(f, T);
    }
  }

  lemma {:induction false} SmallerRanks(f: Order, s: seq<Node>, w: Item, x: Item)
    requires Sorted(f, s) && Has(f, s, w) && Cmp(f, w, x) < 0
    ensures Rank(f, s, x) > 0
  {
    RankCuts(f, s, x);
    var r := Rank(f, s, w);
    CmpTrans(f, s[r].At(), w, x);
  }

  lemma {:induction false} NodeFound(f: Order, T: Tree)
    requires T.Br? && Sorted(f, Seq(T))
    ensures Has(f, Seq(T), T.n.At())
  {
    SeqNodes(T);
    CmpSym(f, T.n.At(), T.n.At());
    LookupMeaning(f, Seq(T), T.n.At());
  }

  /** The cursor of a table under any run of insertions and deletions: the next
      node is the one with the least key greater than the cursor's own that the
      run has left in the table, unless the cursor's key was put back by another
      node, which is then visited. */
  method PerformAndNext(cur: Cursor, ops: seq<Op>) returns (x: Node?)
    requires cur.Ready() && cur.Cur != null && cur.table.Count + |ops| < MAX_COUNT
    requires Findable(cur.table.Compare, cur.table.T, cur.Cur, ops)
    modifies cur, cur.Stack
    modifies cur.table, Nodes(cur.table.T)`Link0, Nodes(cur.table.T)`Link1, Nodes(cur.table.T)`Balance
    ensures cur.Ready() && cur.Cur == x && Ran(cur.table.Compare, old(cur.table.T), ops, cur.table.T)
    ensures x == NextFrom(cur.table.Compare, cur.table.T, old(cur.Cur))
    ensures x != null ==> x in Nodes(cur.table.T)
  {
    hide *;
    var t := cur.table;
    ghost var T0 := t.T;
    Perform(cur, ops);
    InStepNow(cur);
    CanFind(t.Compare, T0, ops, t.T, cur.Cur);
    x := cur.Next();
    InStepNow(cur);
  }

  /** What that node is, in terms of the run alone. */
  lemma {:induction false} NextIsLeastPresent(f: Order, T0: Tree, ops: seq<Op>, T: Tree, cur: Node, x: Node?)
    requires Ran(f, T0, ops, T) && Sorted(f, Seq(T)) && x == NextFrom(f, T, cur)
    requires cur in Nodes(T) || !Present(f, Has(f, Seq(T0), cur.At()), ops, cur.At())
    ensures x == null ==>
              forall w: Item :: Cmp(f, w, cur.At()) > 0 ==> !Present(f, Has(f, Seq(T0), w), ops, w)
    ensures x != null ==>
              && Cmp(f, x.At(), cur.At()) > 0 && Present(f, Has(f, Seq(T0), x.At()), ops, x.At())
              && forall w: Item :: Cmp(f, w, cur.At()) > 0 && Present(f, Has(f, Seq(T0), w), ops, w) ==>
                                   Cmp(f, x.At(), w) <= 0
  {
    var s := Seq(T);
    NextIsLeastGreater(f, T, cur);
    SuccessorMeaning(f, s, cur.At());
    hide Present, Sorted, Successor;
    if x != null {
      CmpSym(f, x.At(), x.At());
      LookupMeaning(f, s, x.At());
    }
    forall w: Item | Cmp(f, w, cur.At()) > 0 && Present(f, Has(f, Seq(T0), w), ops, w)
      ensures x != null && Cmp(f, x.At(), w) <= 0
    {
      assert Has(f, s, w);
      StandsFor(f, s, w, cur.At());
      var n := Lookup(f, s, w);
      if n == x {
        CmpSym(f, w, n.At());
      } else {
        CmpTrans(f, x.At(), n.At(), w);
      }
    }
  }

  /** The node that stands for `w` compares as `w` does. */
  lemma {:induction false} StandsFor(f: Order, s: seq<Node>, w: Item, y: Item)
    requires Sorted(f, s) && Has(f, s, w) && Cmp(f, w, y) > 0
    ensures Lookup(f, s, w) != null && Lookup(f, s, w) in s
    ensures Cmp(f, Lookup(f, s, w).At(), w) == 0 && Cmp(f, Lookup(f, s, w).At(), y) > 0
  {
    LookupMeaning(f, s, w);
    var n := Lookup(f, s, w);
    CmpSym(f, w, y);
    CmpSym(f, n.At(), w);
    CmpTrans(f, y, w, n.At());
    CmpSym(f, y, n.At());
  }

  // ----- the two runs a cursor does not get over -----

  const NUMBERS: Order := (a: Obj, b: Obj) => a - b

  /** A table of the keys 1 and 2, and a cursor on 1. */
  method TwoKeys() returns (cur: Cursor)
    ensures fresh(cur) && fresh(cur.table) && fresh(cur.Stack) && fresh(Nodes(cur.table.T))
    ensures cur.Ready() && cur.table.Compare == NUMBERS && cur.table.Count <= 2
    ensures forall w: Item :: Has(NUMBERS, Seq(cur.table.T), w) <==> w == Item(0, 1) || w == Item(0, 2)
    ensures cur.Cur != null && cur.Cur.At() == Item(0, 1) && cur.Cur in Nodes(cur.table.T)
  {
    var t := new Table(NUMBERS);
    cur := new Cursor(t);
    assert Nodes(t.T) == {};
    ghost var T0 := t.T;
    var ops := [OpProbe(1, 0), OpProbe(2, 0)];
    EmptyHas(T0);
    hide *;
    Perform(cur, ops);
    InStepNow(cur);
    forall w: Item
      ensures Has(NUMBERS, Seq(t.T), w) <==> w == Item(0, 1) || w == Item(0, 2)
    {
      RanHas(NUMBERS, T0, ops, t.T, w);
      TwoPresent(w);
    }
    FirstIsOne(t.T);
    var x := cur.First(t);
  }

  lemma {:induction false} RanHas(f: Order, T0: Tree, ops: seq<Op>, T: Tree, w: Item)
    requires Ran(f, T0, ops, T)
    ensures Has(f, Seq(T), w) <==> Present(f, Has(f, Seq(T0), w), ops, w)
  {
    hide Has, Present;
  }

  lemma {:induction false} EmptyHas(T: Tree)
    requires T == Leaf
    ensures forall w: Item :: !Has(NUMBERS, Seq(T), w)
  {
  }

  lemma {:induction false} TwoPresent(w: Item)
    ensures Present(NUMBERS, false, [OpProbe(1, 0), OpProbe(2, 0)], w) <==> w == Item(0, 1) || w == Item(0, 2)
  {
    var a, b := OpProbe(1, 0), OpProbe(2, 0);
    TouchNumbers(a, w);
    TouchNumbers(b, w);
    hide Touches, Cmp, NUMBERS;
    assert [a, b][..1] == [a] && [a][..0] == [];
    assert Present(NUMBERS, false, [a], w) <==> Touches(NUMBERS, a, w);
  }

  lemma {:induction false} FirstIsOne(T: Tree)
    requires Sorted(NUMBERS, Seq(T))
    requires forall w: Item :: Has(NUMBERS, Seq(T), w) <==> w == Item(0, 1) || w == Item(0, 2)
    ensures FirstOfSeq(Seq(T)) != null && FirstOfSeq(Seq(T)).At() == Item(0, 1) && FirstOfSeq(Seq(T)) in Nodes(T)
  {
    var s := Seq(T);
    SeqNodes(T);
    assert Has(NUMBERS, s, Item(0, 1));
    CmpSym(NUMBERS, s[0].At(), s[0].At());
    RankHit(NUMBERS, s, 0, s[0].At());
    RankCuts(NUMBERS, s, Item(0, 1));
  }

  lemma {:induction false} Gone(f: Order, op: Op, s: seq<Node>, s': seq<Node>, n: Node)
    requires Sorted(f, s) && op.OpDelete? && After(f, op, s, s') && n in s && n.At() == Target(op)
    ensures n !in s'
  {
    CmpSym(f, n.At(), n.At());
    LookupMeaning(f, s, Target(op));
    RemovedMembers(f, s, Rank(f, s, Target(op)));
  }

  /** The entry after 1. */
  lemma {:induction false} TwoFollows(T: Tree)
    requires Sorted(NUMBERS, Seq(T))
    requires forall w: Item :: Has(NUMBERS, Seq(T), w) <==> w == Item(0, 1) || w == Item(0, 2)
    ensures var x := Successor(NUMBERS, Seq(T), Item(0, 1)); x != null && x.At() == Item(0, 2)
  {
    var s := Seq(T);
    SuccessorMeaning(NUMBERS, s, Item(0, 1));
    assert Has(NUMBERS, s, Item(0, 2));
    LookupMeaning(NUMBERS, s, Item(0, 2));
    var x := Successor(NUMBERS, s, Item(0, 1));
    assert x != null;
    CmpSym(NUMBERS, x.At(), x.At());
    LookupMeaning(NUMBERS, s, x.At());
    assert Has(NUMBERS, s, x.At());
  }

  /** Where a cursor goes whose node is there. */
  lemma {:induction false} FromHere(f: Order, T: Tree, cur: Node)
    requires cur in Nodes(T)
    ensures NextFrom(f, T, cur) == Successor(f, Seq(T), cur.At()) && CanResume(f, T, cur)
  {
    hide Rank, Successor;
  }

  lemma {:induction false} KeysAfter(f: Order, op: Op, s: seq<Node>, s': seq<Node>)
    requires Sorted(f, s) && After(f, op, s, s')
    ensures forall w: Item :: Has(f, s', w) <==> if Touches(f, op, w) then op.OpProbe? else Has(f, s, w)
  {
    hide *;
    forall w: Item
      ensures Has(f, s', w) <==> if Touches(f, op, w) then op.OpProbe? else Has(f, s, w)
    {
      HasAfter(f, op, s, s', w);
    }
  }

  lemma {:induction false} TouchNumbers(op: Op, w: Item)
    ensures Touches(NUMBERS, op, w) <==> w == Target(op)
    ensures Target(op) == Item(op.hash, op.key)
  {
  }

  /** The two keys 1 and 2 are there, and node `two` has the second. */
  ghost predicate Both(T: Tree, two: Node) {
    && (forall w: Item :: Has(NUMBERS, Seq(T), w) <==> w == Item(0, 1) || w == Item(0, 2))
    && two in Nodes(T) && two.At() == Item(0, 2)
  }

  /** A cursor on the key 2. */
  method OnTwo() returns (cur: Cursor, two: Node)
    ensures fresh(cur) && fresh(cur.table) && fresh(cur.Stack) && fresh(Nodes(cur.table.T))
    ensures cur.Ready() && cur.table.Compare == NUMBERS && cur.table.Count <= 2
    ensures cur.Cur == two && Both(cur.table.T, two)
  {
    cur := TwoKeys();
    assert allocated(Nodes(cur.table.T));
    TwoFollows(cur.table.T) by { InStepNow(cur); }
    FromHere(NUMBERS, cur.table.T, cur.Cur);
    hide *;
    two := cur.Next();
  }

  /** The key 2 deleted and put back while the cursor is on it: the next entry is
      the key 2 once more. */
  method VisitsAgain() returns (cur: Cursor, two: Node, x: Node?)
    ensures x != null && x != two && two.At() == x.At() == Item(0, 2)
  {
    cur, two := OnTwo();
    assert MAX_COUNT == 5702886 && two.At() == Item(0, 2);
    hide *;
    var t := cur.table;
    assert allocated(Nodes(t.T));
    ghost var T0 := t.T;
    InStepNow(cur);
    Do(cur, OpDelete(2, 0));
    ghost var T1 := t.T;
    InStepNow(cur);
    Do(cur, OpProbe(2, 0));
    InStepNow(cur);
    PutBack(T0, T1, t.T, two);
    x := cur.Next();
  }

  lemma {:induction false} PutBack(T0: Tree, T1: Tree, T: Tree, two: Node)
    requires Sorted(NUMBERS, Seq(T0)) && Sorted(NUMBERS, Seq(T1)) && Sorted(NUMBERS, Seq(T)) && Both(T0, two)
    requires After(NUMBERS, OpDelete(2, 0), Seq(T0), Seq(T1)) && After(NUMBERS, OpProbe(2, 0), Seq(T1), Seq(T))
    requires two !in Nodes(T1) ==> two !in Nodes(T)
    ensures CanResume(NUMBERS, T, two)
    ensures var x := NextFrom(NUMBERS, T, two); x != null && x != two && x.At() == Item(0, 2)
  {
    var del, put, one, w := OpDelete(2, 0), OpProbe(2, 0), Item(0, 1), Item(0, 2);
    var s := Seq(T);
    assert Has(NUMBERS, Seq(T0), one);
    assert two.At() == w && Target(del) == Target(put) == w;
    SeqNodes(T0);
    SeqNodes(T1);
    Gone(NUMBERS, del, Seq(T0), Seq(T1), two);
    KeysAfter(NUMBERS, del, Seq(T0), Seq(T1));
    KeysAfter(NUMBERS, put, Seq(T1), s);
    TouchNumbers(del, one);
    TouchNumbers(put, one);
    TouchNumbers(put, w);
    assert Cmp(NUMBERS, one, w) < 0;
    SmallerRanks(NUMBERS, s, one, w);
    NextIsLeastGreater(NUMBERS, T, two);
    LookupMeaning(NUMBERS, s, w);
    SeqNodes(T);
    OnlyEqual(s, w);
  }

  lemma {:induction false} OnlyEqual(s: seq<Node>, w: Item)
    requires Sorted(NUMBERS, s) && Has(NUMBERS, s, w)
    ensures Lookup(NUMBERS, s, w) != null && Lookup(NUMBERS, s, w) in s && Lookup(NUMBERS, s, w).At() == w
  {
    LookupMeaning(NUMBERS, s, w);
  }

  /** The key 1 deleted while the cursor is on it: no smaller key remains, and the
      search of trav_refresh finds no node to stop at. */
  method NoSmallerKey() returns (cur: Cursor)
    ensures cur.Ready() && cur.Cur != null && !CanResume(NUMBERS, cur.table.T, cur.Cur)
  {
    cur := TwoKeys();
    assert MAX_COUNT == 5702886;
    hide *;
    assert allocated(Nodes(cur.table.T));
    ghost var T0 := cur.table.T;
    InStepNow(cur);
    Do(cur, OpDelete(1, 0));
    InStepNow(cur);
    LeastGone(T0, cur.table.T, cur.Cur);
  }

  lemma {:induction false} LeastGone(T0: Tree, T: Tree, one: Node)
    requires Sorted(NUMBERS, Seq(T0)) && Sorted(NUMBERS, Seq(T)) && one in Nodes(T0) && one.At() == Item(0, 1)
    requires forall w: Item :: Has(NUMBERS, Seq(T0), w) <==> w == Item(0, 1) || w == Item(0, 2)
    requires After(NUMBERS, OpDelete(1, 0), Seq(T0), Seq(T))
    ensures !CanResume(NUMBERS, T, one)
  {
    var del, s := OpDelete(1, 0), Seq(T);
    assert Has(NUMBERS, Seq(T0), Item(0, 2));
    SeqNodes(T0);
    SeqNodes(T);
    Gone(NUMBERS, del, Seq(T0), s, one);
    KeysAfter(NUMBERS, del, Seq(T0), s);
    TouchNumbers(del, Item(0, 2));
    assert Has(NUMBERS, s, Item(0, 2));
    RankCuts(NUMBERS, s, Item(0, 1));
    if Rank(NUMBERS, s, Item(0, 1)) > 0 {
      CmpSym(NUMBERS, s[0].At(), s[0].At());
      RankHit(NUMBERS, s, 0, s[0].At());
      TouchNumbers(del, s[0].At());
    }
  }
}
