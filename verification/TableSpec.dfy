/** What the operations of a table mean, on the sequence of its nodes in order. */
module TableSpec {
  import opened AvlTree

  ghost predicate Sorted(f: Order, s: seq<Node>) {
    forall i, j :: 0 <= i < j < |s| ==> Cmp(f, s[i].At(), s[j].At()) < 0
  }

  /** How many leading nodes come before `x`. */
  ghost function Rank(f: Order, s: seq<Node>, x: Item): (r: nat)
    ensures r <= |s|
  {
    if s == [] || Cmp(f, s[0].At(), x) >= 0 then 0 else 1 + Rank(f, s[1..], x)
  }

  ghost predicate Has(f: Order, s: seq<Node>, x: Item) {
    var r := Rank(f, s, x);
    r < |s| && Cmp(f, s[r].At(), x) == 0
  }

  /** The node that stands for `x`. */
  ghost function Lookup(f: Order, s: seq<Node>, x: Item): Node? {
    if Has(f, s, x) then s[Rank(f, s, x)] else null
  }

  /** The least node after `x`. */
  ghost function Successor(f: Order, s: seq<Node>, x: Item): Node? {
    var r := Rank(f, s, x) + if Has(f, s, x) then 1 else 0;
    if r < |s| then s[r] else null
  }

  ghost function Inserted(s: seq<Node>, i: nat, n: Node): seq<Node>
    requires i <= |s|
  {
    s[..i] + [n] + s[i..]
  }

  ghost function Removed(s: seq<Node>, i: nat): seq<Node>
    requires i < |s|
  {
    s[..i] + s[i + 1..]
  }

  ghost predicate AllBefore(f: Order, s: seq<Node>, x: Item) {
    forall i :: 0 <= i < |s| ==> Cmp(f, s[i].At(), x) < 0
  }

  ghost predicate AllAfter(f: Order, s: seq<Node>, x: Item) {
    forall i :: 0 <= i < |s| ==> Cmp(f, x, s[i].At()) < 0
  }

  // ----- meaning of Rank, Lookup and Successor -----

  lemma {:induction false} RankSplit(f: Order, pre: seq<Node>, post: seq<Node>, x: Item)
    requires AllBefore(f, pre, x)
    requires post == [] || Cmp(f, post[0].At(), x) >= 0
    ensures Rank(f, pre + post, x) == |pre|
  {
    if pre == [] {
      assert pre + post == post;
    } else {
      assert (pre + post)[1..] == pre[1..] + post;
      RankSplit(f, pre[1..], post, x);
    }
  }

  lemma RankMiss(f: Order, pre: seq<Node>, post: seq<Node>, x: Item)
    requires AllBefore(f, pre, x) && AllAfter(f, post, x)
    ensures Rank(f, pre + post, x) == |pre| && !Has(f, pre + post, x)
  {
    if post != [] {
      CmpSym(f, x, post[0].At());
    }
    RankSplit(f, pre, post, x);
  }

  lemma RankHit(f: Order, s: seq<Node>, i: nat, x: Item)
    requires Sorted(f, s) && i < |s| && Cmp(f, x, s[i].At()) == 0
    ensures Rank(f, s, x) == i && Has(f, s, x)
  {
    CmpSym(f, x, s[i].At());
    forall k | 0 <= k < i ensures Cmp(f, s[..i][k].At(), x) < 0 {
      CmpTrans(f, s[k].At(), s[i].At(), x);
    }
    RankSplit(f, s[..i], s[i..], x);
    assert s[..i] + s[i..] == s;
  }

  /** Rank cuts a sorted sequence into what is before `x` and what is not. */
  lemma {:induction false} RankCuts(f: Order, s: seq<Node>, x: Item)
    requires Sorted(f, s)
    ensures forall k :: 0 <= k < Rank(f, s, x) ==> Cmp(f, s[k].At(), x) < 0
    ensures forall k :: Rank(f, s, x) <= k < |s| ==> Cmp(f, s[k].At(), x) >= 0
    ensures forall k :: Rank(f, s, x) < k < |s| ==> Cmp(f, s[k].At(), x) > 0
  {
    if s != [] {
      if Cmp(f, s[0].At(), x) >= 0 {
        forall k | 0 < k < |s| ensures Cmp(f, s[k].At(), x) > 0 {
          CmpSym(f, s[0].At(), x);
          CmpTrans(f, x, s[0].At(), s[k].At());
          CmpSym(f, x, s[k].At());
        }
      } else {
        RankCuts(f, s[1..], x);
        forall k | 0 < k < |s| ensures s[k] == s[1..][k - 1] { }
      }
    }
  }

  /** Lookup finds exactly the node whose hash and key agree with `x`. */
  lemma LookupMeaning(f: Order, s: seq<Node>, x: Item)
    requires Sorted(f, s)
    ensures forall n :: n in s ==> (Cmp(f, n.At(), x) == 0 <==> n == Lookup(f, s, x))
    ensures Lookup(f, s, x) != null ==> Lookup(f, s, x) in s
  {
    RankCuts(f, s, x);
    forall n | n in s ensures Cmp(f, n.At(), x) == 0 <==> n == Lookup(f, s, x) {
      var k :| 0 <= k < |s| && s[k] == n;
    }
  }

  /** Successor is the least node that compares greater than `x`. */
  lemma SuccessorMeaning(f: Order, s: seq<Node>, x: Item)
    requires Sorted(f, s)
    ensures Successor(f, s, x) == null ==> forall n :: n in s ==> Cmp(f, n.At(), x) <= 0
    ensures Successor(f, s, x) != null ==>
              var m := Successor(f, s, x);
              m in s && Cmp(f, m.At(), x) > 0
              && forall n :: n in s && n != m && Cmp(f, n.At(), x) > 0 ==> Cmp(f, m.At(), n.At()) < 0
  {
    RankCuts(f, s, x);
    var r := Rank(f, s, x) + if Has(f, s, x) then 1 else 0;
    forall n | n in s ensures Cmp(f, n.At(), x) <= 0 || (r < |s| && (n == s[r] || Cmp(f, s[r].At(), n.At()) < 0)) {
      var k :| 0 <= k < |s| && s[k] == n;
      assert k < r ==> Cmp(f, s[k].At(), x) <= 0;
    }
  }

  // ----- the same in terms of hash and key -----

  /** Table order is ascending by hash, and by key among equal hashes. */
  lemma OrderMeans(f: Order, s: seq<Node>, i: nat, j: nat)
    requires Sorted(f, s) && i < j < |s|
    ensures s[i].Hash < s[j].Hash || (s[i].Hash == s[j].Hash && f(s[i].Key, s[j].Key) < 0)
  {
    CmpMeans(f, s[i].At(), s[j].At());
  }

  /** A key is there if a node has its hash and a key that compares equal; that node
      is the one that is found, and the one that is taken out. */
  lemma FoundMeans(f: Order, s: seq<Node>, key: Obj, hash: nat)
    requires Sorted(f, s)
    ensures var n := Lookup(f, s, Item(hash, key));
            && (n == null <==> forall m :: m in s ==> !(m.Hash == hash && f(m.Key, key) == 0))
            && (n != null ==> n in s && n.Hash == hash && f(n.Key, key) == 0)
            && (Has(f, s, Item(hash, key)) <==> n != null)
            && (n != null ==> Rank(f, s, Item(hash, key)) < |s| && s[Rank(f, s, Item(hash, key))] == n)
  {
    var x := Item(hash, key);
    LookupMeaning(f, s, x);
    forall m | m in s
      ensures Cmp(f, m.At(), x) == 0 <==> m.Hash == hash && f(m.Key, key) == 0
    {
      CmpMeans(f, m.At(), x);
    }
  }

  /** The first node is the least of all. */
  lemma FirstMeans(f: Order, s: seq<Node>, m: Node)
    requires Sorted(f, s) && m in s
    ensures s != [] && (m == s[0] || s[0].Hash < m.Hash || (s[0].Hash == m.Hash && f(s[0].Key, m.Key) < 0))
  {
    var j :| 0 <= j < |s| && s[j] == m;
    if j > 0 {
      OrderMeans(f, s, 0, j);
    }
  }

  /** The successor is the least of the nodes that come after a key. */
  lemma AfterMeans(f: Order, s: seq<Node>, key: Obj, hash: nat, m: Node)
    requires Sorted(f, s)
    ensures var x := Successor(f, s, Item(hash, key));
            && (x != null ==> x in s && (hash < x.Hash || (hash == x.Hash && f(key, x.Key) < 0)))
            && (m in s && (hash < m.Hash || (hash == m.Hash && f(key, m.Key) < 0)) ==>
                  x != null && (m == x || x.Hash < m.Hash || (x.Hash == m.Hash && f(x.Key, m.Key) < 0)))
  {
    var i := Item(hash, key);
    SuccessorMeaning(f, s, i);
    var x := Successor(f, s, i);
    CmpMeans(f, i, m.At());
    CmpSym(f, i, m.At());
    if x != null {
      CmpMeans(f, i, x.At());
      CmpSym(f, i, x.At());
      CmpMeans(f, x.At(), m.At());
    }
  }

  /** The node before a key is the greatest of the nodes that come before it. */
  lemma BeforeMeans(f: Order, s: seq<Node>, key: Obj, hash: nat, m: Node)
    requires Sorted(f, s)
    ensures var r := Rank(f, s, Item(hash, key));
            && (r > 0 ==> var x := s[r - 1]; x.Hash < hash || (x.Hash == hash && f(x.Key, key) < 0))
            && (m in s && (m.Hash < hash || (m.Hash == hash && f(m.Key, key) < 0)) ==>
                  && r > 0
                  && var x := s[r - 1];
                     m == x || m.Hash < x.Hash || (m.Hash == x.Hash && f(m.Key, x.Key) < 0))
  {
    var i := Item(hash, key);
    var r := Rank(f, s, i);
    RankCuts(f, s, i);
    CmpMeans(f, m.At(), i);
    if r > 0 {
      CmpMeans(f, s[r - 1].At(), i);
    }
    if m in s && Cmp(f, m.At(), i) < 0 {
      var k :| 0 <= k < |s| && s[k] == m;
      if k < r - 1 {
        OrderMeans(f, s, k, r - 1);
      }
    }
  }

  // ----- order after an insertion or a removal -----

  lemma SortedInserted(f: Order, s: seq<Node>, x: Item, n: Node)
    requires Sorted(f, s) && !Has(f, s, x) && n.At() == x
    ensures Sorted(f, Inserted(s, Rank(f, s, x), n))
  {
    RankCuts(f, s, x);
    forall k | Rank(f, s, x) <= k < |s| ensures Cmp(f, x, s[k].At()) < 0 {
      CmpSym(f, x, s[k].At());
    }
  }

  lemma SortedRemoved(f: Order, s: seq<Node>, i: nat)
    requires Sorted(f, s) && i < |s|
    ensures Sorted(f, Removed(s, i))
  {
  }

  lemma InsertedMembers(s: seq<Node>, r: nat, n: Node)
    requires r <= |s|
    ensures forall m :: m in Inserted(s, r, n) <==> m in s || m == n
  {
    var s' := Inserted(s, r, n);
    assert s'[r] == n;
    forall m | m in s ensures m in s' {
      var i :| 0 <= i < |s| && s[i] == m;
      assert s'[if i < r then i else i + 1] == m;
    }
  }

  /** After an insertion the new key is found at the new node, and the lookup of
      every other key is what it was. */
  lemma LookupInserted(f: Order, s: seq<Node>, x: Item, n: Node, y: Item)
    requires Sorted(f, s) && !Has(f, s, x) && n.At() == x
    ensures Lookup(f, Inserted(s, Rank(f, s, x), n), y) == if Cmp(f, y, x) == 0 then n else Lookup(f, s, y)
  {
    var s' := Inserted(s, Rank(f, s, x), n);
    SortedInserted(f, s, x, n);
    LookupMeaning(f, s, y);
    LookupMeaning(f, s', y);
    InsertedMembers(s, Rank(f, s, x), n);
    CmpSym(f, y, x);
    hide *;
    assert n in s';
  }

  lemma CmpSame(f: Order, a: Item, b: Item, c: Item)
    requires Cmp(f, a, b) == 0
    ensures Cmp(f, a, c) == 0 <==> Cmp(f, b, c) == 0
  {
    CmpSym(f, a, b);
    CmpSym(f, a, c);
    CmpSym(f, b, c);
    if Cmp(f, b, c) == 0 {
      CmpTrans(f, a, b, c);
      CmpTrans(f, c, b, a);
    }
    if Cmp(f, a, c) == 0 {
      CmpTrans(f, b, a, c);
      CmpTrans(f, c, a, b);
    }
  }

  lemma RemovedMembers(f: Order, s: seq<Node>, r: nat)
    requires Sorted(f, s) && r < |s|
    ensures forall n :: n in Removed(s, r) <==> n in s && n != s[r]
  {
    CmpSym(f, s[r].At(), s[r].At());
    assert forall i :: 0 <= i < |s| && i != r ==> s[i] != s[r];
    hide Cmp, Sorted;
    forall n | n in s && n != s[r] ensures n in Removed(s, r) {
      var i :| 0 <= i < |s| && s[i] == n;
      assert Removed(s, r)[if i < r then i else i - 1] == n;
    }
    forall n | n in Removed(s, r) ensures n in s && n != s[r] {
      var j :| 0 <= j < |Removed(s, r)| && Removed(s, r)[j] == n;
      var i := if j < r then j else j + 1;
      assert s[i] == n;
    }
  }

  /** After a removal the key is absent, and the lookup of every other key is
      what it was. */
  lemma LookupRemoved(f: Order, s: seq<Node>, x: Item, y: Item)
    requires Sorted(f, s) && Has(f, s, x)
    ensures Lookup(f, Removed(s, Rank(f, s, x)), y) == if Cmp(f, y, x) == 0 then null else Lookup(f, s, y)
  {
    var r := Rank(f, s, x);
    var s' := Removed(s, r);
    SortedRemoved(f, s, r);
    RemovedMembers(f, s, r);
    LookupMeaning(f, s, y);
    LookupMeaning(f, s', y);
    LookupMeaning(f, s, x);
    CmpSym(f, y, x);
    var m, m' := Lookup(f, s, y), Lookup(f, s', y);
    if Cmp(f, y, x) == 0 {
      if m' != null {
        CmpSym(f, m'.At(), y);
        CmpSym(f, m'.At(), x);
        CmpSame(f, y, x, m'.At());
      }
    } else {
      CmpSym(f, s[r].At(), y);
      CmpSym(f, x, y);
      CmpSame(f, s[r].At(), x, y);
      assert m != s[r];
    }
  }

  // ----- one step down a search path -----

  ghost predicate Between(f: Order, c: Ctx, x: Item) {
    AllBefore(f, Pre(c), x) && AllAfter(f, Post(c), x)
  }

  lemma Middle(a: seq<Node>, b: seq<Node>, p: Node, c: seq<Node>, d: seq<Node>)
    ensures var s := a + (b + [p] + c) + d;
            var k := |a| + |b|;
            s[k] == p && s[..k] == a + b && s[k..] == [p] + c + d && s[k + 1..] == c + d && s[..k + 1] == a + b + [p]
  {
  }

  lemma GoLeft(f: Order, c: Ctx, l: Tree, p: Node, r: Tree, x: Item)
    requires Sorted(f, Seq(Plug(c, Br(l, p, r)))) && Between(f, c, x) && Cmp(f, x, p.At()) < 0
    ensures Between(f, Down(c, p, false, r), x)
  {
    PlugSeq(c, Br(l, p, r));
    Middle(Pre(c), Seq(l), p, Seq(r), Post(c));
    After(f, Seq(Plug(c, Br(l, p, r))), |Pre(c)| + |Seq(l)|, x);
  }

  lemma GoRight(f: Order, c: Ctx, l: Tree, p: Node, r: Tree, x: Item)
    requires Sorted(f, Seq(Plug(c, Br(l, p, r)))) && Between(f, c, x) && Cmp(f, x, p.At()) > 0
    ensures Between(f, Down(c, p, true, l), x)
  {
    PlugSeq(c, Br(l, p, r));
    Middle(Pre(c), Seq(l), p, Seq(r), Post(c));
    Before(f, Seq(Plug(c, Br(l, p, r))), |Pre(c)| + |Seq(l)|, x);
  }

  lemma After(f: Order, s: seq<Node>, k: nat, x: Item)
    requires Sorted(f, s) && k < |s| && Cmp(f, x, s[k].At()) < 0
    ensures AllAfter(f, s[k..], x)
  {
    forall i | 0 < i < |s[k..]| ensures Cmp(f, x, s[k..][i].At()) < 0 {
      CmpTrans(f, x, s[k].At(), s[k + i].At());
    }
  }

  lemma Before(f: Order, s: seq<Node>, k: nat, x: Item)
    requires Sorted(f, s) && k < |s| && Cmp(f, x, s[k].At()) > 0
    ensures AllBefore(f, s[..k + 1], x)
  {
    CmpSym(f, s[k].At(), x);
    var t := s[..k + 1];
    forall i | 0 <= i < |t| ensures Cmp(f, t[i].At(), x) < 0 {
      if i < k {
        CmpTrans(f, s[i].At(), s[k].At(), x);
      }
    }
  }

  lemma Regroup3(a: seq<Node>, b: seq<Node>, c: seq<Node>)
    ensures a + (b + c) == a + b + c
  {
  }

  lemma HitIn(f: Order, a: seq<Node>, b: seq<Node>, p: Node, d: seq<Node>, e: seq<Node>, x: Item)
    requires Sorted(f, a + (b + [p] + d) + e) && Cmp(f, x, p.At()) == 0
    ensures var s := a + (b + [p] + d) + e;
            Has(f, s, x) && Rank(f, s, x) < |s| && s[Rank(f, s, x)] == p && Removed(s, Rank(f, s, x)) == a + b + d + e
  {
    var s := a + (b + [p] + d) + e;
    var k := |a| + |b|;
    Middle(a, b, p, d, e);
    Regroup3(a + b, d, e);
    hide Cmp, Sorted, Rank, Has;
    RankHit(f, s, k, x);
    assert Removed(s, k) == s[..k] + s[k + 1..];
  }

  lemma Hit(f: Order, c: Ctx, l: Tree, p: Node, r: Tree, x: Item)
    requires Sorted(f, Seq(Plug(c, Br(l, p, r)))) && Cmp(f, x, p.At()) == 0
    ensures var s := Seq(Plug(c, Br(l, p, r)));
            && Has(f, s, x) && s[Rank(f, s, x)] == p
            && Removed(s, Rank(f, s, x)) == Pre(c) + Seq(l) + Seq(r) + Post(c)
  {
    PlugSeq(c, Br(l, p, r));
    assert Seq(Br(l, p, r)) == Seq(l) + [p] + Seq(r);
    hide *;
    HitIn(f, Pre(c), Seq(l), p, Seq(r), Post(c), x);
  }

  lemma Miss(f: Order, c: Ctx, x: Item)
    requires Between(f, c, x)
    ensures var s := Seq(Plug(c, Leaf));
            !Has(f, s, x) && forall n :: Inserted(s, Rank(f, s, x), n) == Pre(c) + [n] + Post(c)
  {
    PlugSeq(c, Leaf);
    assert Pre(c) + [] + Post(c) == Pre(c) + Post(c);
    RankMiss(f, Pre(c), Post(c), x);
  }

  // ----- rotations -----

  ghost function RotR(t: Tree): Tree
    requires t.Br? && t.l.Br?
  {
    Br(t.l.l, t.l.n, Br(t.l.r, t.n, t.r))
  }

  ghost function RotL(t: Tree): Tree
    requires t.Br? && t.r.Br?
  {
    Br(Br(t.l, t.n, t.r.l), t.r.n, t.r.r)
  }

  ghost function RotLR(t: Tree): Tree
    requires t.Br? && t.l.Br? && t.l.r.Br?
  {
    Br(Br(t.l.l, t.l.n, t.l.r.l), t.l.r.n, Br(t.l.r.r, t.n, t.r))
  }

  ghost function RotRL(t: Tree): Tree
    requires t.Br? && t.r.Br? && t.r.l.Br?
  {
    Br(Br(t.l, t.n, t.r.l.l), t.r.l.n, Br(t.r.l.r, t.r.n, t.r.r))
  }

  /** What one single or double rotation at the root can make of a tree. */
  ghost function Rotations(t: Tree): set<Tree> {
    if t.Leaf? then {}
    else
      (if t.l.Br? then {RotR(t)} else {}) + (if t.r.Br? then {RotL(t)} else {})
      + (if t.l.Br? && t.l.r.Br? then {RotLR(t)} else {})
      + (if t.r.Br? && t.r.l.Br? then {RotRL(t)} else {})
  }

  lemma Regroup(a: seq<Node>, x: Node, b: seq<Node>, y: Node, c: seq<Node>)
    ensures a + [x] + (b + [y] + c) == (a + [x] + b) + [y] + c
  {
  }

  lemma RotRSeq(t: Tree)
    requires t.Br? && t.l.Br?
    ensures Seq(RotR(t)) == Seq(t)
  {
    var x := t.l;
    assert Seq(RotR(t)) == Seq(x.l) + [x.n] + Seq(Br(x.r, t.n, t.r));
    Regroup(Seq(x.l), x.n, Seq(x.r), t.n, Seq(t.r));
  }

  lemma RotLSeq(t: Tree)
    requires t.Br? && t.r.Br?
    ensures Seq(RotL(t)) == Seq(t)
  {
    var x := t.r;
    assert Seq(RotL(t)) == Seq(Br(t.l, t.n, x.l)) + [x.n] + Seq(x.r);
    Regroup(Seq(t.l), t.n, Seq(x.l), x.n, Seq(x.r));
  }

  lemma RotRDistinct(t: Tree)
    requires t.Br? && t.l.Br?
    ensures Nodes(RotR(t)) == Nodes(t)
    ensures Distinct(t) ==> Distinct(RotR(t))
  {
    var x := t.l;
    var lower := Br(x.r, t.n, t.r);
    var a, b, c := Nodes(x.l), Nodes(x.r), Nodes(t.r);
    assert Nodes(x) == a + {x.n} + b;
    assert Nodes(lower) == b + {t.n} + c;
    assert Nodes(RotR(t)) == a + {x.n} + Nodes(lower);
    if Distinct(t) {
      assert Distinct(x);
      assert Distinct(lower);
      assert x.n !in Nodes(lower) && a !! Nodes(lower);
    }
  }

  lemma RotLDistinct(t: Tree)
    requires t.Br? && t.r.Br?
    ensures Nodes(RotL(t)) == Nodes(t)
    ensures Distinct(t) ==> Distinct(RotL(t))
  {
    var x := t.r;
    var lower := Br(t.l, t.n, x.l);
    var a, b, c := Nodes(t.l), Nodes(x.l), Nodes(x.r);
    assert Nodes(x) == b + {x.n} + c;
    assert Nodes(lower) == a + {t.n} + b;
    assert Nodes(RotL(t)) == Nodes(lower) + {x.n} + c;
    if Distinct(t) {
      assert Distinct(x);
      assert Distinct(lower);
      assert x.n !in Nodes(lower) && c !! Nodes(lower);
    }
  }

  lemma RotatedSame(t: Tree, t': Tree)
    requires t' in Rotations(t)
    ensures Seq(t') == Seq(t) && Nodes(t') == Nodes(t)
    ensures Distinct(t) ==> Distinct(t')
  {
    if t.l.Br? && t' == RotR(t) {
      RotRSeq(t);
      RotRDistinct(t);
    } else if t.r.Br? && t' == RotL(t) {
      RotLSeq(t);
      RotLDistinct(t);
    } else if t.l.Br? && t.l.r.Br? && t' == RotLR(t) {
      RotLSeq(t.l);
      RotLDistinct(t.l);
      RotRSeq(Br(RotL(t.l), t.n, t.r));
      RotRDistinct(Br(RotL(t.l), t.n, t.r));
    } else {
      RotRSeq(t.r);
      RotRDistinct(t.r);
      RotLSeq(Br(t.l, t.n, RotR(t.r)));
      RotLDistinct(Br(t.l, t.n, RotR(t.r)));
    }
  }
}
