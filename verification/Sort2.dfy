/** The method `sort2` of dev/src/lib/Agg/List.c: merging back and forth between
    two pairs of tapes.  A tape is a chain of `Count` nodes; the links past its
    end are left over from earlier. */
module TapeSorting {
  import opened Chain
  import opened Lists
  import opened Sorting

  /** The order that `sort2` leaves between two values. */
  ghost predicate Le(t: Test, a: Obj, b: Obj) {
    t(a, b) || !t(b, a)
  }

  /** What `sort2` needs of a comparison. */
  ghost predicate Ordered(t: Test) {
    forall a, b, c :: Le(t, a, b) && Le(t, b, c) ==> Le(t, a, c)
  }

  /** Both usual kinds of comparison will do, and they give the usual order. */
  lemma OrderedMeans(t: Test, a: Obj, b: Obj)
    ensures StrictWeak(t) ==> Ordered(t) && (Le(t, a, b) <==> !t(b, a))
    ensures Preorder(t) ==> Ordered(t) && (Le(t, a, b) <==> t(a, b))
  {
    if StrictWeak(t) {
      forall x, y ensures Le(t, x, y) <==> !t(y, x) {
        NotBoth(t, x, y);
      }
    }
    if Preorder(t) {
      forall x, y ensures Le(t, x, y) <==> t(x, y) {
      }
    }
  }

  ghost predicate Rising(t: Test, s: seq<Node>)
    reads s`Value
  {
    forall i, j :: 0 <= i < j < |s| ==> Le(t, s[i].Value, s[j].Value)
  }

  /** What that is for the two usual kinds of comparison. */
  lemma RisingMeans(t: Test, s: seq<Node>, i: nat, j: nat)
    requires Rising(t, s) && i < j < |s|
    ensures StrictWeak(t) ==> !t(s[j].Value, s[i].Value)
    ensures Preorder(t) ==> t(s[i].Value, s[j].Value)
  {
    OrderedMeans(t, s[i].Value, s[j].Value);
  }

  ghost predicate AllLe(t: Test, a: seq<Node>, b: seq<Node>)
    reads a`Value, b`Value
  {
    forall x, y :: x in a && y in b ==> Le(t, x.Value, y.Value)
  }

  /** Rising runs of length `b`, the last one possibly shorter. */
  ghost predicate RisingRuns(t: Test, s: seq<Node>, b: nat)
    requires b > 0
    reads s`Value
  {
    if |s| <= b then Rising(t, s) else Rising(t, s[..b]) && RisingRuns(t, s[b..], b)
  }

  /** The middle of a merge: `m` is done, `p` and `q` are to come. */
  ghost predicate Between(t: Test, m: seq<Node>, p: seq<Node>, q: seq<Node>)
    reads m`Value, p`Value, q`Value
  {
    Rising(t, m) && Rising(t, p) && Rising(t, q) && AllLe(t, m, p) && AllLe(t, m, q)
  }

  lemma TakeHead(t: Test, m: seq<Node>, p: seq<Node>, q: seq<Node>)
    requires Ordered(t) && Between(t, m, p, q) && p != [] && (q == [] || Le(t, p[0].Value, q[0].Value))
    ensures Between(t, m + [p[0]], p[1..], q)
  {
    var e, s, rest := p[0], m + [p[0]], p[1..];
    forall y | y in q ensures Le(t, e.Value, y.Value) {
      var k :| 0 <= k < |q| && q[k] == y;
      if k > 0 {
        assert Le(t, q[0].Value, q[k].Value);
      }
    }
    forall y | y in rest ensures Le(t, e.Value, y.Value) && y in p {
      var k :| 0 <= k < |rest| && rest[k] == y;
      assert p[k + 1] == y;
    }
    forall i, j | 0 <= i < j < |rest| ensures Le(t, rest[i].Value, rest[j].Value) {
      assert rest[i] == p[i + 1] && rest[j] == p[j + 1];
    }
    assert e in p;
    forall i, j | 0 <= i < j < |s| ensures Le(t, s[i].Value, s[j].Value) {
      if j == |m| {
        assert m[i] in m;
      }
    }
  }

  lemma BetweenSwap(t: Test, m: seq<Node>, p: seq<Node>, q: seq<Node>)
    ensures Between(t, m, p, q) <==> Between(t, m, q, p)
  {
  }

  // ----- how the runs lie on two tapes -----

  /** Runs of length `b` dealt out in turn, only the last one shorter. */
  ghost predicate Dealt(c0: nat, c1: nat, b: nat)
    requires b > 0
  {
    if c0 <= b then c1 == 0 || (c0 == b && c1 <= b) else c1 >= b && Dealt(c0 - b, c1 - b, b)
  }

  ghost function RunCount(c: nat, b: nat): nat
    requires b > 0
  {
    if c == 0 then 0 else if c <= b then 1 else 1 + RunCount(c - b, b)
  }

  /** The first tape has as many runs as the second, or one more. */
  lemma {:induction false} DealtRuns(c0: nat, c1: nat, b: nat)
    requires b > 0 && Dealt(c0, c1, b)
    ensures RunCount(c1, b) <= RunCount(c0, b) <= RunCount(c1, b) + 1
  {
    if c0 > b {
      DealtRuns(c0 - b, c1 - b, b);
    }
  }

  lemma {:induction false} DealtOnes(c: nat)
    ensures Dealt(c, c, 1) && Dealt(c + 1, c, 1)
  {
    if c > 0 {
      DealtOnes(c - 1);
    }
  }

  lemma DealtStep(c0: nat, c1: nat, b: nat)
    requires b > 0 && c0 > 0 && Dealt(c0, c1, b)
    ensures var k0, k1 := Min(b, c0), Min(b, c1);
            && Dealt(c0 - k0, c1 - k1, b) && 0 < k0
            && (c0 > k0 ==> k0 == k1 == b) && (c0 == k0 ==> c1 == k1)
  {
  }

  lemma {:induction false} DealtFull(f: nat, x: nat, b: nat)
    requires b > 0 && Full(f, b) && x <= b
    ensures Dealt(f + x, f, b) && Dealt(f + b, f + x, b)
  {
    if f > 0 {
      DealtFull(f - b, x, b);
    }
  }

  /** While the second tape holds anything, the runs are shorter than the list. */
  lemma DealtMore(c0: nat, c1: nat, b: nat)
    requires b > 0 && Dealt(c0, c1, b)
    ensures c1 > 0 ==> b < c0 + c1
    ensures c1 == 0 ==> c0 <= b
    ensures c0 == 0 ==> c1 == 0
  {
  }

  lemma {:induction false} RunsJoin(t: Test, d: seq<Node>, m: seq<Node>, c: nat)
    requires c > 0 && Full(|d|, c) && RisingRuns(t, d, c) && Rising(t, m) && |m| <= c
    ensures RisingRuns(t, d + m, c)
  {
    var s := d + m;
    if d == [] || m == [] {
      assert s == m || s == d;
    } else {
      var rest := d[c..];
      assert s[c..] == rest + m && s[..c] == d[..c];
      if rest != [] {
        RunsJoin(t, rest, m, c);
      } else {
        assert rest + m == m;
      }
    }
  }

  // ----- tapes -----

  class Tape {
    var Head: Node?
    var Tail: Node?
    var Count: nat
    ghost var Nodes: seq<Node>

    constructor (head: Node?)
      ensures Holds() && Nodes == [] && Head == head && Count == 0
    {
      Head, Tail, Count := head, null, 0;
      Nodes := [];
    }

    ghost predicate Holds()
      reads this, Nodes`Next
    {
      Count == |Nodes| && (Nodes != [] ==> Head == Nodes[0]) && Inner(Nodes)
    }

    /** Is the last node known? */
    ghost predicate Ended()
      reads this
    {
      Nodes != [] ==> Tail == Nodes[|Nodes| - 1]
    }

    lemma Parts()
      requires Holds()
      ensures Count == |Nodes| && (Nodes != [] ==> Head == Nodes[0]) && Inner(Nodes)
      ensures Ended() && Nodes != [] ==> Tail == Nodes[|Nodes| - 1]
    {
    }

    lemma Make()
      requires Count == |Nodes| && (Nodes != [] ==> Head == Nodes[0]) && Inner(Nodes)
      ensures Holds()
      ensures (Nodes != [] ==> Tail == Nodes[|Nodes| - 1]) ==> Ended()
    {
    }

    /** Moves the first node of this tape to the end of another. */
    method Move(out: Tape)
      requires Holds() && out.Holds() && out.Ended() && out != this && Nodes != []
      requires Apart(Nodes) && Apart(out.Nodes) && Disjoint(Nodes, out.Nodes)
      modifies this, out, (if out.Nodes == [] then {} else {out.Nodes[|out.Nodes| - 1]})`Next
      ensures Holds() && out.Holds() && out.Ended()
      ensures Nodes == old(Nodes)[1..] && out.Nodes == old(out.Nodes) + [old(Nodes)[0]]
      ensures Apart(Nodes) && Apart(out.Nodes) && Disjoint(Nodes, out.Nodes)
    {
      hide *;
      ghost var p, d := Nodes, out.Nodes;
      assert allocated(p) && allocated(d);
      Parts();
      out.Parts();
      ghost var q, last := MoveReady(p, d);
      Count := Count - 1;
      var chosen := Head;
      Head := chosen.Next;
      if out.Count == 0 {
        out.Head := chosen;
      } else {
        out.Tail.Next := chosen;
      }
      out.Tail := chosen;
      out.Count := out.Count + 1;
      assert Inner(q);
      assert Inner(d);
      Nodes, out.Nodes := q, d + [chosen];
      InnerExtend(d, chosen);
      Make();
      out.Make();
    }
  }

  lemma MoveReady(p: seq<Node>, d: seq<Node>) returns (q: seq<Node>, last: seq<Node>)
    requires Apart(p) && Apart(d) && Disjoint(p, d) && p != [] && Inner(p)
    ensures q == p[1..] && |q| == |p| - 1 && Inner(q) && (q != [] ==> p[0].Next == q[0])
    ensures |last| <= 1 && (d == [] <==> last == [])
    ensures d != [] ==> d[|d| - 1] == last[0] && last[0] !in d[..|d| - 1] && last[0] !in q && last[0] != p[0]
    ensures q != [] && d != [] ==> last[0] !in q[..|q| - 1]
    ensures Apart(q) && Apart(d + [p[0]]) && Disjoint(q, d + [p[0]])
  {
    InnerFirst(p);
    FirstApart(p);
    assert p[0] in p && forall n :: n in p[1..] ==> n in p;
    JoinApart(d, [p[0]]);
    q, last := p[1..], [];
    if d != [] {
      last := [d[|d| - 1]];
      LastApart(d);
      assert d[|d| - 1] in d;
      assert q != [] ==> forall n :: n in q[..|q| - 1] ==> n in q;
    }
  }

  lemma InnerExtend(d: seq<Node>, e: Node)
    requires Inner(d) && (d != [] ==> d[|d| - 1].Next == e)
    ensures Inner(d + [e]) && (d + [e])[0] == (if d == [] then e else d[0]) && (d + [e])[|d|] == e
  {
    var s := d + [e];
    assert s[..|s| - 1] == d && s[|s| - 1] == e;
    if d != [] {
      LastNext(d, e);
    }
  }

  // ----- merging one run from each tape -----

  /** How far the merge of the runs `a` and `b` has come. */
  ghost predicate Woven2(t: Test, a: seq<Node>, b: seq<Node>, m: seq<Node>, p: seq<Node>, q: seq<Node>)
    reads a`Value, b`Value, m`Value, p`Value, q`Value
  {
    && multiset(m) + multiset(p) + multiset(q) == multiset(a) + multiset(b)
    && (Ordered(t) && Rising(t, a) && Rising(t, b) ==> Between(t, m, p, q))
  }

  lemma Woven2Swap(t: Test, a: seq<Node>, b: seq<Node>, m: seq<Node>, p: seq<Node>, q: seq<Node>)
    ensures Woven2(t, a, b, m, p, q) <==> Woven2(t, b, a, m, q, p)
  {
    BetweenSwap(t, m, p, q);
    assert multiset(a) + multiset(b) == multiset(b) + multiset(a);
    assert multiset(m) + multiset(p) + multiset(q) == multiset(m) + multiset(q) + multiset(p);
    hide Rising, AllLe, Ordered, Between;
  }

  lemma Choose(t: Test, a: seq<Node>, b: seq<Node>, m: seq<Node>, p: seq<Node>, q: seq<Node>)
    requires Woven2(t, a, b, m, p, q) && p != [] && (q == [] || Le(t, p[0].Value, q[0].Value))
    ensures Woven2(t, a, b, m + [p[0]], p[1..], q)
  {
    assert p == [p[0]] + p[1..];
    var going := Ordered(t) && Rising(t, a) && Rising(t, b);
    hide Ordered, Between, Rising, Le;
    if going {
      TakeHead(t, m, p, q);
    }
  }

  ghost predicate Ready(t0: Tape, t1: Tape, out: Tape)
    reads t0, t0.Nodes`Next, t1, t1.Nodes`Next, out, out.Nodes`Next
  {
    && t0 != t1 && out != t0 && out != t1
    && t0.Holds() && t1.Holds() && out.Holds() && out.Ended() && Separate(out.Nodes, t0.Nodes, t1.Nodes)
  }

  /** Where a block merge stands: `i` and `j` nodes are taken from the tapes. */
  ghost predicate Block(t: Test, t0: Tape, t1: Tape, out: Tape, a: seq<Node>, b: seq<Node>, k0: nat, k1: nat,
      d: seq<Node>,
                        m: seq<Node>, i: nat, j: nat)
    reads t0, t0.Nodes`Next, t1, t1.Nodes`Next, out, out.Nodes`Next, a`Value, b`Value, m`Value
  {
    && Ready(t0, t1, out) && out.Nodes == d + m
    && i <= k0 <= |a| && j <= k1 <= |b| && t0.Nodes == a[i..] && t1.Nodes == b[j..]
    && Woven2(t, a[..k0], b[..k1], m, a[i..k0], b[j..k1])
  }

  /** Takes the next node from the first tape. */
  method StepFirst(t: Test, t0: Tape, t1: Tape, out: Tape, ghost a: seq<Node>, ghost b: seq<Node>, ghost k0: nat,
      ghost k1: nat,
                   ghost d: seq<Node>, ghost m: seq<Node>, ghost i: nat, ghost j: nat)
    requires Block(t, t0, t1, out, a, b, k0, k1, d, m, i, j) && i < k0
    requires j < k1 ==> Le(t, a[i].Value, b[j].Value)
    modifies t0, out, (if out.Nodes == [] then {} else {out.Nodes[|out.Nodes| - 1]})`Next
    ensures Block(t, t0, t1, out, a, b, k0, k1, d, m + [a[i]], i + 1, j)
  {
    hide *;
    BlockParts(t, t0, t1, out, a, b, k0, k1, d, m, i, j);
    Choose(t, a[..k0], b[..k1], m, a[i..k0], b[j..k1]);
    Moved(out.Nodes, t0.Nodes, t1.Nodes);
    t0.Move(out);
    MakeReady(t0, t1, out);
    Grouped(d, m, a[i]);
    MakeBlock(t, t0, t1, out, a, b, k0, k1, d, m + [a[i]], i + 1, j);
  }

  /** Takes the next node from the second tape. */
  method StepSecond(t: Test, t0: Tape, t1: Tape, out: Tape, ghost a: seq<Node>, ghost b: seq<Node>, ghost k0: nat,
      ghost k1: nat,
                    ghost d: seq<Node>, ghost m: seq<Node>, ghost i: nat, ghost j: nat)
    requires Block(t, t0, t1, out, a, b, k0, k1, d, m, i, j) && j < k1
    requires i < k0 ==> Le(t, b[j].Value, a[i].Value)
    modifies t1, out, (if out.Nodes == [] then {} else {out.Nodes[|out.Nodes| - 1]})`Next
    ensures Block(t, t0, t1, out, a, b, k0, k1, d, m + [b[j]], i, j + 1)
  {
    hide *;
    BlockParts(t, t0, t1, out, a, b, k0, k1, d, m, i, j);
    Woven2Swap(t, a[..k0], b[..k1], m, a[i..k0], b[j..k1]);
    Choose(t, b[..k1], a[..k0], m, b[j..k1], a[i..k0]);
    Woven2Swap(t, a[..k0], b[..k1], m + [b[j]], a[i..k0], b[j..k1][1..]);
    MovedQ(out.Nodes, t0.Nodes, t1.Nodes);
    t1.Move(out);
    MakeReady(t0, t1, out);
    Grouped(d, m, b[j]);
    MakeBlock(t, t0, t1, out, a, b, k0, k1, d, m + [b[j]], i, j + 1);
  }

  /** The body of the merge loop of `sort2`: takes a run of up to `blockSize`
      nodes from each tape and merges them onto the end of `out`. */
  method MergeBlock(t: Test, t0: Tape, t1: Tape, out: Tape, blockSize: nat)
    returns (ghost m: seq<Node>, ghost p1: seq<Node>, ghost q1: seq<Node>)
    requires Ready(t0, t1, out)
    modifies t0, t1, out, (set n | n in t0.Nodes + t1.Nodes + out.Nodes)`Next
    ensures Ready(t0, t1, out) && out.Nodes == old(out.Nodes) + m
    ensures forall x :: x in out.Nodes ==> x in old(out.Nodes) || x in old(t0.Nodes) || x in old(t1.Nodes)
    ensures FirstRun(old(t0.Nodes), blockSize, p1, t0.Nodes) && FirstRun(old(t1.Nodes), blockSize, q1, t1.Nodes)
    ensures Woven2(t, p1, q1, m, [], [])
  {
    hide *;
    ghost var a, b, d := t0.Nodes, t1.Nodes, out.Nodes;
    ghost var k0, k1 := Min(blockSize, |a|), Min(blockSize, |b|);
    ghost var i, j := 0, 0;
    m := [];
    var n0, n1 := blockSize, blockSize;
    BlockStart(t, t0, t1, out, blockSize);
    FirstRunCut(a, blockSize);
    FirstRunCut(b, blockSize);
    p1, q1 := a[..k0], b[..k1];
    assert allocated(a) && allocated(b) && allocated(d);
    while true
      invariant Block(t, t0, t1, out, a, b, k0, k1, d, m, i, j)
      invariant forall x :: x in out.Nodes ==> x in d || x in a || x in b
      invariant 0 <= i <= k0 && 0 <= j <= k1 && n0 == blockSize - i && n1 == blockSize - j
      decreases k0 - i + k1 - j
    {
      BlockFacts(t, t0, t1, out, a, b, k0, k1, d, m, i, j, blockSize);
      var first;
      if n0 == 0 || t0.Count == 0 {
        if n1 == 0 || t1.Count == 0 {
          BlockEnd(t, t0, t1, out, a, b, k0, k1, d, m, i, j);
          break;
        }
        first := false;
      } else if n1 == 0 || t1.Count == 0 {
        first := true;
      } else {
        first := t(t0.Head.Value, t1.Head.Value);
        LeEither(t, t0.Head.Value, t1.Head.Value);
      }
      if first {
        n0 := n0 - 1;
        StepFirst(t, t0, t1, out, a, b, k0, k1, d, m, i, j);
        m, i := m + [a[i]], i + 1;
      } else {
        n1 := n1 - 1;
        StepSecond(t, t0, t1, out, a, b, k0, k1, d, m, i, j);
        m, j := m + [b[j]], j + 1;
      }
      OutNodes(t, t0, t1, out, a, b, k0, k1, d, m, i, j);
    }
  }

  lemma LeEither(t: Test, a: Obj, b: Obj)
    ensures if t(a, b) then Le(t, a, b) else Le(t, b, a)
  {
  }

  lemma BlockStart(t: Test, t0: Tape, t1: Tape, out: Tape, blockSize: nat)
    requires Ready(t0, t1, out)
    ensures var a, b := t0.Nodes, t1.Nodes;
            Block(t, t0, t1, out, a, b, Min(blockSize, |a|), Min(blockSize, |b|), out.Nodes, [], 0, 0)
  {
    var a, b := t0.Nodes, t1.Nodes;
    var k0, k1 := Min(blockSize, |a|), Min(blockSize, |b|);
    assert a[..k0] == a[0..k0] && b[..k1] == b[0..k1] && a == a[0..] && b == b[0..];
    assert out.Nodes == out.Nodes + [];
  }

  lemma BlockParts(t: Test, t0: Tape, t1: Tape, out: Tape, a: seq<Node>, b: seq<Node>, k0: nat, k1: nat, d: seq<Node>,
                   m: seq<Node>, i: nat, j: nat)
    requires Block(t, t0, t1, out, a, b, k0, k1, d, m, i, j)
    ensures t0.Holds() && t1.Holds() && out.Holds() && out.Ended() && t0 != t1 && out != t0 && out != t1
    ensures Separate(out.Nodes, t0.Nodes, t1.Nodes) && Apart(out.Nodes) && Apart(t0.Nodes) && Apart(t1.Nodes)
    ensures Disjoint(t0.Nodes, out.Nodes) && Disjoint(t1.Nodes, out.Nodes)
    ensures out.Nodes != [] ==>
              var last := out.Nodes[|out.Nodes| - 1];
              last !in t0.Nodes && last !in t1.Nodes
    ensures out.Nodes == d + m && i <= k0 <= |a| && j <= k1 <= |b| && t0.Nodes == a[i..] && t1.Nodes == b[j..]
    ensures Woven2(t, a[..k0], b[..k1], m, a[i..k0], b[j..k1])
    ensures i < k0 ==>
              && a[i..k0] != [] && a[i..k0][0] == a[i] && a[i..][0] == a[i] && a[i..][1..] == a[i + 1..]
              && a[i..k0][1..] == a[i + 1..k0]
    ensures j < k1 ==>
              && b[j..k1] != [] && b[j..k1][0] == b[j] && b[j..][0] == b[j] && b[j..][1..] == b[j + 1..]
              && b[j..k1][1..] == b[j + 1..k1]
    ensures i == k0 ==> a[i..k0] == []
    ensures j == k1 ==> b[j..k1] == []
  {
    hide Woven2;
    if out.Nodes != [] {
      assert out.Nodes[|out.Nodes| - 1] in out.Nodes;
    }
  }

  lemma MakeBlock(t: Test, t0: Tape, t1: Tape, out: Tape, a: seq<Node>, b: seq<Node>, k0: nat, k1: nat, d: seq<Node>,
                  m: seq<Node>, i: nat, j: nat)
    requires Ready(t0, t1, out) && out.Nodes == d + m
    requires i <= k0 <= |a| && j <= k1 <= |b| && t0.Nodes == a[i..] && t1.Nodes == b[j..]
    requires Woven2(t, a[..k0], b[..k1], m, a[i..k0], b[j..k1])
    ensures Block(t, t0, t1, out, a, b, k0, k1, d, m, i, j)
  {
  }

  lemma BlockFacts(t: Test, t0: Tape, t1: Tape, out: Tape, a: seq<Node>, b: seq<Node>, k0: nat, k1: nat, d: seq<Node>,
                   m: seq<Node>, i: nat, j: nat, blockSize: nat)
    requires Block(t, t0, t1, out, a, b, k0, k1, d, m, i, j) && k0 == Min(blockSize, |a|) && k1 == Min(blockSize, |b|)
    ensures k0 <= blockSize && k1 <= blockSize && k0 <= |a| && k1 <= |b|
    ensures i < k0 <==> blockSize - i != 0 && t0.Count != 0
    ensures j < k1 <==> blockSize - j != 0 && t1.Count != 0
    ensures i < k0 ==> t0.Head == a[i]
    ensures j < k1 ==> t1.Head == b[j]
    ensures out.Nodes != [] ==> out.Nodes[|out.Nodes| - 1] in out.Nodes
  {
  }

  lemma OutNodes(t: Test, t0: Tape, t1: Tape, out: Tape, a: seq<Node>, b: seq<Node>, k0: nat, k1: nat, d: seq<Node>,
                 m: seq<Node>, i: nat, j: nat)
    requires Block(t, t0, t1, out, a, b, k0, k1, d, m, i, j)
    ensures forall x :: x in out.Nodes ==> x in d || x in a || x in b
  {
    hide Ready, Ordered, Rising, Between;
    forall x | x in m ensures x in a || x in b {
      assert x in multiset(m) + multiset(a[i..k0]) + multiset(b[j..k1]);
      assert x in multiset(a[..k0]) + multiset(b[..k1]);
    }
  }

  lemma MakeReady(t0: Tape, t1: Tape, out: Tape)
    requires t0 != t1 && out != t0 && out != t1
    requires t0.Holds() && t1.Holds() && out.Holds() && out.Ended() && Separate(out.Nodes, t0.Nodes, t1.Nodes)
    ensures Ready(t0, t1, out)
  {
  }

  lemma BlockEnd(t: Test, t0: Tape, t1: Tape, out: Tape, a: seq<Node>, b: seq<Node>, k0: nat, k1: nat, d: seq<Node>,
                 m: seq<Node>, i: nat, j: nat)
    requires Block(t, t0, t1, out, a, b, k0, k1, d, m, i, j) && i == k0 && j == k1
    ensures Ready(t0, t1, out) && out.Nodes == d + m && t0.Nodes == a[k0..] && t1.Nodes == b[k1..]
    ensures Woven2(t, a[..k0], b[..k1], m, [], [])
  {
    assert a[i..k0] == [] && b[j..k1] == [];
  }

  // ----- one pass -----

  /** The lengths during a pass: `x` is the tape that gets the next run. */
  ghost predicate Lengths(p: nat, q: nat, x: nat, y: nat, b: nat, second: bool)
    requires b > 0
  {
    && Dealt(p, q, b)
    && (p == 0 ==> q == 0 && if second then Dealt(y, x, 2 * b) else Dealt(x, y, 2 * b))
    && (p != 0 ==> if second then Full(x, 2 * b) && y == x + 2 * b else Full(y, 2 * b) && x == y)
  }

  lemma LengthsStep(p: nat, q: nat, x: nat, y: nat, b: nat, second: bool, m: nat)
    requires b > 0 && p > 0 && Lengths(p, q, x, y, b, second) && m == Min(b, p) + Min(b, q)
    ensures Lengths(p - Min(b, p), q - Min(b, q), y, x + m, b, !second) && m <= 2 * b && Full(x, 2 * b)
  {
    DealtStep(p, q, b);
    if p == Min(b, p) {
      DealtFull(if second then x else y, m, 2 * b);
    } else if second {
      FullStep(x, 2 * b);
    }
  }

  /** What a pass keeps: the nodes, and the runs if the comparison orders. */
  ghost predicate Passing(t: Test, b: nat, p0: seq<Node>, q0: seq<Node>, p: seq<Node>, q: seq<Node>, x: seq<Node>,
      y: seq<Node>)
    requires b > 0
    reads p0`Value, q0`Value, p`Value, q`Value, x`Value, y`Value
  {
    && multiset(p) + multiset(q) + multiset(x) + multiset(y) == multiset(p0) + multiset(q0)
    && (Ordered(t) && RisingRuns(t, p0, b) && RisingRuns(t, q0, b) ==>
          && RisingRuns(t, p, b) && RisingRuns(t, q, b)
          && RisingRuns(t, x, 2 * b) && RisingRuns(t, y, 2 * b))
  }

  lemma PassingSwap(t: Test, b: nat, p0: seq<Node>, q0: seq<Node>, p: seq<Node>, q: seq<Node>, x: seq<Node>,
      y: seq<Node>)
    requires b > 0
    ensures Passing(t, b, p0, q0, p, q, x, y) <==> Passing(t, b, p0, q0, p, q, y, x)
  {
    assert multiset(p) + multiset(q) + multiset(x) + multiset(y)
        == multiset(p) + multiset(q) + multiset(y) + multiset(x);
    hide RisingRuns, Ordered;
  }

  lemma BlockDone(t: Test, a: seq<Node>, b: seq<Node>, m: seq<Node>)
    requires Woven2(t, a, b, m, [], [])
    ensures multiset(m) == multiset(a) + multiset(b) && |m| == |a| + |b|
    ensures Ordered(t) && Rising(t, a) && Rising(t, b) ==> Rising(t, m)
  {
    assert multiset(m) + multiset([]) + multiset([]) == multiset(m);
    assert |multiset(m)| == |multiset(a)| + |multiset(b)|;
  }

  /** `s` is one run of up to `b` nodes, and what is behind it. */
  ghost predicate FirstRun(s: seq<Node>, b: nat, s1: seq<Node>, s2: seq<Node>) {
    s == s1 + s2 && |s1| == Min(b, |s|)
  }

  lemma FirstRunCut(s: seq<Node>, b: nat)
    ensures Min(b, |s|) <= |s| && FirstRun(s, b, s[..Min(b, |s|)], s[Min(b, |s|)..])
  {
  }

  lemma RunsCut(t: Test, s: seq<Node>, b: nat, s1: seq<Node>, s2: seq<Node>)
    requires b > 0 && RisingRuns(t, s, b) && FirstRun(s, b, s1, s2)
    ensures Rising(t, s1) && RisingRuns(t, s2, b)
  {
    if |s| <= b {
      assert s1 == s && s2 == [];
    } else {
      assert s1 == s[..b] && s2 == s[b..];
    }
  }

  lemma PassingStep(t: Test, b: nat, p0: seq<Node>, q0: seq<Node>, p: seq<Node>, q: seq<Node>, x: seq<Node>,
      y: seq<Node>,
                    p1: seq<Node>, p2: seq<Node>, q1: seq<Node>, q2: seq<Node>, m: seq<Node>)
    requires b > 0 && Passing(t, b, p0, q0, p, q, x, y) && Full(|x|, 2 * b)
    requires FirstRun(p, b, p1, p2) && FirstRun(q, b, q1, q2) && Woven2(t, p1, q1, m, [], []) && |p1| + |q1| <= 2 * b
    ensures |m| == |p1| + |q1| && Passing(t, b, p0, q0, p2, q2, x + m, y)
  {
    assert p == p1 + p2 && q == q1 + q2;
    var going := Ordered(t) && RisingRuns(t, p0, b) && RisingRuns(t, q0, b);
    hide *;
    PassingUse(t, b, p0, q0, p, q, x, y);
    BlockDone(t, p1, q1, m);
    if going {
      RunsCut(t, p, b, p1, p2);
      RunsCut(t, q, b, q1, q2);
      RunsJoin(t, x, m, 2 * b);
    }
    PassingMake(t, b, p0, q0, p, q, x, y, p1, p2, q1, q2, m);
  }

  lemma PassingUse(t: Test, b: nat, p0: seq<Node>, q0: seq<Node>, p: seq<Node>, q: seq<Node>, x: seq<Node>,
      y: seq<Node>)
    requires b > 0 && Passing(t, b, p0, q0, p, q, x, y)
    ensures Ordered(t) && RisingRuns(t, p0, b) && RisingRuns(t, q0, b) ==>
              RisingRuns(t, p, b) && RisingRuns(t, q, b) && RisingRuns(t, x, 2 * b) && RisingRuns(t, y, 2 * b)
    ensures multiset(p) + multiset(q) + multiset(x) + multiset(y) == multiset(p0) + multiset(q0)
  {
  }

  lemma PassingMake(t: Test, b: nat, p0: seq<Node>, q0: seq<Node>, p: seq<Node>, q: seq<Node>, x: seq<Node>,
      y: seq<Node>,
                    p1: seq<Node>, p2: seq<Node>, q1: seq<Node>, q2: seq<Node>, m: seq<Node>)
    requires b > 0 && p == p1 + p2 && q == q1 + q2 && multiset(m) == multiset(p1) + multiset(q1)
    requires multiset(p) + multiset(q) + multiset(x) + multiset(y) == multiset(p0) + multiset(q0)
    ensures (Ordered(t) && RisingRuns(t, p0, b) && RisingRuns(t, q0, b) ==>
               RisingRuns(t, p2, b) && RisingRuns(t, q2, b) && RisingRuns(t, x + m, 2 * b) && RisingRuns(t, y, 2 * b))
            ==> Passing(t, b, p0, q0, p2, q2, x + m, y)
  {
    hide RisingRuns, Ordered;
    assert multiset(p2) + multiset(q2) + multiset(x + m) + multiset(y)
        == multiset(p) + multiset(q) + multiset(x) + multiset(y);
  }

  /** Four tapes during a pass: two to read, two to write. */
  ghost predicate Four(t0: Tape, t1: Tape, out: Tape, other: Tape)
    reads t0, t0.Nodes`Next, t1, t1.Nodes`Next, out, out.Nodes`Next, other, other.Nodes`Next
  {
    && Ready(t0, t1, out) && other != t0 && other != t1 && other != out
    && other.Holds() && other.Ended() && Apart(other.Nodes)
    && Disjoint(other.Nodes, t0.Nodes) && Disjoint(other.Nodes, t1.Nodes) && Disjoint(other.Nodes, out.Nodes)
  }

  lemma FourSwap(t0: Tape, t1: Tape, out: Tape, other: Tape)
    requires Four(t0, t1, out, other)
    ensures Four(t0, t1, other, out)
  {
  }

  lemma FourParts(t0: Tape, t1: Tape, out: Tape, other: Tape)
    requires Four(t0, t1, out, other)
    ensures Ready(t0, t1, out) && other != t0 && other != t1 && other != out
    ensures other.Holds() && other.Ended() && Apart(other.Nodes)
    ensures forall n :: n in other.Nodes ==> n !in t0.Nodes + t1.Nodes + out.Nodes
    ensures t0.Count == |t0.Nodes| && (t0.Count == 0 <==> t0.Nodes == [])
    ensures t0.Holds() && t1.Holds() && out.Holds() && out.Ended() && Separate(out.Nodes, t0.Nodes, t1.Nodes)
  {
    assert forall n :: n in t0.Nodes + t1.Nodes + out.Nodes ==> n in t0.Nodes || n in t1.Nodes || n in out.Nodes;
  }

  lemma MakeFour(t0: Tape, t1: Tape, out: Tape, other: Tape, p: seq<Node>, q: seq<Node>, x: seq<Node>)
    requires Ready(t0, t1, out) && other != t0 && other != t1 && other != out
    requires other.Holds() && other.Ended() && Apart(other.Nodes)
    requires forall n :: n in other.Nodes ==> n !in p + q + x
    requires forall n :: n in t0.Nodes ==> n in p
    requires forall n :: n in t1.Nodes ==> n in q
    requires forall n :: n in out.Nodes ==> n in x || n in p || n in q
    ensures Four(t0, t1, out, other)
  {
    assert forall n :: n in p || n in q || n in x ==> n in p + q + x;
  }

  lemma FirstRunSizes(s: seq<Node>, b: nat, s1: seq<Node>, s2: seq<Node>)
    requires FirstRun(s, b, s1, s2)
    ensures |s1| == Min(b, |s|) && |s2| == |s| - Min(b, |s|)
    ensures forall n :: n in s2 ==> n in s
    ensures b > 0 && s != [] ==> |s2| < |s|
  {
  }

  /** Merges one run from each tape to `out`; the next one goes to `other`. */
  method DealOne(t: Test, t0: Tape, t1: Tape, out: Tape, other: Tape, b: nat,
                 ghost p0: seq<Node>, ghost q0: seq<Node>, ghost second: bool)
    requires Four(t0, t1, out, other) && b > 0 && t0.Nodes != []
    requires Lengths(|t0.Nodes|, |t1.Nodes|, |out.Nodes|, |other.Nodes|, b, second)
    requires Passing(t, b, p0, q0, t0.Nodes, t1.Nodes, out.Nodes, other.Nodes)
    modifies t0, t1, out, (set n | n in t0.Nodes + t1.Nodes + out.Nodes)`Next
    ensures Four(t0, t1, other, out) && |t0.Nodes| < |old(t0.Nodes)|
    ensures Lengths(|t0.Nodes|, |t1.Nodes|, |other.Nodes|, |out.Nodes|, b, !second)
    ensures Passing(t, b, p0, q0, t0.Nodes, t1.Nodes, other.Nodes, out.Nodes)
    ensures forall n :: n in t0.Nodes ==> n in old(t0.Nodes)
    ensures forall n :: n in t1.Nodes ==> n in old(t1.Nodes)
    ensures forall n :: n in out.Nodes ==> n in old(out.Nodes) || n in old(t0.Nodes) || n in old(t1.Nodes)
  {
    hide *;
    ghost var p, q, x, y := t0.Nodes, t1.Nodes, out.Nodes, other.Nodes;
    assert allocated(y);
    FourParts(t0, t1, out, other);
    LengthsStep(|p|, |q|, |x|, |y|, b, second, Min(b, |p|) + Min(b, |q|));
    ghost var m, p1, q1 := MergeBlock(t, t0, t1, out, b);
    FirstRunSizes(p, b, p1, t0.Nodes);
    FirstRunSizes(q, b, q1, t1.Nodes);
    PassingStep(t, b, p0, q0, p, q, x, y, p1, t0.Nodes, q1, t1.Nodes, m);
    PassingSwap(t, b, p0, q0, t0.Nodes, t1.Nodes, out.Nodes, other.Nodes);
    MakeFour(t0, t1, out, other, p, q, x);
    FourSwap(t0, t1, out, other);
  }

  /** One pass of `sort2`: runs of length `b` from two tapes become runs of twice
      the length on the other two. */
  method TapePass(t: Test, t0: Tape, t1: Tape, d0: Tape, d1: Tape, b: nat)
    requires t0 != t1 && d0 != t0 && d0 != t1 && d1 != t0 && d1 != t1 && d1 != d0
    requires t0.Holds() && t1.Holds() && Apart(t0.Nodes) && Apart(t1.Nodes) && Disjoint(t0.Nodes, t1.Nodes)
    requires b > 0 && t0.Nodes != [] && Dealt(|t0.Nodes|, |t1.Nodes|, b)
    modifies t0, t1, d0, d1, (set n | n in t0.Nodes + t1.Nodes)`Next
    ensures d0.Holds() && d1.Holds() && d0.Ended() && Apart(d0.Nodes) && Apart(d1.Nodes) && Disjoint(d0.Nodes, d1.Nodes)
    ensures Dealt(|d0.Nodes|, |d1.Nodes|, 2 * b)
    ensures multiset(d0.Nodes) + multiset(d1.Nodes) == multiset(old(t0.Nodes)) + multiset(old(t1.Nodes))
    ensures Ordered(t) && RisingRuns(t, old(t0.Nodes), b) && RisingRuns(t, old(t1.Nodes), b) ==>
              RisingRuns(t, d0.Nodes, 2 * b) && RisingRuns(t, d1.Nodes, 2 * b)
  {
    hide *;
    ghost var p0, q0 := t0.Nodes, t1.Nodes;
    assert allocated(p0) && allocated(q0);
    d0.Count := 0;
    d1.Count := 0;
    d0.Nodes, d1.Nodes := [], [];
    TapePassStart(t, t0, t1, d0, d1, b);
    var second := false;
    while t0.Count != 0
      invariant t0.Count == |t0.Nodes|
      invariant if second then Turn(t, t0, t1, d1, d0, b, p0, q0, true) else Turn(t, t0, t1, d0, d1, b, p0, q0, false)
      decreases t0.Count
    {
      if !second {
        UseTurn(t, t0, t1, d0, d1, b, p0, q0, false);
        DealOne(t, t0, t1, d0, d1, b, p0, q0, false);
        MakeTurn(t, t0, t1, d1, d0, b, p0, q0, true);
      } else {
        UseTurn(t, t0, t1, d1, d0, b, p0, q0, true);
        DealOne(t, t0, t1, d1, d0, b, p0, q0, true);
        MakeTurn(t, t0, t1, d0, d1, b, p0, q0, false);
      }
      second := !second;
    }
    if second {
      EndTurn(t, t0, t1, d1, d0, b, p0, q0, true);
    } else {
      EndTurn(t, t0, t1, d0, d1, b, p0, q0, false);
    }
  }

  ghost predicate Turn(t: Test, t0: Tape, t1: Tape, out: Tape, other: Tape, b: nat, p0: seq<Node>, q0: seq<Node>,
      second: bool)
    requires b > 0
    reads t0, t0.Nodes`Next, t0.Nodes`Value, t1, t1.Nodes`Next, t1.Nodes`Value
    reads out, out.Nodes`Next, out.Nodes`Value, other, other.Nodes`Next, other.Nodes`Value, p0`Value, q0`Value
  {
    && Four(t0, t1, out, other)
    && Lengths(|t0.Nodes|, |t1.Nodes|, |out.Nodes|, |other.Nodes|, b, second)
    && Passing(t, b, p0, q0, t0.Nodes, t1.Nodes, out.Nodes, other.Nodes)
  }

  lemma SameSum(p: seq<Node>, q: seq<Node>, x: seq<Node>, y: seq<Node>, p0: seq<Node>, q0: seq<Node>)
    requires multiset(p) + multiset(q) + multiset(x) + multiset(y) == multiset(p0) + multiset(q0)
    ensures forall n :: n in p || n in q || n in x || n in y ==> n in p0 + q0
  {
    forall n | n in p || n in q || n in x || n in y ensures n in p0 + q0 {
      assert n in multiset(p) + multiset(q) + multiset(x) + multiset(y);
      assert n in multiset(p0) + multiset(q0);
    }
  }

  lemma UseTurn(t: Test, t0: Tape, t1: Tape, out: Tape, other: Tape, b: nat, p0: seq<Node>, q0: seq<Node>, second: bool)
    requires b > 0 && Turn(t, t0, t1, out, other, b, p0, q0, second)
    ensures Four(t0, t1, out, other) && t0.Count == |t0.Nodes|
    ensures Lengths(|t0.Nodes|, |t1.Nodes|, |out.Nodes|, |other.Nodes|, b, second)
    ensures Passing(t, b, p0, q0, t0.Nodes, t1.Nodes, out.Nodes, other.Nodes)
    ensures forall n :: n in t0.Nodes + t1.Nodes + out.Nodes ==> n in p0 + q0
  {
    hide Lengths, RisingRuns, Ordered;
    FourParts(t0, t1, out, other);
    SameSum(t0.Nodes, t1.Nodes, out.Nodes, other.Nodes, p0, q0);
  }

  lemma MakeTurn(t: Test, t0: Tape, t1: Tape, out: Tape, other: Tape, b: nat, p0: seq<Node>, q0: seq<Node>,
      second: bool)
    requires b > 0 && Four(t0, t1, out, other)
    requires Lengths(|t0.Nodes|, |t1.Nodes|, |out.Nodes|, |other.Nodes|, b, second)
    requires Passing(t, b, p0, q0, t0.Nodes, t1.Nodes, out.Nodes, other.Nodes)
    ensures Turn(t, t0, t1, out, other, b, p0, q0, second) && t0.Count == |t0.Nodes|
  {
    FourParts(t0, t1, out, other);
  }

  lemma TapePassStart(t: Test, t0: Tape, t1: Tape, d0: Tape, d1: Tape, b: nat)
    requires t0 != t1 && d0 != t0 && d0 != t1 && d1 != t0 && d1 != t1 && d1 != d0
    requires t0.Holds() && t1.Holds() && Apart(t0.Nodes) && Apart(t1.Nodes) && Disjoint(t0.Nodes, t1.Nodes)
    requires b > 0 && t0.Nodes != [] && Dealt(|t0.Nodes|, |t1.Nodes|, b)
    requires d0.Nodes == [] && d1.Nodes == [] && d0.Count == 0 && d1.Count == 0
    ensures Turn(t, t0, t1, d0, d1, b, t0.Nodes, t1.Nodes, false) && t0.Count == |t0.Nodes|
  {
    hide Dealt;
  }

  lemma EndTurn(t: Test, t0: Tape, t1: Tape, out: Tape, other: Tape, b: nat, p0: seq<Node>, q0: seq<Node>, second: bool)
    requires b > 0 && Turn(t, t0, t1, out, other, b, p0, q0, second) && t0.Count == 0
    ensures out.Holds() && other.Holds() && out.Ended() && other.Ended() && Apart(out.Nodes) && Apart(other.Nodes)
    ensures Disjoint(out.Nodes, other.Nodes) && Disjoint(other.Nodes, out.Nodes)
    ensures if second then Dealt(|other.Nodes|, |out.Nodes|, 2 * b) else Dealt(|out.Nodes|, |other.Nodes|, 2 * b)
    ensures multiset(out.Nodes) + multiset(other.Nodes) == multiset(p0) + multiset(q0)
            == multiset(other.Nodes) + multiset(out.Nodes)
    ensures Ordered(t) && RisingRuns(t, p0, b) && RisingRuns(t, q0, b) ==>
              RisingRuns(t, out.Nodes, 2 * b) && RisingRuns(t, other.Nodes, 2 * b)
  {
    FourParts(t0, t1, out, other);
    hide Dealt, RisingRuns, Ordered;
    assert t0.Nodes == [] && t1.Nodes == [];
    var x, y := multiset(out.Nodes), multiset(other.Nodes);
    assert multiset(t0.Nodes) + multiset(t1.Nodes) + x + y == x + y == y + x;
  }

  // ----- the sort -----

  /** Puts a node on the front of a tape. */
  method Deal(node: Node, tape: Tape)
    requires tape.Holds() && Apart(tape.Nodes) && node !in tape.Nodes
    modifies tape, node`Next
    ensures tape.Holds() && Apart(tape.Nodes) && tape.Nodes == [node] + old(tape.Nodes)
  {
    hide *;
    ghost var d := tape.Nodes;
    assert allocated(d);
    tape.Parts();
    InnerFront(node, d);
    node.Next := tape.Head;
    tape.Head := node;
    tape.Count := tape.Count + 1;
    tape.Nodes := [node] + d;
    FrontInner(node, d);
    tape.Make();
  }

  lemma InnerFront(node: Node, d: seq<Node>)
    requires node !in d
    ensures d != [] ==> node !in d[..|d| - 1]
  {
    assert d != [] ==> forall n :: n in d[..|d| - 1] ==> n in d;
  }

  lemma FrontInner(node: Node, d: seq<Node>)
    requires Inner(d) && Apart(d) && node !in d && (d != [] ==> node.Next == d[0])
    ensures Inner([node] + d) && Apart([node] + d) && ([node] + d)[0] == node
  {
    var s := [node] + d;
    assert s[1..] == d;
    FirstApart(s);
    if d != [] {
      var k := |s| - 1;
      assert s[..k] == [node] + d[..|d| - 1] && s[..k][1..] == d[..|d| - 1] && s[k] == d[|d| - 1];
      FirstNext(s[..k], s[k]);
    }
  }

  /** The distribution loop of `sort2`: alternately to the two tapes. */
  method Distribute(head: Node?, t0: Tape, t1: Tape, ghost ns: seq<Node>)
    requires t0 != t1 && t0.Holds() && t1.Holds() && t0.Nodes == [] == t1.Nodes
    requires Apart(ns) && NextLinked(ns, null) && head == At(ns, 0)
    modifies t0, t1, ns`Next
    ensures t0.Holds() && t1.Holds() && Apart(t0.Nodes) && Apart(t1.Nodes) && Disjoint(t0.Nodes, t1.Nodes)
    ensures multiset(t0.Nodes) + multiset(t1.Nodes) == multiset(ns)
    ensures Dealt(|t0.Nodes|, |t1.Nodes|, 1) && (|ns| > 1 ==> |t1.Nodes| > 0)
  {
    hide *;
    assert allocated(ns);
    var node, base := head, 0;
    ghost var rest := ns;
    DistributeStart(ns, t0, t1);
    while node != null
      invariant base == 0 || base == 1
      invariant t0.Holds() && t1.Holds() && Apart(t0.Nodes) && Apart(t1.Nodes) && Disjoint(t0.Nodes, t1.Nodes)
      invariant Spread(ns, rest, t0.Nodes, t1.Nodes) && |t0.Nodes| == |t1.Nodes| + base
      invariant NextLinked(rest, null) && node == At(rest, 0)
      decreases |rest|
    {
      DistributeStep(ns, rest, t0.Nodes, t1.Nodes);
      var next := node.Next;
      if base == 0 {
        Deal(node, t0);
      } else {
        Deal(node, t1);
      }
      base := 1 - base;
      node := next;
      rest := rest[1..];
    }
    DistributeEnd(ns, rest, t0.Nodes, t1.Nodes);
  }

  /** What is dealt out, and what is still in the list. */
  ghost predicate Spread(ns: seq<Node>, rest: seq<Node>, x: seq<Node>, y: seq<Node>) {
    && Apart(rest) && Within(rest, ns) && Disjoint(rest, x) && Disjoint(rest, y)
    && multiset(rest) + multiset(x) + multiset(y) == multiset(ns)
    && Apart(x) && Apart(y) && Disjoint(x, y)
  }

  lemma DistributeStart(ns: seq<Node>, t0: Tape, t1: Tape)
    requires Apart(ns) && t0.Nodes == [] == t1.Nodes
    ensures Spread(ns, ns, t0.Nodes, t1.Nodes) && Apart(t0.Nodes) && Apart(t1.Nodes) && Disjoint(t0.Nodes, t1.Nodes)
  {
  }

  lemma DistributeStep(ns: seq<Node>, rest: seq<Node>, x: seq<Node>, y: seq<Node>)
    requires Spread(ns, rest, x, y) && At(rest, 0) != null && NextLinked(rest, null)
    ensures rest != [] && At(rest, 0) == rest[0] && rest[0] in ns && rest[0] !in x && rest[0] !in y
            && rest[0] !in rest[1..]
    ensures NextLinked(rest[1..], null) && rest[0].Next == At(rest[1..], 0) && |rest[1..]| < |rest|
    ensures Spread(ns, rest[1..], [rest[0]] + x, y) && Spread(ns, rest[1..], x, [rest[0]] + y)
    ensures Disjoint([rest[0]] + x, y) && Disjoint(x, [rest[0]] + y)
    ensures x != [] ==> rest[0] !in x[..|x| - 1]
    ensures y != [] ==> rest[0] !in y[..|y| - 1]
  {
    var e, r := rest[0], rest[1..];
    assert rest[0] in rest;
    FirstNext(rest, null);
    FirstApart(rest);
    InnerFront(e, x);
    InnerFront(e, y);
    assert rest == [e] + r;
    DealtX(ns, e, r, x, y);
    SpreadSwap(ns, [e] + r, x, y);
    DealtX(ns, e, r, y, x);
    SpreadSwap(ns, r, x, [e] + y);
  }

  lemma SpreadSwap(ns: seq<Node>, rest: seq<Node>, x: seq<Node>, y: seq<Node>)
    ensures Spread(ns, rest, x, y) <==> Spread(ns, rest, y, x)
  {
    assert multiset(rest) + multiset(x) + multiset(y) == multiset(rest) + multiset(y) + multiset(x);
  }

  lemma DealtX(ns: seq<Node>, e: Node, r: seq<Node>, x: seq<Node>, y: seq<Node>)
    requires Spread(ns, [e] + r, x, y) && e !in r && Apart(r)
    ensures Spread(ns, r, [e] + x, y) && Disjoint([e] + x, y) && Disjoint(y, [e] + x)
  {
    assert e in [e] + r && forall n :: n in r ==> n in [e] + r;
    JoinApart([e], x);
    var p := [e] + x;
    assert forall n :: n in p ==> n == e || n in x;
    assert multiset(r) + multiset(p) + multiset(y) == multiset([e] + r) + multiset(x) + multiset(y);
  }

  lemma DistributeEnd(ns: seq<Node>, rest: seq<Node>, x: seq<Node>, y: seq<Node>)
    requires Spread(ns, rest, x, y) && At(rest, 0) == null && |y| <= |x| <= |y| + 1
    ensures multiset(x) + multiset(y) == multiset(ns) && Dealt(|x|, |y|, 1) && (|ns| > 1 ==> |y| > 0)
  {
    DealtOnes(|y|);
    assert multiset([]) + multiset(x) + multiset(y) == multiset(x) + multiset(y);
    assert |multiset(ns)| == |multiset(x)| + |multiset(y)|;
  }

  /** The last loop of `sort2`: sets the links back. */
  method LinkBack(head: Node, ghost s: seq<Node>)
    requires Apart(s) && NextLinked(s, null) && s != [] && head == s[0]
    modifies (set n | n in s)`Prev
    ensures Linked(s)
  {
    var prev: Node?, node: Node? := null, head;
    ghost var i := 0;
    while node != null
      invariant 0 <= i <= |s| && node == Or(s, i, null) && prev == Or(s, i - 1, null)
      invariant forall j :: 0 <= j < i ==> s[j].Prev == Or(s, j - 1, null)
      invariant NextLinked(s, null)
      decreases |s| - i
    {
      node.Prev := prev;
      prev, node := node, node.Next;
      i := i + 1;
    }
  }

  /** Distribution and passes. */
  method SortTapes(t: Test, head: Node, junk: Node?, ghost ns: seq<Node>) returns (t0: Tape, t1: Tape, ghost b: nat)
    requires Apart(ns) && NextLinked(ns, null) && head == At(ns, 0) && |ns| > 1
    modifies ns`Next
    ensures b > 0 && TapesAt(t, ns, t0, t1, b) && t1.Count == 0 && t0.Ended()
  {
    hide *;
    assert allocated(ns);
    var tape0 := new Tape(null);
    var tape1 := new Tape(junk);
    var tape2 := new Tape(null);
    var tape3 := new Tape(null);
    Distribute(head, tape0, tape1, ns);
    SinglesRise(t, tape0.Nodes);
    SinglesRise(t, tape1.Nodes);
    MakeTapes(t, ns, tape0, tape1, 1);
    t0, t1, b := Passes(t, tape0, tape1, tape2, tape3, ns);
  }

  /** The method `sort2`.  `junk` is what the head of the second tape holds
      before anything is put there. */
  method Sort2(list: List, t: Test, junk: Node?)
    requires list.Valid()
    modifies list, list.Nodes`Next, list.Nodes`Prev
    ensures list.Valid() && multiset(list.Nodes) == multiset(old(list.Nodes))
    ensures Ordered(t) ==> Rising(t, list.Nodes)
  {
    hide *;
    list.ValidParts();
    list.SoundParts();
    if list.Length <= 1 {
      ShortRising(t, list.Nodes);
      return;
    }
    ghost var ns := list.Nodes;
    SortStart(t, ns);
    AtEnds(ns);
    assert allocated(ns) && forall n :: n in ns ==> n as object != list;
    var first, second;
    ghost var b;
    first, second, b := SortTapes(t, list.Head, junk, ns);
    var head, tail, s := Finish(t, ns, first, second, b);
    Install(list, head, tail, s);
  }

  /** The passes: each one leaves the runs on the other pair of tapes, which the
      next one reads. */
  method Passes(t: Test, tape0: Tape, tape1: Tape, tape2: Tape, tape3: Tape, ghost ns: seq<Node>)
    returns (t0: Tape, t1: Tape, ghost b: nat)
    requires tape0 != tape1 && tape0 != tape2 && tape0 != tape3 && tape1 != tape2 && tape1 != tape3 && tape2 != tape3
    requires TapesAt(t, ns, tape0, tape1, 1) && tape1.Nodes != []
    modifies tape0, tape1, tape2, tape3, ns`Next
    ensures b > 0 && TapesAt(t, ns, t0, t1, b) && t1.Count == 0 && t0.Ended()
  {
    hide *;
    assert allocated(ns);
    var d0, d1, blockSize := tape2, tape3, 1;
    t0, t1 := tape0, tape1;
    UseTapes(t, ns, t0, t1, 1);
    while t1.Count != 0
      invariant {t0, t1, d0, d1} == {tape0, tape1, tape2, tape3}
      invariant t0 != t1 && d0 != t0 && d0 != t1 && d1 != t0 && d1 != t1 && d1 != d0
      invariant blockSize > 0 && TapesAt(t, ns, t0, t1, blockSize)
      invariant if blockSize == 1 then t1.Count != 0 else t0.Ended()
      decreases |ns| - blockSize
    {
      UseTapes(t, ns, t0, t1, blockSize);
      TapePass(t, t0, t1, d0, d1, blockSize);
      MakeTapes(t, ns, d0, d1, 2 * blockSize);
      t0, t1, d0, d1 := d0, d1, t0, t1;
      blockSize := 2 * blockSize;
    }
    b := blockSize;
  }

  ghost predicate TapesAt(t: Test, ns: seq<Node>, t0: Tape, t1: Tape, b: nat)
    requires b > 0
    reads t0, t0.Nodes`Next, t0.Nodes`Value, t1, t1.Nodes`Next, t1.Nodes`Value
  {
    && t0.Holds() && t1.Holds() && Apart(t0.Nodes) && Apart(t1.Nodes) && Disjoint(t0.Nodes, t1.Nodes)
    && Dealt(|t0.Nodes|, |t1.Nodes|, b)
    && multiset(t0.Nodes) + multiset(t1.Nodes) == multiset(ns)
    && (Ordered(t) ==> RisingRuns(t, t0.Nodes, b) && RisingRuns(t, t1.Nodes, b))
  }

  /** The last tape becomes the list again. */
  method Finish(t: Test, ghost ns: seq<Node>, t0: Tape, t1: Tape, ghost b: nat)
    returns (head: Node, tail: Node, ghost s: seq<Node>)
    requires b > 0 && TapesAt(t, ns, t0, t1, b) && t1.Count == 0 && t0.Ended() && |ns| > 1
    modifies ns`Next, ns`Prev
    ensures Linked(s) && s != [] && head == s[0] && tail == s[|s| - 1] && |s| == |ns|
    ensures multiset(s) == multiset(ns) && (Ordered(t) ==> Rising(t, s))
  {
    hide *;
    s := t0.Nodes;
    assert allocated(s);
    FinishFacts(t, ns, t0, t1, b);
    head := t0.Head;
    tail := t0.Tail;
    tail.Next := null;
    LastNext(s, null);
    LinkBack(head, s);
  }

  lemma FinishFacts(t: Test, ns: seq<Node>, t0: Tape, t1: Tape, b: nat)
    requires b > 0 && TapesAt(t, ns, t0, t1, b) && t1.Count == 0 && t0.Ended() && |ns| > 1
    ensures var s := t0.Nodes;
            && s != [] && |s| == |ns| && multiset(s) == multiset(ns) && Apart(s) && t0.Head == s[0]
                && t0.Tail == s[|s| - 1]
            && t0.Tail in ns && NextLinked(s[..|s| - 1], s[|s| - 1]) && s[|s| - 1] !in s[..|s| - 1]
            && (forall n :: n in s ==> n in ns)
            && (Ordered(t) ==> Rising(t, s))
  {
    var s := t0.Nodes;
    assert multiset(s) + multiset([]) == multiset(s);
    assert |multiset(s)| == |multiset(ns)|;
    DealtMore(|s|, 0, b);
    LastApart(s);
    forall n | n in s ensures n in ns {
      assert n in multiset(s);
    }
  }

  lemma UseTapes(t: Test, ns: seq<Node>, t0: Tape, t1: Tape, b: nat)
    requires b > 0 && TapesAt(t, ns, t0, t1, b)
    ensures t0.Holds() && t1.Holds() && Apart(t0.Nodes) && Apart(t1.Nodes) && Disjoint(t0.Nodes, t1.Nodes)
    ensures Dealt(|t0.Nodes|, |t1.Nodes|, b) && multiset(t0.Nodes) + multiset(t1.Nodes) == multiset(ns)
    ensures Ordered(t) ==> RisingRuns(t, t0.Nodes, b) && RisingRuns(t, t1.Nodes, b)
    ensures t1.Count == |t1.Nodes| && (t1.Nodes != [] ==> t1.Count != 0)
    ensures t1.Count != 0 ==> t0.Nodes != [] && b < |ns|
    ensures forall n :: n in t0.Nodes + t1.Nodes ==> n in ns
  {
    DealtMore(|t0.Nodes|, |t1.Nodes|, b);
    assert |multiset(ns)| == |multiset(t0.Nodes)| + |multiset(t1.Nodes)|;
    forall n | n in t0.Nodes + t1.Nodes ensures n in ns {
      assert n in multiset(t0.Nodes) + multiset(t1.Nodes);
    }
  }

  lemma MakeTapes(t: Test, ns: seq<Node>, t0: Tape, t1: Tape, b: nat)
    requires b > 0
    requires t0.Holds() && t1.Holds() && Apart(t0.Nodes) && Apart(t1.Nodes) && Disjoint(t0.Nodes, t1.Nodes)
    requires Dealt(|t0.Nodes|, |t1.Nodes|, b) && multiset(t0.Nodes) + multiset(t1.Nodes) == multiset(ns)
    requires Ordered(t) ==> RisingRuns(t, t0.Nodes, b) && RisingRuns(t, t1.Nodes, b)
    ensures TapesAt(t, ns, t0, t1, b) && t1.Count == |t1.Nodes|
  {
  }

  lemma ShortRising(t: Test, ns: seq<Node>)
    requires |ns| <= 1
    ensures Rising(t, ns)
  {
  }

  lemma {:induction false} SinglesRise(t: Test, s: seq<Node>)
    ensures RisingRuns(t, s, 1)
  {
    if |s| > 1 {
      SinglesRise(t, s[1..]);
    }
  }
}
