/** The method `sort` of dev/src/lib/Agg/List.c: bottom-up merging that relinks
    the nodes of the list in place. */
module Sorting {
  import opened Chain
  import opened Lists

  /** A comparison as the sort sees it: does the call succeed? */
  type Test = (Obj, Obj) -> bool

  /** What the sort needs of a comparison.  Strict weak orders and total
      preorders both have it. */
  ghost predicate Sortable(t: Test) {
    && (forall a, b, c :: t(a, b) && t(b, c) ==> t(a, c))
    && (forall a, b, c :: !t(a, b) && !t(b, c) ==> !t(a, c))
  }

  ghost predicate StrictWeak(t: Test) {
    && (forall a :: !t(a, a))
    && (forall a, b, c :: t(a, b) && t(b, c) ==> t(a, c))
    && (forall a, b, c :: !t(a, b) && !t(b, c) ==> !t(a, c))
  }

  ghost predicate Preorder(t: Test) {
    && (forall a, b :: t(a, b) || t(b, a))
    && (forall a, b, c :: t(a, b) && t(b, c) ==> t(a, c))
  }

  lemma BothSortable(t: Test)
    ensures StrictWeak(t) || Preorder(t) ==> Sortable(t)
  {
    if Preorder(t) {
      forall a, b, c | !t(a, b) && !t(b, c) ensures !t(a, c) {
        assert t(c, b) && t(b, a);
      }
    }
  }

  /** Where a node stood at first. */
  ghost function Pos(ns: seq<Node>, x: Node): nat {
    if ns == [] || ns[0] == x then 0 else 1 + Pos(ns[1..], x)
  }

  lemma {:induction false} PosAt(ns: seq<Node>, i: nat)
    requires Apart(ns) && i < |ns|
    ensures Pos(ns, ns[i]) == i
  {
    if i > 0 {
      assert Apart(ns[1..]) by {
        FirstApart(ns);
      }
      PosAt(ns[1..], i - 1);
    }
  }

  /** Whether `x` goes before `y`: of two nodes the one that stood first goes
      first if the test succeeds on them in that order. */
  ghost predicate Leads(t: Test, ns: seq<Node>, x: Node, y: Node)
    reads x`Value, y`Value
  {
    if Pos(ns, x) < Pos(ns, y) then t(x.Value, y.Value) else !t(y.Value, x.Value)
  }

  ghost predicate Sorted(t: Test, ns: seq<Node>, s: seq<Node>)
    reads s`Value
  {
    forall i, j :: 0 <= i < j < |s| ==> Leads(t, ns, s[i], s[j])
  }

  ghost predicate AllLead(t: Test, ns: seq<Node>, a: seq<Node>, b: seq<Node>)
    reads a`Value, b`Value
  {
    forall x, y :: x in a && y in b ==> Leads(t, ns, x, y)
  }

  /** Everything in `a` stood before everything in `b`. */
  ghost predicate Earlier(ns: seq<Node>, a: seq<Node>, b: seq<Node>) {
    forall x, y :: x in a && y in b ==> Pos(ns, x) < Pos(ns, y)
  }

  ghost predicate Disjoint(a: seq<Node>, b: seq<Node>) {
    forall n :: n in a ==> n !in b
  }

  /** Runs of length `b`, each one sorted, taken from consecutive stretches of
      the list. */
  ghost predicate Runs(t: Test, ns: seq<Node>, s: seq<Node>, b: nat)
    requires b > 0
    reads s`Value
  {
    if |s| <= b then Sorted(t, ns, s)
    else Sorted(t, ns, s[..b]) && Earlier(ns, s[..b], s[b..]) && Runs(t, ns, s[b..], b)
  }

  lemma LeadsTrans(t: Test, ns: seq<Node>, x: Node, y: Node, z: Node)
    requires Sortable(t) && Leads(t, ns, x, y) && Leads(t, ns, y, z)
    requires Pos(ns, x) != Pos(ns, y) && Pos(ns, y) != Pos(ns, z) && Pos(ns, x) != Pos(ns, z)
    ensures Leads(t, ns, x, z)
  {
    ValuesTrans(t, x.Value, y.Value, z.Value);
  }

  lemma ValuesTrans(t: Test, a: Obj, b: Obj, c: Obj)
    requires Sortable(t)
    ensures t(a, b) && t(b, c) ==> t(a, c)
    ensures t(a, b) && !t(c, b) ==> t(a, c) && !t(c, a)
    ensures !t(b, a) && t(b, c) ==> t(a, c) && !t(c, a)
    ensures !t(c, b) && !t(b, a) ==> !t(c, a)
  {
    if t(c, a) {
      assert t(a, b) ==> t(c, b);
      assert t(b, c) ==> t(b, a);
    }
    if !t(a, c) {
      assert !t(c, b) ==> !t(a, b);
      assert !t(b, a) ==> !t(b, c);
    }
  }

  /** The middle of a merge: `m` is done, `p` and `q` are to come. */
  ghost predicate Merging(t: Test, ns: seq<Node>, m: seq<Node>, p: seq<Node>, q: seq<Node>)
    reads m`Value, p`Value, q`Value
  {
    && Sorted(t, ns, m) && Sorted(t, ns, p) && Sorted(t, ns, q)
    && AllLead(t, ns, m, p) && AllLead(t, ns, m, q) && Earlier(ns, p, q)
  }

  /** One node more, taken from a run all of which it leads. */
  lemma Emit(t: Test, ns: seq<Node>, m: seq<Node>, e: Node, rest: seq<Node>, other: seq<Node>)
    requires Sorted(t, ns, m) && Sorted(t, ns, [e] + rest)
    requires AllLead(t, ns, m, [e] + rest) && AllLead(t, ns, m, other) && AllLead(t, ns, [e], other)
    ensures Sorted(t, ns, m + [e]) && Sorted(t, ns, rest)
    ensures AllLead(t, ns, m + [e], rest) && AllLead(t, ns, m + [e], other)
  {
    var s, er := m + [e], [e] + rest;
    assert e in er;
    forall y | y in rest ensures Leads(t, ns, e, y) && y in er {
      var k :| 0 <= k < |rest| && rest[k] == y;
      assert er[0] == e && er[k + 1] == y;
    }
    forall i, j | 0 <= i < j < |rest| ensures Leads(t, ns, rest[i], rest[j]) {
      assert er[i + 1] == rest[i] && er[j + 1] == rest[j];
    }
    forall i, j | 0 <= i < j < |s| ensures Leads(t, ns, s[i], s[j]) {
      if j == |m| {
        assert m[i] in m;
      }
    }
    assert e in [e];
  }

  /** If the head of one run leads the head of the other, it leads all of it. */
  lemma HeadLeads(t: Test, ns: seq<Node>, e: Node, other: seq<Node>)
    requires Sortable(t) && Sorted(t, ns, other) && (other != [] ==> Leads(t, ns, e, other[0]))
    requires forall i, j :: 0 <= i < j < |other| ==> Pos(ns, other[i]) != Pos(ns, other[j])
    requires forall y :: y in other ==> Pos(ns, y) != Pos(ns, e)
    ensures AllLead(t, ns, [e], other)
  {
    forall y | y in other ensures Leads(t, ns, e, y) {
      var k :| 0 <= k < |other| && other[k] == y;
      if k > 0 {
        LeadsTrans(t, ns, e, other[0], y);
      }
    }
  }

  // ----- merging two runs -----

  lemma PosDiffer(ns: seq<Node>, x: Node, y: Node)
    requires Apart(ns) && x in ns && y in ns && x != y
    ensures Pos(ns, x) != Pos(ns, y)
  {
    var i :| 0 <= i < |ns| && ns[i] == x;
    var j :| 0 <= j < |ns| && ns[j] == y;
    PosAt(ns, i);
    PosAt(ns, j);
  }

  ghost predicate Within(s: seq<Node>, all: seq<Node>) {
    forall n :: n in s ==> n in all
  }

  ghost predicate Separate(out: seq<Node>, p: seq<Node>, q: seq<Node>) {
    Apart(out) && Apart(p) && Apart(q) && Disjoint(out, p) && Disjoint(out, q) && Disjoint(p, q)
  }

  lemma LeadsAll(t: Test, ns: seq<Node>, e: Node, other: seq<Node>)
    requires Sortable(t) && Sorted(t, ns, other) && (other != [] ==> Leads(t, ns, e, other[0]))
    requires Apart(ns) && Apart(other) && Within(other, ns) && e in ns && e !in other
    ensures AllLead(t, ns, [e], other)
  {
    forall i, j | 0 <= i < j < |other| ensures Pos(ns, other[i]) != Pos(ns, other[j]) {
      PosDiffer(ns, other[i], other[j]);
    }
    forall y | y in other ensures Pos(ns, y) != Pos(ns, e) {
      PosDiffer(ns, y, e);
    }
    HeadLeads(t, ns, e, other);
  }

  lemma TakeP(t: Test, ns: seq<Node>, m: seq<Node>, p: seq<Node>, q: seq<Node>)
    requires Sortable(t) && Merging(t, ns, m, p, q) && p != [] && (q == [] || t(p[0].Value, q[0].Value))
    requires Apart(ns) && Within(p, ns) && Within(q, ns) && Apart(q) && Disjoint(p, q)
    ensures Merging(t, ns, m + [p[0]], p[1..], q)
  {
    assert p[0] in p && [p[0]] + p[1..] == p;
    if q != [] {
      assert q[0] in q;
    }
    LeadsAll(t, ns, p[0], q);
    Emit(t, ns, m, p[0], p[1..], q);
    assert forall x :: x in p[1..] ==> x in p;
  }

  lemma TakeQ(t: Test, ns: seq<Node>, m: seq<Node>, p: seq<Node>, q: seq<Node>)
    requires Sortable(t) && Merging(t, ns, m, p, q) && q != [] && (p == [] || !t(p[0].Value, q[0].Value))
    requires Apart(ns) && Within(p, ns) && Within(q, ns) && Apart(p) && Disjoint(p, q)
    ensures Merging(t, ns, m + [q[0]], p, q[1..])
  {
    assert q[0] in q && [q[0]] + q[1..] == q;
    if p != [] {
      assert p[0] in p;
    }
    LeadsAll(t, ns, q[0], p);
    Emit(t, ns, m, q[0], q[1..], p);
    assert forall x :: x in q[1..] ==> x in q;
  }

  /** Linked from node to node; where the last one points is left open. */
  ghost predicate Inner(p: seq<Node>)
    reads (if p == [] then [] else p[..|p| - 1])`Next
  {
    p != [] ==> NextLinked(p[..|p| - 1], p[|p| - 1])
  }

  lemma InnerFirst(p: seq<Node>)
    requires Inner(p) && p != []
    ensures Inner(p[1..]) && (|p| > 1 ==> p[0].Next == p[1])
  {
    if |p| > 1 {
      var a := p[..|p| - 1];
      FirstNext(a, p[|p| - 1]);
      assert a[1..] == p[1..][..|p| - 2];
    }
  }

  /** Puts `e` behind the output. */
  method Append(head0: Node?, tail: Node?, e: Node, ghost out: seq<Node>, ghost p: seq<Node>, ghost q: seq<Node>)
    returns (head: Node?)
    requires Separate(out, p, q) && e !in out && e !in p && e !in q && BackOpen(out) && Inner(p) && NextLinked(q, null)
    requires head0 == At(out, 0) && tail == At(out, |out| - 1)
    modifies (if tail == null then {} else {tail})`Next, e`Prev
    ensures BackOpen(out + [e]) && Inner(p) && NextLinked(q, null)
    ensures head == At(out + [e], 0)
  {
    hide *;
    AppendReady(out, p, q);
    assert allocated(out) && allocated(p) && allocated(q);
    head := head0;
    if tail != null {
      tail.Next := e;
    } else {
      head := e;
    }
    e.Prev := tail;
    AppendDone(out, e);
  }

  lemma AppendReady(out: seq<Node>, p: seq<Node>, q: seq<Node>)
    requires Separate(out, p, q)
    ensures At(out, |out| - 1) == (if out == [] then null else out[|out| - 1])
    ensures At(out, 0) == (if out == [] then null else out[0])
    ensures out != [] ==> out[|out| - 1] !in out[..|out| - 1] && out[|out| - 1] !in p && out[|out| - 1] !in q
    ensures out != [] ==> out[|out| - 1] in out
    ensures p != [] ==> forall n :: n in p[..|p| - 1] ==> n in p
  {
    if out != [] {
      LastApart(out);
      assert out[|out| - 1] in out;
    }
  }

  lemma AppendDone(out: seq<Node>, e: Node)
    requires BackOpen(out) && e !in out && e.Prev == At(out, |out| - 1) && (out != [] ==> out[|out| - 1].Next == e)
    ensures BackOpen(out + [e]) && At(out + [e], 0) == if out == [] then e else out[0]
  {
    if out == [] {
      assert out + [e] == [e];
      assert Or([e], -1, null) == null;
    } else {
      Extend(out, e);
    }
  }

  lemma Moved(out: seq<Node>, p: seq<Node>, q: seq<Node>)
    requires Separate(out, p, q) && p != []
    ensures p[0] !in out && p[0] !in p[1..] && p[0] !in q
    ensures Separate(out, p[1..], q) && Separate(out + [p[0]], p[1..], q)
  {
    FirstApart(p);
    assert p[0] in p;
    assert forall x :: x in p[1..] ==> x in p;
    JoinApart(out, [p[0]]);
  }

  lemma Swapped(out: seq<Node>, p: seq<Node>, q: seq<Node>)
    ensures Separate(out, p, q) <==> Separate(out, q, p)
  {
  }

  lemma MovedQ(out: seq<Node>, p: seq<Node>, q: seq<Node>)
    requires Separate(out, p, q) && q != []
    ensures q[0] !in out && q[0] !in p && q[0] !in q[1..]
    ensures Separate(out, p, q[1..]) && Separate(out + [q[0]], p, q[1..])
  {
    Swapped(out, p, q);
    Moved(out, q, p);
    Swapped(out, p, q[1..]);
    Swapped(out + [q[0]], p, q[1..]);
  }

  /** Where a merge stands: `out` is linked up, `p` is left of the first run,
      and `q` is left of the rest of the list, `k` nodes of it in the second run. */
  ghost predicate Woven(ns: seq<Node>, out: seq<Node>, p: seq<Node>, q: seq<Node>)
    reads out`Next, out`Prev, p`Next, q`Next
  {
    && Apart(ns) && Separate(out, p, q) && Within(out, ns) && Within(p, ns) && Within(q, ns)
    && BackOpen(out) && Inner(p) && NextLinked(q, null)
  }

  ghost function Min(a: nat, b: nat): nat { if a < b then a else b }

  ghost predicate AtOut(out: seq<Node>, head: Node?, tail: Node?) {
    head == At(out, 0) && tail == At(out, |out| - 1)
  }

  /** Sends the head of the first run to the output. */
  method EmitP(head0: Node?, tail: Node?, e: Node, ghost ns: seq<Node>, ghost out: seq<Node>, ghost p: seq<Node>,
      ghost q: seq<Node>)
    returns (head: Node?)
    requires Woven(ns, out, p, q) && p != [] && e == p[0] && AtOut(out, head0, tail)
    modifies ns`Next, ns`Prev
    ensures Woven(ns, out + [e], p[1..], q) && AtOut(out + [e], head, e)
  {
    hide *;
    UseWoven(ns, out, p, q);
    Moved(out, p, q);
    InnerFirst(p);
    head := Append(head0, tail, e, out, p[1..], q);
    MakeWoven(ns, out + [e], p[1..], q);
    AtLast(out, e);
  }

  /** Sends the head of the second run to the output. */
  method EmitQ(head0: Node?, tail: Node?, e: Node, ghost ns: seq<Node>, ghost out: seq<Node>, ghost p: seq<Node>,
      ghost q: seq<Node>)
    returns (head: Node?)
    requires Woven(ns, out, p, q) && q != [] && e == q[0] && AtOut(out, head0, tail)
    modifies ns`Next, ns`Prev
    ensures Woven(ns, out + [e], p, q[1..]) && AtOut(out + [e], head, e)
  {
    hide *;
    UseWoven(ns, out, p, q);
    MovedQ(out, p, q);
    FirstNext(q, null);
    head := Append(head0, tail, e, out, p, q[1..]);
    MakeWoven(ns, out + [e], p, q[1..]);
    AtLast(out, e);
  }

  lemma AtLast(out: seq<Node>, e: Node)
    ensures At(out + [e], |out|) == e && |out + [e]| - 1 == |out|
    ensures forall head :: head == At(out + [e], 0) ==> AtOut(out + [e], head, e)
  {
  }

  lemma UseWoven(ns: seq<Node>, out: seq<Node>, p: seq<Node>, q: seq<Node>)
    requires Woven(ns, out, p, q)
    ensures Apart(ns) && Separate(out, p, q) && BackOpen(out) && Inner(p) && NextLinked(q, null)
    ensures forall n :: n in out || n in p || n in q ==> n in ns
    ensures Within(out, ns) && Within(p, ns) && Within(q, ns)
    ensures forall head, tail :: AtOut(out, head, tail) ==> head == At(out, 0) && tail == At(out, |out| - 1)
    ensures At(out, |out| - 1) == null || At(out, |out| - 1) in ns
    ensures p != [] ==> p[0] in ns
    ensures q != [] ==> q[0] in ns && q[0].Next == At(q[1..], 0)
  {
    if q != [] {
      FirstNext(q, null);
    }
  }

  lemma MakeWoven(ns: seq<Node>, out: seq<Node>, p: seq<Node>, q: seq<Node>)
    requires Apart(ns) && Separate(out, p, q) && BackOpen(out) && Inner(p) && NextLinked(q, null)
    requires forall n :: n in out || n in p || n in q ==> n in ns
    ensures Woven(ns, out, p, q)
  {
  }

  /** How far a merge has come: `m` of the nodes of the two runs are out. */
  ghost predicate Merged(t: Test, ns: seq<Node>, a: seq<Node>, b: seq<Node>, m: seq<Node>, p: seq<Node>, r: seq<Node>)
    reads a`Value, b`Value, m`Value, p`Value, r`Value
  {
    && multiset(m) + multiset(p) + multiset(r) == multiset(a) + multiset(b)
    && (Sortable(t) && Sorted(t, ns, a) && Sorted(t, ns, b) && Earlier(ns, a, b) ==> Merging(t, ns, m, p, r))
  }

  lemma StepP(t: Test, ns: seq<Node>, a: seq<Node>, b: seq<Node>, out: seq<Node>, m: seq<Node>, p: seq<Node>,
      q: seq<Node>, k: nat)
    requires k <= |q| && Woven(ns, out, p, q) && Merged(t, ns, a, b, m, p, q[..k])
    requires p != [] && (k == 0 || t(p[0].Value, q[0].Value))
    ensures Merged(t, ns, a, b, m + [p[0]], p[1..], q[..k])
  {
    var r := q[..k];
    assert p == [p[0]] + p[1..];
    assert forall n :: n in r ==> n in q;
    if Sortable(t) && Merging(t, ns, m, p, r) {
      TakeP(t, ns, m, p, r);
    }
  }

  lemma StepQ(t: Test, ns: seq<Node>, a: seq<Node>, b: seq<Node>, out: seq<Node>, m: seq<Node>, p: seq<Node>,
      q: seq<Node>, k: nat)
    requires k <= |q| && Woven(ns, out, p, q) && Merged(t, ns, a, b, m, p, q[..k])
    requires k > 0 && (p == [] || !t(p[0].Value, q[0].Value))
    ensures Merged(t, ns, a, b, m + [q[0]], p, q[1..][..k - 1])
  {
    var r := q[..k];
    assert r == [q[0]] + q[1..][..k - 1];
    assert r[0] == q[0] && r[1..] == q[1..][..k - 1];
    assert forall n :: n in r ==> n in q;
    if Sortable(t) && Merging(t, ns, m, p, r) {
      TakeQ(t, ns, m, p, r);
    }
  }

  /** The merge loop of `sort`: takes `pSize` nodes from `p0` and up to `qSize`
      from `q0`, and leaves `q` where the second run ended. */
  method MergeRuns(t: Test, p0: Node?, pSize0: nat, q0: Node?, qSize0: nat, head0: Node?, tail0: Node?,
                   ghost ns: seq<Node>, ghost out0: seq<Node>, ghost a: seq<Node>, ghost b: seq<Node>)
    returns (q: Node?, head: Node?, tail: Node?, ghost m: seq<Node>)
    requires Woven(ns, out0, a, b) && AtOut(out0, head0, tail0)
    requires p0 == At(a, 0) && pSize0 == |a| && q0 == At(b, 0)
    modifies ns`Next, ns`Prev
    ensures var k := Min(qSize0, |b|);
            && Woven(ns, out0 + m, [], b[k..]) && q == At(b[k..], 0) && AtOut(out0 + m, head, tail)
            && Merged(t, ns, a, b[..k], m, [], [])
  {
    hide *;
    var p, pSize, qSize := p0, pSize0, qSize0;
    q, head, tail, m := q0, head0, tail0, [];
    ghost var a', b', k := a, b, Min(qSize0, |b|);
    ghost var k0 := k;
    MergeStart(t, ns, out0, a, b, qSize0);
    assert allocated(ns) && allocated(a) && allocated(b);
    while pSize > 0 || (qSize > 0 && q != null)
      invariant pSize == |a'| && k == Min(qSize, |b'|) && k <= k0 <= |b| && b' == b[k0 - k..]
      invariant Woven(ns, out0 + m, a', b') && AtOut(out0 + m, head, tail)
      invariant a' != [] ==> p == a'[0]
      invariant q == At(b', 0)
      invariant Merged(t, ns, a, b[..k0], m, a', b'[..k])
      decreases |a'| + |b'|
    {
      MergeFacts(ns, out0 + m, a', b', qSize);
      var e, second;
      if pSize == 0 {
        second := true;
      } else if qSize == 0 || q == null {
        second := false;
      } else {
        second := !t(p.Value, q.Value);
      }
      if second {
        e := q;
        q := q.Next;
        qSize := qSize - 1;
        StepQ(t, ns, a, b[..k0], out0 + m, m, a', b', k);
        head := EmitQ(head, tail, e, ns, out0 + m, a', b');
        b', k := b'[1..], k - 1;
      } else {
        e := p;
        p := p.Next;
        pSize := pSize - 1;
        StepP(t, ns, a, b[..k0], out0 + m, m, a', b', k);
        head := EmitP(head, tail, e, ns, out0 + m, a', b');
        a' := a'[1..];
      }
      Grouped(out0, m, e);
      m := m + [e];
      tail := e;
    }
    MergeEnd(a', b', k, qSize, q);
  }

  lemma Grouped(out: seq<Node>, m: seq<Node>, e: Node)
    ensures out + m + [e] == out + (m + [e])
  {
  }

  lemma MergeStart(t: Test, ns: seq<Node>, out: seq<Node>, a: seq<Node>, b: seq<Node>, qSize: nat)
    ensures var k := Min(qSize, |b|);
            k <= |b| && out + [] == out && b == b[0..] && Merged(t, ns, a, b[..k], [], a, b[..k])
    ensures a != [] ==> At(a, 0) == a[0]
  {
  }

  lemma MergeFacts(ns: seq<Node>, out: seq<Node>, a: seq<Node>, b: seq<Node>, qSize: nat)
    requires Woven(ns, out, a, b)
    ensures At(b, 0) == if b == [] then null else b[0]
    ensures Min(qSize, |b|) == 0 <==> qSize == 0 || At(b, 0) == null
    ensures Min(qSize, |b|) <= |b|
    ensures b != [] ==> b[0].Next == At(b[1..], 0)
    ensures b != [] && qSize > 0 ==> Min(qSize - 1, |b[1..]|) == Min(qSize, |b|) - 1
    ensures |a| > 1 ==> a[0].Next == a[1..][0]
  {
    if b != [] {
      FirstNext(b, null);
    }
    if a != [] {
      InnerFirst(a);
    }
  }

  lemma MergeEnd(a: seq<Node>, b: seq<Node>, k: nat, qSize: nat, q: Node?)
    requires |a| == 0 && k == Min(qSize, |b|) && q == At(b, 0) && (qSize == 0 || q == null)
    ensures a == [] && k == 0 && b[..0] == []
  {
  }

  // ----- one pass over the list -----

  ghost predicate Full(n: nat, c: nat)
    requires c > 0
  {
    n == 0 || (n >= c && Full(n - c, c))
  }

  lemma {:induction false} RunsAppend(t: Test, ns: seq<Node>, out: seq<Node>, m: seq<Node>, c: nat)
    requires c > 0 && Full(|out|, c) && Runs(t, ns, out, c) && Sorted(t, ns, m) && |m| <= c && Earlier(ns, out, m)
    ensures Runs(t, ns, out + m, c)
  {
    var s := out + m;
    if out == [] || m == [] {
      assert s == m || s == out;
    } else {
      var rest := out[c..];
      assert s[c..] == rest + m && s[..c] == out[..c];
      assert forall n :: n in rest || n in out[..c] ==> n in out;
      if rest != [] {
        RunsAppend(t, ns, rest, m, c);
      } else {
        assert rest + m == m;
      }
    }
  }

  /** How many merges a pass has done by the time `n` nodes are out. */
  ghost predicate Counted(n: nat, merges: nat, c: nat) {
    && (merges == 0 <==> n == 0) && (merges == 1 ==> n <= c) && (merges >= 2 ==> n > c)
  }

  ghost predicate PassOrder(t: Test, ns: seq<Node>, out: seq<Node>, rest: seq<Node>, b: nat)
    requires b > 0
    reads out`Value, rest`Value
  {
    Runs(t, ns, out, 2 * b) && Runs(t, ns, rest, b) && Earlier(ns, out, rest)
  }

  ghost predicate PassSize(out: seq<Node>, rest: seq<Node>, merges: nat, b: nat)
    requires b > 0
  {
    && (rest != [] ==> Full(|out|, 2 * b)) && Counted(|out|, merges, 2 * b)
    && (rest != [] && merges == 1 ==> |out| == 2 * b)
  }

  lemma FullStep(n: nat, c: nat)
    requires c > 0 && Full(n, c)
    ensures Full(n + c, c)
  {
  }

  lemma PassSizeStep(out: seq<Node>, rest: seq<Node>, merges: nat, b: nat, m: seq<Node>, rest': seq<Node>)
    requires b > 0 && rest != [] && PassSize(out, rest, merges, b) && |m| == Min(2 * b, |rest|)
             && |rest'| == |rest| - |m|
    ensures PassSize(out + m, rest', merges + 1, b)
  {
    if |m| == 2 * b {
      FullStep(|out|, 2 * b);
    }
  }

  lemma SameNodes(a: seq<Node>, b: seq<Node>, m: seq<Node>)
    requires multiset(m) == multiset(a) + multiset(b)
    ensures |m| == |a| + |b| && forall n :: n in m <==> n in a || n in b
  {
    assert |multiset(m)| == |multiset(a)| + |multiset(b)|;
    forall n | n in m || n in a || n in b ensures n in m && (n in a || n in b) {
      assert n in multiset(m) && n in multiset(a) + multiset(b);
    }
  }

  /** The two runs that a merge of a pass takes, and what is left. */
  ghost predicate Split(rest: seq<Node>, b: nat, a: seq<Node>, r: seq<Node>, rest': seq<Node>) {
    rest == a + r + rest' && |a| == Min(b, |rest|) && |r| == Min(b, |rest| - |a|)
  }

  lemma SplitSizes(rest: seq<Node>, b: nat, a: seq<Node>, r: seq<Node>, rest': seq<Node>)
    requires Split(rest, b, a, r, rest')
    ensures |a| <= b && |r| <= b && |a| + |r| == Min(2 * b, |rest|) && |rest'| == |rest| - |a| - |r|
    ensures rest == a + r + rest'
  {
  }

  lemma PassSplit(t: Test, ns: seq<Node>, rest: seq<Node>, b: nat, a: seq<Node>, r: seq<Node>, rest': seq<Node>)
    requires b > 0 && Runs(t, ns, rest, b) && Split(rest, b, a, r, rest')
    ensures Sorted(t, ns, a) && Sorted(t, ns, r) && Earlier(ns, a, r)
    ensures Runs(t, ns, rest', b) && Earlier(ns, a, rest') && Earlier(ns, r, rest')
  {
    if |rest| <= b {
      assert a == rest && r == [] && rest' == [];
    } else {
      assert a == rest[..b] && rest[b..] == r + rest';
      assert forall n :: n in r || n in rest' ==> n in r + rest';
      if |rest| - b <= b {
        assert r == rest[b..] && rest' == [];
      } else {
        assert r == rest[b..][..b] && rest' == rest[b..][b..];
      }
    }
  }

  lemma MergedRuns(t: Test, ns: seq<Node>, a: seq<Node>, r: seq<Node>, m: seq<Node>)
    requires Merged(t, ns, a, r, m, [], [])
    ensures |m| == |a| + |r| && forall n :: n in m <==> n in a || n in r
    ensures Sortable(t) && Sorted(t, ns, a) && Sorted(t, ns, r) && Earlier(ns, a, r) ==> Sorted(t, ns, m)
  {
    hide Sorted, Sortable, Earlier, AllLead;
    assert multiset(m) + multiset([]) + multiset([]) == multiset(m);
    SameNodes(a, r, m);
  }

  lemma EarlierParts(ns: seq<Node>, out: seq<Node>, rest: seq<Node>, a: seq<Node>, r: seq<Node>, m: seq<Node>,
      rest': seq<Node>)
    requires Earlier(ns, out, rest) && Earlier(ns, a, rest') && Earlier(ns, r, rest') && rest == a + r + rest'
    requires forall n :: n in m <==> n in a || n in r
    ensures Earlier(ns, out, m) && Earlier(ns, m, rest') && Earlier(ns, out + m, rest')
  {
    assert forall n :: n in a || n in r || n in rest' ==> n in rest;
  }

  lemma PassOrderStep(t: Test, ns: seq<Node>, out: seq<Node>, a: seq<Node>, r: seq<Node>, rest: seq<Node>, b: nat,
      m: seq<Node>)
    requires b > 0 && Sortable(t) && Full(|out|, 2 * b) && Runs(t, ns, out, 2 * b) && Earlier(ns, out, a + r + rest)
    requires Sorted(t, ns, a) && Sorted(t, ns, r) && Earlier(ns, a, r) && |a| <= b && |r| <= b
    requires Runs(t, ns, rest, b) && Earlier(ns, a, rest) && Earlier(ns, r, rest)
    requires Merged(t, ns, a, r, m, [], [])
    ensures PassOrder(t, ns, out + m, rest, b)
  {
    hide *;
    MergedRuns(t, ns, a, r, m);
    EarlierParts(ns, out, a + r + rest, a, r, m, rest);
    RunsAppend(t, ns, out, m, 2 * b);
    MakePassOrder(t, ns, out + m, rest, b);
  }

  lemma MakePassOrder(t: Test, ns: seq<Node>, out: seq<Node>, rest: seq<Node>, b: nat)
    requires b > 0 && Runs(t, ns, out, 2 * b) && Runs(t, ns, rest, b) && Earlier(ns, out, rest)
    ensures PassOrder(t, ns, out, rest, b)
  {
  }

  ghost predicate Kept(t: Test, ns: seq<Node>, s: seq<Node>, b: nat, out: seq<Node>, rest: seq<Node>)
    requires b > 0
    reads s`Value, out`Value, rest`Value
  {
    && multiset(out) + multiset(rest) == multiset(s)
    && (Sortable(t) && Runs(t, ns, s, b) ==> PassOrder(t, ns, out, rest, b))
  }

  lemma KeptStep(t: Test, ns: seq<Node>, s: seq<Node>, b: nat, out: seq<Node>, rest: seq<Node>, merges: nat,
                 a: seq<Node>, r: seq<Node>, rest': seq<Node>, m: seq<Node>)
    requires b > 0 && rest != [] && Kept(t, ns, s, b, out, rest) && PassSize(out, rest, merges, b)
    requires Split(rest, b, a, r, rest') && Merged(t, ns, a, r, m, [], [])
    ensures Kept(t, ns, s, b, out + m, rest') && PassSize(out + m, rest', merges + 1, b) && |rest'| < |rest|
  {
    var going := Sortable(t) && Runs(t, ns, s, b);
    hide *;
    KeptParts(t, ns, s, b, out, rest, merges);
    MergedRuns(t, ns, a, r, m);
    MergedCount(t, ns, a, r, m);
    SplitSizes(rest, b, a, r, rest');
    MinPositive(2 * b, |rest|);
    PassSizeStep(out, rest, merges, b, m, rest');
    if going {
      PassSplit(t, ns, rest, b, a, r, rest');
      PassOrderStep(t, ns, out, a, r, rest', b, m);
    }
    MakeKept(t, ns, s, b, out, rest, a, r, rest', m);
  }

  lemma MinPositive(a: nat, b: nat)
    ensures a > 0 && b > 0 ==> Min(a, b) > 0
  {
  }

  lemma KeptParts(t: Test, ns: seq<Node>, s: seq<Node>, b: nat, out: seq<Node>, rest: seq<Node>, merges: nat)
    requires b > 0 && rest != [] && Kept(t, ns, s, b, out, rest) && PassSize(out, rest, merges, b)
    ensures Sortable(t) && Runs(t, ns, s, b) ==>
              Runs(t, ns, out, 2 * b) && Runs(t, ns, rest, b) && Earlier(ns, out, rest)
    ensures multiset(out) + multiset(rest) == multiset(s) && Full(|out|, 2 * b)
  {
  }

  lemma MergedCount(t: Test, ns: seq<Node>, a: seq<Node>, r: seq<Node>, m: seq<Node>)
    requires Merged(t, ns, a, r, m, [], [])
    ensures multiset(m) == multiset(a) + multiset(r)
  {
    assert multiset(m) + multiset([]) + multiset([]) == multiset(m);
  }

  lemma MakeKept(t: Test, ns: seq<Node>, s: seq<Node>, b: nat, out: seq<Node>, rest: seq<Node>, a: seq<Node>,
      r: seq<Node>, rest': seq<Node>, m: seq<Node>)
    requires b > 0 && multiset(out) + multiset(rest) == multiset(s) && rest == a + r + rest'
             && multiset(m) == multiset(a) + multiset(r)
    requires Sortable(t) && Runs(t, ns, s, b) ==> PassOrder(t, ns, out + m, rest', b)
    ensures Kept(t, ns, s, b, out + m, rest')
  {
    hide PassOrder, Runs, Sortable;
  }

  /** Steps over the first run. */
  method SkipRun(p: Node, inSize: nat, ghost rest: seq<Node>) returns (q: Node?, pSize: nat)
    requires NextLinked(rest, null) && rest != [] && p == rest[0] && inSize > 0
    ensures pSize == Min(inSize, |rest|) && q == Or(rest, pSize, null)
  {
    q, pSize := p, 0;
    for i := 0 to inSize
      invariant pSize == i < |rest| && q == rest[i]
    {
      pSize := pSize + 1;
      q := q.Next;
      if q == null {
        break;
      }
    }
  }

  /** One pass of `sort`: merges the runs of length `inSize` two by two. */
  method Pass(t: Test, head0: Node?, inSize: nat, ghost ns: seq<Node>, ghost s: seq<Node>)
    returns (head: Node?, tail: Node?, merges: nat, ghost out: seq<Node>)
    requires Apart(ns) && Apart(s) && Within(s, ns) && s != [] && NextLinked(s, null) && head0 == s[0] && inSize > 0
    modifies ns`Next, ns`Prev
    ensures Linked(out) && head == At(out, 0) && tail == At(out, |out| - 1) && Within(out, ns)
    ensures multiset(out) == multiset(s) && |out| == |s|
    ensures Sortable(t) && Runs(t, ns, s, inSize) ==> Runs(t, ns, out, 2 * inSize)
    ensures merges <= 1 <==> |s| <= 2 * inSize
  {
    hide *;
    var p: Node? := head0;
    head, tail, merges, out := null, null, 0, [];
    ghost var rest := s;
    PassStart(t, ns, s, inSize);
    assert allocated(ns);
    while p != null
      invariant Woven(ns, out, [], rest) && AtOut(out, head, tail) && p == At(rest, 0)
      invariant Kept(t, ns, s, inSize, out, rest) && PassSize(out, rest, merges, inSize)
      decreases |rest|
    {
      merges := merges + 1;
      ghost var a, r, rest' := Cut(ns, out, rest, inSize);
      var q, pSize := SkipRun(p, inSize, rest);
      CutEnds(rest, inSize, a, r, rest', pSize);
      ghost var m;
      q, head, tail, m := MergeRuns(t, p, pSize, q, inSize, head, tail, ns, out, a, r + rest');
      CutRest(rest, inSize, a, r, rest');
      KeptStep(t, ns, s, inSize, out, rest, merges - 1, a, r, rest', m);
      out, rest := out + m, rest';
      p := q;
    }
    PassDone(t, ns, s, inSize, out, rest, merges, head, tail);
    tail.Next := null;
    BackGone(out);
  }

  lemma PassStart(t: Test, ns: seq<Node>, s: seq<Node>, b: nat)
    requires Apart(ns) && Apart(s) && Within(s, ns) && s != [] && NextLinked(s, null) && b > 0
    ensures Woven(ns, [], [], s) && AtOut([], null, null) && s[0] == At(s, 0)
    ensures Kept(t, ns, s, b, [], s) && PassSize([], s, 0, b)
  {
    assert multiset([]) + multiset(s) == multiset(s);
  }

  lemma Cut(ns: seq<Node>, out: seq<Node>, rest: seq<Node>, b: nat)
    returns (a: seq<Node>, r: seq<Node>, rest': seq<Node>)
    requires b > 0 && Woven(ns, out, [], rest) && At(rest, 0) != null
    ensures rest != [] && At(rest, 0) == rest[0] && NextLinked(rest, null)
    ensures Split(rest, b, a, r, rest') && Woven(ns, out, a, r + rest')
  {
    var j := Min(b, |rest|);
    var k := Min(b, |rest| - j);
    a, r, rest' := rest[..j], rest[j..][..k], rest[j..][k..];
    assert r + rest' == rest[j..] && rest == a + (r + rest') == a + r + rest';
    CutWoven(ns, out, rest, a, r + rest');
  }

  lemma CutWoven(ns: seq<Node>, out: seq<Node>, rest: seq<Node>, a: seq<Node>, b: seq<Node>)
    requires Woven(ns, out, [], rest) && rest == a + b
    ensures Woven(ns, out, a, b)
  {
    hide *;
    UseWoven(ns, out, [], rest);
    JoinNext(a, b, null);
    JoinSeparate(out, a, b);
    if a != [] {
      LastNext(a, Or(b, 0, null));
    }
    MakeInner(a);
    assert forall n :: n in a || n in b ==> n in rest;
    MakeWoven(ns, out, a, b);
  }

  lemma MakeInner(a: seq<Node>)
    requires a != [] ==> NextLinked(a[..|a| - 1], a[|a| - 1])
    ensures Inner(a)
  {
  }

  lemma JoinSeparate(out: seq<Node>, a: seq<Node>, b: seq<Node>)
    requires Separate(out, [], a + b)
    ensures Separate(out, a, b)
  {
    JoinApart(a, b);
    assert forall n :: n in a || n in b ==> n in a + b;
  }

  lemma CutEnds(rest: seq<Node>, b: nat, a: seq<Node>, r: seq<Node>, rest': seq<Node>, pSize: nat)
    requires Split(rest, b, a, r, rest') && pSize == Min(b, |rest|) && rest != [] && b > 0
    ensures At(rest, 0) == At(a, 0) && pSize == |a| && Or(rest, pSize, null) == At(r + rest', 0)
  {
    assert rest == a + (r + rest');
  }

  lemma CutRest(rest: seq<Node>, b: nat, a: seq<Node>, r: seq<Node>, rest': seq<Node>)
    requires Split(rest, b, a, r, rest')
    ensures Min(b, |r + rest'|) == |r| && (r + rest')[|r|..] == rest' && (r + rest')[..|r|] == r
  {
  }

  lemma PassDone(t: Test, ns: seq<Node>, s: seq<Node>, b: nat, out: seq<Node>, rest: seq<Node>, merges: nat,
      head: Node?, tail: Node?)
    requires b > 0 && s != [] && Woven(ns, out, [], rest) && AtOut(out, head, tail) && At(rest, 0) == null
    requires Kept(t, ns, s, b, out, rest) && PassSize(out, rest, merges, b)
    ensures rest == [] && BackOpen(out) && Within(out, ns) && multiset(out) == multiset(s) && |out| == |s|
    ensures head == At(out, 0) && tail == At(out, |out| - 1) && tail != null && tail in ns
    ensures out != [] && tail == out[|out| - 1] && tail !in out[..|out| - 1]
    ensures Sortable(t) && Runs(t, ns, s, b) ==> Runs(t, ns, out, 2 * b)
    ensures merges <= 1 <==> |s| <= 2 * b
  {
    assert multiset(out) + multiset([]) == multiset(out);
    assert |multiset(out)| == |out| && |multiset(s)| == |s|;
    LastApart(out);
  }

  // ----- the sort -----

  ghost function Pow2(k: nat): nat {
    if k == 0 then 1 else 2 * Pow2(k - 1)
  }

  /** `k` is the least number of doublings that reaches `n`. */
  ghost predicate LeastDoubling(k: nat, n: nat) {
    Pow2(k) >= n && forall j :: 0 <= j < k ==> Pow2(j) < n
  }

  lemma Pow2Mono(i: nat, j: nat)
    requires i <= j
    ensures Pow2(i) <= Pow2(j)
  {
    if i < j {
      Pow2Mono(i, j - 1);
    }
  }

  lemma IsLeast(k: nat, n: nat)
    requires Pow2(k) < n <= Pow2(k + 1)
    ensures LeastDoubling(k + 1, n)
  {
    forall j | 0 <= j < k + 1 ensures Pow2(j) < n {
      Pow2Mono(j, k);
    }
  }

  lemma {:induction false} RunsOne(t: Test, ns: seq<Node>, i: nat)
    requires Apart(ns) && i <= |ns|
    ensures Runs(t, ns, ns[i..], 1)
    decreases |ns| - i
  {
    var s := ns[i..];
    if |s| > 1 {
      assert s[1..] == ns[i + 1..];
      RunsOne(t, ns, i + 1);
      PosAt(ns, i);
      forall y | y in s[1..] ensures Pos(ns, ns[i]) < Pos(ns, y) {
        var k :| 0 <= k < |s[1..]| && s[1..][k] == y;
        PosAt(ns, i + 1 + k);
      }
    }
  }

  /** The end of a sort: the list takes over the new chain. */
  method Install(list: List, head: Node, tail: Node, ghost s: seq<Node>)
    requires Linked(s) && s != [] && head == s[0] && tail == s[|s| - 1] && list.Length == |s|
    modifies list
    ensures list.Valid() && list.Nodes == s
  {
    hide *;
    assert allocated(s) && forall n :: n in s ==> n as object != list;
    list.Head, list.Tail := head, tail;
    list.Index, list.Cache := 1, head;
    list.Access := 4;
    list.Array := null;
    list.Nodes := s;
    list.NoArray();
    list.MakeCached();
    list.MakeSound();
    list.MakeValid();
  }

  /** The method `sort`. */
  method Sort(list: List, t: Test) returns (ghost passes: nat)
    requires list.Valid()
    modifies list, list.Nodes`Next, list.Nodes`Prev
    ensures list.Valid() && multiset(list.Nodes) == multiset(old(list.Nodes))
    ensures Sortable(t) ==> Sorted(t, old(list.Nodes), list.Nodes)
    ensures LeastDoubling(passes, |old(list.Nodes)|)
  {
    hide *;
    list.ValidParts();
    list.SoundParts();
    passes := 0;
    if list.Length <= 1 {
      ShortList(t, list.Nodes);
      return;
    }
    ghost var ns := list.Nodes;
    ghost var s := ns;
    var head, inSize := list.Head, 1;
    SortStart(t, ns);
    assert allocated(ns) && forall n :: n in ns ==> n as object != list;
    while true
      invariant Apart(ns) && Apart(s) && Within(s, ns) && s != [] && NextLinked(s, null) && head == s[0]
      invariant inSize > 0 && inSize == Pow2(passes) && inSize < |ns| && |s| == |ns| && multiset(s) == multiset(ns)
      invariant Sortable(t) ==> Runs(t, ns, s, inSize)
      invariant list.Length == |ns|
      decreases |ns| - inSize
    {
      var tail, merges;
      head, tail, merges, s := Pass(t, head, inSize, ns, s);
      NextPass(s, inSize, passes, |ns|);
      passes := passes + 1;
      if merges <= 1 {
        OneRun(t, ns, s, 2 * inSize);
        Install(list, head, tail, s);
        return;
      }
      inSize := inSize * 2;
    }
  }

  lemma ShortList(t: Test, ns: seq<Node>)
    requires |ns| <= 1
    ensures Sorted(t, ns, ns) && LeastDoubling(0, |ns|)
  {
  }

  lemma SortStart(t: Test, ns: seq<Node>)
    requires Linked(ns)
    ensures Apart(ns) && Within(ns, ns) && NextLinked(ns, null) && Runs(t, ns, ns, 1) && Pow2(0) == 1
  {
    RunsOne(t, ns, 0);
    assert ns[0..] == ns;
  }

  lemma NextPass(s: seq<Node>, b: nat, k: nat, n: nat)
    requires Linked(s) && b == Pow2(k) && b < n == |s|
    ensures Apart(s) && NextLinked(s, null) && s != [] && At(s, 0) == s[0] && At(s, |s| - 1) == s[|s| - 1]
    ensures 2 * b == Pow2(k + 1)
    ensures n <= 2 * b ==> LeastDoubling(k + 1, n)
  {
    if n <= 2 * b {
      IsLeast(k, n);
    }
  }

  lemma OneRun(t: Test, ns: seq<Node>, s: seq<Node>, c: nat)
    requires |s| <= c && c > 0
    ensures Runs(t, ns, s, c) ==> Sorted(t, ns, s)
  {
  }

  // ----- what the order of the result means -----

  lemma NotBoth(t: Test, a: Obj, b: Obj)
    requires StrictWeak(t)
    ensures !(t(a, b) && t(b, a))
  {
    assert !t(a, a);
  }

  /** With a strict weak order the values ascend, and values that tie come out
      in the reverse of the order in which they stood. */
  lemma StrictMeans(t: Test, ns: seq<Node>, s: seq<Node>, i: nat, j: nat)
    requires StrictWeak(t) && Sorted(t, ns, s) && i < j < |s|
    requires Apart(ns) && multiset(s) == multiset(ns)
    ensures !t(s[j].Value, s[i].Value)
    ensures !t(s[i].Value, s[j].Value) ==> Pos(ns, s[i]) > Pos(ns, s[j])
  {
    TwoPlaces(ns, s, i, j);
    assert Leads(t, ns, s[i], s[j]);
    NotBoth(t, s[i].Value, s[j].Value);
  }

  lemma Either(t: Test, a: Obj, b: Obj)
    requires Preorder(t)
    ensures t(a, b) || t(b, a)
  {
  }

  /** With a test that also succeeds on ties the sort is stable. */
  lemma PreorderMeans(t: Test, ns: seq<Node>, s: seq<Node>, i: nat, j: nat)
    requires Preorder(t) && Sorted(t, ns, s) && i < j < |s|
    requires Apart(ns) && multiset(s) == multiset(ns)
    ensures t(s[i].Value, s[j].Value)
    ensures t(s[j].Value, s[i].Value) ==> Pos(ns, s[i]) < Pos(ns, s[j])
  {
    TwoPlaces(ns, s, i, j);
    assert Leads(t, ns, s[i], s[j]);
    Either(t, s[i].Value, s[j].Value);
  }

  lemma TwoPlaces(ns: seq<Node>, s: seq<Node>, i: nat, j: nat)
    requires Apart(ns) && multiset(s) == multiset(ns) && i < j < |s|
    ensures s[i] != s[j] && Pos(ns, s[i]) != Pos(ns, s[j])
  {
    PermutationApart(ns, s);
    assert s[i] in multiset(s) && s[j] in multiset(s);
    PosDiffer(ns, s[i], s[j]);
  }

  lemma {:induction false} OnlyOnce(ns: seq<Node>, x: Node)
    requires Apart(ns)
    ensures multiset(ns)[x] <= 1
  {
    if ns != [] {
      FirstApart(ns);
      OnlyOnce(ns[1..], x);
      assert ns == [ns[0]] + ns[1..];
    }
  }

  lemma PermutationApart(ns: seq<Node>, s: seq<Node>)
    requires Apart(ns) && multiset(s) == multiset(ns)
    ensures Apart(s)
  {
    forall i, j | 0 <= i < j < |s| ensures s[i] != s[j] {
      if s[i] == s[j] {
        assert s == s[..j] + s[j..];
        assert s[i] in s[..j] && s[i] in s[j..];
        assert multiset(s)[s[i]] == multiset(s[..j])[s[i]] + multiset(s[j..])[s[i]];
        OnlyOnce(ns, s[i]);
      }
    }
  }

  /** There is only one such arrangement. */
  lemma {:induction false} OneArrangement(t: Test, ns: seq<Node>, a: seq<Node>, b: seq<Node>)
    requires Apart(ns) && Within(a, ns) && Apart(a) && multiset(a) == multiset(b)
    requires Sorted(t, ns, a) && Sorted(t, ns, b)
    ensures a == b
  {
    assert |multiset(a)| == |a| && |multiset(b)| == |b|;
    if a != [] {
      hide *;
      SameFirst(t, ns, a, b);
      Rest(t, ns, a);
      Rest(t, ns, b);
      FirstApart(a);
      OneArrangement(t, ns, a[1..], b[1..]);
    }
  }

  lemma Rest(t: Test, ns: seq<Node>, a: seq<Node>)
    requires a != [] && Sorted(t, ns, a)
    ensures Sorted(t, ns, a[1..]) && (Within(a, ns) ==> Within(a[1..], ns))
    ensures a == [a[0]] + a[1..] && multiset(a[1..]) == multiset(a) - multiset{a[0]}
  {
    hide Leads;
    var a' := a[1..];
    assert a == [a[0]] + a';
    assert forall n :: n in a' ==> n in a;
    forall i, j | 0 <= i < j < |a'| ensures Leads(t, ns, a'[i], a'[j]) {
      assert Leads(t, ns, a[i + 1], a[j + 1]);
    }
  }

  lemma SameFirst(t: Test, ns: seq<Node>, a: seq<Node>, b: seq<Node>)
    requires Apart(ns) && Within(a, ns) && multiset(a) == multiset(b) && a != [] && b != []
    requires Sorted(t, ns, a) && Sorted(t, ns, b)
    ensures a[0] == b[0]
  {
    assert a[0] in multiset(a) && b[0] in multiset(b);
    if a[0] != b[0] {
      var i :| 0 <= i < |a| && a[i] == b[0];
      assert a[0] in multiset(b);
      var j :| 0 <= j < |b| && b[j] == a[0];
      assert Leads(t, ns, a[0], a[i]) && Leads(t, ns, b[0], b[j]);
      PosDiffer(ns, a[0], b[0]);
    }
  }
}
