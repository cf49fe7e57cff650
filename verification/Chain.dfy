/** Nodes of the doubly linked list of dev/src/lib/Agg/List.c, and what it means
    that a sequence of them is linked up. */
module Chain {

  /** A run-time object, known here only by its identity. */
  type Obj = int

  class Node {
    var Next: Node?
    var Prev: Node?
    var Value: Obj

    constructor (value: Obj)
      ensures Next == null && Prev == null && Value == value
    {
      Next, Prev, Value := null, null, value;
    }
  }

  ghost predicate Apart(ns: seq<Node>) {
    forall i, j :: 0 <= i < j < |ns| ==> ns[i] != ns[j]
  }

  /** Entry `i`, or `end` past either end. */
  ghost function Or(ns: seq<Node>, i: int, end: Node?): Node? {
    if 0 <= i < |ns| then ns[i] else end
  }

  /** Entry `i`, or null past either end. */
  ghost function At(ns: seq<Node>, i: int): Node? {
    Or(ns, i, null)
  }

  /** The `Next` links lead along the chain and end in `last`. */
  ghost predicate NextLinked(ns: seq<Node>, last: Node?)
    reads ns`Next
  {
    forall i :: 0 <= i < |ns| ==> ns[i].Next == Or(ns, i + 1, last)
  }

  /** The `Prev` links lead back along the chain and end in `first`. */
  ghost predicate PrevLinked(first: Node?, ns: seq<Node>)
    reads ns`Prev
  {
    forall i :: 0 <= i < |ns| ==> ns[i].Prev == Or(ns, i - 1, first)
  }

  ghost predicate Linked(ns: seq<Node>)
    reads ns`Next, ns`Prev
  {
    Apart(ns) && NextLinked(ns, null) && PrevLinked(null, ns)
  }

  lemma JoinNext(a: seq<Node>, b: seq<Node>, last: Node?)
    ensures NextLinked(a + b, last) <==> NextLinked(a, Or(b, 0, last)) && NextLinked(b, last)
  {
    var s := a + b;
    if NextLinked(s, last) {
      forall i | 0 <= i < |a| ensures a[i].Next == Or(a, i + 1, Or(b, 0, last)) {
        assert s[i].Next == Or(s, i + 1, last);
      }
      forall i | 0 <= i < |b| ensures b[i].Next == Or(b, i + 1, last) {
        assert s[|a| + i].Next == Or(s, |a| + i + 1, last);
      }
    }
  }

  lemma JoinPrev(first: Node?, a: seq<Node>, b: seq<Node>)
    ensures PrevLinked(first, a + b) <==> PrevLinked(first, a) && PrevLinked(Or(a, |a| - 1, first), b)
  {
    var s := a + b;
    if PrevLinked(first, s) {
      forall i | 0 <= i < |a| ensures a[i].Prev == Or(a, i - 1, first) {
        assert s[i].Prev == Or(s, i - 1, first);
      }
      forall i | 0 <= i < |b| ensures b[i].Prev == Or(b, i - 1, Or(a, |a| - 1, first)) {
        assert s[|a| + i].Prev == Or(s, |a| + i - 1, first);
      }
    }
  }

  lemma JoinApart(a: seq<Node>, b: seq<Node>)
    ensures Apart(a + b) <==> Apart(a) && Apart(b) && forall n :: n in a ==> n !in b
  {
    var s := a + b;
    if Apart(s) {
      forall i, j | 0 <= i < j < |a| ensures a[i] != a[j] {
        assert s[i] != s[j];
      }
      forall i, j | 0 <= i < j < |b| ensures b[i] != b[j] {
        assert s[|a| + i] != s[|a| + j];
      }
      forall n | n in a ensures n !in b {
        var i :| 0 <= i < |a| && a[i] == n;
        forall j | 0 <= j < |b| ensures b[j] != n {
          assert s[i] != s[|a| + j];
        }
      }
    } else if Apart(a) && Apart(b) && forall n :: n in a ==> n !in b {
      forall i, j | 0 <= i < j < |s| ensures s[i] != s[j] {
        if i < |a| <= j {
          assert s[i] == a[i] && s[j] == b[j - |a|];
          assert a[i] in a && b[j - |a|] in b;
        }
      }
    }
  }

  lemma FirstNext(ns: seq<Node>, last: Node?)
    requires ns != []
    ensures NextLinked(ns, last) <==> ns[0].Next == Or(ns, 1, last) && NextLinked(ns[1..], last)
  {
    JoinNext(ns[..1], ns[1..], last);
    assert ns == ns[..1] + ns[1..];
    assert NextLinked(ns[..1], Or(ns[1..], 0, last)) <==> ns[..1][0].Next == Or(ns[1..], 0, last);
  }

  lemma FirstPrev(first: Node?, ns: seq<Node>)
    requires ns != []
    ensures PrevLinked(first, ns) <==> ns[0].Prev == first && PrevLinked(ns[0], ns[1..])
  {
    JoinPrev(first, ns[..1], ns[1..]);
    assert ns == ns[..1] + ns[1..];
    assert PrevLinked(first, ns[..1]) <==> ns[..1][0].Prev == first;
  }

  lemma FirstApart(ns: seq<Node>)
    requires ns != []
    ensures Apart(ns) <==> ns[0] !in ns[1..] && Apart(ns[1..])
  {
    JoinApart(ns[..1], ns[1..]);
    assert ns == ns[..1] + ns[1..];
  }

  lemma LastNext(ns: seq<Node>, last: Node?)
    requires ns != []
    ensures NextLinked(ns, last) <==> NextLinked(ns[..|ns| - 1], ns[|ns| - 1]) && ns[|ns| - 1].Next == last
  {
    var k := |ns| - 1;
    JoinNext(ns[..k], ns[k..], last);
    assert ns == ns[..k] + ns[k..];
    assert NextLinked(ns[k..], last) <==> ns[k..][0].Next == last;
  }

  lemma LastPrev(first: Node?, ns: seq<Node>)
    requires ns != []
    ensures PrevLinked(first, ns) <==> PrevLinked(first, ns[..|ns| - 1]) && ns[|ns| - 1].Prev == Or(ns, |ns| - 2, first)
  {
    var k := |ns| - 1;
    JoinPrev(first, ns[..k], ns[k..]);
    assert ns == ns[..k] + ns[k..];
    assert PrevLinked(Or(ns[..k], k - 1, first), ns[k..]) <==> ns[k..][0].Prev == Or(ns[..k], k - 1, first);
  }

  lemma LastApart(ns: seq<Node>)
    requires ns != []
    ensures Apart(ns) <==> ns[|ns| - 1] !in ns[..|ns| - 1] && Apart(ns[..|ns| - 1])
  {
    JoinApart(ns[..|ns| - 1], ns[|ns| - 1..]);
    assert ns == ns[..|ns| - 1] + ns[|ns| - 1..];
  }

  /** The values along a chain. */
  ghost function Values(ns: seq<Node>): (vs: seq<Obj>)
    reads ns
    ensures |vs| == |ns| && forall i :: 0 <= i < |ns| ==> vs[i] == ns[i].Value
  {
    seq(|ns|, i requires 0 <= i < |ns| reads ns => ns[i].Value)
  }

  ghost function Reverse<X>(s: seq<X>): (r: seq<X>)
    ensures |r| == |s| && forall i :: 0 <= i < |s| ==> r[i] == s[|s| - 1 - i]
  {
    seq(|s|, i requires 0 <= i < |s| => s[|s| - 1 - i])
  }

  // ----- chains that are open at one end -----

  /** A chain but for the first `Prev`. */
  ghost predicate FrontOpen(ns: seq<Node>)
    reads ns`Next, (if ns == [] then [] else ns[1..])`Prev
  {
    Apart(ns) && NextLinked(ns, null) && (ns != [] ==> PrevLinked(ns[0], ns[1..]))
  }

  /** A chain but for the last `Next`. */
  ghost predicate BackOpen(ns: seq<Node>)
    reads (if ns == [] then [] else ns[..|ns| - 1])`Next, ns`Prev
  {
    Apart(ns) && PrevLinked(null, ns) && (ns != [] ==> NextLinked(ns[..|ns| - 1], ns[|ns| - 1]))
  }

  /** What is known of the two parts of a chain. */
  lemma Apply(ns: seq<Node>, k: nat)
    requires Linked(ns) && 0 < k < |ns|
    ensures var a, b := ns[..k], ns[k..];
            && BackOpen(a) && FrontOpen(b) && a[|a| - 1] !in a[..|a| - 1] && b[0] !in b[1..]
            && (forall n :: n in a ==> n !in b) && a[|a| - 1] == ns[k - 1] && b[0] == ns[k]
  {
    var a, b := ns[..k], ns[k..];
    assert ns == a + b && |a| == k;
    hide *;
    BackDef(ns);
    JoinNext(a, b, null);
    JoinPrev(null, a, b);
    JoinApart(a, b);
    LastNext(a, Or(b, 0, null));
    FirstPrev(Or(a, k - 1, null), b);
    LastApart(a);
    FirstApart(b);
    BackDef(a);
    FrontDef(b);
  }

  lemma Unlink(ns: seq<Node>, k: nat)
    requires Linked(ns) && 1 < k < |ns|
    ensures var a, b := ns[..k - 1], ns[k..];
            && BackOpen(a) && FrontOpen(b) && a[|a| - 1] !in a[..|a| - 1] && b[0] !in b[1..]
            && (forall n :: n in a ==> n !in b) && a[|a| - 1] == ns[k - 2] && b[0] == ns[k]
  {
    Apply(ns, k - 1);
    Apply(ns, k);
    assert ns[..k - 1] == ns[..k][..k - 1];
  }

  lemma Extend(a: seq<Node>, n: Node)
    requires a != [] && BackOpen(a) && n !in a && n.Prev == a[|a| - 1] && a[|a| - 1].Next == n
    ensures BackOpen(a + [n])
  {
    var s := a + [n];
    assert s[..|s| - 1] == a && s[|s| - 1] == n && Or(s, |s| - 2, null) == a[|a| - 1];
    hide *;
    BackDef(a);
    BackDef(s);
    LastNext(a, n);
    LastPrev(null, s);
    LastApart(s);
  }

  /** Two open parts make a chain once they are linked to each other. */
  lemma CloseMiddle(a: seq<Node>, b: seq<Node>)
    requires a != [] && b != [] && BackOpen(a) && FrontOpen(b) && forall n :: n in a ==> n !in b
    requires a[|a| - 1].Next == b[0] && b[0].Prev == a[|a| - 1]
    ensures Linked(a + b)
  {
    assert Or(b, 0, null) == b[0] && Or(a, |a| - 1, null) == a[|a| - 1];
    hide *;
    BackDef(a + b);
    BackDef(a);
    FrontDef(b);
    LastNext(a, b[0]);
    FirstPrev(a[|a| - 1], b);
    JoinNext(a, b, null);
    JoinPrev(null, a, b);
    JoinApart(a, b);
  }

  lemma FrontFree(ns: seq<Node>)
    requires Linked(ns)
    ensures FrontOpen(ns)
    ensures ns != [] ==> FrontOpen(ns[1..]) && ns[0] !in ns[1..] && ns[0].Next == At(ns[1..], 0)
    ensures |ns| > 1 ==> ns[1..][0] !in ns[1..][1..]
  {
    hide *;
    FrontDef(ns);
    if ns != [] {
      FirstNext(ns, null);
      FirstPrev(null, ns);
      FirstApart(ns);
      assert Or(ns, 1, null) == At(ns[1..], 0) by {
        AtTail(ns);
      }
      FrontDef(ns[1..]);
      if |ns| > 1 {
        FirstPrev(ns[0], ns[1..]);
        FirstApart(ns[1..]);
      }
    }
  }

  lemma AtTail(ns: seq<Node>)
    requires ns != []
    ensures Or(ns, 1, null) == At(ns[1..], 0)
    ensures Or(ns, |ns| - 2, null) == At(ns[..|ns| - 1], |ns| - 2)
  {
  }

  lemma FrontDef(ns: seq<Node>)
    ensures FrontOpen(ns) <==> Apart(ns) && NextLinked(ns, null) && (ns != [] ==> PrevLinked(ns[0], ns[1..]))
    ensures Linked(ns) <==> Apart(ns) && NextLinked(ns, null) && PrevLinked(null, ns)
    ensures ns == [] ==> forall first :: PrevLinked(first, ns)
  {
  }

  lemma FrontAdded(node: Node, ns: seq<Node>)
    requires FrontOpen(ns) && node !in ns && node.Next == At(ns, 0) && node.Prev == null
    requires ns != [] ==> ns[0].Prev == node
    ensures Linked([node] + ns) && ([node] + ns)[1..] == ns
  {
    var s := [node] + ns;
    assert s[1..] == ns && s[0] == node && Or(s, 1, null) == At(ns, 0);
    hide *;
    FrontDef(ns);
    FrontDef(s);
    if ns != [] {
      FirstPrev(node, ns);
    }
    FirstNext(s, null);
    FirstPrev(null, s);
    FirstApart(s);
  }

  lemma FrontGone(ns: seq<Node>)
    requires FrontOpen(ns) && (ns != [] ==> ns[0].Prev == null)
    ensures Linked(ns)
  {
    hide *;
    FrontDef(ns);
    if ns != [] {
      FirstPrev(null, ns);
    }
  }

  lemma BackFree(ns: seq<Node>)
    requires Linked(ns)
    ensures BackOpen(ns)
    ensures ns != [] ==>
              var m := ns[..|ns| - 1];
              && BackOpen(m) && ns[|ns| - 1] !in m && ns[|ns| - 1].Prev == At(m, |m| - 1)
              && (m != [] ==> m[|m| - 1] !in m[..|m| - 1])
  {
    hide *;
    BackDef(ns);
    if ns != [] {
      LastNext(ns, null);
      LastPrev(null, ns);
      LastApart(ns);
      AtTail(ns);
      var m := ns[..|ns| - 1];
      BackDef(m);
      if m != [] {
        LastNext(m, ns[|ns| - 1]);
        LastApart(m);
      }
    }
  }

  lemma BackDef(ns: seq<Node>)
    ensures BackOpen(ns) <==>
            && Apart(ns) && PrevLinked(null, ns)
            && (ns != [] ==> NextLinked(ns[..|ns| - 1], ns[|ns| - 1]))
    ensures Linked(ns) <==> Apart(ns) && NextLinked(ns, null) && PrevLinked(null, ns)
    ensures ns == [] ==> forall last :: NextLinked(ns, last)
  {
  }

  lemma BackAdded(ns: seq<Node>, node: Node)
    requires BackOpen(ns) && node !in ns && node.Prev == At(ns, |ns| - 1) && node.Next == null
    requires ns != [] ==> ns[|ns| - 1].Next == node
    ensures Linked(ns + [node]) && (ns + [node])[..|ns|] == ns
  {
    var s := ns + [node];
    assert s[..|s| - 1] == ns && s[|s| - 1] == node && Or(s, |s| - 2, null) == At(ns, |ns| - 1);
    hide *;
    BackDef(ns);
    BackDef(s);
    if ns != [] {
      LastNext(ns, node);
    }
    LastNext(s, null);
    LastPrev(null, s);
    LastApart(s);
  }

  lemma BackGone(ns: seq<Node>)
    requires BackOpen(ns) && (ns != [] ==> ns[|ns| - 1].Next == null)
    ensures Linked(ns)
  {
    hide *;
    BackDef(ns);
    if ns != [] {
      LastNext(ns, null);
    }
  }
}
