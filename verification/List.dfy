/** The list of dev/src/lib/Agg/List.c: both ends, indexed lookup through a
    cursor cache and a partial index array, deletion and insertion in the
    middle.  The ghost field `Chain` lists the nodes in order. */
module Lists {
  import opened Chain
  import opened Options

  /** Values of an unsigned long. */
  const WORD := 0x1_0000_0000

  /** Decrement of an unsigned long. */
  function Decremented(x: nat): (r: nat)
    ensures 0 < x ==> r == x - 1
    ensures x == 0 ==> r == WORD - 1
  {
    if x == 0 then WORD - 1 else x - 1
  }

  class List {
    var Head: Node?
    var Tail: Node?
    var Cache: Node?
    /** The index array: a block, and how often its pointer has been stepped. */
    var Array: array?<Node?>
    var Skip: nat
    var Length: nat
    var Index: nat
    var Lower: nat
    var Upper: nat
    var Access: nat
    ghost var Nodes: seq<Node>

    /** The links, and nothing about cache and index array. */
    ghost predicate Sound()
      reads `Nodes, `Length, `Head, `Tail, Nodes`Next, Nodes`Prev
    {
      Linked(Nodes) && Length == |Nodes| && Head == At(Nodes, 0) && Tail == At(Nodes, |Nodes| - 1)
    }

    ghost predicate Cached()
      reads `Nodes, `Index, `Cache
    {
      Nodes != [] ==> 1 <= Index <= |Nodes| && Cache == Nodes[Index - 1]
    }

    ghost predicate Indexed()
      reads `Nodes, `Array, `Skip, `Lower, `Upper, Array
    {
      Covers(Array, Skip, Lower, Upper, Nodes)
    }

    ghost predicate Valid()
      reads this, Nodes`Next, Nodes`Prev, Array
    {
      Sound() && Cached() && Indexed()
    }

    constructor ()
      ensures Valid() && Nodes == []
    {
      Head, Tail, Cache, Array := null, null, null, null;
      Skip, Length, Index, Lower, Upper, Access := 0, 0, 0, 0, 0, 4;
      Nodes := [];
    }

    // ----- the two ends, and nothing about cache and index array -----

    method LinkFront(value: Obj) returns (node: Node)
      requires Sound()
      modifies `Head, `Tail, `Length, `Nodes, (if Head == null then {} else {Head})`Prev
      ensures Sound() && Nodes == [node] + old(Nodes) && fresh(node) && node.Value == value
    {
      hide *;
      ghost var ns := Nodes;
      assert allocated(ns);
      SoundParts();
      FrontFree(ns);
      node := new Node(value);
      node.Next := Head;
      if Head != null {
        Head.Prev := node;
      } else {
        Tail := node;
      }
      Head := node;
      Length := Length + 1;
      Nodes := [node] + ns;
      AtEnds(ns);
      FrontAdded(node, ns);
      MakeSound();
    }

    method LinkBack(value: Obj) returns (node: Node)
      requires Sound()
      modifies `Head, `Tail, `Length, `Nodes, (if Tail == null then {} else {Tail})`Next
      ensures Sound() && Nodes == old(Nodes) + [node] && fresh(node) && node.Value == value
    {
      hide *;
      ghost var ns := Nodes;
      assert allocated(ns);
      SoundParts();
      BackFree(ns);
      node := new Node(value);
      node.Prev := Tail;
      if Tail != null {
        Tail.Next := node;
      } else {
        Head := node;
      }
      Tail := node;
      Length := Length + 1;
      Nodes := ns + [node];
      AtEnds(ns);
      BackAdded(ns, node);
      MakeSound();
    }

    method UnlinkFront() returns (node: Node)
      requires Sound() && Nodes != []
      modifies `Head, `Tail, `Length, `Nodes, (if Head == null || Head.Next == null then {} else {Head.Next})`Prev
      ensures Sound() && node == old(Nodes[0]) && Nodes == old(Nodes[1..])
    {
      hide *;
      ghost var ns := Nodes;
      SoundParts();
      FrontFree(ns);
      AtEnds(ns[1..]);
      node := Head;
      Head := node.Next;
      if Head != null {
        Head.Prev := null;
      } else {
        Tail := null;
      }
      Length := Length - 1;
      Nodes := ns[1..];
      FrontGone(ns[1..]);
      MakeSound();
    }

    method UnlinkBack() returns (node: Node)
      requires Sound() && Nodes != []
      modifies `Head, `Tail, `Length, `Nodes, (if Tail == null || Tail.Prev == null then {} else {Tail.Prev})`Next
      ensures Sound() && node == old(Nodes[|Nodes| - 1]) && Nodes == old(Nodes[..|Nodes| - 1])
    {
      hide *;
      ghost var ns := Nodes;
      SoundParts();
      BackFree(ns);
      AtEnds(ns[..|ns| - 1]);
      node := Tail;
      Tail := node.Prev;
      if Tail != null {
        Tail.Next := null;
      } else {
        Head := null;
      }
      Length := Length - 1;
      Nodes := ns[..|ns| - 1];
      BackGone(Nodes);
      MakeSound();
    }

    /** The cache goes back to the first node. */
    method Rewind()
      requires Sound()
      modifies `Index, `Cache, `Access
      ensures Cached() && Index == 1 && Access == 4
    {
      hide *;
      SoundParts();
      Index, Cache := 1, Head;
      Access := 4;
      MakeCached();
    }

    /** A new first entry, and the index array moved along. */
    method Prepend(value: Obj) returns (node: Node)
      requires Sound() && Covers(Array, Skip, Lower, Upper, Nodes)
      modifies `Head, `Tail, `Length, `Nodes, `Lower, `Upper, (if Head == null then {} else {Head})`Prev
      ensures Sound() && Covers(Array, Skip, Lower, Upper, Nodes)
      ensures if Array != null then Lower == old(Lower) + 1 && Upper == old(Upper) + 1
              else Lower == old(Lower) && Upper == old(Upper)
      ensures Nodes == [node] + old(Nodes) && fresh(node) && node.Value == value
    {
      hide *;
      ghost var ns := Nodes;
      node := LinkFront(value);
      CoversPush(Array, Skip, Lower, Upper, ns, node);
      if Array != null {
        Lower, Upper := Lower + 1, Upper + 1;
      }
    }

    /** _push */
    method Push(value: Obj)
      requires Valid()
      modifies `Head, `Tail, `Length, `Nodes, `Index, `Cache, `Access, `Lower, `Upper,
               (if Head == null then {} else {Head})`Prev
      ensures Valid() && |Nodes| == |old(Nodes)| + 1 && Nodes[1..] == old(Nodes)
      ensures Index == 1 && Access == 4 && (Array != null ==> Lower == old(Lower) + 1 && Upper == old(Upper) + 1)
      ensures fresh(Nodes[0]) && Nodes[0].Value == value
    {
      hide *;
      ValidParts();
      var node := Prepend(value);
      Rewind();
      MakeValid();
    }

    /** _put */
    method Put(value: Obj)
      requires Sound()
      modifies `Head, `Tail, `Length, `Nodes, `Index, `Cache, `Access, (if Tail == null then {} else {Tail})`Next
      ensures Sound() && Cached() && (old(Indexed()) ==> Valid())
      ensures |Nodes| == |old(Nodes)| + 1 && Nodes[..|Nodes| - 1] == old(Nodes)
      ensures Index == 1 && Access == 4
      ensures fresh(Nodes[|Nodes| - 1]) && Nodes[|Nodes| - 1].Value == value
    {
      hide *;
      IndexedDef();
      ghost var ns := Nodes;
      var node := LinkBack(value);
      if Covers(Array, Skip, Lower, Upper, ns) {
        CoversPut(Array, Skip, Lower, Upper, ns, node);
      }
      IndexedDef();
      Rewind();
      ValidIf();
    }

    /** _pop: the first value, or null.  Cache and links are always right
        afterwards; the index array exactly when its upper bound was not 0. */
    method Pop() returns (node: Node?)
      requires Valid() && Length < WORD - 1
      modifies `Head, `Tail, `Length, `Nodes, `Index, `Cache, `Access, `Lower, `Upper, `Skip,
               (if Head == null || Head.Next == null then {} else {Head.Next})`Prev
      ensures Sound() && Cached()
      ensures old(Nodes) == [] ==> node == null && Nodes == []
      ensures old(Nodes) != [] ==> node == old(Nodes[0]) && Nodes == old(Nodes[1..])
      ensures old(Nodes) != [] && Array != null ==> Upper == Decremented(old(Upper))
      ensures old(Nodes) != [] && Array != null ==>
                if old(Lower) > 1 then Lower == old(Lower) - 1 && Skip == old(Skip)
                else Lower == old(Lower) && Skip == old(Skip) + 1
      ensures Indexed() <==> old(Nodes == [] || Array == null || Upper != 0)
    {
      hide *;
      ValidParts();
      SoundParts();
      if Head == null {
        return null;
      }
      CoversPop(Array, Skip, Lower, Upper, Nodes);
      node := UnlinkFront();
      StepArray();
      Rewind();
      IndexedDef();
    }

    /** The index array loses its first entry, and its bounds move down. */
    method StepArray()
      modifies `Lower, `Upper, `Skip
      ensures Array == null ==> Lower == old(Lower) && Upper == old(Upper) && Skip == old(Skip)
      ensures Array != null ==> Upper == Decremented(old(Upper))
      ensures Array != null && old(Lower) > 1 ==> Lower == old(Lower) - 1 && Skip == old(Skip)
      ensures Array != null && old(Lower) <= 1 ==> Lower == old(Lower) && Skip == old(Skip) + 1
    {
      if Array != null {
        if Lower > 1 {
          Lower := Lower - 1;
        } else {
          Skip := Skip + 1;
        }
        Upper := Decremented(Upper);
      }
    }

    /** _pull */
    method Pull() returns (node: Node?)
      requires Valid()
      modifies `Head, `Tail, `Length, `Nodes, `Index, `Cache, `Access, `Upper,
               (if Tail == null || Tail.Prev == null then {} else {Tail.Prev})`Next
      ensures Valid()
      ensures Upper == if old(Nodes != [] && Array != null && Upper == |Nodes|) then old(Upper) - 1 else old(Upper)
      ensures old(Nodes) == [] ==> node == null && Nodes == []
      ensures old(Nodes) != [] ==> node == old(Nodes[|Nodes| - 1]) && Nodes == old(Nodes[..|Nodes| - 1])
    {
      hide *;
      ValidParts();
      SoundParts();
      if Tail == null {
        return null;
      }
      CoversPull(Array, Skip, Lower, Upper, Nodes);
      node := UnlinkBack();
      ShrinkArray();
      Rewind();
      MakeValid();
    }

    /** The index array drops its last entry if the list no longer has it. */
    method ShrinkArray()
      requires Sound()
      requires Covers(Array, Skip, Lower, if Array != null && Upper > |Nodes| then Upper - 1 else Upper, Nodes)
      modifies `Upper
      ensures Indexed() && Upper == if Array != null && old(Upper) > |Nodes| then old(Upper) - 1 else old(Upper)
    {
      hide *;
      SoundParts();
      if Array != null {
        if Upper > Length {
          Upper := Upper - 1;
        }
      }
      IndexedDef();
    }

    /** build_index_array */
    method BuildIndexArray()
      requires Sound()
      modifies `Array, `Skip, `Lower, `Upper
      ensures Array != null && Indexed() && Lower == 1 && Upper == Array.Length == Length && Skip == 0 && fresh(Array)
    {
      hide *;
      SoundParts();
      var block := new Node?[Length](_ => null);
      var node, i := Head, 0;
      while node != null
        invariant i <= |Nodes| == block.Length && (node == null <==> i == |Nodes|) && (i < |Nodes| ==> node == Nodes[i])
        invariant forall j :: 0 <= j < i ==> block[j] == Nodes[j]
        decreases |Nodes| - i
      {
        Neighbours(i);
        block[i] := node;
        i, node := i + 1, node.Next;
      }
      Array, Skip := block, 0;
      Lower := 1;
      Upper := Length;
      CoversAll(block, Nodes);
      IndexedDef();
    }

    /** Follows `Next` a number of times. */
    method Forward(node0: Node, steps0: nat, ghost at: nat) returns (node: Node)
      requires Sound() && 0 < steps0 && at + steps0 < |Nodes| && node0 == Nodes[at]
      ensures node == Nodes[at + steps0]
    {
      hide *;
      Neighbours(at);
      node := node0.Next;
      var steps := steps0 - 1;
      while steps > 0
        invariant steps < steps0 && node == Nodes[at + steps0 - steps]
      {
        Neighbours(at + steps0 - steps);
        node := node.Next;
        steps := steps - 1;
      }
    }

    /** Follows `Prev` a number of times. */
    method Backward(node0: Node, steps0: nat, ghost at: nat) returns (node: Node)
      requires Sound() && 0 < steps0 <= at < |Nodes| && node0 == Nodes[at]
      ensures node == Nodes[at - steps0]
    {
      hide *;
      Neighbours(at);
      node := node0.Prev;
      var steps := steps0 - 1;
      while steps > 0
        invariant steps < steps0 && node == Nodes[at - steps0 + steps]
      {
        Neighbours(at - steps0 + steps);
        node := node.Prev;
        steps := steps - 1;
      }
    }

    /** The four walks to a node that is neither at an end nor the cached one. */
    method WalkTo(index: nat) returns (node: Node)
      requires Sound() && Cached() && 1 < index < Length && index != Index
      ensures node == Nodes[index - 1]
    {
      hide *;
      Parts();
      if 2 * index < Index {
        node := Forward(Head, index - 1, 0);
      } else if index < Index {
        node := Backward(Cache, Index - index, Index - 1);
      } else if 2 * index < Index + Length {
        node := Forward(Cache, index - Index, Index - 1);
      } else {
        node := Backward(Tail, Length - index, Length - 1);
      }
    }

    /** The routes to a node that is not at an end, without touching the cache. */
    method Pick(index: nat) returns (node: Node)
      requires Valid() && 1 < index < Length
      ensures node == Nodes[index - 1]
    {
      hide *;
      ValidParts();
      Parts();
      if index + 1 == Index {
        Neighbours(Index - 1);
        node := Cache.Prev;
      } else if index == Index {
        node := Cache;
      } else if index == Index + 1 {
        Neighbours(Index - 1);
        node := Cache.Next;
      } else if Array != null && Lower <= index <= Upper {
        IndexedAt(index);
        node := Array[Skip + index - Lower];
      } else {
        node := WalkTo(index);
      }
    }

    /** delete_node */
    method DeleteNode(node: Node, index: nat) returns (value: Obj)
      requires Sound() && 1 < index < Length && node == Nodes[index - 1]
      modifies this, Nodes`Next, Nodes`Prev
      ensures Valid() && value == node.Value && Nodes == old(Nodes[..index - 1] + Nodes[index..])
    {
      hide *;
      SoundParts();
      ghost var ns, a, b := Nodes, Nodes[..index - 1], Nodes[index..];
      Neighbours(index - 1);
      Unlink(ns, index);
      assert allocated(a) && allocated(b) && a[|a| - 1] in a && b[0] in b;
      var next := node.Next;
      var prev := node.Prev;
      prev.Next := next;
      next.Prev := prev;
      Length := Length - 1;
      Index := index;
      Cache := next;
      Array := null;
      Access := 4;
      Nodes := a + b;
      CloseMiddle(a, b);
      MakeSound();
      MakeCached();
      NoArray();
      MakeValid();
      value := node.Value;
    }

    /** The case of `delete` for the first entry. */
    method DeleteFirst() returns (value: Obj)
      requires Valid() && 0 < Length < WORD - 1
      modifies this, (if Head == null || Head.Next == null then {} else {Head.Next})`Prev
      ensures Sound() && Cached() && value == old(Nodes)[0].Value && Nodes == old(Nodes)[1..]
      ensures Indexed() <==> old(Array == null || Upper != 0)
    {
      hide *;
      ValidParts();
      Parts();
      ghost var ns := Nodes;
      CoversPop(Array, Skip, Lower, Upper, Nodes);
      var node := UnlinkFront();
      StepArray();
      IndexedDef();
      StepCache(ns);
      value := node.Value;
    }

    /** The cache after the first of `ns` is gone. */
    method StepCache(ghost ns: seq<Node>)
      requires Sound() && ns != [] && Nodes == ns[1..] && 1 <= Index <= |ns| && Cache == ns[Index - 1]
      modifies `Index, `Cache, `Access
      ensures Cached()
    {
      hide *;
      SoundParts();
      Index := Index - 1;
      if Index == 0 {
        Index, Cache := 1, Head;
      }
      Access := 4;
      MakeCached();
    }

    /** The case of `delete` for the last entry. */
    method DeleteLast() returns (value: Obj)
      requires Valid() && 0 < Length
      modifies this, (if Tail == null || Tail.Prev == null then {} else {Tail.Prev})`Next
      ensures Valid() && value == old(Nodes)[|old(Nodes)| - 1].Value && Nodes == old(Nodes)[..|old(Nodes)| - 1]
    {
      hide *;
      ValidParts();
      Parts();
      CoversPull(Array, Skip, Lower, Upper, Nodes);
      var length := Length;
      var node := UnlinkBack();
      SoundParts();
      ShrinkArray();
      if Index == length {
        Index, Cache := 1, Head;
      }
      Access := 4;
      MakeCached();
      MakeValid();
      value := node.Value;
    }

    /** The method `delete`: removes exactly the entry at the index, counted from
        the end if it is not positive, and fails outside the list.  Everything
        is in order afterwards, except the index array when the first entry goes
        and the array's upper bound was 0. */
    method Delete(at: int) returns (value: Option<Obj>)
      requires Valid() && Length < WORD - 1
      modifies this, Nodes`Next, Nodes`Prev
      ensures Sound() && Cached()
      ensures !(1 <= Position(at, |old(Nodes)|) <= |old(Nodes)|) ==> value == None && Nodes == old(Nodes) && Indexed()
      ensures 1 <= Position(at, |old(Nodes)|) <= |old(Nodes)| ==>
                var i := Position(at, |old(Nodes)|);
                && value == Some(old(Nodes)[i - 1].Value) && Nodes == old(Nodes)[..i - 1] + old(Nodes)[i..]
                && (Indexed() <==> i > 1 || old(Array == null || Upper != 0))
    {
      hide *;
      ValidParts();
      Parts();
      SoundParts();
      var index := at;
      PositionDef(at, |Nodes|);
      if index <= 0 {
        index := index + Length + 1;
      }
      if index < 1 || Length < index {
        return None;
      }
      Ends(Nodes);
      EndNodes();
      if index == 1 {
        var v := DeleteFirst();
        return Some(v);
      }
      if index == Length {
        var v := DeleteLast();
        ValidParts();
        return Some(v);
      }
      var node := Pick(index);
      var v := DeleteNode(node, index);
      ValidParts();
      value := Some(v);
    }

    /** One step of insert_nodes: a new node before `node`. */
    method InsertBefore(node: Node, value: Obj, ghost at: nat) returns (added: Node)
      requires Sound() && 0 < at < |Nodes| && node == Nodes[at]
      modifies `Length, `Nodes, Nodes`Next, Nodes`Prev
      ensures Sound() && fresh(added) && added.Value == value
      ensures Nodes == old(Nodes[..at] + [added] + Nodes[at..])
    {
      hide *;
      ghost var ns, a, b := Nodes, Nodes[..at], Nodes[at..];
      assert allocated(ns);
      SoundParts();
      Neighbours(at);
      Apply(ns, at);
      assert allocated(a) && allocated(b) && a[|a| - 1] in a && b[0] in b;
      added := new Node(value);
      added.Prev := node.Prev;
      added.Prev.Next := added;
      added.Next := node;
      node.Prev := added;
      Length := Length + 1;
      Nodes := a + [added] + b;
      Extend(a, added);
      CloseMiddle(a + [added], b);
      MakeSound();
    }

    /** insert_nodes: the values before `node`, last one first. */
    method InsertNodes(node0: Node, values: seq<Obj>, ghost at: nat) returns (ghost news: seq<Node>)
      requires Sound() && 0 < at < |Nodes| && node0 == Nodes[at]
      modifies this, Nodes`Next, Nodes`Prev
      ensures Valid() && fresh(news) && |news| == |values|
      ensures forall j :: 0 <= j < |values| ==> news[j].Value == values[j]
      ensures Nodes == old(Nodes[..at]) + news + old(Nodes[at..])
    {
      hide *;
      ghost var a, b := Nodes[..at], Nodes[at..];
      news := [];
      var node, i := node0, |values|;
      assert Nodes == a + news + b;
      while i > 0
        invariant 0 <= i <= |values| && |news| == |values| - i && fresh(news)
        invariant Sound() && Nodes == a + news + b && node == (news + b)[0]
        invariant forall j :: 0 <= j < |values| - i ==> news[j].Value == values[i + j]
      {
        i := i - 1;
        assert Nodes == a + (news + b);
        var added := InsertBefore(node, values[i], at);
        news := [added] + news;
        assert Nodes == a + news + b;
        node := added;
      }
      Array := null;
      NoArray();
      Rewind();
      MakeValid();
    }

    /** The case of `insert` at the front: each value goes before the last one. */
    method InsertFront(values: seq<Obj>) returns (ghost news: seq<Node>)
      requires Valid()
      modifies this, Nodes`Prev
      ensures Valid() && fresh(news) && |news| == |values| && Nodes == news + old(Nodes)
      ensures forall j :: 0 <= j < |values| ==> news[j].Value == values[|values| - 1 - j]
    {
      hide *;
      ValidParts();
      ghost var ns := Nodes;
      news := [];
      assert Nodes == news + ns;
      for i := 0 to |values|
        invariant Sound() && Covers(Array, Skip, Lower, Upper, Nodes) && Nodes == news + ns && |news| == i
                  && fresh(news)
        invariant forall j :: 0 <= j < i ==> news[j].Value == values[i - 1 - j]
        invariant Array == old(Array)
      {
        EndNodes();
        HeadIn(news, ns);
        var node := Prepend(values[i]);
        Associate([node], news, ns);
        news := [node] + news;
      }
      Rewind();
      MakeValid();
    }

    /** The case of `insert` behind the last entry. */
    method InsertBack(values: seq<Obj>) returns (ghost news: seq<Node>)
      requires Valid()
      modifies this, Nodes`Next
      ensures Valid() && fresh(news) && |news| == |values| && Nodes == old(Nodes) + news
      ensures forall j :: 0 <= j < |values| ==> news[j].Value == values[j]
    {
      hide *;
      ValidParts();
      ghost var ns := Nodes;
      news := [];
      assert Nodes == ns + news;
      for i := 0 to |values|
        invariant Sound() && Covers(Array, Skip, Lower, Upper, Nodes) && Nodes == ns + news && |news| == i
                  && fresh(news)
        invariant forall j :: 0 <= j < i ==> news[j].Value == values[j]
        invariant Array == old(Array)
      {
        ghost var ms := Nodes;
        EndNodes();
        HeadIn(ns, news);
        var node := LinkBack(values[i]);
        CoversPut(Array, Skip, Lower, Upper, ms, node);
        Associate(ns, news, [node]);
        news := news + [node];
      }
      Rewind();
      MakeValid();
    }

    /** The cases of `insert` before an entry that has one before it. */
    method InsertMiddle(index: nat, values: seq<Obj>) returns (ghost news: seq<Node>)
      requires Valid() && 1 < index <= Length
      modifies this, Nodes`Next, Nodes`Prev
      ensures Valid() && fresh(news) && |news| == |values|
      ensures forall j :: 0 <= j < |values| ==> news[j].Value == values[j]
      ensures Nodes == old(Nodes[..index - 1]) + news + old(Nodes[index - 1..])
    {
      hide *;
      ValidParts();
      Parts();
      var node;
      if index == Length {
        node := Tail;
      } else {
        node := Pick(index);
      }
      news := InsertNodes(node, values, index - 1);
    }

    /** The method `insert`.  At position 1 the values end up in reverse. */
    method Insert(at: int, values: seq<Obj>) returns (ok: bool, ghost news: seq<Node>)
      requires Valid()
      modifies this, Nodes`Next, Nodes`Prev
      ensures Valid() && ok == (1 <= Position(at, |old(Nodes)|) <= |old(Nodes)| + 1)
      ensures !ok ==> Nodes == old(Nodes)
      ensures ok ==>
                var i := Position(at, |old(Nodes)|);
                && Nodes == old(Nodes)[..i - 1] + news + old(Nodes)[i - 1..]
                && fresh(news) && |news| == |values|
                && forall j :: 0 <= j < |values| ==> news[j].Value == values[if i == 1 then |values| - 1 - j else j]
    {
      hide *;
      ValidParts();
      Parts();
      var index := at;
      PositionDef(at, |Nodes|);
      news := [];
      if index <= 0 {
        index := index + Length + 1;
      }
      if index < 1 || Length + 1 < index {
        return false, news;
      }
      ok := true;
      ghost var ns := Nodes;
      if index == 1 {
        news := InsertFront(values);
        AroundFront(ns, news);
        return;
      }
      if index == Length + 1 {
        news := InsertBack(values);
        AroundBack(ns, news);
        return;
      }
      news := InsertMiddle(index, values);
    }

    lemma EndNodes()
      requires Sound()
      ensures Head != null ==> Head in Nodes && (Head.Next != null ==> Head.Next in Nodes)
      ensures Tail != null ==> Tail in Nodes && (Tail.Prev != null ==> Tail.Prev in Nodes)
    {
    }

    lemma NoArray()
      requires Array == null
      ensures Indexed()
    {
    }

    lemma SoundParts()
      requires Sound()
      ensures Length == |Nodes| && Linked(Nodes)
      ensures Nodes == [] <==> Head == null
      ensures Nodes == [] <==> Tail == null
      ensures Nodes != [] ==> Head == Nodes[0] && Tail == Nodes[|Nodes| - 1]
    {
    }

    lemma Parts()
      requires Sound() && Cached()
      ensures Length == |Nodes|
      ensures Nodes != [] ==>
                Head == Nodes[0] && Tail == Nodes[|Nodes| - 1] && 1 <= Index <= |Nodes| && Cache == Nodes[Index - 1]
    {
    }

    lemma IndexedDef()
      ensures Indexed() <==> Covers(Array, Skip, Lower, Upper, Nodes)
    {
    }

    lemma Neighbours(i: nat)
      requires Sound() && i < |Nodes|
      ensures i + 1 < |Nodes| ==> Nodes[i].Next == Nodes[i + 1]
      ensures i > 0 ==> Nodes[i].Prev == Nodes[i - 1]
      ensures i + 1 == |Nodes| ==> Nodes[i].Next == null
      ensures i == 0 ==> Nodes[i].Prev == null
    {
    }

    lemma ValidParts()
      requires Valid()
      ensures Sound() && Cached() && Indexed()
      ensures Covers(Array, Skip, Lower, Upper, Nodes)
    {
    }

    lemma MakeCached()
      requires Nodes != [] ==> 1 <= Index <= |Nodes| && Cache == Nodes[Index - 1]
      ensures Cached()
    {
    }

    lemma MakeSound()
      requires Linked(Nodes) && Length == |Nodes|
      requires Nodes == [] ==> Head == null && Tail == null
      requires Nodes != [] ==> Head == Nodes[0] && Tail == Nodes[|Nodes| - 1]
      ensures Sound()
    {
    }

    lemma MakeValid()
      requires Sound() && Cached() && (Covers(Array, Skip, Lower, Upper, Nodes) || Indexed())
      ensures Valid()
    {
    }

    lemma IndexedAt(i: nat)
      requires Indexed() && Array != null && Lower <= i <= Upper
      ensures 1 <= Lower && Skip + i - Lower < Array.Length && i <= |Nodes| && Array[Skip + i - Lower] == Nodes[i - 1]
    {
    }

    /** _find_node takes `index` from the index array. */
    ghost predicate UsesArray(index: nat)
      reads `Index, `Length, `Array, `Lower, `Upper
    {
      && 1 < index < Length && !(Index <= index + 1 <= Index + 2)
      && Array != null && Lower <= index <= Upper
    }

    /** The entry it reads then is there. */
    ghost predicate Readable(index: nat)
      reads `Array, `Skip, `Lower, Array
    {
      Array != null && 0 <= Skip + index - Lower < Array.Length && Array[Skip + index - Lower] != null
    }

    /** It follows links, and counts that as one more access. */
    ghost predicate Walks(index: nat)
      reads `Index, `Length, `Array, `Lower, `Upper
    {
      1 < index < Length && !(Index <= index + 1 <= Index + 2) && !(Array != null && Lower <= index <= Upper)
    }

    lemma Routes(index: nat)
      ensures UsesArray(index) <==>
              1 < index < Length && !(Index <= index + 1 <= Index + 2) && Array != null && Lower <= index <= Upper
      ensures Walks(index) <==>
              1 < index < Length && !(Index <= index + 1 <= Index + 2) && !(Array != null && Lower <= index <= Upper)
    {
    }

    lemma UseReadable(index: nat)
      requires Readable(index)
      ensures Array != null && 0 <= Skip + index - Lower < Array.Length && Array[Skip + index - Lower] != null
    {
    }

    lemma MakeReadable(index: nat)
      requires Array != null && 0 <= Skip + index - Lower < Array.Length && Array[Skip + index - Lower] != null
      ensures Readable(index)
    {
    }

    /** In a valid list the array may be read, and its entries are right. */
    lemma ReadableNow(index: nat)
      requires Indexed() && UsesArray(index)
      ensures Readable(index) && index <= |Nodes| && Array[Skip + index - Lower] == Nodes[index - 1]
    {
      IndexedAt(index);
    }

    /** _find_node: whichever of its routes it takes, the node is the one that
        plain counting finds, and the list is the same list. Only an index array
        that is wrong already makes it find another node. The fourth walk since
        the last change of the list builds the array. */
    method FindNode(index: nat) returns (node: Node)
      requires Sound() && Cached() && 1 <= index <= Length
      requires UsesArray(index) ==> Indexed() || Readable(index)
      modifies `Index, `Cache, `Array, `Skip, `Lower, `Upper, `Access
      ensures Sound() && Cached()
      ensures old(Indexed()) ==> Valid() && node == Nodes[index - 1]
      ensures old(UsesArray(index)) ==> old(Readable(index)) && node == old(Array[Skip + index - Lower])
      ensures !old(UsesArray(index)) ==> node == Nodes[index - 1]
      ensures Access == if old(Walks(index)) then Decremented(old(Access)) else old(Access)
      ensures Index == if 1 < index < Length && !old(UsesArray(index)) && (old(Walks(index)) ==> Access > 0)
                       then index else old(Index)
      ensures old(Walks(index)) && Access == 0 ==>
                Array != null && Indexed() && Lower == 1 && Upper == Array.Length == Length && Skip == 0
      ensures !(old(Walks(index)) && Access == 0) ==>
                Array == old(Array) && Skip == old(Skip) && Lower == old(Lower) && Upper == old(Upper)
    {
      hide *;
      Parts();
      Routes(index);
      if index == 1 {
        ValidIf();
        return Head;
      }
      if index == Length {
        ValidIf();
        return Tail;
      }
      if index + 1 == Index {
        Neighbours(Index - 1);
        Index, Cache := index, Cache.Prev;
        MakeCached();
        ValidIf();
        return Cache;
      } else if index == Index {
        ValidIf();
        return Cache;
      } else if index == Index + 1 {
        Neighbours(Index - 1);
        Index, Cache := index, Cache.Next;
        MakeCached();
        ValidIf();
        return Cache;
      }
      if Array != null && Lower <= index <= Upper {
        if Indexed() {
          ReadableNow(index);
        }
        UseReadable(index);
        node := Array[Skip + index - Lower];
        ValidIf();
        return;
      }
      Access := Decremented(Access);
      if Access == 0 {
        BuildIndexArray();
        IndexedAt(index);
        node := Array[index - 1];
      } else {
        node := WalkTo(index);
        Index, Cache := index, node;
        MakeCached();
      }
      ValidIf();
    }

    lemma ValidIf()
      requires Sound() && Cached()
      ensures Valid() <==> Indexed()
    {
    }
  }

  /** An index array: block entries from `skip` on are the nodes from position
      `lower` to `upper`. */
  ghost predicate Covers(block: array?<Node?>, skip: nat, lower: nat, upper: nat, ns: seq<Node>)
    reads block
  {
    block != null ==>
      && 1 <= lower && upper <= |ns| && (lower <= upper ==> skip + upper - lower < block.Length)
      && forall k :: skip <= k <= skip + upper - lower ==> block[k] == ns[lower + k - skip - 1]
  }

  lemma CoversAll(block: array<Node?>, ns: seq<Node>)
    requires block.Length == |ns| && forall j :: 0 <= j < |ns| ==> block[j] == ns[j]
    ensures Covers(block, 0, 1, |ns|, ns)
  {
  }

  lemma CoversPush(block: array?<Node?>, skip: nat, lower: nat, upper: nat, ns: seq<Node>, n: Node)
    requires Covers(block, skip, lower, upper, ns)
    ensures block == null ==> Covers(block, skip, lower, upper, [n] + ns)
    ensures block != null ==> Covers(block, skip, lower + 1, upper + 1, [n] + ns)
  {
  }

  lemma CoversPut(block: array?<Node?>, skip: nat, lower: nat, upper: nat, ns: seq<Node>, n: Node)
    requires Covers(block, skip, lower, upper, ns)
    ensures Covers(block, skip, lower, upper, ns + [n])
  {
  }

  lemma CoversPop(block: array?<Node?>, skip: nat, lower: nat, upper: nat, ns: seq<Node>)
    requires Covers(block, skip, lower, upper, ns) && 0 < |ns| < WORD - 1
    ensures block == null ==> Covers(block, skip, lower, upper, ns[1..])
    ensures var skip', lower' := if lower > 1 then skip else skip + 1, if lower > 1 then lower - 1 else lower;
            block != null ==> (Covers(block, skip', lower', Decremented(upper), ns[1..]) <==> upper != 0)
  {
    if block != null && upper != 0 {
      var skip', lower' := if lower > 1 then skip else skip + 1, if lower > 1 then lower - 1 else lower;
      forall k | skip' <= k <= skip' + (upper - 1) - lower' ensures block[k] == ns[1..][lower' + k - skip' - 1] {
        assert block[k] == ns[lower + k - skip - 1];
      }
    }
  }

  lemma CoversPull(block: array?<Node?>, skip: nat, lower: nat, upper: nat, ns: seq<Node>)
    requires Covers(block, skip, lower, upper, ns) && ns != []
    ensures Covers(block, skip, lower, if block != null && upper > |ns| - 1 then upper - 1 else upper, ns[..|ns| - 1])
  {
  }

  lemma AtEnds(ns: seq<Node>)
    ensures At(ns, 0) == if ns == [] then null else ns[0]
    ensures At(ns, |ns| - 1) == if ns == [] then null else ns[|ns| - 1]
  {
  }

  /** `n` more entries. */
  method PutMany(l: List, n: nat)
    requires l.Sound() && l.Cached()
    modifies l`Head, l`Tail, l`Length, l`Nodes, l`Index, l`Cache, l`Access, l.Nodes`Next
    ensures l.Sound() && l.Cached() && (old(l.Indexed()) ==> l.Valid())
    ensures |l.Nodes| == |old(l.Nodes)| + n && l.Nodes[..|old(l.Nodes)|] == old(l.Nodes)
    ensures forall i :: |old(l.Nodes)| <= i < |l.Nodes| ==> fresh(l.Nodes[i])
    ensures n > 0 ==> l.Index == 1 && l.Access == 4
  {
    hide *;
    ghost var ns, indexed := l.Nodes, l.Indexed();
    l.ValidIf();
    for i := 0 to n
      invariant l.Sound() && l.Cached() && (indexed ==> l.Indexed())
      invariant |l.Nodes| == |ns| + i && l.Nodes[..|ns|] == ns
      invariant forall j :: |ns| <= j < |l.Nodes| ==> fresh(l.Nodes[j])
      invariant i > 0 ==> l.Index == 1 && l.Access == 4
    {
      l.EndNodes();
      ghost var ms := l.Nodes;
      assert forall m :: m in ms ==> m in ns || fresh(m);
      l.Put(i);
      if indexed {
        l.ValidParts();
      }
      assert l.Nodes[..|ns|] == l.Nodes[..|ms|][..|ns|];
      forall j | |ns| <= j < |l.Nodes|
        ensures fresh(l.Nodes[j])
      {
        assert j < |ms| ==> l.Nodes[j] == l.Nodes[..|ms|][j];
      }
    }
    l.ValidIf();
  }

  /** Five entries, and five lookups of which the last four walk: the fourth walk
      builds the index array. */
  method Walked() returns (l: List)
    ensures fresh(l) && l.Valid() && |l.Nodes| == l.Length == 5 && l.Array != null && l.Array.Length == 5
    ensures l.Lower == 1 && l.Upper == 5 && l.Skip == 0 && forall n :: n in l.Nodes ==> fresh(n)
  {
    l := new List();
    PutMany(l, 5);
    var n := l.FindNode(2);
    n := l.FindNode(4);
    n := l.FindNode(2);
    n := l.FindNode(4);
    n := l.FindNode(2);
  }

  /** All entries of such a list pulled off again. The array is still there, and
      its fourth slot still holds a node. */
  method Drained() returns (l: List)
    ensures fresh(l) && l.Valid() && l.Nodes == []
    ensures l.Array != null && l.Lower == 1 && l.Upper == 0 && l.Skip == 0
    ensures l.Array.Length == 5 && l.Array[3] != null
  {
    l := Walked();
    l.ValidParts();
    l.IndexedAt(4);
    hide *;
    ghost var stale := l.Array[3];
    for i := 0 to 5
      invariant l.Valid() && |l.Nodes| == 5 - i && l.Upper == 5 - i && forall n :: n in l.Nodes ==> fresh(n)
      invariant l.Array != null && l.Lower == 1 && l.Skip == 0 && l.Array.Length == 5 && l.Array[3] == stale
    {
      l.ValidParts();
      l.EndNodes();
      ghost var ms := l.Nodes;
      var n := l.Pull();
      assert forall n :: n in l.Nodes ==> n in ms;
    }
  }

  /** One entry put and popped: the bound of the array goes below 0. */
  method Wrapped() returns (l: List)
    ensures fresh(l) && l.Sound() && l.Cached() && l.Nodes == [] && !l.Indexed()
    ensures l.Array != null && l.Lower == 1 && l.Upper == WORD - 1 && l.Skip == 1
    ensures l.Array.Length == 5 && l.Array[3] != null
  {
    l := Drained();
    l.ValidParts();
    l.EndNodes();
    ghost var block := l.Array[..];
    Decremented0();
    hide *;
    PutMany(l, 1);
    l.ValidParts();
    l.SoundParts();
    l.EndNodes();
    var n := l.Pop();
    assert l.Array[..] == block;
  }

  lemma Decremented0()
    ensures Decremented(0) == WORD - 1 == 0xFFFF_FFFF
  {
  }

  /** From there on, lookups through the array find nodes that have left the list:
      the third of five new entries is looked for, and an old one found. */
  method PopEmptiedArray() returns (l: List, node: Node)
    ensures l.Sound() && l.Cached() && |l.Nodes| == 5 && node !in l.Nodes
  {
    l := Wrapped();
    l.EndNodes();
    ghost var stale := l.Array[3];
    assert l.Upper == 0xFFFF_FFFF;
    hide *;
    PutMany(l, 5);
    assert stale !in l.Nodes;
    l.SoundParts();
    l.Routes(3);
    l.MakeReadable(3);
    node := l.FindNode(3);
  }

  /** An index given to a method: not positive counts from the end. */
  function Position(at: int, length: nat): int {
    if at <= 0 then at + length + 1 else at
  }

  /** The values of a list after `insert` at position `i`. */
  ghost function InsertResult(vs: seq<Obj>, i: nat, values: seq<Obj>): seq<Obj>
    requires 1 <= i <= |vs| + 1
  {
    vs[..i - 1] + (if i == 1 then Reverse(values) else values) + vs[i - 1..]
  }

  /** What the contract of `insert` says of nodes, said of values. */
  lemma InsertedValues(ns: seq<Node>, news: seq<Node>, i: nat, values: seq<Obj>)
    requires 1 <= i <= |ns| + 1 && |news| == |values|
    requires forall j :: 0 <= j < |values| ==> news[j].Value == values[if i == 1 then |values| - 1 - j else j]
    ensures Values(ns[..i - 1] + news + ns[i - 1..]) == InsertResult(Values(ns), i, values)
  {
    var mid := if i == 1 then Reverse(values) else values;
    assert forall j :: 0 <= j < |mid| ==> mid[j] == news[j].Value;
  }

  /** The values arrive in the order given exactly when they do not go to the
      front, or read the same backwards. */
  lemma InsertKeepsOrder(vs: seq<Obj>, i: nat, values: seq<Obj>)
    requires 1 <= i <= |vs| + 1
    ensures InsertResult(vs, i, values) == vs[..i - 1] + values + vs[i - 1..] <==> i > 1 || Reverse(values) == values
  {
    var a, b := InsertResult(vs, i, values), vs[..i - 1] + values + vs[i - 1..];
    if i == 1 && a == b {
      assert a[..|values|] == Reverse(values) && b[..|values|] == values;
    }
  }

  /** Two values put at the front of an empty list change places. */
  lemma InsertReverses()
    ensures InsertResult([], 1, [10, 20]) == [20, 10]
  {
    assert Reverse([10, 20]) == [20, 10];
  }

  lemma PositionDef(at: int, length: nat)
    ensures Position(at, length) == if at <= 0 then at + length + 1 else at
  {
  }

  lemma Ends(ns: seq<Node>)
    requires ns != []
    ensures ns[1..] == ns[..0] + ns[1..] && ns[..|ns| - 1] == ns[..|ns| - 1] + ns[|ns|..]
  {
  }

  lemma AroundFront(ns: seq<Node>, news: seq<Node>)
    ensures ns[..0] + news + ns[0..] == news + ns
  {
  }

  lemma AroundBack(ns: seq<Node>, news: seq<Node>)
    ensures ns[..|ns|] + news + ns[|ns|..] == ns + news
  {
  }

  lemma HeadIn(a: seq<Node>, b: seq<Node>)
    ensures forall n :: n in a + b ==> n in a || n in b
    ensures a + b != [] ==> (a + b)[0] in a + b && (a + b)[|a + b| - 1] in a + b
  {
  }

  lemma Associate(a: seq<Node>, b: seq<Node>, c: seq<Node>)
    ensures a + (b + c) == a + b + c
  {
  }
}
