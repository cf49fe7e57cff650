/** The buffered reader of dev/src/lib/IO/Buffered.c.  Bytes come from a base
    stream in chunks of any size; what a caller gets does not depend on them. */
module Buffered {
  import opened Words

  // ----- the stream of bytes, and what each operation takes from it -----

  type Terms = seq<Byte>

  /** The bytes that an operation delivers, and what is left of the stream. */
  datatype Taken = Taken(result: seq<Byte>, rest: seq<Byte>)

  /** Where the first terminator is, or the end. */
  ghost function FirstTerm(s: seq<Byte>, terms: Terms): (i: nat)
    ensures i <= |s|
  {
    if s == [] || s[0] in terms then 0 else 1 + FirstTerm(s[1..], terms)
  }

  /** The bytes before the first terminator, which is taken too, or everything. */
  ghost function UpTo(s: seq<Byte>, terms: Terms): Taken {
    var i := FirstTerm(s, terms);
    if i < |s| then Taken(s[..i], s[i + 1..]) else Taken(s, [])
  }

  /** The same, looking no further than `max` bytes. */
  ghost function UpToWithin(s: seq<Byte>, terms: Terms, max: nat): Taken {
    var n := if max < |s| then max else |s|;
    var i := FirstTerm(s[..n], terms);
    if i < n then Taken(s[..i], s[i + 1..]) else Taken(s[..n], s[n..])
  }

  /** `readx`: 0 stands for no limit. */
  ghost function ReadxTakes(s: seq<Byte>, max: nat, terms: Terms): Taken {
    if max == 0 then UpTo(s, terms) else UpToWithin(s, terms, max)
  }

  /** `read`: as many bytes as asked for, or all there are. */
  ghost function ReadTakes(s: seq<Byte>, count: nat): Taken {
    var n := if count < |s| then count else |s|;
    Taken(s[..n], s[n..])
  }

  const NEWLINE: Byte := 10

  ghost predicate NoTerm(s: seq<Byte>, terms: Terms) {
    forall i :: 0 <= i < |s| ==> s[i] !in terms
  }

  /** FirstTerm is the first position of a terminator. */
  lemma {:induction false} FirstTermIs(s: seq<Byte>, terms: Terms)
    ensures NoTerm(s[..FirstTerm(s, terms)], terms)
    ensures FirstTerm(s, terms) < |s| ==> s[FirstTerm(s, terms)] in terms
  {
    if s != [] && s[0] !in terms {
      FirstTermIs(s[1..], terms);
      var i := FirstTerm(s[1..], terms);
      assert s[..i + 1][1..] == s[1..][..i];
    }
  }

  lemma {:induction false} FirstTermAt(a: seq<Byte>, b: seq<Byte>, terms: Terms)
    requires NoTerm(a, terms)
    ensures FirstTerm(a + b, terms) == |a| + FirstTerm(b, terms)
  {
    if a == [] {
      assert a + b == b;
    } else {
      assert (a + b)[1..] == a[1..] + b;
      assert a[0] !in terms;
      FirstTermAt(a[1..], b, terms);
    }
  }

  /** Reading on behind bytes without a terminator. */
  lemma UpToBehind(a: seq<Byte>, b: seq<Byte>, terms: Terms)
    requires NoTerm(a, terms)
    ensures var t := UpTo(b, terms); UpTo(a + b, terms) == Taken(a + t.result, t.rest)
  {
    FirstTermAt(a, b, terms);
    var i := FirstTerm(b, terms);
    hide FirstTerm;
    if i < |b| {
      assert (a + b)[..|a| + i] == a + b[..i] && (a + b)[|a| + i + 1..] == b[i + 1..];
    }
  }

  lemma UpToWithinBehind(a: seq<Byte>, b: seq<Byte>, terms: Terms, max: nat)
    requires NoTerm(a, terms) && |a| <= max
    ensures var t := UpToWithin(b, terms, max - |a|); UpToWithin(a + b, terms, max) == Taken(a + t.result, t.rest)
  {
    var k := max - |a|;
    var n := if k < |b| then k else |b|;
    var s := a + b;
    var n' := if max < |s| then max else |s|;
    assert n' == |a| + n;
    assert s[..n'] == a + b[..n];
    FirstTermAt(a, b[..n], terms);
    var i := FirstTerm(b[..n], terms);
    hide FirstTerm;
    assert FirstTerm(s[..n'], terms) == |a| + i;
    if i < n {
      assert s[..|a| + i] == a + b[..i];
      assert s[|a| + i + 1..] == b[i + 1..];
    } else {
      assert s[n'..] == b[n..];
    }
  }

  /** A call of a reading operation. */
  datatype Op = OpReadx(max: nat, terms: Terms) | OpReadl | OpReads(max: nat) | OpRead(count: nat)

  /** What a call delivers, and what it leaves, of the bytes still to come. */
  ghost function Outcome(s: seq<Byte>, op: Op): Taken {
    match op
    case OpReadx(max, terms) => ReadxTakes(s, max, terms)
    case OpReadl => UpTo(s, [NEWLINE])
    case OpReads(max) => if max == 0 then Taken(s, []) else ReadTakes(s, max)
    case OpRead(count) => ReadTakes(s, count)
  }

  /** What a series of calls delivers. */
  ghost function Results(s: seq<Byte>, ops: seq<Op>): seq<seq<Byte>>
    decreases |ops|
  {
    if ops == [] then []
    else
      var t := Outcome(s, ops[0]);
      [t.result] + Results(t.rest, ops[1..])
  }

  lemma ResultsStart(s: seq<Byte>, ops: seq<Op>)
    ensures Results(s, ops) == [] + Results(s, ops[0..])
  {
    assert ops[0..] == ops;
    assert [] + Results(s, ops) == Results(s, ops);
  }

  lemma ResultsStep(s: seq<Byte>, ops: seq<Op>, i: nat, before: seq<seq<Byte>>)
    requires i < |ops|
    ensures before + Results(s, ops[i..])
            == before + [Outcome(s, ops[i]).result] + Results(Outcome(s, ops[i]).rest, ops[i + 1..])
  {
    hide Outcome;
    assert ops[i..][1..] == ops[i + 1..];
    var t := Outcome(s, ops[i]);
    assert before + ([t.result] + Results(t.rest, ops[i + 1..])) == before + [t.result] + Results(t.rest, ops[i + 1..]);
  }

  lemma ResultsEnd(s: seq<Byte>, ops: seq<Op>, before: seq<seq<Byte>>)
    ensures before + Results(s, ops[|ops|..]) == before
  {
  }

  lemma {:induction false} NoTerms(s: seq<Byte>)
    ensures FirstTerm(s, []) == |s|
  {
    if s != [] {
      NoTerms(s[1..]);
    }
  }

  lemma NoTermsTake(s: seq<Byte>, max: nat)
    ensures UpTo(s, []) == Taken(s, []) && UpToWithin(s, [], max) == ReadTakes(s, max)
  {
    NoTerms(s);
    NoTerms(s[..if max < |s| then max else |s|]);
  }

  /** The three ways a `readx` can end: at a terminator, which goes too; at the
      limit; or with the stream. */
  lemma ReadxMeans(s: seq<Byte>, max: nat, terms: Terms)
    ensures var t := ReadxTakes(s, max, terms);
            && NoTerm(t.result, terms) && (max > 0 ==> |t.result| <= max)
            && (|| (|t.result| < |s| && s[|t.result|] in terms && (max > 0 ==> |t.result| < max)
                && s == t.result + [s[|t.result|]] + t.rest)
                || (max > 0 && |t.result| == max && s == t.result + t.rest)
                || (t.result == s && t.rest == []))
  {
    var n := if max > 0 && max < |s| then max else |s|;
    var w := s[..n];
    assert max == 0 ==> w == s;
    FirstTermIs(w, terms);
    var i := FirstTerm(w, terms);
    hide FirstTerm;
    if i < n {
      assert s[..i] == w[..i] && s == s[..i] + [s[i]] + s[i + 1..];
    } else {
      assert w[..i] == w;
    }
  }

  /** What each operation takes: `readl` ends at byte 10, `reads` of 0 takes
      everything, and otherwise at most as many bytes as asked for are taken. */
  lemma OutcomeMeans(s: seq<Byte>, op: Op)
    ensures var t := Outcome(s, op);
            match op
            case OpReadl =>
              && (forall i :: 0 <= i < |t.result| ==> t.result[i] != 10)
              && (s == t.result + [10] + t.rest || (s == t.result && t.rest == []))
            case OpReads(max) =>
              && s == t.result + t.rest
              && |t.result| == (if max == 0 || |s| <= max then |s| else max)
            case OpRead(count) =>
              && s == t.result + t.rest
              && |t.result| == (if |s| <= count then |s| else count)
            case OpReadx(max, terms) =>
              && (forall i :: 0 <= i < |t.result| ==> t.result[i] !in terms)
              && (max > 0 ==> |t.result| <= max)
              && (|| (s == t.result + t.rest && (t.rest == [] || (max > 0 && |t.result| == max)))
                  || (|t.result| < |s| && s[|t.result|] in terms && (max > 0 ==> |t.result| < max)
                      && s == t.result + [s[|t.result|]] + t.rest))
  {
    match op
    case OpReadl => ReadxMeans(s, 0, [NEWLINE]);
    case OpReads(max) =>
    case OpRead(count) =>
    case OpReadx(max, terms) => ReadxMeans(s, max, terms);
  }

  // ----- the base stream, and buffers -----

  /** A base stream with bytes to come, and how it will cut them into chunks. */
  class Base {
    var Rest: seq<Byte>
    var Chunks: seq<nat>

    constructor (bytes: seq<Byte>, chunks: seq<nat>)
      ensures Rest == bytes && Chunks == chunks
    {
      Rest, Chunks := bytes, chunks;
    }

    /** Delivers some bytes, at least one unless there are no more. */
    method Read(buffer: array<Byte>, at: nat, space: nat) returns (n: nat)
      requires space > 0 && at + space <= buffer.Length
      modifies this, buffer
      ensures n <= space && n <= |old(Rest)| && (n == 0 <==> old(Rest) == [])
      ensures Rest == old(Rest)[n..] && buffer[at..at + n] == old(Rest)[..n]
      ensures buffer[..at] == old(buffer[..at])
    {
      var size := if Chunks == [] || Chunks[0] == 0 then space else Chunks[0];
      if Chunks != [] {
        Chunks := Chunks[1..];
      }
      n := if size < space then size else space;
      if |Rest| < n {
        n := |Rest|;
      }
      Copy(buffer, at, Rest[..n]);
      Rest := Rest[n..];
    }
  }

  /** memcpy */
  method Copy(a: array<Byte>, at: nat, s: seq<Byte>)
    requires at + |s| <= a.Length
    modifies a
    ensures a[at..at + |s|] == s && a[..at] == old(a[..at]) && a[at + |s|..] == old(a[at + |s|..])
  {
    for i := 0 to |s|
      invariant a[at..at + i] == s[..i] && a[..at] == old(a[..at]) && a[at + i..] == old(a[at + i..])
    {
      ghost var before := a[..];
      assert a[at + i..][1..] == a[at + i + 1..];
      a[at + i] := s[i];
      assert a[..at] == before[..at] && a[at + i + 1..] == before[at + i + 1..];
      assert a[at..at + i + 1] == before[at..at + i] + [s[i]];
      assert s[..i + 1] == s[..i] + [s[i]];
    }
    assert s[..|s|] == s;
  }

  /** A buffer of the chain that a long read builds up. */
  class Temp {
    var Next: Temp?
    const Chars: array<Byte>
    var Tail: nat
    var Space: nat

    constructor (length: nat)
      ensures Next == null && fresh(Chars) && Chars.Length == length && Tail == 0 && Space == length
    {
      Next, Tail, Space := null, 0, length;
      Chars := new Byte[length](_ => 0);
    }
  }

  /** What full buffers hold, one after the other. */
  ghost function Contents(ts: seq<Temp>): seq<Byte>
    reads set t | t in ts :: t.Chars
  {
    if ts == [] then [] else Contents(ts[..|ts| - 1]) + ts[|ts| - 1].Chars[..]
  }

  ghost predicate Chained(ts: seq<Temp>, last: Temp?)
    reads ts
  {
    forall i :: 0 <= i < |ts| ==> ts[i].Next == At(ts, i + 1, last)
  }

  ghost function At(ts: seq<Temp>, i: nat, last: Temp?): Temp? {
    if i < |ts| then ts[i] else last
  }

  /** What an operation takes: with a limit or without. */
  ghost function Takes(s: seq<Byte>, terms: Terms, limited: bool, max: nat): Taken {
    if limited then UpToWithin(s, terms, max) else UpTo(s, terms)
  }

  lemma TakesBehind(a: seq<Byte>, b: seq<Byte>, terms: Terms, limited: bool, max: nat)
    requires NoTerm(a, terms) && (limited ==> |a| <= max)
    ensures var t := Takes(b, terms, limited, if limited then max - |a| else 0);
            Takes(a + b, terms, limited, max) == Taken(a + t.result, t.rest)
  {
    hide UpTo, UpToWithin;
    if limited {
      UpToWithinBehind(a, b, terms, max);
    } else {
      UpToBehind(a, b, terms);
    }
  }

  /** The part of a chunk that is looked at. */
  ghost function Window(n: nat, limited: bool, max: nat): (w: nat)
    ensures w <= n
  {
    if limited && max < n then max else n
  }

  /** What is taken when there is a terminator in a chunk. */
  lemma TakesFound(chunk: seq<Byte>, rest: seq<Byte>, terms: Terms, limited: bool, max: nat)
    requires FirstTerm(chunk[..Window(|chunk|, limited, max)], terms) < Window(|chunk|, limited, max)
    ensures var i := FirstTerm(chunk[..Window(|chunk|, limited, max)], terms);
            Takes(chunk + rest, terms, limited, max) == Taken(chunk[..i], chunk[i + 1..] + rest)
  {
    var w := Window(|chunk|, limited, max);
    var i, s := FirstTerm(chunk[..w], terms), chunk + rest;
    assert s[..i] == chunk[..i] && s[i + 1..] == chunk[i + 1..] + rest;
    if limited {
      var n := if max < |s| then max else |s|;
      FirstInside(chunk[..w], s[w..n], terms);
      assert s[..n] == chunk[..w] + s[w..n];
    } else {
      FirstInside(chunk[..w], s[w..], terms);
      assert s == chunk[..w] + s[w..];
    }
  }

  /** What is taken when there is none. */
  lemma TakesNone(chunk: seq<Byte>, rest: seq<Byte>, terms: Terms, limited: bool, max: nat)
    requires FirstTerm(chunk[..Window(|chunk|, limited, max)], terms) == Window(|chunk|, limited, max)
    ensures limited && max < |chunk| ==>
            Takes(chunk + rest, terms, limited, max) == Taken(chunk[..max], chunk[max..] + rest)
    ensures !(limited && max < |chunk|) ==> NoTerm(chunk, terms)
  {
    var w := Window(|chunk|, limited, max);
    FirstTermIs(chunk[..w], terms);
    assert chunk[..w][..w] == chunk[..w];
    var s := chunk + rest;
    if limited && max < |chunk| {
      assert s[..max] == chunk[..max] && s[max..] == chunk[max..] + rest;
    } else {
      assert chunk[..w] == chunk;
    }
  }

  /** A first terminator stays the first one, whatever follows. */
  lemma {:induction false} FirstInside(a: seq<Byte>, b: seq<Byte>, terms: Terms)
    requires FirstTerm(a, terms) < |a|
    ensures FirstTerm(a + b, terms) == FirstTerm(a, terms)
  {
    if a[0] !in terms {
      assert (a + b)[1..] == a[1..] + b;
      FirstInside(a[1..], b, terms);
    }
  }

  lemma TakesEnd(terms: Terms, limited: bool, max: nat)
    ensures Takes([], terms, limited, max) == Taken([], [])
  {
  }

  // ----- the reader -----

  /** Which bytes are terminators: a table of 256 flags. */
  ghost predicate Marks(isTerm: array<bool>, terms: Terms)
    reads isTerm
  {
    isTerm.Length == 256 && forall b: Byte :: isTerm[b] <==> b in terms
  }

  /** Marks the terminators.  The source indexes its table by plain char, which
      is signed there, so a terminator has to be below 128. */
  method MarkTerms(terms: Terms) returns (isTerm: array<bool>)
    requires forall i :: 0 <= i < |terms| ==> terms[i] < 128
    ensures fresh(isTerm) && Marks(isTerm, terms)
  {
    isTerm := new bool[256](_ => false);
    for i := 0 to |terms|
      invariant forall b: Byte :: isTerm[b] <==> b in terms[..i]
    {
      isTerm[terms[i]] := true;
      assert terms[..i + 1] == terms[..i] + [terms[i]];
    }
    assert terms[..|terms|] == terms;
  }

  /** Looks for a terminator from `from` up to `to`. */
  method Scan(a: array<Byte>, from: nat, to: nat, isTerm: array<bool>, ghost terms: Terms) returns (p: nat)
    requires from <= to <= a.Length && Marks(isTerm, terms)
    ensures from <= p <= to && p - from == FirstTerm(a[from..to], terms)
  {
    p := from;
    assert a[p..to] == a[from..to];
    while p < to
      invariant from <= p <= to && p - from + FirstTerm(a[p..to], terms) == FirstTerm(a[from..to], terms)
    {
      if isTerm[a[p]] {
        return;
      }
      assert a[p..to][1..] == a[p + 1..to];
      p := p + 1;
    }
  }

  /** Where the bytes `from` to `from + n` of a buffer are to be cut, if at all:
        before the first terminator within the limit, or at the limit. */
  method Cut(a: array<Byte>, from: nat, n: nat, isTerm: array<bool>, ghost terms: Terms, limited: bool, max: nat,
      ghost rest: seq<Byte>)
    returns (done: bool, upTo: nat, head: nat)
    requires from + n <= a.Length && Marks(isTerm, terms)
    ensures done ==>
              && from <= upTo <= head <= from + n
              && Takes(a[from..from + n] + rest, terms, limited, max) == Taken(a[from..upTo], a[head..from + n] + rest)
    ensures !done ==> NoTerm(a[from..from + n], terms) && (limited ==> n <= max)
  {
    hide *;
    var w := if limited && n > max then max else n;
    WindowIs(n, limited, max);
    var p := Scan(a, from, from + w, isTerm, terms);
    Inner(a, from, from + w, from + n);
    if p < from + w {
      CutFound(a, from, n, w, p, terms, limited, max, rest);
      done, upTo, head := true, p, p + 1;
    } else if limited && n > max {
      TakesNone(a[from..from + n], rest, terms, limited, max);
      done, upTo, head := true, from + max, from + max;
    } else {
      TakesNone(a[from..from + n], rest, terms, limited, max);
      done, upTo, head := false, from, from;
    }
  }

  lemma CutFound(a: array<Byte>, from: nat, n: nat, w: nat, p: nat, terms: Terms, limited: bool, max: nat,
      rest: seq<Byte>)
    requires from + n <= a.Length && w == Window(n, limited, max) && from <= p < from + w
    requires p - from == FirstTerm(a[from..from + n][..w], terms)
    ensures Takes(a[from..from + n] + rest, terms, limited, max) == Taken(a[from..p], a[p + 1..from + n] + rest)
  {
    hide *;
    Inner(a, from, p, from + n);
    Inner(a, from, p + 1, from + n);
    TakesFound(a[from..from + n], rest, terms, limited, max);
  }

  /** The bytes of a C string. */
  ghost predicate IsString(a: array<Byte>, s: seq<Byte>)
    reads a
  {
    a[..] == s + [0]
  }

  /** mempcpy onto the end of what is there. */
  method Put(r: array<Byte>, at: nat, s: seq<Byte>, ghost before: seq<Byte>) returns (next: nat)
    requires at + |s| <= r.Length && r[..at] == before
    modifies r
    ensures next == at + |s| <= r.Length && r[..next] == before + s
  {
    Copy(r, at, s);
    next := at + |s|;
    assert r[..next] == r[..at] + r[at..next];
  }

  /** Copies what was in the buffer, the full buffers of the chain and the first
      bytes of the last one into a string. */
  method Assemble(initial: seq<Byte>, first: Temp, last: Temp, upTo: nat, total: nat, ghost full: seq<Temp>)
    returns (r: array<Byte>)
    requires Chained(full, last) && first == At(full, 0, last) && last !in full && upTo <= last.Chars.Length
    requires total == |initial| + |Contents(full)| + upTo
    ensures fresh(r) && IsString(r, initial + Contents(full) + last.Chars[..upTo])
  {
    hide *;
    assert allocated(set t | t in full :: t.Chars);
    r := new Byte[total + 1](_ => 0);
    var at := Put(r, 0, initial, []);
    var buffer: Temp? := first;
    ghost var i := 0;
    Front(full, initial);
    while buffer != last
      invariant 0 <= i <= |full| && buffer == At(full, i, last) && fresh(r) && r.Length == total + 1
      invariant at == |initial| + |Contents(full[..i])| <= r.Length && r[..at] == initial + Contents(full[..i])
      invariant Chained(full, last) && total == |initial| + |Contents(full)| + upTo
      decreases |full| - i
    {
      NotLast(full, i, last);
      ContentsStep(full, i);
      ghost var before := Contents(full[..i]);
      at := Put(r, at, buffer.Chars[..], initial + before);
      Join3(initial, before, buffer.Chars[..]);
      buffer := buffer.Next;
      i := i + 1;
    }
    AtLast(full, i, last);
    at := Put(r, at, last.Chars[..upTo], initial + Contents(full));
    r[at] := 0;
    Finished(r, initial + Contents(full) + last.Chars[..upTo]);
  }

  lemma Front(full: seq<Temp>, initial: seq<Byte>)
    ensures Contents(full[..0]) == [] && initial == initial + Contents(full[..0]) == [] + initial
  {
  }

  lemma NotLast(full: seq<Temp>, i: nat, last: Temp)
    requires Chained(full, last) && i <= |full| && At(full, i, last) != last
    ensures i < |full| && At(full, i, last) == full[i] && full[i].Next == At(full, i + 1, last)
  {
  }

  lemma Join3(a: seq<Byte>, b: seq<Byte>, c: seq<Byte>)
    ensures a + b + c == a + (b + c)
  {
  }

  lemma Finished(r: array<Byte>, s: seq<Byte>)
    requires r.Length == |s| + 1 && r[..|s|] == s && r[|s|] == 0
    ensures IsString(r, s)
  {
    assert r[..] == r[..|s|] + [r[|s|]];
  }

  lemma ContentsStep(full: seq<Temp>, i: nat)
    requires i < |full|
    ensures Contents(full[..i + 1]) == Contents(full[..i]) + full[i].Chars[..]
    ensures |Contents(full[..i])| + full[i].Chars.Length <= |Contents(full)|
    decreases |full| - i
  {
    assert full[..i + 1][..i] == full[..i];
    if i + 1 < |full| {
      ContentsStep(full, i + 1);
    } else {
      assert full[..i + 1] == full;
    }
  }

  lemma AtLast(full: seq<Temp>, i: nat, last: Temp)
    requires last !in full && i <= |full| && At(full, i, last) == last
    ensures i == |full| && full[..i] == full
  {
  }

  /** The buffers of a long read: full ones, and the one being filled. */
  ghost predicate Chain(full: seq<Temp>, last: Temp, first: Temp, length: nat)
    reads full, last
  {
    && Chained(full, last) && first == At(full, 0, last) && last !in full
    && last.Tail + last.Space == last.Chars.Length == length
    && (forall t :: t in full ==> t.Chars != last.Chars)
  }

  ghost function Seen(full: seq<Temp>, last: Temp): seq<Byte>
    requires last.Tail <= last.Chars.Length
    reads last`Tail, last.Chars, set t | t in full :: t.Chars
  {
    Contents(full) + last.Chars[..last.Tail]
  }

  class Stream {
    const base: Base
    var Chars: array<Byte>
    var Head: nat
    var Tail: nat
    var Length: nat

    ghost predicate Valid()
      reads this
    {
      Head <= Tail <= Chars.Length == Length && Length > 0
    }

    /** Every byte that is still to be delivered. */
    ghost function Pending(): seq<Byte>
      requires Valid()
      reads this, Chars, base
    {
      Chars[Head..Tail] + base.Rest
    }

    constructor (base: Base, length: nat)
      requires length > 0
      ensures Valid() && this.base == base && Pending() == base.Rest && fresh(Chars)
    {
      this.base := base;
      Chars := new Byte[length](_ => 0);
      Head, Tail, Length := 0, 0, length;
    }

    /** What the reading operations have in common: bytes up to a terminator or
        the limit, first from the buffer, then from the base stream. */
    method Gather(isTerm: array<bool>, ghost terms: Terms, limited: bool, max: nat) returns (r: array<Byte>)
      requires Valid() && Marks(isTerm, terms)
      modifies this, base
      ensures Valid() && fresh(r)
      ensures var t := Takes(old(Pending()), terms, limited, max); IsString(r, t.result) && Pending() == t.rest
      ensures Chars == old(Chars) || fresh(Chars)
    {
      hide *;
      ValidParts();
      var found;
      found, r := FromBuffer(isTerm, terms, limited, max);
      if !found {
        TakesBehind(Chars[Head..Tail], base.Rest, terms, limited, max);
        r := GatherMore(isTerm, terms, limited, if limited then max - (Tail - Head) else 0, Tail - Head);
      }
    }

    /** The first part: what the buffer holds may be enough. */
    method FromBuffer(isTerm: array<bool>, ghost terms: Terms, limited: bool, max: nat)
      returns (found: bool, r: array<Byte>)
      requires Valid() && Marks(isTerm, terms)
      modifies `Head
      ensures Valid() && fresh(r)
      ensures found ==>
                var t := Takes(old(Pending()), terms, limited, max);
                IsString(r, t.result) && Pending() == t.rest
      ensures !found ==> Head == old(Head) && NoTerm(Chars[Head..Tail], terms) && (limited ==> Tail - Head <= max)
    {
      hide *;
      ValidParts();
      ghost var a, b := Chars[Head..Tail], base.Rest;
      found, r := false, new Byte[0];
      NoneYet(a, terms);
      if Tail - Head > 0 {
        var upTo, head;
        found, upTo, head := Cut(Chars, Head, Tail - Head, isTerm, terms, limited, max, b);
        if found {
          r := NewString(Chars[Head..upTo]);
          Head := head;
          MakeValid();
        }
      }
    }

    /** The second part: reads into a chain of new buffers. */
    method GatherMore(isTerm: array<bool>, ghost terms: Terms, limited: bool, max: nat, total0: nat)
      returns (r: array<Byte>)
      requires Valid() && Marks(isTerm, terms) && total0 == Tail - Head && (!limited ==> max == 0)
      modifies this, base
      ensures Valid() && fresh(r)
      ensures var t := Takes(old(base.Rest), terms, limited, max);
              IsString(r, old(Chars[Head..Tail]) + t.result) && Pending() == t.rest
      ensures fresh(Chars)
    {
      hide *;
      ValidParts();
      ghost var b := base.Rest;
      var initial := Chars[Head..Tail];
      var total, remaining := total0, max;
      var first := new Temp(Length);
      var last := first;
      ghost var full: seq<Temp> := [];
      ChainStart(first, Length, terms);
      while true
        invariant Chain(full, last, first, Length) && Length > 0 && last.Tail <= last.Chars.Length
                  && last.Tail + last.Space == last.Chars.Length
        invariant fresh(last) && fresh(last.Chars) && (forall t :: t in full ==> fresh(t) && fresh(t.Chars))
        invariant Length == old(Length) && Marks(isTerm, terms) && total >= 0 && remaining >= 0
        invariant b == Seen(full, last) + base.Rest && NoTerm(Seen(full, last), terms)
                  && total == |initial| + |Seen(full, last)|
        invariant if limited then remaining + |Seen(full, last)| == max else remaining == 0
        decreases |base.Rest|, if last.Space == 0 then 1 else 0
      {
        if last.Space > 0 {
          ghost var seen, rest := Seen(full, last), base.Rest;
          TakesBehind(seen, rest, terms, limited, max);
          var done, n;
          done, r, n := Fill(isTerm, terms, limited, remaining, total, initial, first, last, full);
          if done {
            return;
          }
          if limited {
            remaining := remaining - n;
          }
          total := total + n;
          Advanced(seen, rest[..n], base.Rest, rest, terms);
        } else {
          ChainApart(full, last, first, Length);
          var buffer := new Temp(Length);
          last.Next := buffer;
          ChainGrows(full, last, first, Length, buffer);
          full, last := full + [last], buffer;
        }
      }
    }

    /** One read into the last buffer of the chain. */
    method Fill(isTerm: array<bool>, ghost terms: Terms, limited: bool, remaining: nat, total: nat, initial: seq<Byte>,
                first: Temp, last: Temp, ghost full: seq<Temp>)
      returns (done: bool, r: array<Byte>, n: nat)
      requires Chain(full, last, first, Length) && last.Space > 0 && Marks(isTerm, terms)
      requires last.Tail + last.Space == last.Chars.Length && total == |initial| + |Seen(full, last)|
               && (!limited ==> remaining == 0)
      requires Length > 0 && isTerm as object != last.Chars
      modifies this, base, last`Tail, last`Space, last.Chars
      ensures fresh(r)
      ensures done ==>
                var t := Takes(old(base.Rest), terms, limited, remaining);
                && IsString(r, initial + (old(Seen(full, last)) + t.result)) && Valid() && Pending() == t.rest
                    && Chars == last.Chars
      ensures !done ==>
                && Chain(full, last, first, Length) && 0 < n <= |old(base.Rest)| && (limited ==> n <= remaining)
                && last.Tail + last.Space == last.Chars.Length && Length == old(Length)
                && Seen(full, last) == old(Seen(full, last)) + old(base.Rest)[..n] && base.Rest == old(base.Rest)[n..]
                && NoTerm(old(base.Rest)[..n], terms)
    {
      hide *;
      r := new Byte[0];
      ghost var seen, rest, at := Seen(full, last), base.Rest, last.Tail;
      ChainApart(full, last, first, Length);
      assert allocated(set t | t in full :: t.Chars);
      n := base.Read(last.Chars, last.Tail, last.Space);
      SeenStill(full, last, seen, at);
      ChainAgain(full, last, first, Length);
      if n == 0 {
        TakesEnd(terms, limited, remaining);
        r := Deliver(initial, first, last, last.Tail, total, 0, 0, full);
        NothingMore(initial, Contents(full), last.Chars[..at], base.Rest, last.Chars);
        done := true;
      } else {
        ChunkParts(rest, n);
        done, r := Serve(isTerm, terms, limited, remaining, total, initial, first, last, n, full, rest[..n], seen);
      }
    }

    /** Looks through the bytes that have just come in. */
    method Serve(isTerm: array<bool>, ghost terms: Terms, limited: bool, remaining: nat, total: nat, initial: seq<Byte>,
                 first: Temp, last: Temp, n: nat, ghost full: seq<Temp>, ghost chunk: seq<Byte>, ghost seen: seq<Byte>)
      returns (done: bool, r: array<Byte>)
      requires Chain(full, last, first, Length) && Marks(isTerm, terms) && n <= last.Space && Length > 0
      requires last.Tail + n <= last.Chars.Length && last.Chars[last.Tail..last.Tail + n] == chunk && |chunk| == n
      requires seen == Contents(full) + last.Chars[..last.Tail] && total == |initial| + |seen|
               && (!limited ==> remaining == 0)
      modifies this, last`Tail, last`Space
      ensures fresh(r)
      ensures done ==>
                var t := Takes(chunk + base.Rest, terms, limited, remaining);
                && IsString(r, initial + (seen + t.result)) && Valid() && Pending() == t.rest && Chars == last.Chars
      ensures !done ==>
                && Chain(full, last, first, Length) && last.Tail + last.Space == last.Chars.Length
                    && Length == old(Length)
                && Seen(full, last) == seen + chunk && NoTerm(chunk, terms) && (limited ==> n <= remaining)
    {
      hide *;
      r := new Byte[0];
      ghost var at := last.Tail;
      ChainApart(full, last, first, Length);
      last.Space := last.Space - n;
      var upTo, head;
      done, upTo, head := Cut(last.Chars, last.Tail, n, isTerm, terms, limited, remaining, base.Rest);
      if done {
        r := Deliver(initial, first, last, upTo, total + (upTo - last.Tail), head, last.Tail + n, full);
        Delivered(full, last, at, upTo, initial, seen);
      } else {
        last.Tail := last.Tail + n;
        SeenMore(full, last, at, chunk, seen);
        ChainAgain(full, last, first, Length);
      }
    }

    // ----- the operations -----

    /** chars_rest */
    method Rest() returns (r: array<Byte>)
      requires Valid()
      modifies this, base
      ensures Valid() && fresh(r) && IsString(r, old(Pending())) && Pending() == []
      ensures Chars == old(Chars) || fresh(Chars)
    {
      var isTerm := MarkTerms([]);
      NoTermsTake(Pending(), 0);
      r := Gather(isTerm, [], false, 0);
    }

    /** buffered_reads */
    method Reads(max: nat) returns (r: array<Byte>)
      requires Valid()
      modifies this, base
      ensures Valid() && fresh(r)
      ensures var t := Outcome(old(Pending()), OpReads(max)); IsString(r, t.result) && Pending() == t.rest
      ensures Chars == old(Chars) || fresh(Chars)
    {
      if max == 0 {
        r := Rest();
        return;
      }
      var isTerm := MarkTerms([]);
      NoTermsTake(Pending(), max);
      r := Gather(isTerm, [], true, max);
    }

    /** charsx_nolimit */
    method CharsxNoLimit(terms: Terms) returns (r: array<Byte>)
      requires Valid() && forall i :: 0 <= i < |terms| ==> terms[i] < 128
      modifies this, base
      ensures Valid() && fresh(r)
      ensures var t := UpTo(old(Pending()), terms); IsString(r, t.result) && Pending() == t.rest
      ensures Chars == old(Chars) || fresh(Chars)
    {
      var isTerm := MarkTerms(terms);
      r := Gather(isTerm, terms, false, 0);
    }

    /** readx */
    method Readx(max: nat, terms: Terms) returns (r: array<Byte>)
      requires Valid() && forall i :: 0 <= i < |terms| ==> terms[i] < 128
      modifies this, base
      ensures Valid() && fresh(r)
      ensures var t := Outcome(old(Pending()), OpReadx(max, terms)); IsString(r, t.result) && Pending() == t.rest
      ensures Chars == old(Chars) || fresh(Chars)
    {
      if max == 0 {
        r := CharsxNoLimit(terms);
        return;
      }
      if |terms| == 0 {
        NoTermsTake(Pending(), max);
        r := Reads(max);
        return;
      }
      var isTerm := MarkTerms(terms);
      r := Gather(isTerm, terms, true, max);
    }

    /** readl */
    method Readl() returns (r: array<Byte>)
      requires Valid()
      modifies this, base
      ensures Valid() && fresh(r)
      ensures var t := Outcome(old(Pending()), OpReadl); IsString(r, t.result) && Pending() == t.rest
      ensures Chars == old(Chars) || fresh(Chars)
    {
      var isTerm := MarkTerms([NEWLINE]);
      r := Gather(isTerm, [NEWLINE], false, 0);
    }

    /** buffered_read */
    method Read(buffer: array<Byte>, count: nat) returns (total: nat)
      requires Valid() && count <= buffer.Length && buffer != Chars
      modifies `Head, `Tail, base, buffer
      ensures Valid() && total <= count
      ensures var t := Outcome(old(Pending()), OpRead(count)); buffer[..total] == t.result && Pending() == t.rest
    {
      hide *;
      ValidParts();
      total := Tail - Head;
      if total >= count {
        ReadHeld(Chars, Head, Head + count, Tail, base.Rest);
        Copy(buffer, 0, Chars[Head..Head + count]);
        Head := Head + count;
        MakeValid();
        return count;
      }
      ghost var held, rest := Chars[Head..Tail], base.Rest;
      Copy(buffer, 0, Chars[Head..Tail]);
      Head, Tail := 0, 0;
      MakeValid();
      total := ReadMore(buffer, total, count);
      ReadBoth(held, rest, count);
    }

    /** The loop of buffered_read, once the buffer is empty. */
    method ReadMore(buffer: array<Byte>, total0: nat, count: nat) returns (total: nat)
      requires Valid() && Head == Tail == 0 && total0 < count <= buffer.Length && buffer != Chars
      modifies base, buffer
      ensures Valid() && total0 <= total <= count
      ensures var t := ReadTakes(old(base.Rest), count - total0);
              buffer[..total] == old(buffer[..total0]) + t.result && Pending() == t.rest
    {
      ghost var s, start := base.Rest, buffer[..total0];
      total := total0;
      while total < count
        invariant total0 <= total <= count && Valid() && Head == Tail == 0
        invariant total - total0 <= |s| && base.Rest == s[total - total0..]
                  && buffer[..total] == start + s[..total - total0]
        decreases count - total
      {
        ghost var before, k := buffer[..total], total - total0;
        var bytes := base.Read(buffer, total, count - total);
        if bytes == 0 {
          break;
        }
        assert buffer[..total + bytes] == before + buffer[total..total + bytes];
        assert s[k..][..bytes] == s[k..k + bytes];
        assert s[..k + bytes] == s[..k] + s[k..k + bytes];
        total := total + bytes;
      }
    }

    /** Any operations, one after the other. */
    method Perform(ops: seq<Op>) returns (results: seq<seq<Byte>>)
      requires Valid()
      requires forall i :: 0 <= i < |ops| && ops[i].OpReadx? ==>
                 forall k :: 0 <= k < |ops[i].terms| ==> ops[i].terms[k] < 128
      modifies this, base
      ensures Valid() && results == Results(old(Pending()), ops)
    {
      hide *;
      results := [];
      ResultsStart(Pending(), ops);
      for i := 0 to |ops|
        invariant Valid() && (Chars == old(Chars) || fresh(Chars))
        invariant Results(old(Pending()), ops) == results + Results(Pending(), ops[i..])
      {
        ghost var s := Pending();
        var r := One(ops[i]);
        ResultsStep(s, ops, i, results);
        results := results + [r];
      }
      ResultsEnd(Pending(), ops, results);
    }

    method One(op: Op) returns (r: seq<Byte>)
      requires Valid() && (op.OpReadx? ==> forall k :: 0 <= k < |op.terms| ==> op.terms[k] < 128)
      modifies this, base
      ensures Valid() && (Chars == old(Chars) || fresh(Chars))
      ensures var t := Outcome(old(Pending()), op); r == t.result && Pending() == t.rest
    {
      match op {
        case OpReadx(max, terms) =>
          var a := Readx(max, terms);
          r := StringOf(a, Outcome(old(Pending()), op).result);
        case OpReadl =>
          var a := Readl();
          r := StringOf(a, Outcome(old(Pending()), op).result);
        case OpReads(max) =>
          var a := Reads(max);
          r := StringOf(a, Outcome(old(Pending()), op).result);
        case OpRead(count) =>
          var buffer := new Byte[count](_ => 0);
          var n := Read(buffer, count);
          r := buffer[..n];
      }
    }

    /** The end of a long read: the string is put together, and the last buffer
        becomes the buffer of the stream. */
    method Deliver(initial: seq<Byte>, first: Temp, last: Temp, upTo: nat, total: nat, head: nat, tail: nat,
        ghost full: seq<Temp>)
      returns (r: array<Byte>)
      requires Chained(full, last) && first == At(full, 0, last) && last !in full && upTo <= last.Chars.Length
      requires total == |initial| + |Contents(full)| + upTo && head <= tail <= last.Chars.Length == Length && Length > 0
      modifies this
      ensures fresh(r) && IsString(r, initial + Contents(full) + last.Chars[..upTo])
      ensures Valid() && Chars == last.Chars && Length == last.Chars.Length
              && Pending() == last.Chars[head..tail] + base.Rest
    {
      r := Assemble(initial, first, last, upTo, total, full);
      Chars := last.Chars;
      Head, Tail, Length := head, tail, last.Chars.Length;
    }

    lemma ValidParts()
      requires Valid()
      ensures Head <= Tail <= Chars.Length == Length && Length > 0 && Pending() == Chars[Head..Tail] + base.Rest
    {
    }

    lemma MakeValid()
      requires Head <= Tail <= Chars.Length == Length && Length > 0
      ensures Valid() && Pending() == Chars[Head..Tail] + base.Rest
    {
    }
  }

  lemma WindowIs(n: nat, limited: bool, max: nat)
    ensures Window(n, limited, max) == if limited && n > max then max else n
  {
  }

  lemma NoneYet(a: seq<Byte>, terms: Terms)
    ensures |a| == 0 ==> NoTerm(a, terms)
  {
  }

  lemma ChainStart(t: Temp, length: nat, terms: Terms)
    requires t.Next == null && t.Tail == 0 && t.Space == t.Chars.Length == length
    ensures Chain([], t, t, length) && Seen([], t) == [] && NoTerm([], terms)
    ensures forall b: seq<Byte> {:trigger [] + b} :: [] + b == b
  {
  }

  lemma ChainApart(full: seq<Temp>, last: Temp, first: Temp, length: nat)
    requires Chain(full, last, first, length)
    ensures forall t :: t in full ==> t.Chars != last.Chars && t != last
    ensures Chained(full, last) && first == At(full, 0, last) && last !in full
            && last.Tail + last.Space == last.Chars.Length == length
    ensures Seen(full, last) == Contents(full) + last.Chars[..last.Tail]
  {
  }

  lemma SeenStill(full: seq<Temp>, last: Temp, seen: seq<Byte>, at: nat)
    requires at == last.Tail <= last.Chars.Length && seen == Contents(full) + last.Chars[..at]
    ensures Seen(full, last) == seen
  {
  }

  lemma NothingMore(initial: seq<Byte>, c: seq<Byte>, x: seq<Byte>, rest: seq<Byte>, chars: array<Byte>)
    requires rest == []
    ensures chars[0..0] + rest == [] && initial + c + x == initial + (c + x + [])
  {
    Join3(initial, c, x);
    assert c + x + [] == c + x;
  }

  /** A stretch of a buffer, and the pieces of it. */
  lemma Inner(a: array<Byte>, from: nat, i: nat, to: nat)
    requires from <= i <= to <= a.Length
    ensures a[from..i] == a[from..to][..i - from] && a[i..to] == a[from..to][i - from..]
  {
  }

  lemma ChunkParts(rest: seq<Byte>, n: nat)
    requires n <= |rest|
    ensures rest == rest[..n] + rest[n..] && |rest[..n]| == n
  {
  }

  lemma Delivered(full: seq<Temp>, last: Temp, at: nat, upTo: nat, initial: seq<Byte>, seen: seq<Byte>)
    requires at <= upTo <= last.Chars.Length && seen == Contents(full) + last.Chars[..at]
    ensures initial + Contents(full) + last.Chars[..upTo] == initial + (seen + last.Chars[at..upTo])
  {
    assert last.Chars[..upTo] == last.Chars[..at] + last.Chars[at..upTo];
    hide *;
    var c, x, y := Contents(full), last.Chars[..at], last.Chars[at..upTo];
    Join3(initial, c, x + y);
    Join3(c, x, y);
  }

  lemma SeenMore(full: seq<Temp>, last: Temp, at: nat, chunk: seq<Byte>, seen: seq<Byte>)
    requires last.Tail == at + |chunk| <= last.Chars.Length && last.Chars[at..at + |chunk|] == chunk
    requires seen == Contents(full) + last.Chars[..at]
    ensures Seen(full, last) == seen + chunk
  {
    assert last.Chars[..last.Tail] == last.Chars[..at] + chunk;
    Join3(Contents(full), last.Chars[..at], chunk);
  }

  lemma Advanced(seen: seq<Byte>, chunk: seq<Byte>, now: seq<Byte>, rest: seq<Byte>, terms: Terms)
    requires |chunk| <= |rest| && chunk == rest[..|chunk|] && now == rest[|chunk|..] && NoTerm(seen, terms)
             && NoTerm(chunk, terms)
    ensures seen + rest == seen + chunk + now && NoTerm(seen + chunk, terms)
  {
    assert rest == chunk + now;
    Join3(seen, chunk, now);
  }

  lemma ChainAgain(full: seq<Temp>, last: Temp, first: Temp, length: nat)
    requires Chained(full, last) && first == At(full, 0, last) && last !in full
             && last.Tail + last.Space == last.Chars.Length == length
    requires forall t :: t in full ==> t.Chars != last.Chars
    ensures Chain(full, last, first, length)
  {
  }

  lemma ChainGrows(full: seq<Temp>, last: Temp, first: Temp, length: nat, buffer: Temp)
    requires Chained(full, last) && first == At(full, 0, last) && last !in full && last.Tail == last.Chars.Length
    requires last.Next == buffer && buffer.Tail == 0 && buffer.Space == buffer.Chars.Length == length
    requires buffer !in full && buffer != last && buffer.Chars != last.Chars && forall t :: t in full ==>
             t.Chars != buffer.Chars
    ensures Chain(full + [last], buffer, first, length) && Seen(full + [last], buffer) == Seen(full, last)
  {
    var more := full + [last];
    assert more[..|more| - 1] == full;
    assert last.Chars[..last.Tail] == last.Chars[..];
    forall i | 0 <= i < |more| ensures more[i].Next == At(more, i + 1, buffer) {
      if i < |full| {
        assert full[i].Next == At(full, i + 1, last);
      }
    }
  }

  /** A string made of some bytes. */
  method NewString(s: seq<Byte>) returns (r: array<Byte>)
    ensures fresh(r) && IsString(r, s)
  {
    r := new Byte[|s| + 1](_ => 0);
    Copy(r, 0, s);
    r[|s|] := 0;
    assert r[..] == r[..|s|] + [r[|s|]];
  }

  lemma ReadHeld(a: array<Byte>, from: nat, mid: nat, to: nat, rest: seq<Byte>)
    requires from <= mid <= to <= a.Length
    ensures Outcome(a[from..to] + rest, OpRead(mid - from)) == Taken(a[from..mid], a[mid..to] + rest)
  {
  }

  lemma ReadBoth(held: seq<Byte>, rest: seq<Byte>, count: nat)
    requires |held| < count
    ensures var t := ReadTakes(rest, count - |held|);
            Outcome(held + rest, OpRead(count)) == Taken(held + t.result, t.rest)
  {
  }

  method StringOf(a: array<Byte>, ghost s: seq<Byte>) returns (r: seq<Byte>)
    requires IsString(a, s)
    ensures r == s
  {
    r := a[..a.Length - 1];
  }
}
