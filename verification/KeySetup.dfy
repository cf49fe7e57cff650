/** BF_set_key of dev/src/lib/Alg/crypt_blowfish.c: the key repeated over 18
    words, the sign extension bug it can imitate, and the branch-free safety
    measure against collisions with the bug. */
module KeySetup {
  import opened Feistel
  import opened Words

  /** A char of the key. */
  datatype Octet = Octet(bits: bv8)

  /** A C string of key bytes. */
  predicate Key(key: seq<Octet>) {
    forall i :: 0 <= i < |key| ==> key[i] != Octet(0)
  }

  /** The key with its NUL, read over and over. */
  function Cyclic(key: seq<Octet>, m: nat): bv8 {
    var k := m % (|key| + 1);
    if k < |key| then key[k].bits else 0
  }

  // ----- words -----

  /** One byte more at the low end. */
  function Push(w: bv32, b: bv8): bv32 {
    (w << 8) | (b as bv32)
  }

  /** The same with the byte taken for a signed char: the bug. */
  function PushSigned(w: bv32, b: bv8): bv32 {
    (w << 8) | (if b & 0x80 != 0 then 0xFFFFFF00 | (b as bv32) else b as bv32)
  }

  function Pushed(a: bv8, b: bv8, c: bv8, d: bv8): bv32 {
    Push(Push(Push(Push(0, a), b), c), d)
  }

  function PushedSigned(a: bv8, b: bv8, c: bv8, d: bv8): bv32 {
    PushSigned(PushSigned(PushSigned(PushSigned(0, a), b), c), d)
  }

  /** Byte `j` of a word, the highest first. */
  function ByteOf(w: bv32, j: nat): bv8
    requires j < 4
  {
    if j == 0 then (w >> 24) as bv8
    else if j == 1 then ((w >> 16) & 0xFF) as bv8
    else if j == 2 then ((w >> 8) & 0xFF) as bv8
    else (w & 0xFF) as bv8
  }

  lemma BytesOfPushed(a: bv8, b: bv8, c: bv8, d: bv8)
    ensures var w := Pushed(a, b, c, d);
            ByteOf(w, 0) == a && ByteOf(w, 1) == b && ByteOf(w, 2) == c && ByteOf(w, 3) == d
  {
  }

  /** All ones for a byte whose sign extends. */
  function Fill(b: bv8): bv8 {
    if b & 0x80 != 0 then 0xFF else 0
  }

  lemma BytesOfPush(w: bv32, b: bv8)
    ensures var v := PushSigned(w, b);
            && ByteOf(v, 0) == ByteOf(w, 1) | Fill(b)
            && ByteOf(v, 1) == ByteOf(w, 2) | Fill(b)
            && ByteOf(v, 2) == ByteOf(w, 3) | Fill(b)
            && ByteOf(v, 3) == b
  {
  }

  lemma BytesOfSigned(a: bv8, b: bv8, c: bv8, d: bv8)
    ensures var w := PushedSigned(a, b, c, d);
            && ByteOf(w, 0) == a | Fill(b) | Fill(c) | Fill(d)
            && ByteOf(w, 1) == b | Fill(c) | Fill(d)
            && ByteOf(w, 2) == c | Fill(d)
            && ByteOf(w, 3) == d
  {
    hide *;
    var v0 := PushSigned(0, a);
    var v1 := PushSigned(v0, b);
    var v2 := PushSigned(v1, c);
    var v3 := PushSigned(v2, d);
    BytesOfPush(0, a);
    BytesOfPush(v0, b);
    BytesOfPush(v1, c);
    BytesOfPush(v2, d);
    SignedIs(a, b, c, d);
  }

  lemma SignedIs(a: bv8, b: bv8, c: bv8, d: bv8)
    ensures PushedSigned(a, b, c, d) == PushSigned(PushSigned(PushSigned(PushSigned(0, a), b), c), d)
  {
    hide PushSigned;
  }

  lemma SameBytes(v: bv32, w: bv32)
    ensures v == w <==> ByteOf(v, 0) == ByteOf(w, 0) && ByteOf(v, 1) == ByteOf(w, 1) &&
                        ByteOf(v, 2) == ByteOf(w, 2) && ByteOf(v, 3) == ByteOf(w, 3)
  {
  }

  lemma FillMeans(a: bv8, b: bv8)
    ensures a | Fill(b) == a <==> (b & 0x80 != 0 ==> a == 0xFF)
  {
  }

  lemma FillTwice(a: bv8, b: bv8, c: bv8)
    ensures a | Fill(b) | Fill(c) == a <==> a | Fill(b) == a && a | Fill(c) == a
  {
  }

  lemma FillThrice(a: bv8, b: bv8, c: bv8, d: bv8)
    ensures a | Fill(b) | Fill(c) | Fill(d) == a <==> a | Fill(b) == a && a | Fill(c) == a && a | Fill(d) == a
  {
  }

  /** The bug changes a word unless every byte before a sign-extended one is 0xFF
      already. */
  lemma SameWord(a: bv8, b: bv8, c: bv8, d: bv8)
    ensures Pushed(a, b, c, d) == PushedSigned(a, b, c, d) <==>
            && (b & 0x80 != 0 ==> a == 0xFF)
            && (c & 0x80 != 0 ==> a == 0xFF && b == 0xFF)
            && (d & 0x80 != 0 ==> a == 0xFF && b == 0xFF && c == 0xFF)
  {
    hide *;
    BytesOfPushed(a, b, c, d);
    BytesOfSigned(a, b, c, d);
    SameBytes(Pushed(a, b, c, d), PushedSigned(a, b, c, d));
    FillThrice(a, b, c, d);
    FillTwice(b, c, d);
    FillMeans(a, b);
    FillMeans(a, c);
    FillMeans(a, d);
    FillMeans(b, c);
    FillMeans(b, d);
    FillMeans(c, d);
  }

  lemma SignOf(w: bv32, b: bv8)
    ensures PushSigned(w, b) & 0x80 == (if b & 0x80 != 0 then 0x80 else 0)
  {
  }

  lemma SignBits(a: bv32)
    requires a == 0 || a == 0x80
    ensures a | 0 == a && a | 0x80 == 0x80
  {
  }

  /** The branch-free end: bit 16 of the result says whether there was no
      difference, a sign, and the wish for safety. */
  function Tail(diff: bv32, sign: bv32, safety: bv32): bv32 {
    var folded := (diff | (diff >> 16)) & 0xFFFF;
    (sign << 9) & (!(folded + 0xFFFF) & safety)
  }

  lemma TailMeans(diff: bv32, sign: bv32, safety: bv32)
    requires (sign == 0 || sign == 0x80) && (safety == 0 || safety == 0x10000)
    ensures Tail(diff, sign, safety) == if diff == 0 && sign == 0x80 && safety == 0x10000 then 0x10000 else 0
  {
  }

  /** Flag bit 0 asks for the bug, bit 1 for the safety measure. */
  predicate Imitates(flags: bv8) {
    flags & 1 != 0
  }

  predicate Safe(flags: bv8) {
    flags & 2 != 0
  }

  /** The safety flag moved to bit 16. */
  function Safety(flags: bv8): bv32 {
    ((flags as bv32) & 2) << 15
  }

  lemma SafetyIs(flags: bv8)
    ensures Safety(flags) == if Safe(flags) then 0x10000 else 0
  {
  }

  function Or(a: bv32, b: bv32): bv32 { a | b }

  function Diff(a: bv32, b: bv32): bv32 { a ^ b }

  lemma OrIs(a: bv32, b: bv32)
    ensures Or(a, b) == 0 <==> a == 0 && b == 0
  {
  }

  lemma DiffIs(a: bv32, b: bv32)
    ensures Diff(a, b) == 0 <==> a == b
  {
  }

  // ----- the loop -----

  ghost function Acc(key: seq<Octet>, i: nat, j: nat): bv32 {
    if j == 0 then 0 else Push(Acc(key, i, j - 1), Cyclic(key, 4 * i + j - 1))
  }

  ghost function AccSigned(key: seq<Octet>, i: nat, j: nat): bv32 {
    if j == 0 then 0 else PushSigned(AccSigned(key, i, j - 1), Cyclic(key, 4 * i + j - 1))
  }

  /** Word `i` of the right expansion, and of the buggy one. */
  ghost function Correct(key: seq<Octet>, i: nat): bv32 {
    Acc(key, i, 4)
  }

  ghost function Buggy(key: seq<Octet>, i: nat): bv32 {
    AccSigned(key, i, 4)
  }

  /** Byte `m` has its top bit set and is not the first of its word. */
  ghost predicate Sharp(key: seq<Octet>, m: nat) {
    m % 4 != 0 && Cyclic(key, m) & 0x80 != 0
  }

  ghost predicate SharpBefore(key: seq<Octet>, n: nat) {
    exists m :: 0 <= m < n && Sharp(key, m)
  }

  ghost predicate AgreeBefore(key: seq<Octet>, n: nat) {
    forall i :: 0 <= i < n ==> Correct(key, i) == Buggy(key, i)
  }

  /** When the safety measure acts. */
  ghost predicate Deviates(key: seq<Octet>, flags: bv8) {
    Safe(flags) && AgreeBefore(key, 18) && SharpBefore(key, 72)
  }

  lemma AccIs(key: seq<Octet>, i: nat, j: nat)
    ensures Acc(key, i, 0) == 0 && AccSigned(key, i, 0) == 0
    ensures Acc(key, i, j + 1) == Push(Acc(key, i, j), Cyclic(key, 4 * i + j))
    ensures AccSigned(key, i, j + 1) == PushSigned(AccSigned(key, i, j), Cyclic(key, 4 * i + j))
  {
    hide Push, PushSigned, Cyclic;
  }

  lemma SharpNext(key: seq<Octet>, n: nat)
    ensures SharpBefore(key, n + 1) <==> SharpBefore(key, n) || Sharp(key, n)
    ensures !SharpBefore(key, 0)
  {
    hide Sharp;
    if SharpBefore(key, n) {
      var m :| 0 <= m < n && Sharp(key, m);
      assert m < n + 1;
    }
  }

  lemma AgreeNext(key: seq<Octet>, n: nat)
    ensures AgreeBefore(key, n + 1) <==> AgreeBefore(key, n) && Correct(key, n) == Buggy(key, n)
    ensures AgreeBefore(key, 0)
  {
    hide Correct, Buggy;
  }

  /** The pointer after byte `m`: back to the key after its NUL. */
  lemma NextByte(len: nat, m: nat)
    ensures (m + 1) % (len + 1) == if m % (len + 1) == len then 0 else m % (len + 1) + 1
  {
    var n, q, k := len + 1, m / (len + 1), m % (len + 1);
    if k == len {
      assert m + 1 == n * q + n == n * (q + 1);
      ModUnique(m + 1, n, q + 1, 0);
    } else {
      ModUnique(m + 1, n, q, k + 1);
    }
  }

  /** The inner loop of BF_set_key. */
  method FoldWord(key: seq<Octet>, ptr0: nat, sign0: bv32, i: nat)
    returns (tmp0: bv32, tmp1: bv32, ptr: nat, sign: bv32)
    requires Key(key) && ptr0 == 4 * i % (|key| + 1)
    requires (sign0 == 0 || sign0 == 0x80) && (sign0 == 0x80 <==> SharpBefore(key, 4 * i))
    ensures tmp0 == Correct(key, i) && tmp1 == Buggy(key, i)
    ensures ptr == (4 * i + 4) % (|key| + 1)
    ensures (sign == 0 || sign == 0x80) && (sign == 0x80 <==> SharpBefore(key, 4 * i + 4))
  {
    CorrectIs(key, i);
    hide *;
    AccIs(key, i, 0);
    tmp0, tmp1, ptr, sign := 0, 0, ptr0, sign0;
    for j := 0 to 4
      invariant tmp0 == Acc(key, i, j) && tmp1 == AccSigned(key, i, j)
      invariant ptr == (4 * i + j) % (|key| + 1)
      invariant (sign == 0 || sign == 0x80) && (sign == 0x80 <==> SharpBefore(key, 4 * i + j))
    {
      PtrIs(key, 4 * i + j);
      AccIs(key, i, j);
      NextByte(|key|, 4 * i + j);
      SharpNext(key, 4 * i + j);
      SharpIs(key, i, j);
      var c := if ptr < |key| then key[ptr].bits else 0;
      SignOf(tmp1, c);
      SignBits(sign);
      tmp0 := Push(tmp0, c);
      tmp1 := PushSigned(tmp1, c);
      if j != 0 {
        sign := sign | (tmp1 & 0x80);
      }
      if c == 0 {
        ptr := 0;
      } else {
        ptr := ptr + 1;
      }
    }
  }

  lemma CorrectIs(key: seq<Octet>, i: nat)
    ensures Correct(key, i) == Acc(key, i, 4) && Buggy(key, i) == AccSigned(key, i, 4)
  {
    hide Acc, AccSigned;
  }

  lemma PtrIs(key: seq<Octet>, m: nat)
    requires Key(key)
    ensures var k := m % (|key| + 1);
            k <= |key| && Cyclic(key, m) == (if k < |key| then key[k].bits else 0)
                && (Cyclic(key, m) == 0 <==> k == |key|)
  {
    var k := m % (|key| + 1);
    if k < |key| {
      assert key[k] != Octet(0);
      assert key[k] == Octet(key[k].bits);
    }
  }

  lemma SharpIs(key: seq<Octet>, i: nat, j: nat)
    requires j < 4
    ensures Sharp(key, 4 * i + j) <==> j != 0 && Cyclic(key, 4 * i + j) & 0x80 != 0
  {
    hide Cyclic;
  }

  /** BF_set_key. `init` is the P array of BF_init_state. */
  method SetKey(key: seq<Octet>, flags: bv8, init: seq<Word>, expanded: array<Word>, initial: array<Word>)
    requires Key(key) && |init| == 18 && expanded.Length == 18 && initial.Length == 18 && expanded != initial
    modifies expanded, initial
    ensures forall i :: 0 <= i < 18 ==> expanded[i] == Expanded(key, flags, i)
    ensures forall i :: 0 < i < 18 ==> initial[i] == Xor(init[i], Expanded(key, flags, i))
    ensures initial[0] == if Deviates(key, flags) then Flipped(Xor(init[0], Expanded(key, flags, 0)))
                          else Xor(init[0], Expanded(key, flags, 0))
  {
    hide *;
    SafetyIs(flags);
    var bug, safety := Imitates(flags), Safety(flags);
    var sign, diff, ptr := 0, 0, 0;
    SharpNext(key, 0);
    AgreeNext(key, 0);
    for i := 0 to 18
      invariant ptr == 4 * i % (|key| + 1)
      invariant (sign == 0 || sign == 0x80) && (sign == 0x80 <==> SharpBefore(key, 4 * i))
      invariant diff == 0 <==> AgreeBefore(key, i)
      invariant forall k :: 0 <= k < i ==> expanded[k] == Expanded(key, flags, k)
      invariant forall k :: 0 <= k < i ==> initial[k] == Xor(init[k], Expanded(key, flags, k))
    {
      var tmp0, tmp1;
      tmp0, tmp1, ptr, sign := FoldWord(key, ptr, sign, i);
      AgreeNext(key, i);
      DiffIs(tmp0, tmp1);
      OrIs(diff, Diff(tmp0, tmp1));
      diff := Or(diff, Diff(tmp0, tmp1));
      ExpandedIs(key, flags, i);
      expanded[i] := Word(if bug then tmp1 else tmp0);
      initial[i] := Xor(init[i], expanded[i]);
    }
    TailMeans(diff, sign, safety);
    DeviatesIs(key, flags);
    FlipOrNot(initial[0]);
    initial[0] := Xor(initial[0], Word(Tail(diff, sign, safety)));
  }

  ghost function Expanded(key: seq<Octet>, flags: bv8, i: nat): Word {
    Word(if Imitates(flags) then Buggy(key, i) else Correct(key, i))
  }

  /** Bit 16 the other way. */
  function Flipped(w: Word): Word {
    Word(w.bits ^ 0x10000)
  }

  lemma FlipOrNot(w: Word)
    ensures Xor(w, Word(0)) == w && Xor(w, Word(0x10000)) == Flipped(w)
  {
    XorZero(w.bits);
  }

  lemma XorZero(w: bv32)
    ensures w ^ 0 == w
  {
  }

  lemma ExpandedIs(key: seq<Octet>, flags: bv8, i: nat)
    ensures Expanded(key, flags, i) == Word(if Imitates(flags) then Buggy(key, i) else Correct(key, i))
  {
    hide Correct, Buggy;
  }

  lemma DeviatesIs(key: seq<Octet>, flags: bv8)
    ensures Deviates(key, flags) <==> Safe(flags) && AgreeBefore(key, 18) && SharpBefore(key, 72)
  {
    hide AgreeBefore, SharpBefore;
  }

  // ----- what the expansion is -----

  lemma WordIs(key: seq<Octet>, i: nat)
    ensures Correct(key, i) ==
            Pushed(Cyclic(key, 4 * i), Cyclic(key, 4 * i + 1), Cyclic(key, 4 * i + 2), Cyclic(key, 4 * i + 3))
    ensures Buggy(key, i) ==
            PushedSigned(Cyclic(key, 4 * i), Cyclic(key, 4 * i + 1), Cyclic(key, 4 * i + 2), Cyclic(key, 4 * i + 3))
  {
    CorrectIs(key, i);
    hide Acc, AccSigned, Push, PushSigned, Cyclic, Correct, Buggy;
    AccIs(key, i, 0);
    AccIs(key, i, 1);
    AccIs(key, i, 2);
    AccIs(key, i, 3);
  }

  /** Without the bug, byte `m` of the expanded key is byte `m` modulo the length
      plus one of the key and its NUL. */
  lemma {:induction false} ExpandedBytes(key: seq<Octet>, flags: bv8, m: nat)
    requires !Imitates(flags)
    ensures ByteOf(Expanded(key, flags, m / 4).bits, m % 4) == Cyclic(key, m)
  {
    hide ByteOf, Cyclic, Correct, Buggy, Pushed, PushedSigned;
    var i, j := m / 4, m % 4;
    WordIs(key, i);
    BytesOfPushed(Cyclic(key, 4 * i), Cyclic(key, 4 * i + 1), Cyclic(key, 4 * i + 2), Cyclic(key, 4 * i + 3));
    assert m == 4 * i + j;
  }

  /** The bytes before `m` in its word are all 0xFF. */
  ghost predicate OnesBefore(key: seq<Octet>, m: nat) {
    forall k :: m - m % 4 <= k < m ==> Ones(key, k)
  }

  ghost predicate Ones(key: seq<Octet>, k: nat) {
    Cyclic(key, k) == 0xFF
  }

  lemma {:induction false} WordAgrees(key: seq<Octet>, i: nat)
    ensures Correct(key, i) == Buggy(key, i) <==>
            forall m :: 4 * i <= m < 4 * i + 4 && Sharp(key, m) ==> OnesBefore(key, m)
  {
    var a, b, c, d := Cyclic(key, 4 * i), Cyclic(key, 4 * i + 1), Cyclic(key, 4 * i + 2), Cyclic(key, 4 * i + 3);
    WordIs(key, i);
    SameWord(a, b, c, d);
    OnesIs(key, i);
    OneIs(key, 4 * i);
    OneIs(key, 4 * i + 1);
    OneIs(key, 4 * i + 2);
    SharpIs(key, i, 0);
    SharpIs(key, i, 1);
    SharpIs(key, i, 2);
    SharpIs(key, i, 3);
    hide *;
    if forall m :: 4 * i <= m < 4 * i + 4 && Sharp(key, m) ==> OnesBefore(key, m) {
      assert Sharp(key, 4 * i + 1) ==> OnesBefore(key, 4 * i + 1);
      assert Sharp(key, 4 * i + 2) ==> OnesBefore(key, 4 * i + 2);
      assert Sharp(key, 4 * i + 3) ==> OnesBefore(key, 4 * i + 3);
    }
    if Correct(key, i) == Buggy(key, i) {
      forall m | 4 * i <= m < 4 * i + 4 && Sharp(key, m)
        ensures OnesBefore(key, m)
      {
        assert m == 4 * i || m == 4 * i + 1 || m == 4 * i + 2 || m == 4 * i + 3;
      }
    }
  }

  lemma OnesIs(key: seq<Octet>, i: nat)
    ensures OnesBefore(key, 4 * i + 1) <==> Ones(key, 4 * i)
    ensures OnesBefore(key, 4 * i + 2) <==> Ones(key, 4 * i) && Ones(key, 4 * i + 1)
    ensures OnesBefore(key, 4 * i + 3) <==> Ones(key, 4 * i) && Ones(key, 4 * i + 1) && Ones(key, 4 * i + 2)
  {
    hide Ones;
  }

  lemma OneIs(key: seq<Octet>, k: nat)
    ensures Ones(key, k) <==> Cyclic(key, k) == 0xFF
  {
    hide Cyclic;
  }

  /** The safety measure acts exactly when it is asked for, some byte past the
      first of its word has its top bit set, and before every such byte its word
      holds only 0xFF. */
  lemma {:induction false} DeviatesMeans(key: seq<Octet>, flags: bv8)
    ensures Deviates(key, flags) <==>
            && Safe(flags)
            && (exists m :: 0 <= m < 72 && Sharp(key, m))
            && (forall m :: 0 <= m < 72 && Sharp(key, m) ==> OnesBefore(key, m))
  {
    hide Sharp, Correct, Buggy, OnesBefore;
    forall i | 0 <= i < 18
      ensures Correct(key, i) == Buggy(key, i) <==>
              forall m :: 4 * i <= m < 4 * i + 4 && Sharp(key, m) ==> OnesBefore(key, m)
    {
      WordAgrees(key, i);
    }
    if AgreeBefore(key, 18) {
      forall m | 0 <= m < 72 && Sharp(key, m)
        ensures OnesBefore(key, m)
      {
        var i := m / 4;
        assert Correct(key, i) == Buggy(key, i);
      }
    }
  }

  /** So it acts only for keys that contain the byte 0xFF. */
  lemma {:induction false} DeviatesOnlyOnOnes(key: seq<Octet>, flags: bv8)
    requires Deviates(key, flags)
    ensures Octet(0xFF) in key
  {
    DeviatesMeans(key, flags);
    hide *;
    var m :| 0 <= m < 72 && Sharp(key, m);
    assert OnesBefore(key, m);
    SharpPlace(key, m);
    FirstOnes(key, m);
    OneIs(key, m - m % 4);
    OnesInKey(key, m - m % 4);
  }

  lemma SharpPlace(key: seq<Octet>, m: nat)
    requires Sharp(key, m)
    ensures m % 4 != 0
  {
  }

  lemma FirstOnes(key: seq<Octet>, m: nat)
    requires OnesBefore(key, m) && m % 4 != 0
    ensures Ones(key, m - m % 4)
  {
    hide Ones;
  }

  lemma OnesInKey(key: seq<Octet>, m: nat)
    requires Cyclic(key, m) == 0xFF
    ensures Octet(0xFF) in key
  {
    CyclicIs(key, m);
    var k := m % (|key| + 1);
    assert key[k] == Octet(key[k].bits);
  }

  lemma CyclicIs(key: seq<Octet>, m: nat)
    ensures var k := m % (|key| + 1);
            k <= |key| && Cyclic(key, m) == (if k < |key| then key[k].bits else 0)
  {
  }

  // ----- what that is for the three kinds of settings -----

  /** Byte `m` of a key with its NUL, read over and over. */
  lemma CyclicMeans(key: seq<Octet>, m: nat)
    ensures var k := m % (|key| + 1);
            k <= |key| && Cyclic(key, m) == if k < |key| then key[k].bits else 0
  {
  }

  lemma ByteMeans(w: bv32)
    ensures ByteOf(w, 0) == (w >> 24) as bv8 && ByteOf(w, 1) == ((w >> 16) & 0xFF) as bv8
    ensures ByteOf(w, 2) == ((w >> 8) & 0xFF) as bv8 && ByteOf(w, 3) == (w & 0xFF) as bv8
  {
  }

  /** With the bug, a byte is all ones if a later byte of its word has its top bit
      set, and what it should be otherwise. */
  lemma {:induction false} BuggyBytes(key: seq<Octet>, i: nat)
    ensures var a, b, c, d := Cyclic(key, 4 * i), Cyclic(key, 4 * i + 1), Cyclic(key, 4 * i + 2),
              Cyclic(key, 4 * i + 3);
            var w := Buggy(key, i);
            && ByteOf(w, 0) == (if b & 0x80 != 0 || c & 0x80 != 0 || d & 0x80 != 0 then 0xFF else a)
            && ByteOf(w, 1) == (if c & 0x80 != 0 || d & 0x80 != 0 then 0xFF else b)
            && ByteOf(w, 2) == (if d & 0x80 != 0 then 0xFF else c)
            && ByteOf(w, 3) == d
  {
    hide *;
    var a, b, c, d := Cyclic(key, 4 * i), Cyclic(key, 4 * i + 1), Cyclic(key, 4 * i + 2), Cyclic(key, 4 * i + 3);
    WordIs(key, i);
    BytesOfSigned(a, b, c, d);
    Filled3(a, b, c, d);
    Filled2(b, c, d);
    Filled1(c, d);
  }

  lemma Filled1(a: bv8, b: bv8)
    ensures a | Fill(b) == if b & 0x80 != 0 then 0xFF else a
  {
  }

  lemma Filled2(a: bv8, b: bv8, c: bv8)
    ensures a | Fill(b) | Fill(c) == if b & 0x80 != 0 || c & 0x80 != 0 then 0xFF else a
  {
  }

  lemma Filled3(a: bv8, b: bv8, c: bv8, d: bv8)
    ensures a | Fill(b) | Fill(c) | Fill(d) == if b & 0x80 != 0 || c & 0x80 != 0 || d & 0x80 != 0 then 0xFF else a
  {
  }

  /** A `$2x$` setting has flags 1: the bug, and no safety measure. `$2a$` has 2: no
      bug, and the safety measure. `$2y$` has 4: neither. */
  lemma FlagsMean(key: seq<Octet>, i: nat)
    ensures Expanded(key, 1, i) == Word(Buggy(key, i)) && !Deviates(key, 1)
    ensures Expanded(key, 2, i) == Word(Correct(key, i))
    ensures Deviates(key, 2) <==> AgreeBefore(key, 18) && SharpBefore(key, 72)
    ensures Expanded(key, 4, i) == Word(Correct(key, i)) && !Deviates(key, 4)
  {
    hide Correct, Buggy, AgreeBefore, SharpBefore;
    ThreeFlags();
  }

  lemma ThreeFlags()
    ensures Imitates(1) && !Safe(1) && !Imitates(2) && Safe(2) && !Imitates(4) && !Safe(4)
  {
  }
}
