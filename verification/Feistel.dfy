/** The cipher of dev/src/lib/Alg/crypt_blowfish.c: BF_ROUND and BF_ENCRYPT, for
    any subkeys and any S boxes. */
module Feistel {

  /** BF_word: 32 bits. */
  datatype Word = Word(bits: bv32)

  datatype Pair = Pair(l: Word, r: Word)

  function Xor(a: Word, b: Word): Word {
    Word(a.bits ^ b.bits)
  }

  /** Addition modulo 2^32. */
  function Plus(a: Word, b: Word): Word {
    Word(a.bits + b.bits)
  }

  /** Four S boxes of 256 words. */
  predicate Boxes(s: seq<seq<Word>>) {
    |s| == 4 && forall i :: 0 <= i < 4 ==> |s[i]| == 256
  }

  /** The lowest byte of a word, and the bytes above it. */
  function Low(x: bv32): (i: nat)
    ensures i < 256
  {
    (x & 0xFF) as bv8 as nat
  }

  function Byte0(x: Word): (i: nat) ensures i < 256 { Low(x.bits) }
  function Byte1(x: Word): (i: nat) ensures i < 256 { Low(x.bits >> 8) }
  function Byte2(x: Word): (i: nat) ensures i < 256 { Low(x.bits >> 16) }
  function Byte3(x: Word): (i: nat) ensures i < 256 { Low(x.bits >> 24) }

  /** The round function: the four bytes of a word, each through its own box. */
  function Mix(s: seq<seq<Word>>, x: Word): Word
    requires Boxes(s)
  {
    Plus(Xor(Plus(s[0][Byte3(x)], s[1][Byte2(x)]), s[2][Byte1(x)]), s[3][Byte0(x)])
  }

  /** BF_ROUND: what becomes of `r`. */
  method Round(s: seq<seq<Word>>, l: Word, r: Word, p: Word) returns (r': Word)
    requires Boxes(s)
    ensures r' == Xor(Xor(r, p), Mix(s, l))
  {
    hide Byte0, Byte1, Byte2, Byte3, Xor, Plus;
    var tmp1 := s[3][Byte0(l)];
    var tmp2 := s[2][Byte1(l)];
    var tmp3 := s[1][Byte2(l)];
    var tmp4 := s[0][Byte3(l)];
    Commute(tmp3, tmp4);
    tmp3 := Plus(tmp3, tmp4);
    tmp3 := Xor(tmp3, tmp2);
    r' := Xor(r, p);
    tmp3 := Plus(tmp3, tmp1);
    r' := Xor(r', tmp3);
  }

  lemma Commute(a: Word, b: Word)
    ensures Plus(a, b) == Plus(b, a)
  {
  }

  lemma LowBytes(a: bv8, b: bv8, c: bv8, d: bv8, w: bv32)
    requires w == ((a as bv32) << 24) | ((b as bv32) << 16) | ((c as bv32) << 8) | (d as bv32)
    ensures ((w >> 24) & 0xFF) as bv8 == a && ((w >> 16) & 0xFF) as bv8 == b
    ensures ((w >> 8) & 0xFF) as bv8 == c && (w & 0xFF) as bv8 == d
  {
  }

  /** The highest byte of a word goes through box 0, the lowest through box 3; the
      first two results are added, the third is mixed in by exclusive or, and the
      fourth is added, all modulo 2^32. */
  lemma MixMeans(s: seq<seq<Word>>, a: bv8, b: bv8, c: bv8, d: bv8, x: Word)
    requires Boxes(s) && x.bits == ((a as bv32) << 24) | ((b as bv32) << 16) | ((c as bv32) << 8) | (d as bv32)
    ensures Byte3(x) == a as nat && Byte2(x) == b as nat && Byte1(x) == c as nat && Byte0(x) == d as nat
    ensures Mix(s, x) ==
            Plus(Xor(Plus(s[0][Byte3(x)], s[1][Byte2(x)]), s[2][Byte1(x)]), s[3][Byte0(x)])
  {
    BytesAre(a, b, c, d, x);
    MixIs(s, x);
  }

  lemma BytesAre(a: bv8, b: bv8, c: bv8, d: bv8, x: Word)
    requires x.bits == ((a as bv32) << 24) | ((b as bv32) << 16) | ((c as bv32) << 8) | (d as bv32)
    ensures Byte3(x) == a as nat && Byte2(x) == b as nat && Byte1(x) == c as nat && Byte0(x) == d as nat
  {
    LowBytes(a, b, c, d, x.bits);
  }

  lemma MixIs(s: seq<seq<Word>>, x: Word)
    requires Boxes(s)
    ensures Mix(s, x) == Plus(Xor(Plus(s[0][Byte3(x)], s[1][Byte2(x)]), s[2][Byte1(x)]), s[3][Byte0(x)])
  {
    hide Byte0, Byte1, Byte2, Byte3, Plus, Xor;
  }

  /** Addition wraps around at 2^32. */
  lemma PlusWraps()
    ensures Plus(Word(3), Word(4)) == Word(7) && Plus(Word(0x8000_0000), Word(0x8000_0001)) == Word(1)
    ensures Xor(Word(0xFF00_F0F0), Word(0x0F0F_F0F0)) == Word(0xF00F_0000)
  {
  }

  // ----- the cipher as steps that swap the halves -----

  ghost function Step(s: seq<seq<Word>>, p: Word, x: Pair): Pair
    requires Boxes(s)
  {
    Pair(Xor(Xor(x.r, p), Mix(s, x.l)), x.l)
  }

  /** The steps for subkeys `ps`, in order. */
  ghost function Steps(s: seq<seq<Word>>, ps: seq<Word>, x: Pair): Pair
    requires Boxes(s)
  {
    if ps == [] then x else Steps(s, ps[1..], Step(s, ps[0], x))
  }

  /** BF_ENCRYPT with any number of rounds: whitening at both ends, and no swap
      after the last round. */
  ghost function Encrypted(s: seq<seq<Word>>, p: seq<Word>, x: Pair): Pair
    requires Boxes(s) && |p| >= 2
  {
    var y := Steps(s, p[1..|p| - 1], Pair(Xor(x.l, p[0]), x.r));
    Pair(Xor(y.r, p[|p| - 1]), y.l)
  }

  lemma {:induction false} StepsJoin(s: seq<seq<Word>>, a: seq<Word>, b: seq<Word>, x: Pair)
    requires Boxes(s)
    ensures Steps(s, a + b, x) == Steps(s, b, Steps(s, a, x))
  {
    if a == [] {
      assert a + b == b;
    } else {
      assert (a + b)[1..] == a[1..] + b;
      StepsJoin(s, a[1..], b, Step(s, a[0], x));
    }
  }

  /** BF_ENCRYPT with BF_N == 16, two rounds at a time. */
  method Encrypt(s: seq<seq<Word>>, p: array<Word>, l0: Word, r0: Word) returns (l: Word, r: Word)
    requires Boxes(s) && p.Length == 18
    ensures Pair(l, r) == Encrypted(s, p[..], Pair(l0, r0))
  {
    hide *;
    ghost var q := p[..];
    l, r := Xor(l0, p[0]), r0;
    ghost var start := Pair(l, r);
    var n := 0;
    NoSteps(s, q, start);
    while n < 16
      invariant 0 <= n <= 16 && n % 2 == 0
      invariant Pair(l, r) == Steps(s, q[1..n + 1], start)
    {
      ghost var before := Pair(l, r);
      assert p[n + 1] == q[n + 1] && p[n + 2] == q[n + 2];
      r := Round(s, l, r, p[n + 1]);
      l := Round(s, r, l, p[n + 2]);
      TwoSteps(s, q, n, start, before);
      n := n + 2;
    }
    var tmp4 := r;
    r := l;
    l := Xor(tmp4, p[17]);
    EncryptedIs(s, q, Pair(l0, r0));
  }

  lemma NoSteps(s: seq<seq<Word>>, q: seq<Word>, x: Pair)
    requires Boxes(s) && |q| == 18
    ensures Steps(s, q[1..1], x) == x
  {
  }

  lemma EncryptedIs(s: seq<seq<Word>>, q: seq<Word>, x: Pair)
    requires Boxes(s) && |q| == 18
    ensures var y := Steps(s, q[1..17], Pair(Xor(x.l, q[0]), x.r)); Encrypted(s, q, x) == Pair(Xor(y.r, q[17]), y.l)
  {
    hide Steps, Xor;
  }

  lemma TwoSteps(s: seq<seq<Word>>, q: seq<Word>, n: nat, start: Pair, x: Pair)
    requires Boxes(s) && n + 2 < |q| && x == Steps(s, q[1..n + 1], start)
    ensures var r := Xor(Xor(x.r, q[n + 1]), Mix(s, x.l)); var l := Xor(Xor(x.l, q[n + 2]), Mix(s, r));
            Steps(s, q[1..n + 3], start) == Pair(l, r)
  {
    hide Mix, Xor;
    var a, b := [q[n + 1]], [q[n + 2]];
    assert q[1..n + 2] == q[1..n + 1] + a && q[1..n + 3] == q[1..n + 2] + b;
    StepsJoin(s, q[1..n + 1], a, start);
    StepsJoin(s, q[1..n + 2], b, start);
    OneStep(s, q[n + 1], x);
    OneStep(s, q[n + 2], Step(s, q[n + 1], x));
  }

  lemma OneStep(s: seq<seq<Word>>, p: Word, x: Pair)
    requires Boxes(s)
    ensures Steps(s, [p], x) == Step(s, p, x)
  {
    assert [p][1..] == [];
  }

  /** The cipher, round by round: subkey 0 goes into the left half first; round k
      mixes subkey k + 1 and the left half into the right one, and the halves change
      names; subkey 17 goes into what was the right half, which comes out left. */
  lemma {:induction false} EncryptedMeans(s: seq<seq<Word>>, p: seq<Word>, x: Pair, xs: seq<Pair>)
    requires Boxes(s) && |p| == 18 && |xs| == 17
    requires xs[0].l == Xor(x.l, p[0]) && xs[0].r == x.r
    requires forall k :: 1 <= k < 17 ==>
               xs[k].l == Xor(Xor(xs[k - 1].r, p[k]), Mix(s, xs[k - 1].l)) && xs[k].r == xs[k - 1].l
    ensures Encrypted(s, p, x).l == Xor(xs[16].r, p[17]) && Encrypted(s, p, x).r == xs[16].l
  {
    EncryptedIs(s, p, x);
    hide Mix, Xor, Encrypted;
    StepsAre(s, p, xs, 16);
  }

  lemma {:induction false} StepsAre(s: seq<seq<Word>>, p: seq<Word>, xs: seq<Pair>, n: nat)
    requires Boxes(s) && |p| == 18 && |xs| == 17 && n <= 16
    requires forall k :: 1 <= k < 17 ==>
               xs[k].l == Xor(Xor(xs[k - 1].r, p[k]), Mix(s, xs[k - 1].l)) && xs[k].r == xs[k - 1].l
    ensures Steps(s, p[1..n + 1], xs[0]) == xs[n]
  {
    hide Mix, Xor;
    if n > 0 {
      StepsAre(s, p, xs, n - 1);
      assert p[1..n + 1] == p[1..n] + [p[n]];
      StepsJoin(s, p[1..n], [p[n]], xs[0]);
      OneStep(s, p[n], xs[n - 1]);
    }
  }

  // ----- decryption -----

  ghost function Reversed(p: seq<Word>): (r: seq<Word>)
    ensures |r| == |p| && forall i :: 0 <= i < |p| ==> r[i] == p[|p| - 1 - i]
  {
    if p == [] then [] else Reversed(p[1..]) + [p[0]]
  }

  ghost function Swapped(x: Pair): Pair {
    Pair(x.r, x.l)
  }

  lemma XorTwice(a: Word, b: Word)
    ensures Xor(Xor(a, b), b) == a
  {
  }

  lemma XorBack(a: Word, p: Word, m: Word)
    ensures Xor(Xor(Xor(Xor(a, p), m), p), m) == a
  {
  }

  /** A step is undone by the same step with the halves swapped. */
  lemma StepBack(s: seq<seq<Word>>, p: Word, x: Pair)
    requires Boxes(s)
    ensures Step(s, p, Swapped(Step(s, p, x))) == Swapped(x)
  {
    hide Mix, Xor;
    XorBack(x.r, p, Mix(s, x.l));
  }

  lemma {:induction false} StepsBack(s: seq<seq<Word>>, ps: seq<Word>, x: Pair)
    requires Boxes(s)
    ensures Steps(s, Reversed(ps), Swapped(Steps(s, ps, x))) == Swapped(x)
  {
    if ps != [] {
      var y := Step(s, ps[0], x);
      StepsJoin(s, Reversed(ps[1..]), [ps[0]], Swapped(Steps(s, ps, x)));
      StepsBack(s, ps[1..], y);
      assert [ps[0]][1..] == [];
      StepBack(s, ps[0], x);
    }
  }

  lemma {:induction false} InnerReversed(p: seq<Word>)
    requires |p| >= 2
    ensures Reversed(p)[1..|p| - 1] == Reversed(p[1..|p| - 1]) && Reversed(p)[0] == p[|p| - 1]
            && Reversed(p)[|p| - 1] == p[0]
  {
    hide Reversed;
    var a, b := Reversed(p)[1..|p| - 1], Reversed(p[1..|p| - 1]);
    assert |a| == |b|;
    assert forall i :: 0 <= i < |a| ==> a[i] == p[|p| - 2 - i] && b[i] == p[1..|p| - 1][|p| - 3 - i];
  }

  /** Encryption with the subkeys reversed undoes encryption. */
  lemma {:induction false} DecryptEncrypt(s: seq<seq<Word>>, p: seq<Word>, x: Pair)
    requires Boxes(s) && |p| >= 2
    ensures Encrypted(s, Reversed(p), Encrypted(s, p, x)) == x
  {
    hide Steps, Reversed, Mix, Xor;
    var n := |p|;
    var inner := p[1..n - 1];
    var start := Pair(Xor(x.l, p[0]), x.r);
    var y := Steps(s, inner, start);
    InnerReversed(p);
    XorTwice(y.r, p[n - 1]);
    StepsBack(s, inner, start);
    XorTwice(x.l, p[0]);
  }

  /** For every subkeys and boxes, encryption is a bijection on pairs of words. */
  lemma EncryptBijective(s: seq<seq<Word>>, p: seq<Word>, x: Pair, y: Pair)
    requires Boxes(s) && |p| >= 2
    ensures Encrypted(s, p, x) == Encrypted(s, p, y) ==> x == y
    ensures Encrypted(s, p, Encrypted(s, Reversed(p), y)) == y
  {
    hide *;
    DecryptEncrypt(s, p, x);
    DecryptEncrypt(s, p, y);
    DecryptEncrypt(s, Reversed(p), y);
    ReversedTwice(p);
  }

  lemma {:induction false} ReversedTwice(p: seq<Word>)
    ensures Reversed(Reversed(p)) == p
  {
    hide Reversed;
    var q := Reversed(Reversed(p));
    assert forall i :: 0 <= i < |p| ==> q[i] == p[i];
  }
}
