/** The base 64 of bcrypt hashes: BF_encode and BF_decode of
    dev/src/lib/Alg/crypt_blowfish.c. Shifts and masks of bytes are written as
    division, multiplication and remainder; the operands of `|` have no bit in
    common, so `|` is a sum. */
module Radix64 {
  import opened Words

  type Digit = x: int | 0 <= x < 64

  // ----- digits and characters -----

  /** BF_itoa64: the digits in order are . / A-Z a-z 0-9. */
  function ToChar(d: Digit): (c: char)
    ensures c != '\0'
  {
    if d == 0 then '.'
    else if d == 1 then '/'
    else if d < 28 then 'A' + (d - 2) as char
    else if d < 54 then 'a' + (d - 28) as char
    else '0' + (d - 54) as char
  }

  /** BF_safe_atoi64 does not fail: the character has an entry of at most 63 in
      BF_atoi64. */
  predicate IsDigit(c: char) {
    '.' <= c <= '9' || 'A' <= c <= 'Z' || 'a' <= c <= 'z'
  }

  /** BF_atoi64 */
  function ToDigit(c: char): Digit
    requires IsDigit(c)
  {
    if c == '.' then 0
    else if c == '/' then 1
    else if c <= '9' then c as int - '0' as int + 54
    else if c <= 'Z' then c as int - 'A' as int + 2
    else c as int - 'a' as int + 28
  }

  /** The two tables are inverse to each other. */
  lemma TablesInverse(d: Digit, c: char)
    ensures IsDigit(ToChar(d)) && ToDigit(ToChar(d)) == d
    ensures IsDigit(c) ==> ToChar(ToDigit(c)) == c
  {
  }

  /** Character `i` of a C string, which ends with a NUL. */
  function At(s: string, i: nat): char {
    if i < |s| then s[i] else '\0'
  }

  function Text(ds: seq<Digit>): (s: string)
    ensures |s| == |ds| && forall i :: 0 <= i < |ds| ==> s[i] == ToChar(ds[i])
  {
    seq(|ds|, i requires 0 <= i < |ds| => ToChar(ds[i]))
  }

  /** The first `n` characters from `from` on are digits. */
  predicate AllDigits(s: string, from: nat, n: nat) {
    forall i :: from <= i < from + n ==> IsDigit(At(s, i))
  }

  ghost function Values(s: string, from: nat, n: nat): (ds: seq<Digit>)
    requires AllDigits(s, from, n)
    ensures |ds| == n && forall i :: 0 <= i < n ==> ds[i] == ToDigit(At(s, from + i))
  {
    seq<Digit>(n, i requires 0 <= i < n => ToDigit(At(s, from + i)))
  }

  ghost function DigitOrZero(c: char): Digit {
    if IsDigit(c) then ToDigit(c) else 0
  }

  /** The digits of a text, with 0 for a character that is none. */
  ghost function Plain(s: string, from: nat, n: nat): (ds: seq<Digit>)
    ensures |ds| == n && forall i :: 0 <= i < n ==> ds[i] == DigitOrZero(At(s, from + i))
  {
    seq<Digit>(n, i requires 0 <= i < n => DigitOrZero(At(s, from + i)))
  }

  lemma PlainAt(s: string, from: nat, n: nat, k: nat)
    ensures forall i :: k <= i < n && i < k + 4 && IsDigit(At(s, from + i)) ==>
              Plain(s, from, n)[i] == ToDigit(At(s, from + i))
  {
  }

  lemma PlainAll(s: string, from: nat, n: nat)
    requires forall i :: from <= i < from + n ==> IsDigit(At(s, i))
    ensures AllDigits(s, from, n) && Values(s, from, n) == Plain(s, from, n)
  {
  }

  lemma NotAll(s: string, from: nat, n: nat, i: nat)
    requires from <= i < from + n && !IsDigit(At(s, i))
    ensures !AllDigits(s, from, n)
  {
  }

  lemma TextIs(ds: seq<Digit>)
    ensures |Text(ds)| == |ds| && forall i :: 0 <= i < |ds| ==> Text(ds)[i] == ToChar(ds[i])
  {
  }

  // ----- bytes and digits -----

  /** How many digits `size` bytes take. */
  function Needed(size: nat): nat {
    (4 * size + 2) / 3
  }

  // A group of bytes a, b, c is a group of digits d, e, f, g.

  function D(a: Byte): Digit { a / 4 }
  function E(a: Byte, b: Byte): Digit { a % 4 * 16 + b / 16 }
  function F(b: Byte, c: Byte): Digit { b % 16 * 4 + c / 64 }
  function G(c: Byte): Digit { c % 64 }

  function A(d: Digit, e: Digit): Byte { d * 4 + e / 16 }
  function B(e: Digit, f: Digit): Byte { e % 16 * 16 + f / 4 }
  function C(f: Digit, g: Digit): Byte { f % 4 * 64 + g }

  lemma BytesOfGroup(a: Byte, b: Byte, c: Byte)
    ensures A(D(a), E(a, b)) == a && B(E(a, b), F(b, c)) == b && C(F(b, c), G(c)) == c
  {
  }

  lemma DigitsOfGroup(d: Digit, e: Digit, f: Digit, g: Digit)
    ensures D(A(d, e)) == d && E(A(d, e), B(e, f)) == e && F(B(e, f), C(f, g)) == f && G(C(f, g)) == g
    ensures E(A(d, e), 0) == e / 16 * 16 && F(B(e, f), 0) == f / 4 * 4
  {
  }

  /** A group is one 24-bit number, with its highest byte and digit first. */
  lemma GroupMeans(a: Byte, b: Byte, c: Byte)
    ensures 0x10000 * a + 0x100 * b + c == 64 * (64 * (64 * D(a) + E(a, b)) + F(b, c)) + G(c)
  {
  }

  /** Three bytes to four digits; one or two last bytes to two or three digits. */
  ghost function Digits(b: seq<Byte>): (ds: seq<Digit>)
    ensures |ds| == Needed(|b|)
  {
    if |b| == 0 then []
    else if |b| == 1 then [D(b[0]), E(b[0], 0)]
    else if |b| == 2 then [D(b[0]), E(b[0], b[1]), F(b[1], 0)]
    else [D(b[0]), E(b[0], b[1]), F(b[1], b[2]), G(b[2])] + Digits(b[3..])
  }

  /** How many bytes `n` digits give. */
  function Given(n: nat): nat {
    3 * n / 4
  }

  /** Four digits to three bytes, and what the last two or three digits give. */
  ghost function Bytes(ds: seq<Digit>): (b: seq<Byte>)
    ensures |b| == Given(|ds|)
  {
    if |ds| < 2 then []
    else if |ds| == 2 then [A(ds[0], ds[1])]
    else if |ds| == 3 then [A(ds[0], ds[1]), B(ds[1], ds[2])]
    else [A(ds[0], ds[1]), B(ds[1], ds[2]), C(ds[2], ds[3])] + Bytes(ds[4..])
  }

  /** Decoding undoes encoding. */
  lemma {:induction false} BytesBack(b: seq<Byte>)
    ensures Bytes(Digits(b)) == b
    decreases |b|
  {
    hide A, B, C, D, E, F, G;
    if |b| == 1 {
      BytesOfGroup(b[0], 0, 0);
    } else if |b| == 2 {
      BytesOfGroup(b[0], b[1], 0);
    } else if |b| >= 3 {
      BytesBack(b[3..]);
      BytesOfGroup(b[0], b[1], b[2]);
      var ds := Digits(b);
      assert ds[4..] == Digits(b[3..]);
      assert b == [b[0], b[1], b[2]] + b[3..];
    }
  }

  /** The digits that survive decoding: the spare bits of the last one are lost. */
  ghost function Kept(ds: seq<Digit>): (r: seq<Digit>)
    ensures |r| == |ds|
  {
    if |ds| % 4 == 2 then ds[|ds| - 1 := ds[|ds| - 1] / 16 * 16]
    else if |ds| % 4 == 3 then ds[|ds| - 1 := ds[|ds| - 1] / 4 * 4]
    else ds
  }

  /** The lost bits do not matter to decoding. */
  lemma {:induction false} KeptBytes(ds: seq<Digit>)
    requires |ds| % 4 != 1
    ensures Bytes(Kept(ds)) == Bytes(ds)
  {
    BytesBack(Bytes(ds));
    DigitsBack(ds);
  }

  /** Encoding what was decoded gives the digits back, up to the spare bits; a
      single digit over makes no byte. */
  lemma {:induction false} DigitsBack(ds: seq<Digit>)
    requires |ds| % 4 != 1
    ensures Digits(Bytes(ds)) == Kept(ds)
    decreases |ds|
  {
    if |ds| < 4 {
      ShortBack(ds);
    } else {
      hide *;
      DigitsBack(ds[4..]);
      GroupBack(ds);
      KeptTail(ds);
    }
  }

  lemma {:induction false} ShortBack(ds: seq<Digit>)
    requires |ds| < 4 && |ds| != 1
    ensures Digits(Bytes(ds)) == Kept(ds)
  {
    hide A, B, C, D, E, F, G;
    if |ds| == 2 {
      DigitsOfGroup(ds[0], ds[1], 0, 0);
      assert Bytes(ds) == [A(ds[0], ds[1])];
    } else if |ds| == 3 {
      DigitsOfGroup(ds[0], ds[1], ds[2], 0);
      assert Bytes(ds) == [A(ds[0], ds[1]), B(ds[1], ds[2])];
    }
  }

  lemma {:induction false} GroupBack(ds: seq<Digit>)
    requires |ds| >= 4
    ensures Digits(Bytes(ds)) == ds[..4] + Digits(Bytes(ds[4..]))
  {
    hide A, B, C, D, E, F, G;
    DigitsOfGroup(ds[0], ds[1], ds[2], ds[3]);
    var b := Bytes(ds);
    assert b[3..] == Bytes(ds[4..]);
    assert ds[..4] == [ds[0], ds[1], ds[2], ds[3]];
  }

  lemma {:induction false} KeptTail(ds: seq<Digit>)
    requires |ds| >= 4
    ensures Kept(ds) == ds[..4] + Kept(ds[4..])
  {
  }

  /** The digits of group `k` are those of its bytes. */
  ghost predicate DigitsGroup(ds: seq<Digit>, b: seq<Byte>, k: nat) {
    && 4 * k + 1 < |ds| && 3 * k < |b| && ds[4 * k] == D(b[3 * k])
    && (3 * k + 1 == |b| ==> |ds| == 4 * k + 2 && ds[4 * k + 1] == E(b[3 * k], 0))
    && (3 * k + 1 < |b| ==> ds[4 * k + 1] == E(b[3 * k], b[3 * k + 1]))
    && (3 * k + 2 == |b| ==> |ds| == 4 * k + 3 && ds[4 * k + 2] == F(b[3 * k + 1], 0))
    && (3 * k + 2 < |b| ==> 4 * k + 3 < |ds| && ds[4 * k + 2] == F(b[3 * k + 1], b[3 * k + 2])
                            && ds[4 * k + 3] == G(b[3 * k + 2]))
    && (3 * k + 3 == |b| ==> |ds| == 4 * k + 4)
  }

  lemma {:induction false} DigitsGroupIs(ds: seq<Digit>, b: seq<Byte>, k: nat)
    requires DigitsGroup(ds, b, k)
    ensures
      && 4 * k + 1 < |ds| && 3 * k < |b| && ds[4 * k] == D(b[3 * k])
      && (3 * k + 1 == |b| ==> |ds| == 4 * k + 2 && ds[4 * k + 1] == E(b[3 * k], 0))
      && (3 * k + 1 < |b| ==> ds[4 * k + 1] == E(b[3 * k], b[3 * k + 1]))
      && (3 * k + 2 == |b| ==> |ds| == 4 * k + 3 && ds[4 * k + 2] == F(b[3 * k + 1], 0))
      && (3 * k + 2 < |b| ==> 4 * k + 3 < |ds| && ds[4 * k + 2] == F(b[3 * k + 1], b[3 * k + 2])
                              && ds[4 * k + 3] == G(b[3 * k + 2]))
      && (3 * k + 3 == |b| ==> |ds| == 4 * k + 4)
  {
    hide D, E, F, G;
  }

  /** Group `k` of the digits. */
  lemma {:induction false} GroupAt(b: seq<Byte>, k: nat)
    requires 3 * k < |b|
    ensures DigitsGroup(Digits(b), b, k)
    decreases k
  {
    if k > 0 {
      FirstGroup(b);
      hide *;
      GroupAt(b[3..], k - 1);
      DigitsShift(Digits(b), Digits(b[3..]), b, b[3..], k);
    } else {
      FirstGroup(b);
      hide D, E, F, G, Digits;
    }
  }

  lemma {:induction false} DigitsShift(ds: seq<Digit>, es: seq<Digit>, b: seq<Byte>, c: seq<Byte>, k: nat)
    requires |b| >= 3 && b[3..] == c && |ds| >= 4 && ds[4..] == es && k > 0 && DigitsGroup(es, c, k - 1)
    ensures DigitsGroup(ds, b, k)
  {
    hide D, E, F, G;
    assert es[4 * k - 4] == ds[4 * k];
  }

  lemma {:induction false} FirstGroup(b: seq<Byte>)
    requires |b| > 0
    ensures var ds := Digits(b);
            && |ds| == Needed(|b|) && ds[0] == D(b[0])
            && (|b| == 1 ==> ds[1] == E(b[0], 0))
            && (|b| > 1 ==> ds[1] == E(b[0], b[1]))
            && (|b| == 2 ==> ds[2] == F(b[1], 0))
            && (|b| > 2 ==> ds[2] == F(b[1], b[2]) && ds[3] == G(b[2]) && ds[4..] == Digits(b[3..]))
  {
    hide D, E, F, G;
  }

  /** The bytes of group `k` are those of its digits. */
  ghost predicate BytesGroup(b: seq<Byte>, ds: seq<Digit>, k: nat) {
    && 3 * k < |b| && 4 * k + 1 < |ds| && b[3 * k] == A(ds[4 * k], ds[4 * k + 1])
    && (3 * k + 1 == |b| ==> |ds| == 4 * k + 2)
    && (3 * k + 1 < |b| ==> 4 * k + 2 < |ds| && b[3 * k + 1] == B(ds[4 * k + 1], ds[4 * k + 2]))
    && (3 * k + 2 == |b| ==> |ds| == 4 * k + 3)
    && (3 * k + 2 < |b| ==> 4 * k + 3 < |ds| && b[3 * k + 2] == C(ds[4 * k + 2], ds[4 * k + 3]))
    && (3 * k + 3 == |b| ==> |ds| == 4 * k + 4)
  }

  lemma {:induction false} BytesGroupIs(b: seq<Byte>, ds: seq<Digit>, k: nat)
    requires BytesGroup(b, ds, k)
    ensures
      && 3 * k < |b| && 4 * k + 1 < |ds| && b[3 * k] == A(ds[4 * k], ds[4 * k + 1])
      && (3 * k + 1 == |b| ==> |ds| == 4 * k + 2)
      && (3 * k + 1 < |b| ==> 4 * k + 2 < |ds| && b[3 * k + 1] == B(ds[4 * k + 1], ds[4 * k + 2]))
      && (3 * k + 2 == |b| ==> |ds| == 4 * k + 3)
      && (3 * k + 2 < |b| ==> 4 * k + 3 < |ds| && b[3 * k + 2] == C(ds[4 * k + 2], ds[4 * k + 3]))
      && (3 * k + 3 == |b| ==> |ds| == 4 * k + 4)
  {
    hide A, B, C;
  }

  /** Group `k` of the bytes. */
  lemma {:induction false} BytesAt(ds: seq<Digit>, k: nat)
    requires |ds| % 4 != 1 && 4 * k < |ds|
    ensures BytesGroup(Bytes(ds), ds, k)
    decreases k
  {
    hide *;
    FirstBytes(ds);
    if k > 0 {
      BytesAt(ds[4..], k - 1);
      BytesShift(Bytes(ds), Bytes(ds[4..]), ds, ds[4..], k);
    } else {
      BytesStart(Bytes(ds), ds);
    }
  }

  lemma {:induction false} BytesStart(b: seq<Byte>, ds: seq<Digit>)
    requires |ds| % 4 != 1 && |ds| > 0 && |b| == Given(|ds|)
    requires |ds| >= 2 && |b| >= 1 && b[0] == A(ds[0], ds[1])
    requires |ds| >= 3 ==> |b| >= 2 && b[1] == B(ds[1], ds[2])
    requires |ds| >= 4 ==> |b| >= 3 && b[2] == C(ds[2], ds[3])
    ensures BytesGroup(b, ds, 0)
  {
    Counts(|ds|, 0);
    hide A, B, C, Given;
  }

  lemma {:induction false} BytesShift(b: seq<Byte>, c: seq<Byte>, ds: seq<Digit>, es: seq<Digit>, k: nat)
    requires |b| >= 3 && b[3..] == c && |ds| >= 4 && ds[4..] == es && k > 0 && BytesGroup(c, es, k - 1)
    ensures BytesGroup(b, ds, k)
  {
    hide A, B, C;
    assert c[3 * k - 3] == b[3 * k];
  }

  lemma FirstBytes(ds: seq<Digit>)
    requires |ds| >= 2
    ensures var b := Bytes(ds);
            && |b| == Given(|ds|) >= 1 && b[0] == A(ds[0], ds[1])
            && (|ds| >= 3 ==> |b| >= 2 && b[1] == B(ds[1], ds[2]))
            && (|ds| >= 4 ==> |b| >= 3 && b[2] == C(ds[2], ds[3]) && b[3..] == Bytes(ds[4..]))
  {
    hide A, B, C;
  }

  /** The bytes of `n` digits end in group `k` where the digits do. */
  lemma Counts(n: nat, k: nat)
    requires n % 4 != 1 && 4 * k < n
    ensures 4 * k + 1 < n && 3 * k < Given(n)
    ensures 3 * k + 1 == Given(n) <==> n == 4 * k + 2
    ensures 3 * k + 2 == Given(n) <==> n == 4 * k + 3
    ensures 3 * k + 3 == Given(n) <==> n == 4 * k + 4
  {
  }

  lemma NeededGives(size: nat)
    ensures Given(Needed(size)) == size && Needed(size) % 4 != 1
    ensures forall k: nat :: 3 * k < size ==> 4 * k < Needed(size)
  {
  }

  /** The digits are the bytes read as one number, three at a time, with zero bits
      behind the last. */
  lemma {:induction false} DigitsMean(b: seq<Byte>, k: nat)
    requires 3 * k < |b|
    ensures var ds := Digits(b);
            && 4 * k + 1 < |ds|
            && (3 * k + 1 == |b| ==> |ds| == 4 * k + 2 && 16 * b[3 * k] as int == 64 * ds[4 * k] as int + ds[4 * k + 1])
            && (3 * k + 2 == |b| ==>
                  |ds| == 4 * k + 3 &&
                  4 * (0x100 * b[3 * k] as int + b[3 * k + 1])
                  == 0x1000 * ds[4 * k] as int + 0x40 * ds[4 * k + 1] as int + ds[4 * k + 2])
            && (3 * k + 2 < |b| ==>
                  4 * k + 3 < |ds| &&
                  0x1_0000 * b[3 * k] as int + 0x100 * b[3 * k + 1] as int + b[3 * k + 2]
                  == 0x4_0000 * ds[4 * k] as int + 0x1000 * ds[4 * k + 1] as int + 0x40 * ds[4 * k + 2] as int
                      + ds[4 * k + 3])
  {
    hide *;
    GroupAt(b, k);
    DigitsGroupIs(Digits(b), b, k);
    if 3 * k + 1 == |b| {
      GroupMeans(b[3 * k], 0, 0);
      Tails();
    } else if 3 * k + 2 == |b| {
      GroupMeans(b[3 * k], b[3 * k + 1], 0);
      Tails();
    } else {
      GroupMeans(b[3 * k], b[3 * k + 1], b[3 * k + 2]);
    }
  }

  lemma Tails()
    ensures G(0) == 0 && F(0, 0) == 0
  {
  }

  /** The 64 digits, in order. */
  lemma DigitsInOrder()
    ensures [ToChar(0), ToChar(1), ToChar(2), ToChar(3), ToChar(4), ToChar(5), ToChar(6), ToChar(7)] == "./ABCDEF"
    ensures [ToChar(8), ToChar(9), ToChar(10), ToChar(11), ToChar(12), ToChar(13), ToChar(14), ToChar(15)] == "GHIJKLMN"
    ensures [ToChar(16), ToChar(17), ToChar(18), ToChar(19), ToChar(20), ToChar(21), ToChar(22), ToChar(23)]
            == "OPQRSTUV"
    ensures [ToChar(24), ToChar(25), ToChar(26), ToChar(27), ToChar(28), ToChar(29), ToChar(30), ToChar(31)]
            == "WXYZabcd"
    ensures [ToChar(32), ToChar(33), ToChar(34), ToChar(35), ToChar(36), ToChar(37), ToChar(38), ToChar(39)]
            == "efghijkl"
    ensures [ToChar(40), ToChar(41), ToChar(42), ToChar(43), ToChar(44), ToChar(45), ToChar(46), ToChar(47)]
            == "mnopqrst"
    ensures [ToChar(48), ToChar(49), ToChar(50), ToChar(51), ToChar(52), ToChar(53), ToChar(54), ToChar(55)]
            == "uvwxyz01"
    ensures [ToChar(56), ToChar(57), ToChar(58), ToChar(59), ToChar(60), ToChar(61), ToChar(62), ToChar(63)]
            == "23456789"
  {
  }

  // ----- the loops -----

  /** Of the digits `goal`, those that go to `at` .. `end` are in `dst`; the rest
      of `dst` is as it was. */
  ghost predicate Written(dst: array<char>, was: seq<char>, at: nat, end: nat, goal: seq<Digit>)
    reads dst
  {
    && dst.Length == |was| && at <= end <= at + |goal| <= dst.Length
    && (forall i :: at <= i < end ==> dst[i] == ToChar(goal[i - at]))
    && (forall i :: 0 <= i < at || end <= i < dst.Length ==> dst[i] == was[i])
  }

  method Emit(dst: array<char>, ghost was: seq<char>, ghost at: nat, end: nat, ghost goal: seq<Digit>, d: Digit)
    requires Written(dst, was, at, end, goal) && end < at + |goal| && d == goal[end - at]
    modifies dst
    ensures Written(dst, was, at, end + 1, goal)
  {
    hide ToChar;
    dst[end] := ToChar(d);
  }

  lemma AllWritten(dst: array<char>, was: seq<char>, at: nat, goal: seq<Digit>)
    requires Written(dst, was, at, at + |goal|, goal)
    ensures dst.Length == |was| && dst[at..at + |goal|] == Text(goal)
    ensures dst[..at] == was[..at] && dst[at + |goal|..] == was[at + |goal|..]
  {
    hide ToChar;
    TextIs(goal);
  }

  /** One round of the loop of BF_encode, on group `k`. */
  method EncodeGroup(dst: array<char>, ghost was: seq<char>, ghost at: nat, src: seq<Byte>, size: nat,
                     sptr: nat, dptr: nat, ghost k: nat)
    returns (s: nat, d: nat)
    requires sptr == 3 * k < size <= |src| && dptr == at + 4 * k
    requires Written(dst, was, at, dptr, Digits(src[..size]))
    modifies dst
    ensures Written(dst, was, at, d, Digits(src[..size]))
    ensures if s < size then s == 3 * k + 3 && d == at + 4 * k + 4 else s == size && d == at + |Digits(src[..size])|
  {
    hide *;
    ghost var b := src[..size];
    ghost var goal := Digits(b);
    GroupAt(b, k);
    DigitsGroupIs(goal, b, k);
    s, d := sptr, dptr;
    var c1 := src[s];
    s := s + 1;
    SplitFirst(c1);
    Emit(dst, was, at, d, goal, c1 / 4);
    d := d + 1;
    if s >= size {
      Emit(dst, was, at, d, goal, c1 % 4 * 16);
      d := d + 1;
      return;
    }
    var c2 := src[s];
    s := s + 1;
    SplitSecond(c1, c2);
    Emit(dst, was, at, d, goal, c1 % 4 * 16 + c2 / 16);
    d := d + 1;
    if s >= size {
      Emit(dst, was, at, d, goal, c2 % 16 * 4);
      d := d + 1;
      return;
    }
    var c3 := src[s];
    s := s + 1;
    SplitThird(c2, c3);
    Emit(dst, was, at, d, goal, c2 % 16 * 4 + c3 / 64);
    d := d + 1;
    Emit(dst, was, at, d, goal, c3 % 64);
    d := d + 1;
  }

  /** BF_encode, writing to `dst` from `at` on. */
  method Encode(dst: array<char>, at: nat, src: seq<Byte>, size: nat)
    requires 1 <= size <= |src| && at + Needed(size) <= dst.Length
    modifies dst
    ensures dst[at..at + Needed(size)] == Text(Digits(src[..size]))
    ensures dst[..at] == old(dst[..at]) && dst[at + Needed(size)..] == old(dst[at + Needed(size)..])
  {
    ghost var was, goal := dst[..], Digits(src[..size]);
    ghost var k := 0;
    var sptr, dptr := 0, at;
    assert Written(dst, was, at, at, goal);
    hide *;
    while sptr < size
      invariant 0 <= sptr <= size && at <= dptr && Written(dst, was, at, dptr, goal)
      invariant if sptr < size then sptr == 3 * k && dptr == at + 4 * k else dptr == at + |goal|
    {
      sptr, dptr := EncodeGroup(dst, was, at, src, size, sptr, dptr, k);
      k := k + 1;
    }
    AllWritten(dst, was, at, goal);
  }

  lemma SplitFirst(c: Byte)
    ensures c / 4 == D(c) && c % 4 * 16 == E(c, 0)
  {
  }

  lemma SplitSecond(c: Byte, d: Byte)
    ensures c % 4 * 16 + d / 16 == E(c, d) && d % 16 * 4 == F(d, 0)
  {
  }

  lemma SplitThird(c: Byte, d: Byte)
    ensures c % 16 * 4 + d / 64 == F(c, d) && d % 64 == G(d)
  {
  }

  /** BF_safe_atoi64. The NUL is no digit, so the text goes on after a digit. */
  method SafeAtoi64(src: string, i: nat) returns (ok: bool, d: Digit)
    requires i <= |src|
    ensures ok <==> IsDigit(At(src, i))
    ensures ok ==> i < |src| && d == ToDigit(At(src, i))
  {
    ok, d := IsDigit(At(src, i)), 0;
    if ok {
      d := ToDigit(At(src, i));
    }
  }

  /** BF_decode of the text from `from` on. It stops at the first character
      that is no digit, so it never reads past the NUL. */
  method Decode(dst: array<Byte>, src: string, from: nat, size: nat) returns (ok: bool)
    requires 1 <= size <= dst.Length && from <= |src|
    modifies dst
    ensures ok <==> AllDigits(src, from, Needed(size))
    ensures ok ==> dst[..size] == Bytes(Values(src, from, Needed(size)))
    ensures dst[size..] == old(dst[size..])
  {
    hide *;
    ghost var n := Needed(size);
    ghost var ds: seq<Digit> := Plain(src, from, n);
    NeededGives(size);
    ghost var k := 0;
    var sptr, dptr := from, 0;
    while dptr < size
      invariant 0 <= dptr <= size && from <= sptr <= |src|
      invariant if dptr < size then dptr == 3 * k && sptr == from + 4 * k else sptr == from + n
      invariant forall i :: from <= i < sptr ==> IsDigit(At(src, i))
      invariant forall i :: 0 <= i < dptr ==> dst[i] == Bytes(ds)[i]
      invariant forall i :: size <= i < dst.Length ==> dst[i] == old(dst[i])
    {
      BytesAt(ds, k);
      BytesGroupIs(Bytes(ds), ds, k);
      PlainAt(src, from, n, 4 * k);
      var c1, c2, c3, c4: Digit;
      ok, c1 := SafeAtoi64(src, sptr);
      if !ok { NotAll(src, from, n, sptr); return; }
      sptr := sptr + 1;
      ok, c2 := SafeAtoi64(src, sptr);
      if !ok { NotAll(src, from, n, sptr); return; }
      sptr := sptr + 1;
      dst[dptr] := A(c1, c2);
      dptr := dptr + 1;
      if dptr >= size { break; }
      ok, c3 := SafeAtoi64(src, sptr);
      if !ok { NotAll(src, from, n, sptr); return; }
      sptr := sptr + 1;
      dst[dptr] := B(c2, c3);
      dptr := dptr + 1;
      if dptr >= size { break; }
      ok, c4 := SafeAtoi64(src, sptr);
      if !ok { NotAll(src, from, n, sptr); return; }
      sptr := sptr + 1;
      dst[dptr] := C(c3, c4);
      dptr := dptr + 1;
      k := k + 1;
    }
    PlainAll(src, from, n);
    return true;
  }
}
