/** The inline functions on limb arrays in dev/inc/gcc/gmp.h: addition and
    subtraction with carry and borrow, negation and comparison.  Destination and
    source may be the same array or different ones. */
module Limbs {

  const BASE := 0x1_0000_0000

  type Limb = x: int | 0 <= x < 0x1_0000_0000

  /** The weight of limb `n`. */
  ghost function Weight(n: nat): (r: nat)
    ensures r > 0
  {
    if n == 0 then 1 else BASE * Weight(n - 1)
  }

  /** The number that a sequence of limbs stands for, least limb first. */
  ghost function Val(s: seq<Limb>): nat {
    if s == [] then 0 else s[0] + BASE * Val(s[1..])
  }

  lemma MulAssoc(a: int, b: int, c: int)
    ensures a * (b * c) == (a * b) * c
  {
  }

  lemma MulDist(a: int, b: int, c: int)
    ensures a * (b + c) == a * b + a * c
  {
  }

  lemma {:induction false} ValJoin(a: seq<Limb>, b: seq<Limb>)
    ensures Val(a + b) == Val(a) + Weight(|a|) * Val(b)
  {
    if a == [] {
      assert a + b == b;
    } else {
      var rest := a[1..];
      assert (a + b)[1..] == rest + b;
      ValJoin(rest, b);
      MulDist(BASE, Val(rest), Weight(|rest|) * Val(b));
      MulAssoc(BASE, Weight(|rest|), Val(b));
    }
  }

  lemma ValOne(x: Limb)
    ensures Val([x]) == x
  {
    assert [x][1..] == [];
  }

  /** The value of one limb more. */
  lemma ValMore(s: seq<Limb>, i: nat)
    requires i < |s|
    ensures Val(s[..i + 1]) == Val(s[..i]) + Weight(i) * s[i] && Weight(i + 1) == BASE * Weight(i)
  {
    assert s[..i + 1] == s[..i] + [s[i]];
    ValJoin(s[..i], [s[i]]);
    ValOne(s[i]);
  }

  lemma {:induction false} ValBelow(s: seq<Limb>)
    ensures Val(s) < Weight(|s|)
  {
    if s != [] {
      ValBelow(s[1..]);
    }
  }

  /** Different limbs are different numbers. */
  lemma {:induction false} ValInjective(s: seq<Limb>, t: seq<Limb>)
    requires |s| == |t| && Val(s) == Val(t)
    ensures s == t
  {
    if s != [] {
      assert s[0] - t[0] == BASE * (Val(t[1..]) - Val(s[1..]));
      ValInjective(s[1..], t[1..]);
      assert s == [s[0]] + s[1..] && t == [t[0]] + t[1..];
    }
  }

  /** A value below the weight and a carry are determined by their sum. */
  lemma SumUnique(s: seq<Limb>, c: int, t: seq<Limb>, d: int)
    requires |s| == |t| && 0 <= c <= 1 && 0 <= d <= 1
    requires Val(s) + c * Weight(|s|) == Val(t) + d * Weight(|s|)
             || Val(s) - c * Weight(|s|) == Val(t) - d * Weight(|s|)
    ensures s == t && c == d
  {
    ValBelow(s);
    ValBelow(t);
    if c == d {
      ValInjective(s, t);
    }
  }

  // ----- one limb -----

  /** + or -, as the macros take it for a parameter. */
  datatype Op = Plus | Minus

  function Sign(op: Op): int {
    if op == Plus then 1 else -1
  }

  /** `x OP y` on a 32-bit limb. */
  function Apply(op: Op, x: Limb, y: Limb): Limb {
    if op == Plus then (x + y) % 0x1_0000_0000 else (x - y) % 0x1_0000_0000
  }

  /** __GMPN_ADDCB and __GMPN_SUBCB */
  predicate CarryOut(op: Op, r: Limb, x: Limb, y: Limb) {
    if op == Plus then r < y else x < y
  }

  /** The test is right: it says whether the limb overflowed. */
  lemma ApplyIs(op: Op, x: Limb, y: Limb)
    ensures var r := Apply(op, x, y);
            x + Sign(op) * y == r + Sign(op) * (if CarryOut(op, r, x, y) then BASE else 0)
  {
  }

  /** Where a sum stands after `i` limbs: with a carry `c` still to go in. */
  ghost predicate SoFar(d: seq<Limb>, s: seq<Limb>, i: nat, op: Op, c: int, v: int) {
    i <= |d| && i <= |s| && Val(d[..i]) + Sign(op) * c * Weight(i) == Val(s[..i]) + Sign(op) * v
  }

  /** One limb more: a carry goes in, and perhaps one comes out. */
  lemma SoFarStep(before: seq<Limb>, after: seq<Limb>, s: seq<Limb>, i: nat, op: Op, v: int, c: int)
    requires SoFar(before, s, i, op, 1, v) && i < |after| && i < |s| && after[..i] == before[..i]
    requires s[i] + Sign(op) == after[i] + Sign(op) * c * BASE
    ensures SoFar(after, s, i + 1, op, c, v)
  {
    ValMore(after, i);
    ValMore(s, i);
    var w, g := Weight(i), Sign(op);
    MulDist(w, s[i], g);
    MulDist(w, after[i], g * c * BASE);
    assert w * (s[i] + g) == w * (after[i] + g * c * BASE);
    Reorder(w, g, c);
  }

  lemma Reorder(w: int, g: int, c: int)
    ensures w * (g * c * BASE) == g * c * (BASE * w) && w * g == g * 1 * w
  {
    assert w * (g * c * BASE) == (g * c) * (w * BASE);
  }

  /** Copying what is left keeps the equation. */
  lemma SameRest(d: seq<Limb>, s: seq<Limb>, i: nat, n: nat, op: Op, v: int)
    requires SoFar(d, s, i, op, 0, v) && i <= n <= |d| && n <= |s| && d[i..n] == s[i..n]
    ensures SoFar(d, s, n, op, 0, v)
  {
    assert d[..n] == d[..i] + d[i..n] && s[..n] == s[..i] + s[i..n];
    ValJoin(d[..i], d[i..n]);
    ValJoin(s[..i], s[i..n]);
    assert Sign(op) * 0 * Weight(i) == 0 == Sign(op) * 0 * Weight(n);
  }

  /** __GMPN_COPY_REST */
  method CopyRest(dst: array<Limb>, src: array<Limb>, n: nat, start: nat)
    requires start <= n <= dst.Length && n <= src.Length
    modifies dst
    ensures dst[..start] == old(dst[..start]) && dst[start..n] == old(src[start..n]) && dst[n..] == old(dst[n..])
  {
    for j := start to n
      invariant forall k :: 0 <= k < start || n <= k < dst.Length ==> dst[k] == old(dst[k])
      invariant forall k :: start <= k < j ==> dst[k] == old(src[k])
      invariant forall k :: j <= k < n ==> dst[k] == old(dst[k])
    {
      dst[j] := src[j];
    }
  }

  /** Once no carry is left: copies what is left, unless it is there already. */
  method Remainder(dst: array<Limb>, src: array<Limb>, n: nat, i: nat, op: Op, ghost v: int, ghost s: seq<Limb>)
    requires i <= n <= dst.Length && n <= src.Length == |s| && src[i..] == s[i..] && SoFar(dst[..], s, i, op, 0, v)
    modifies dst
    ensures SoFar(dst[..], s, n, op, 0, v) && dst[n..] == old(dst[n..])
  {
    hide *;
    ghost var before := dst[..];
    Part(src[i..], s[i..], n - i);
    assert src[i..n] == src[i..][..n - i] && s[i..n] == s[i..][..n - i];
    if src != dst {
      CopyRest(dst, src, n, i);
    }
    assert dst[..][..i] == dst[..i] && before[..i] == old(dst[..i]) && dst[..][i..n] == dst[i..n];
    SoFarSame(before, dst[..], s, i, op, v);
    SameRest(dst[..], s, i, n, op, v);
  }

  lemma SoFarSame(before: seq<Limb>, after: seq<Limb>, s: seq<Limb>, i: nat, op: Op, v: int)
    requires SoFar(before, s, i, op, 0, v) && i <= |before| && i <= |after| && after[..i] == before[..i]
    ensures SoFar(after, s, i, op, 0, v)
  {
  }

  // ----- adding and subtracting one limb -----

  /** __GMPN_AORS_1 */
  method Aors1(dst: array<Limb>, src: array<Limb>, n: nat, v: Limb, op: Op) returns (c: nat)
    requires 1 <= n <= dst.Length && n <= src.Length
    modifies dst
    ensures c <= 1 && SoFar(dst[..], old(src[..]), n, op, c, v)
    ensures dst[n..] == old(dst[n..])
  {
    hide *;
    ghost var s, d := src[..], dst[..];
    var x := src[0];
    var r := Apply(op, x, v);
    dst[0] := r;
    ApplyIs(op, x, v);
    FirstLimb(dst[..], s, op, v, CarryOut(op, r, x, v));
    if CarryOut(op, r, x, v) {
      c := 1;
      var i := 1;
      while i < n
        invariant 1 <= i <= n && c == 1 && SoFar(dst[..], s, i, op, 1, v)
        invariant dst[n..] == d[n..] && src[i..] == s[i..]
      {
        ghost var before := dst[..];
        x := src[i];
        assert x == src[i..][0] == s[i];
        assert src[i + 1..] == src[i..][1..] && s[i + 1..] == s[i..][1..];
        r := Apply(op, x, 1);
        dst[i] := r;
        ApplyIs(op, x, 1);
        assert dst[..] == before[..i] + [r] + before[i + 1..];
        LaterLimb(before, dst[..], s, i, n, op, v, CarryOut(op, r, x, 1));
        i := i + 1;
        if !CarryOut(op, r, x, 1) {
          Remainder(dst, src, n, i, op, v, s);
          return 0;
        }
      }
    } else {
      Remainder(dst, src, n, 1, op, v, s);
      c := 0;
    }
  }

  lemma Part(a: seq<Limb>, b: seq<Limb>, k: nat)
    requires a == b && k <= |a|
    ensures a[..k] == b[..k]
  {
  }

  lemma FirstLimb(d: seq<Limb>, s: seq<Limb>, op: Op, v: Limb, carry: bool)
    requires |d| > 0 && |s| > 0 && s[0] + Sign(op) * v == d[0] + Sign(op) * (if carry then BASE else 0)
    ensures SoFar(d, s, 1, op, if carry then 1 else 0, v)
  {
    assert d[..1] == [d[0]] && s[..1] == [s[0]];
    ValOne(d[0]);
    ValOne(s[0]);
    assert Weight(1) == BASE * Weight(0) == BASE;
  }

  lemma LaterLimb(before: seq<Limb>, after: seq<Limb>, s: seq<Limb>, i: nat, n: nat, op: Op, v: int, carry: bool)
    requires SoFar(before, s, i, op, 1, v) && i < n <= |before| == |after| && n <= |s|
    requires after == before[..i] + [after[i]] + before[i + 1..]
    requires s[i] + Sign(op) * 1 == after[i] + Sign(op) * (if carry then BASE else 0)
    ensures SoFar(after, s, i + 1, op, if carry then 1 else 0, v) && after[n..] == before[n..]
  {
    assert after[..i] == before[..i];
    SoFarStep(before, after, s, i, op, v, if carry then 1 else 0);
  }

  /** mpn_add_1 */
  method Add1(dst: array<Limb>, src: array<Limb>, n: nat, v: Limb) returns (carry: nat)
    requires 1 <= n <= dst.Length && n <= src.Length
    modifies dst
    ensures carry <= 1 && Val(dst[..n]) + carry * Weight(n) == Val(old(src[..n])) + v
    ensures dst[n..] == old(dst[n..])
  {
    ghost var s := src[..];
    carry := Aors1(dst, src, n, v, Plus);
    assert dst[..][..n] == dst[..n] && s[..n] == old(src[..n]);
  }

  /** mpn_sub_1 */
  method Sub1(dst: array<Limb>, src: array<Limb>, n: nat, v: Limb) returns (borrow: nat)
    requires 1 <= n <= dst.Length && n <= src.Length
    modifies dst
    ensures borrow <= 1 && Val(dst[..n]) - borrow * Weight(n) == Val(old(src[..n])) - v
    ensures dst[n..] == old(dst[n..])
  {
    ghost var s := src[..];
    borrow := Aors1(dst, src, n, v, Minus);
    assert dst[..][..n] == dst[..n] && s[..n] == old(src[..n]);
    assert Sign(Minus) * borrow * Weight(n) == -(borrow * Weight(n));
  }

  /** Adding a limb and subtracting it again gives the limbs back, and the borrow
      is the carry. */
  method AddThenSub(a: array<Limb>, n: nat, v: Limb) returns (carry: nat, borrow: nat)
    requires 1 <= n <= a.Length
    modifies a
    ensures a[..] == old(a[..]) && borrow == carry
  {
    ghost var s := a[..];
    carry := Add1(a, a, n, v);
    borrow := Sub1(a, a, n, v);
    SumUnique(a[..n], carry, s[..n], borrow);
    assert a[..] == a[..n] + a[n..] && s == s[..n] + s[n..];
  }

  // ----- adding and subtracting limb arrays -----

  /** A sum of two arrays after `i` limbs. */
  ghost predicate BothSoFar(d: seq<Limb>, x: seq<Limb>, y: seq<Limb>, i: nat, op: Op, c: int) {
    i <= |y| && SoFar(d, x, i, op, c, Val(y[..i]))
  }

  lemma BothStep(before: seq<Limb>, after: seq<Limb>, x: seq<Limb>, y: seq<Limb>, i: nat, op: Op, c: nat, c': int)
    requires BothSoFar(before, x, y, i, op, c) && i < |after| && i < |x| && i < |y| && after[..i] == before[..i]
    requires x[i] + Sign(op) * (y[i] + c) == after[i] + Sign(op) * c' * BASE
    ensures BothSoFar(after, x, y, i + 1, op, c')
  {
    ValMore(after, i);
    ValMore(x, i);
    ValMore(y, i);
    var w, g := Weight(i), Sign(op);
    assert w * (x[i] + g * (y[i] + c)) == w * (after[i] + g * c' * BASE);
    MulDist(w, x[i], g * (y[i] + c));
    MulDist(w, after[i], g * c' * BASE);
    Reorder(w, g, c');
    SignSplit(w, g, y[i], c);
    MulDist(g, Val(y[..i]), w * y[i]);
  }

  lemma SignSplit(w: int, g: int, y: int, c: int)
    ensures w * (g * (y + c)) == g * (w * y) + g * c * w
  {
    assert g * (y + c) == g * y + g * c;
    assert w * (g * y + g * c) == w * (g * y) + w * (g * c);
    assert w * (g * y) == g * (w * y) && w * (g * c) == g * c * w;
  }

  /** mpn_add_n and mpn_sub_n, which are assembly routines in the library: here
      as the loop that their documentation describes. */
  method AorsN(wp: array<Limb>, xp: array<Limb>, yp: array<Limb>, n: nat, op: Op) returns (c: nat)
    requires n <= wp.Length && n <= xp.Length && n <= yp.Length
    modifies wp
    ensures c <= 1 && BothSoFar(wp[..], old(xp[..]), old(yp[..]), n, op, c)
    ensures wp[n..] == old(wp[n..])
  {
    hide *;
    ghost var x, y, d := xp[..], yp[..], wp[..];
    c := 0;
    Nothing(wp[..], x, y, op);
    for i := 0 to n
      invariant c <= 1 && BothSoFar(wp[..], x, y, i, op, c)
      invariant wp[n..] == d[n..] && xp[i..] == x[i..] && yp[i..] == y[i..]
    {
      ghost var before, c0 := wp[..], c;
      assert xp[i] == xp[i..][0] == x[i] && yp[i] == yp[i..][0] == y[i];
      assert xp[i + 1..] == xp[i..][1..] && x[i + 1..] == x[i..][1..] && yp[i + 1..] == yp[i..][1..]
          && y[i + 1..] == y[i..][1..];
      var r;
      r, c := OneLimb(xp[i], yp[i], c, op);
      wp[i] := r;
      assert wp[..] == before[..i] + [r] + before[i + 1..];
      assert wp[..][..i] == before[..i] && wp[n..] == before[n..];
      BothStep(before, wp[..], x, y, i, op, c0, c);
    }
  }

  method OneLimb(x: Limb, y: Limb, c: nat, op: Op) returns (r: Limb, c': nat)
    requires c <= 1
    ensures c' <= 1 && x + Sign(op) * (y + c) == r + Sign(op) * c' * BASE
  {
    var t := if op == Plus then x + y + c else x - y - c;
    r := t % 0x1_0000_0000;
    c' := if 0 <= t < 0x1_0000_0000 then 0 else 1;
  }

  lemma Nothing(d: seq<Limb>, x: seq<Limb>, y: seq<Limb>, op: Op)
    ensures BothSoFar(d, x, y, 0, op, 0)
  {
    assert d[..0] == [] && x[..0] == [] && y[..0] == [];
  }

  /** __GMPN_AORS: arrays of unequal sizes, the longer one first. */
  method Aors(wp: array<Limb>, xp: array<Limb>, xsize: nat, yp: array<Limb>, ysize: nat, op: Op) returns (c: nat)
    requires ysize <= xsize <= wp.Length && xsize <= xp.Length && ysize <= yp.Length
    modifies wp
    ensures c <= 1 && SoFar(wp[..], old(xp[..]), xsize, op, c, Val(old(yp[..ysize])))
    ensures wp[xsize..] == old(wp[xsize..])
  {
    hide *;
    ghost var x, d, v := xp[..], wp[..], Val(yp[..ysize]);
    var i := ysize;
    Nothing(wp[..], x, yp[..], op);
    ghost var y := yp[..];
    assert y[..ysize] == yp[..ysize];
    if i != 0 {
      var carry := AorsN(wp, xp, yp, i, op);
      BothIs(wp[..], x, y, i, op, carry);
      Beyond(wp[..], d, i, xsize);
      assert xp[i..] == x[i..];
      if carry != 0 {
        var again := true;
        while again
          invariant ysize <= i <= xsize && SoFar(wp[..], x, i, op, if again then 1 else 0, v)
          invariant wp[xsize..] == d[xsize..] && xp[i..] == x[i..]
          decreases xsize - i, again
        {
          if i >= xsize {
            return 1;
          }
          ghost var before := wp[..];
          var limb := xp[i];
          assert limb == xp[i..][0] == x[i];
          assert xp[i + 1..] == xp[i..][1..] && x[i + 1..] == x[i..][1..];
          var r := Apply(op, limb, 1);
          wp[i] := r;
          ApplyIs(op, limb, 1);
          assert wp[..] == before[..i] + [r] + before[i + 1..];
          LaterLimb(before, wp[..], x, i, xsize, op, v, CarryOut(op, r, limb, 1));
          i := i + 1;
          again := CarryOut(op, r, limb, 1);
        }
      }
    } else {
      BothIs(wp[..], x, y, 0, op, 0);
    }
    Remainder(wp, xp, xsize, i, op, v, x);
    c := 0;
  }

  lemma BothIs(d: seq<Limb>, x: seq<Limb>, y: seq<Limb>, i: nat, op: Op, c: int)
    requires BothSoFar(d, x, y, i, op, c)
    ensures SoFar(d, x, i, op, c, Val(y[..i]))
  {
  }

  lemma Beyond(a: seq<Limb>, b: seq<Limb>, i: nat, n: nat)
    requires i <= n <= |a| == |b| && a[i..] == b[i..]
    ensures a[n..] == b[n..]
  {
    assert a[n..] == a[i..][n - i..] && b[n..] == b[i..][n - i..];
  }

  /** mpn_add */
  method Add(wp: array<Limb>, xp: array<Limb>, xsize: nat, yp: array<Limb>, ysize: nat) returns (carry: nat)
    requires ysize <= xsize <= wp.Length && xsize <= xp.Length && ysize <= yp.Length
    modifies wp
    ensures carry <= 1 && Val(wp[..xsize]) + carry * Weight(xsize) == Val(old(xp[..xsize])) + Val(old(yp[..ysize]))
    ensures wp[xsize..] == old(wp[xsize..])
  {
    ghost var x := xp[..];
    carry := Aors(wp, xp, xsize, yp, ysize, Plus);
    assert wp[..][..xsize] == wp[..xsize] && x[..xsize] == old(xp[..xsize]);
  }

  /** mpn_sub */
  method Sub(wp: array<Limb>, xp: array<Limb>, xsize: nat, yp: array<Limb>, ysize: nat) returns (borrow: nat)
    requires ysize <= xsize <= wp.Length && xsize <= xp.Length && ysize <= yp.Length
    modifies wp
    ensures borrow <= 1 && Val(wp[..xsize]) - borrow * Weight(xsize) == Val(old(xp[..xsize])) - Val(old(yp[..ysize]))
    ensures wp[xsize..] == old(wp[xsize..])
  {
    ghost var x := xp[..];
    borrow := Aors(wp, xp, xsize, yp, ysize, Minus);
    assert wp[..][..xsize] == wp[..xsize] && x[..xsize] == old(xp[..xsize]);
    assert Sign(Minus) * borrow * Weight(xsize) == -(borrow * Weight(xsize));
  }

  // ----- comparison and negation -----

  /** mpn_cmp */
  method Cmp(xp: array<Limb>, yp: array<Limb>, size: nat) returns (result: int)
    requires size <= xp.Length && size <= yp.Length
    ensures result == if Val(xp[..size]) > Val(yp[..size]) then 1
                      else if Val(xp[..size]) == Val(yp[..size]) then 0
                      else -1
  {
    ghost var a, b := xp[..size], yp[..size];
    result := 0;
    var i := size;
    assert a[..size] == a && b[..size] == b;
    while i > 0
      invariant 0 <= i <= size && Val(a) - Val(b) == Val(a[..i]) - Val(b[..i])
    {
      i := i - 1;
      var x, y := xp[i], yp[i];
      ValMore(a, i);
      ValMore(b, i);
      if x != y {
        result := if x > y then 1 else -1;
        TopDecides(a, b, i);
        return;
      }
    }
    assert a[..0] == [] == b[..0];
  }

  lemma TopDecides(a: seq<Limb>, b: seq<Limb>, i: nat)
    requires i < |a| == |b| && a[i] != b[i]
    ensures a[i] > b[i] ==> Val(a[..i + 1]) > Val(b[..i + 1])
    ensures a[i] < b[i] ==> Val(a[..i + 1]) < Val(b[..i + 1])
  {
    ValMore(a, i);
    ValMore(b, i);
    ValBelow(a[..i]);
    ValBelow(b[..i]);
    OneApart(Weight(i), a[i], b[i]);
  }

  lemma OneApart(w: nat, x: int, y: int)
    ensures x > y ==> w * x >= w * y + w
    ensures x < y ==> w * y >= w * x + w
  {
    if x > y {
      Ahead(w, x - y - 1, y);
    } else if x < y {
      Ahead(w, y - x - 1, x);
    }
  }

  lemma Ahead(w: nat, k: nat, y: int)
    ensures w * (y + 1 + k) >= w * y + w
  {
    MulDist(w, y + 1, k);
    MulDist(w, y, 1);
    assert w * k >= 0;
  }

  /** mpn_neg: two's complement, and whether there was anything to negate. */
  method Neg(rp: array<Limb>, up: array<Limb>, n: nat) returns (cy: nat)
    requires 1 <= n <= rp.Length && n <= up.Length
    modifies rp
    ensures cy == (if Val(old(up[..n])) == 0 then 0 else 1)
    ensures Val(rp[..n]) == cy * Weight(n) - Val(old(up[..n]))
    ensures rp[n..] == old(rp[n..])
  {
    hide *;
    ghost var u, d := up[..], rp[..];
    cy := 0;
    var i := 0;
    NegStart(rp[..], u);
    while i < n
      invariant 0 <= i <= n && cy <= 1 && Negated(rp[..], u, i, cy)
      invariant rp[n..] == d[n..] && up[i..] == u[i..]
    {
      ghost var before, cy0 := rp[..], cy;
      var ul := up[i];
      assert ul == up[i..][0] == u[i];
      assert up[i + 1..] == up[i..][1..] && u[i + 1..] == u[i..][1..];
      var r: Limb := (0 - ul - cy) % 0x1_0000_0000;
      rp[i] := r;
      cy := if cy == 1 || ul != 0 then 1 else 0;
      assert rp[..] == before[..i] + [r] + before[i + 1..];
      assert rp[..][..i] == before[..i] && rp[n..] == before[n..];
      NegLimb(ul, cy0, r, cy);
      NegStep(before, rp[..], u, i, cy0, cy);
      i := i + 1;
    }
    NegIs(rp[..], u, n, cy);
    assert rp[..][..n] == rp[..n] && u[..n] == old(up[..n]);
  }

  /** Negation after `i` limbs; the flag says whether a limb was not 0. */
  ghost predicate Negated(r: seq<Limb>, u: seq<Limb>, i: nat, cy: int) {
    && i <= |r| && i <= |u| && Val(r[..i]) + Val(u[..i]) == cy * Weight(i)
    && cy == (if Val(u[..i]) == 0 then 0 else 1)
  }

  lemma NegStart(r: seq<Limb>, u: seq<Limb>)
    ensures Negated(r, u, 0, 0)
  {
    assert r[..0] == [] && u[..0] == [];
  }

  lemma NegLimb(ul: Limb, cy: int, r: int, cy': int)
    requires 0 <= cy <= 1 && r == (0 - ul - cy) % 0x1_0000_0000 && cy' == if cy == 1 || ul != 0 then 1 else 0
    ensures r + ul + cy == cy' * BASE
  {
  }

  lemma NegStep(before: seq<Limb>, after: seq<Limb>, u: seq<Limb>, i: nat, cy: int, cy': int)
    requires Negated(before, u, i, cy) && i < |after| && i < |u| && after[..i] == before[..i]
    requires after[i] + u[i] + cy == cy' * BASE && cy' == if cy == 1 || u[i] != 0 then 1 else 0
    ensures Negated(after, u, i + 1, cy')
  {
    ValMore(after, i);
    ValMore(u, i);
    NegWeight(Weight(i), after[i], u[i], cy, cy');
    hide *;
    if u[i] != 0 {
      OneApart(Weight(i), u[i], 0);
    } else {
      assert Weight(i) * u[i] == 0;
    }
  }

  lemma NegWeight(w: int, a: int, u: int, cy: int, cy': int)
    requires a + u + cy == cy' * BASE
    ensures w * a + w * u + cy * w == cy' * (BASE * w)
  {
    MulDist(w, a + u, cy);
    MulDist(w, a, u);
    assert w * (cy' * BASE) == cy' * (BASE * w);
  }

  lemma NegIs(r: seq<Limb>, u: seq<Limb>, n: nat, cy: int)
    requires Negated(r, u, n, cy)
    ensures n <= |r| && n <= |u| && Val(r[..n]) == cy * Weight(n) - Val(u[..n])
    ensures cy == if Val(u[..n]) == 0 then 0 else 1
  {
  }
}
