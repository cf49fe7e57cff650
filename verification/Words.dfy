/** Little-endian machine words in a buffer of bytes. */
module Words {

  type Byte = x: int | 0 <= x < 256

  const WORD32 := 0x1_0000_0000

  /** 256 to the power `n`. */
  function Pow256(n: nat): (r: nat)
    ensures r > 0
  {
    if n == 0 then 1 else 256 * Pow256(n - 1)
  }

  /** The unsigned number in `size` bytes from `pos` on. */
  ghost function Field(b: seq<Byte>, pos: nat, size: nat): (r: nat)
    requires pos + size <= |b|
    ensures r < Pow256(size)
    decreases size
  {
    if size == 0 then 0 else b[pos] + 256 * Field(b, pos + 1, size - 1)
  }

  /** The buffer with the low `size` bytes of `v` stored from `pos` on. */
  ghost function Stored(b: seq<Byte>, pos: nat, size: nat, v: int): (r: seq<Byte>)
    requires pos + size <= |b|
    ensures |r| == |b|
    decreases size
  {
    if size == 0 then b else Stored(b[pos := v % 256], pos + 1, size - 1, v / 256)
  }

  lemma {:induction false} StoredElsewhere(b: seq<Byte>, pos: nat, size: nat, v: int, i: nat)
    requires pos + size <= |b| && i < |b| && (i < pos || pos + size <= i)
    ensures Stored(b, pos, size, v)[i] == b[i]
    decreases size
  {
    if size > 0 {
      StoredElsewhere(b[pos := v % 256], pos + 1, size - 1, v / 256, i);
    }
  }

  /** A field depends on its own bytes only. */
  lemma {:induction false} FieldOf(b: seq<Byte>, c: seq<Byte>, pos: nat, size: nat)
    requires |b| == |c| && pos + size <= |b| && forall i :: pos <= i < pos + size ==> b[i] == c[i]
    ensures Field(b, pos, size) == Field(c, pos, size)
    decreases size
  {
    if size > 0 {
      FieldOf(b, c, pos + 1, size - 1);
    }
  }

  /** What is stored is read back, modulo the width of the field. */
  lemma {:induction false} FieldStored(b: seq<Byte>, pos: nat, size: nat, v: int)
    requires pos + size <= |b|
    ensures Field(Stored(b, pos, size, v), pos, size) == v % Pow256(size)
    decreases size
  {
    if size > 0 {
      var c := b[pos := v % 256];
      FieldStored(c, pos + 1, size - 1, v / 256);
      StoredElsewhere(c, pos + 1, size - 1, v / 256, pos);
      DigitMod(v, Pow256(size - 1));
    }
  }

  lemma DigitMod(v: int, m: nat)
    requires m > 0
    ensures v % (256 * m) == v % 256 + 256 * (v / 256 % m)
  {
    var q, d := v / 256, v % 256;
    var h, l := q / m, q % m;
    assert v == 256 * (m * h + l) + d;
    Regroup(m, h, l, d);
    ModUnique(v, 256 * m, h, d + 256 * l);
  }

  lemma Regroup(m: int, h: int, l: int, d: int)
    ensures 256 * (m * h + l) + d == (256 * m) * h + (d + 256 * l)
  {
  }

  lemma ModUnique(v: int, m: nat, q: int, r: nat)
    requires m > 0 && r < m && v == m * q + r
    ensures v % m == r && v / m == q
  {
    var q', r' := v / m, v % m;
    Distribute(m, q, q');
    Apart(m, q - q');
  }

  lemma Distribute(m: int, q: int, q': int)
    ensures m * (q - q') == m * q - m * q'
  {
  }

  lemma Apart(m: int, k: int)
    requires m > 0
    ensures k == 0 || m * k >= m || m * k <= -m
  {
    if k > 0 {
      assert m * k >= m * 1;
    } else if k < 0 {
      assert m * k <= m * (-1);
    }
  }

  lemma WordSize()
    ensures Pow256(1) == 256 && Pow256(2) == 0x10000 && Pow256(4) == WORD32
  {
    assert Pow256(2) == 256 * Pow256(1);
    assert Pow256(3) == 256 * Pow256(2);
    assert Pow256(4) == 256 * Pow256(3);
  }

  /** A reduction may be done before an addition. */
  lemma ModAdd(x: int, y: int, m: nat)
    requires m > 0
    ensures (x % m + y) % m == (x + y) % m
  {
    var q := (x % m + y) / m;
    var r := (x % m + y) % m;
    assert x + y == m * (x / m) + m * q + r;
    assert m * (x / m) + m * q == m * (x / m + q);
    ModUnique(x + y, m, x / m + q, r);
  }

  /** The lowest byte comes first. */
  lemma FieldBytes(b: seq<Byte>, pos: nat)
    ensures pos + 1 <= |b| ==> Field(b, pos, 1) == b[pos]
    ensures pos + 2 <= |b| ==> Field(b, pos, 2) == b[pos] as int + 0x100 * b[pos + 1] as int
    ensures pos + 4 <= |b| ==>
              Field(b, pos, 4) == b[pos] as int + 0x100 * b[pos + 1] as int
                                  + 0x1_0000 * b[pos + 2] as int + 0x100_0000 * b[pos + 3] as int
  {
    if pos + 4 <= |b| {
      assert Field(b, pos + 4, 0) == 0;
      assert Field(b, pos + 3, 1) == b[pos + 3];
      assert Field(b, pos + 2, 2) == b[pos + 2] as int + 0x100 * Field(b, pos + 3, 1);
      assert Field(b, pos + 1, 3) == b[pos + 1] as int + 0x100 * Field(b, pos + 2, 2);
    }
  }

  /** Storing a number stores its bytes, and nothing elsewhere. */
  lemma StoredBytes(b: seq<Byte>, pos: nat, v: int)
    requires pos + 4 <= |b|
    ensures var r := Stored(b, pos, 4, v);
            && (forall i :: 0 <= i < |b| && (i < pos || pos + 4 <= i) ==> r[i] == b[i])
            && r[pos] as int + 0x100 * r[pos + 1] as int + 0x1_0000 * r[pos + 2] as int
               + 0x100_0000 * r[pos + 3] as int == v % 0x1_0000_0000
  {
    hide Stored, Field;
    var r := Stored(b, pos, 4, v);
    FieldBytes(r, pos);
    FieldStored(b, pos, 4, v);
    WordSize();
    forall i | 0 <= i < |b| && (i < pos || pos + 4 <= i) ensures r[i] == b[i] {
      StoredElsewhere(b, pos, 4, v, i);
    }
  }

  method StoreField(a: array<Byte>, pos: nat, size: nat, v: int)
    requires pos + size <= a.Length
    modifies a
    ensures a[..] == Stored(old(a[..]), pos, size, v)
  {
    var rest := v;
    for i := 0 to size
      invariant Stored(a[..], pos + i, size - i, rest) == Stored(old(a[..]), pos, size, v)
    {
      ghost var was := a[..];
      a[pos + i] := rest % 256;
      assert a[..] == was[pos + i := rest % 256];
      rest := rest / 256;
    }
  }

  method LoadField(a: array<Byte>, pos: nat, size: nat) returns (v: nat)
    requires pos + size <= a.Length
    ensures v == Field(a[..], pos, size)
  {
    v := 0;
    var i := size;
    while i > 0
      invariant 0 <= i <= size && v == Field(a[..], pos + i, size - i)
    {
      i := i - 1;
      v := a[pos + i] + 256 * v;
    }
  }
}
