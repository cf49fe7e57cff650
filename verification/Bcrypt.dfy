/** Settings, salts and hashes of bcrypt: BF_crypt and
    _crypt_gensalt_blowfish_rn of dev/src/lib/Alg/crypt_blowfish.c. The key
    schedule and the cost loop are one function of the key, the salt, the flags
    and the cost, of which nothing is assumed. */
module Bcrypt {
  import opened Radix64
  import opened Words

  /** The six words of binary output, as bytes. */
  type Digest = s: seq<Byte> | |s| == 24 witness seq(24, _ => 0)

  type Core = (string, seq<Byte>, nat, nat) -> Digest

  /** What is returned, with errno. */
  datatype Outcome = Done | Erange | Einval

  function Pow2(n: nat): (r: nat)
    ensures r > 0
  {
    if n == 0 then 1 else 2 * Pow2(n - 1)
  }

  /** flags_by_subtype */
  function FlagsBySubtype(c: char): nat {
    if c == 'a' then 2 else if c == 'x' then 1 else if c == 'y' then 4 else 0
  }

  // ----- what a setting says -----

  /** The first seven characters: `$2`, a subtype, a cost of 00 to 31. */
  predicate WellFormed(s: string) {
    && At(s, 0) == '$' && At(s, 1) == '2'
    && FlagsBySubtype(At(s, 2)) != 0
    && At(s, 3) == '$'
    && '0' <= At(s, 4) <= '3' && '0' <= At(s, 5) <= '9' && (At(s, 4) == '3' ==> At(s, 5) <= '1')
    && At(s, 6) == '$'
  }

  function Cost(s: string): (c: nat)
    requires WellFormed(s)
    ensures c <= 31
  {
    (At(s, 4) as int - '0' as int) * 10 + (At(s, 5) as int - '0' as int)
  }

  predicate Accepted(s: string, min: nat) {
    WellFormed(s) && Pow2(Cost(s)) >= min && AllDigits(s, 7, 22)
  }

  ghost function Salt(s: string): (b: seq<Byte>)
    requires AllDigits(s, 7, 22)
    ensures |b| == 16
  {
    Bytes(Values(s, 7, 22))
  }

  ghost function CoreOf(core: Core, key: string, s: string): Digest
    requires WellFormed(s) && AllDigits(s, 7, 22)
  {
    core(key, Salt(s), FlagsBySubtype(At(s, 2)), Cost(s))
  }

  /** The text of a hash: the setting with the spare bits of its salt cleared,
      and 23 bytes of the digest. */
  ghost function Hash(core: Core, key: string, s: string): (r: string)
    requires WellFormed(s) && AllDigits(s, 7, 22)
    ensures |r| == 60
  {
    LongEnough(s);
    s[..28] + [Spared(s[28])] + Text(Digits(CoreOf(core, key, s)[..23]))
  }

  /** A digit without its four spare bits: masked by 0x30. */
  function Spared(c: char): char
    requires IsDigit(c)
  {
    ToChar(ToDigit(c) / 16 * 16)
  }

  lemma LongEnough(s: string)
    requires AllDigits(s, 7, 22)
    ensures |s| >= 29 && IsDigit(s[28])
  {
    assert IsDigit(At(s, 28));
  }

  /** A greater cost is a greater count of rounds. */
  lemma {:induction false} Pow2Mono(a: nat, b: nat)
    requires a <= b
    ensures Pow2(a) <= Pow2(b)
  {
    if a < b {
      Pow2Mono(a, b - 1);
    }
  }

  /** One more is twice as many rounds. */
  lemma Rounds(n: nat)
    ensures Pow2(0) == 1 && Pow2(n + 1) == Pow2(n) + Pow2(n)
  {
  }

  // ----- BF_crypt -----

  method Copy(dst: array<char>, src: string, n: nat)
    requires n <= |src| && n <= dst.Length
    modifies dst
    ensures dst[..n] == src[..n] && dst[n..] == old(dst[n..])
  {
    for i := 0 to n
      invariant dst[..i] == src[..i] && dst[n..] == old(dst[n..])
    {
      dst[i] := src[i];
    }
  }

  method Crypt(core: Core, key: string, setting: string, output: array<char>, size: int, min: nat)
    returns (r: Outcome)
    requires size <= output.Length
    modifies output
    ensures r == Erange <==> size < 61
    ensures r == Done <==> size >= 61 && Accepted(setting, min)
    ensures r == Done ==> output[..60] == Hash(core, key, setting) && output[60] == '\0'
    ensures r == Done ==> output[61..] == old(output[61..])
    ensures r != Done ==> output[..] == old(output[..])
  {
    hide AllDigits, Values, ToDigit, ToChar, Bytes, Digits;
    if size < 7 + 22 + 31 + 1 {
      return Erange;
    }
    if At(setting, 0) != '$' || At(setting, 1) != '2' || FlagsBySubtype(At(setting, 2)) == 0
       || At(setting, 3) != '$' || At(setting, 4) < '0' || At(setting, 4) > '3'
       || At(setting, 5) < '0' || At(setting, 5) > '9' || (At(setting, 4) == '3' && At(setting, 5) > '1')
       || At(setting, 6) != '$' {
      return Einval;
    }
    var count := Pow2((At(setting, 4) as int - '0' as int) * 10 + (At(setting, 5) as int - '0' as int));
    if count < min {
      return Einval;
    }
    var salt := new Byte[16];
    var ok := Decode(salt, setting, 7, 16);
    if !ok {
      return Einval;
    }
    assert salt[..16] == salt[..] == Salt(setting);
    var binary := core(key, salt[..], FlagsBySubtype(At(setting, 2)), Cost(setting));
    Render(core, key, setting, output, binary);
    return Done;
  }

  /** The end of BF_crypt. */
  method Render(ghost core: Core, ghost key: string, setting: string, output: array<char>, binary: Digest)
    requires output.Length >= 61 && WellFormed(setting) && AllDigits(setting, 7, 22)
    requires binary == CoreOf(core, key, setting)
    modifies output
    ensures output[..60] == Hash(core, key, setting) && output[60] == '\0' && output[61..] == old(output[61..])
  {
    LongEnough(setting);
    HashIs(core, key, setting);
    hide *;
    Copy(output, setting, 28);
    output[28] := Spared(setting[28]);
    ghost var head := output[..29];
    assert head == setting[..28] + [Spared(setting[28])];
    Encode(output, 29, binary, 23);
    ghost var text := output[29..60];
    output[60] := '\0';
    Joined(output[..], head, text);
  }

  lemma Joined(o: string, head: string, text: string)
    requires |head| <= |o| && |head| + |text| <= |o|
    requires o[..|head|] == head && o[|head|..|head| + |text|] == text
    ensures o[..|head| + |text|] == head + text
  {
  }

  lemma HashIs(core: Core, key: string, s: string)
    requires WellFormed(s) && AllDigits(s, 7, 22) && |s| >= 29 && IsDigit(s[28])
    ensures |CoreOf(core, key, s)| == 24 && Needed(23) == 31
    ensures Hash(core, key, s) == s[..28] + [Spared(s[28])] + Text(Digits(CoreOf(core, key, s)[..23]))
  {
    hide Spared, Digits, CoreOf;
  }

  // ----- a hash as setting -----

  /** Hashing a key again, with its hash as the setting, gives the hash. Whatever
      follows the salt of a setting is not looked at. */
  lemma {:induction false} HashAgain(core: Core, key: string, s: string, min: nat)
    requires Accepted(s, min)
    ensures Accepted(Hash(core, key, s), min)
    ensures Hash(core, key, Hash(core, key, s)) == Hash(core, key, s)
  {
    var h := Hash(core, key, s);
    HashKeepsFields(core, key, s);
    HashKeepsSalt(core, key, s);
    LongEnough(s);
    LongEnough(h);
    HashIs(core, key, s);
    HashIs(core, key, h);
    assert CoreOf(core, key, h) == CoreOf(core, key, s);
    hide *;
    MaskTwice(s[28]);
    assert h[..28] == s[..28];
  }

  lemma MaskTwice(c: char)
    requires IsDigit(c)
    ensures IsDigit(Spared(c)) && ToDigit(Spared(c)) == ToDigit(c) / 16 * 16 && Spared(Spared(c)) == Spared(c)
  {
    TablesInverse(ToDigit(c) / 16 * 16, c);
  }

  lemma HashKeepsFields(core: Core, key: string, s: string)
    requires WellFormed(s) && AllDigits(s, 7, 22)
    ensures WellFormed(Hash(core, key, s)) && Cost(Hash(core, key, s)) == Cost(s)
    ensures At(Hash(core, key, s), 2) == At(s, 2)
  {
    LongEnough(s);
    HashIs(core, key, s);
    hide Hash;
  }

  /** The salt text of a hash is that of its setting with the last digit masked
      by 0x30, and decodes to the same salt. */
  lemma {:induction false} HashKeepsSalt(core: Core, key: string, s: string)
    requires WellFormed(s) && AllDigits(s, 7, 22)
    ensures var h := Hash(core, key, s);
            && AllDigits(h, 7, 22)
            && Values(h, 7, 22) == Kept(Values(s, 7, 22))
            && h[7..29] == Text(Digits(Salt(s)))
            && Salt(h) == Salt(s)
  {
    hide *;
    var h := Hash(core, key, s);
    LongEnough(s);
    HashIs(core, key, s);
    MaskTwice(s[28]);
    Masked(s, h);
    SaltIs(s);
    var ds := Values(s, 7, 22);
    KeptBytes(ds);
    DigitsBack(ds);
    TextOfValues(h, 7, 22);
    SaltIs(h);
  }

  lemma SaltIs(s: string)
    requires AllDigits(s, 7, 22)
    ensures Needed(16) == 22 && |Values(s, 7, 22)| == 22 && Salt(s) == Bytes(Values(s, 7, 22))
  {
    hide Values, Bytes;
  }

  lemma Masked(s: string, h: string)
    requires |s| >= 29 && |h| >= 29 && AllDigits(s, 7, 22) && h[..28] == s[..28]
    requires IsDigit(h[28]) && IsDigit(s[28]) && ToDigit(h[28]) == ToDigit(s[28]) / 16 * 16
    ensures AllDigits(h, 7, 22) && Values(h, 7, 22) == Kept(Values(s, 7, 22))
  {
    hide ToDigit, IsDigit;
    forall i | 7 <= i < 29
      ensures IsDigit(At(h, i))
    {
      assert IsDigit(At(s, i));
      assert i < 28 ==> h[..28][i] == s[..28][i];
    }
    var ds, es := Values(s, 7, 22), Values(h, 7, 22);
    forall i | 0 <= i < 22
      ensures es[i] == Kept(ds)[i]
    {
      assert i < 21 ==> h[..28][7 + i] == s[..28][7 + i];
    }
  }

  /** Digits written back are the text they were read from. */
  lemma TextOfValues(s: string, from: nat, n: nat)
    requires AllDigits(s, from, n) && from + n <= |s|
    ensures Text(Values(s, from, n)) == s[from..from + n]
  {
    hide ToChar, ToDigit;
    var ds := Values(s, from, n);
    forall i | 0 <= i < n
      ensures Text(ds)[i] == s[from + i]
    {
      assert IsDigit(At(s, from + i));
      TablesInverse(0, s[from + i]);
    }
  }

  // ----- _crypt_gensalt_blowfish_rn -----

  function Decimal(d: nat): char
    requires d < 10
  {
    '0' + d as char
  }

  /** The text of a generated setting. */
  ghost function Generated(subtype: char, cost: nat, input: seq<Byte>): (s: string)
    requires cost <= 31 && |input| == 16
    ensures |s| == 29
  {
    ['$', '2', subtype, '$', Decimal(cost / 10), Decimal(cost % 10), '$'] + Text(Digits(input))
  }

  method Gensalt(prefix: string, count0: nat, input: seq<Byte>, size: int, output: array<char>, outputSize: int)
    returns (r: Outcome)
    requires size <= |input| && outputSize <= output.Length
    modifies output
    ensures r == Done <==>
      && size >= 16 && outputSize >= 30 && (count0 == 0 || 4 <= count0 <= 31)
      && |prefix| >= 3 && prefix[0] == '$' && prefix[1] == '2' && (prefix[2] == 'a' || prefix[2] == 'y')
    ensures r == Erange <==> outputSize < 30
    ensures r == Done ==>
      && output[..29] == Generated(prefix[2], if count0 == 0 then 5 else count0, input[..16])
      && output[29] == '\0' && output[30..] == old(output[30..])
    ensures r != Done && outputSize > 0 ==> output[..] == ['\0'] + old(output[1..])
    ensures r != Done && outputSize <= 0 ==> output[..] == old(output[..])
  {
    hide Digits, ToChar;
    if size < 16 || outputSize < 7 + 22 + 1 || (count0 != 0 && (count0 < 4 || count0 > 31))
       || At(prefix, 0) != '$' || At(prefix, 1) != '2' || (At(prefix, 2) != 'a' && At(prefix, 2) != 'y') {
      if outputSize > 0 {
        output[0] := '\0';
      }
      return if outputSize < 7 + 22 + 1 then Erange else Einval;
    }
    var count := count0;
    if count == 0 {
      count := 5;
    }
    Fill(At(prefix, 2), count, input, output);
    return Done;
  }

  /** The end of _crypt_gensalt_blowfish_rn. */
  method Fill(subtype: char, count: nat, input: seq<Byte>, output: array<char>)
    requires count <= 31 && |input| >= 16 && output.Length >= 30
    modifies output
    ensures output[..29] == Generated(subtype, count, input[..16])
    ensures output[29] == '\0' && output[30..] == old(output[30..])
  {
    GeneratedIs(subtype, count, input[..16]);
    hide *;
    output[0] := '$';
    output[1] := '2';
    output[2] := subtype;
    output[3] := '$';
    output[4] := Decimal(count / 10);
    output[5] := Decimal(count % 10);
    output[6] := '$';
    ghost var head := output[..7];
    Encode(output, 7, input, 16);
    ghost var text := output[7..29];
    output[29] := '\0';
    Joined(output[..], head, text);
  }

  lemma GeneratedIs(subtype: char, cost: nat, input: seq<Byte>)
    requires cost <= 31 && |input| == 16
    ensures Needed(16) == 22
    ensures Generated(subtype, cost, input) ==
            ['$', '2', subtype, '$', Decimal(cost / 10), Decimal(cost % 10), '$'] + Text(Digits(input))
  {
    hide Digits, Decimal;
  }

  /** Every generated setting is accepted, whatever the least count of rounds up
      to its own, and says the subtype, cost and salt it was made from. */
  lemma {:induction false} GeneratedAccepted(subtype: char, cost: nat, input: seq<Byte>, min: nat)
    requires subtype in {'a', 'x', 'y'} && cost <= 31 && |input| == 16
    ensures var s := Generated(subtype, cost, input);
            && (Accepted(s, min) <==> min <= Pow2(cost))
            && AllDigits(s, 7, 22) && Salt(s) == input
            && WellFormed(s) && Cost(s) == cost
                && FlagsBySubtype(At(s, 2)) == (if subtype == 'a' then 2 else if subtype == 'x' then 1 else 4)
  {
    GeneratedFields(subtype, cost, input);
    GeneratedSalt(subtype, cost, input);
    hide *;
    AcceptedIs(Generated(subtype, cost, input), min);
  }

  lemma AcceptedIs(s: string, min: nat)
    ensures Accepted(s, min) <==> WellFormed(s) && Pow2(Cost(s)) >= min && AllDigits(s, 7, 22)
  {
  }

  lemma GeneratedFields(subtype: char, cost: nat, input: seq<Byte>)
    requires subtype in {'a', 'x', 'y'} && cost <= 31 && |input| == 16
    ensures var s := Generated(subtype, cost, input);
            WellFormed(s) && Cost(s) == cost
                && FlagsBySubtype(At(s, 2)) == (if subtype == 'a' then 2 else if subtype == 'x' then 1 else 4)
  {
    hide Digits;
  }

  lemma GeneratedSalt(subtype: char, cost: nat, input: seq<Byte>)
    requires cost <= 31 && |input| == 16
    ensures AllDigits(Generated(subtype, cost, input), 7, 22) && Salt(Generated(subtype, cost, input)) == input
  {
    var s := Generated(subtype, cost, input);
    GeneratedIs(subtype, cost, input);
    hide Generated, Decimal, Digits, ToChar, ToDigit;
    var ds := Digits(input);
    forall i | 7 <= i < 29
      ensures IsDigit(At(s, i)) && ToDigit(At(s, i)) == ds[i - 7]
    {
      TablesInverse(ds[i - 7], ' ');
    }
    assert AllDigits(s, 7, 22);
    assert forall i :: 0 <= i < 22 ==> Values(s, 7, 22)[i] == ToDigit(At(s, 7 + i));
    assert Values(s, 7, 22) == ds;
    BytesBack(input);
    SaltIs(s);
  }

  /** A setting made by Gensalt passes the least count of 16 that
      _crypt_blowfish_rn asks for. */
  lemma GeneratedSuffices(subtype: char, count: nat, input: seq<Byte>)
    requires subtype in {'a', 'x', 'y'} && (count == 0 || 4 <= count <= 31) && |input| == 16
    ensures Accepted(Generated(subtype, if count == 0 then 5 else count, input), 16)
  {
    var cost := if count == 0 then 5 else count;
    GeneratedAccepted(subtype, cost, input, 16);
    Pow2Mono(4, cost);
    assert Pow2(4) == 16;
  }

  // ----- what a setting and a hash say, character by character -----

  /** A setting is `$2`, one of a, x and y, `$`, two decimal digits for a cost of at
      most 31, `$`, and 22 digits of salt; anything may follow. */
  lemma AcceptedMeans(s: string, min: nat)
    ensures Accepted(s, min) <==>
            && |s| >= 29 && s[0] == '$' && s[1] == '2' && (s[2] == 'a' || s[2] == 'x' || s[2] == 'y') && s[3] == '$'
            && '0' <= s[4] <= '9' && '0' <= s[5] <= '9' && s[6] == '$'
            && (s[4] as int - 48) * 10 + (s[5] as int - 48) <= 31
            && Pow2((s[4] as int - 48) * 10 + (s[5] as int - 48)) >= min
            && forall i :: 7 <= i < 29 ==> '.' <= s[i] <= '9' || 'A' <= s[i] <= 'Z' || 'a' <= s[i] <= 'z'
  {
    hide Pow2;
    if AllDigits(s, 7, 22) {
      LongEnough(s);
      forall i | 7 <= i < 29
        ensures IsDigit(s[i])
      {
        assert IsDigit(At(s, i));
      }
    }
  }

  /** The digest of a hash is that of the key, the salt, the flags and the cost that
      its setting says, and the rest of the hash is the setting. */
  lemma {:induction false} HashOfGenerated(core: Core, key: string, subtype: char, cost: nat, input: seq<Byte>)
    requires subtype in {'a', 'x', 'y'} && cost <= 31 && |input| == 16
    ensures var s := Generated(subtype, cost, input);
            var flags := if subtype == 'a' then 2 else if subtype == 'x' then 1 else 4;
            && WellFormed(s) && AllDigits(s, 7, 22)
            && Hash(core, key, s)[..29] == s
            && Hash(core, key, s)[29..] == Text(Digits(core(key, input, flags, cost)[..23]))
  {
    hide *;
    var s := Generated(subtype, cost, input);
    GeneratedAccepted(subtype, cost, input, 0);
    GeneratedIs(subtype, cost, input);
    CoreIs(core, key, s);
    LongEnough(s);
    HashIs(core, key, s);
    HashKeepsSalt(core, key, s);
    var h := Hash(core, key, s);
    assert h[..28] == s[..28];
    assert s[7..29] == Text(Digits(input));
    assert h[28] == h[7..29][21] == s[7..29][21] == s[28];
    assert h[..29] == h[..28] + [h[28]] && s == s[..28] + [s[28]];
  }

  lemma CoreIs(core: Core, key: string, s: string)
    requires WellFormed(s) && AllDigits(s, 7, 22)
    ensures CoreOf(core, key, s) == core(key, Salt(s), FlagsBySubtype(At(s, 2)), Cost(s))
  {
    hide WellFormed, AllDigits, Salt, Cost, FlagsBySubtype;
  }

  /** The same for any setting that is accepted. */
  lemma {:induction false} HashMeans(core: Core, key: string, s: string, min: nat)
    requires Accepted(s, min)
    ensures |s| >= 29 && '0' <= s[4] && '0' <= s[5]
    ensures var flags := if s[2] == 'a' then 2 else if s[2] == 'x' then 1 else 4;
            var cost := (s[4] as int - 48) * 10 + (s[5] as int - 48);
            && Hash(core, key, s)[..28] == s[..28]
            && Hash(core, key, s)[29..] ==
               Text(Digits(core(key, Bytes(Values(s, 7, 22)), flags, cost)[..23]))
  {
    AcceptedMeans(s, min);
    LongEnough(s);
    HashIs(core, key, s);
    SaltIs(s);
    hide Hash, Values, Bytes, Digits, Spared, ToDigit;
  }
}
