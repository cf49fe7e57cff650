/** Link-time relocation of dev/src/rlink/rlink.c (bfd_section_setup), and what
    it means together with the load-time fixups of riva. */
module Relocation {
  import opened Words
  import F = Fixups

  /** A relocation of an object file, its symbol resolved: `offset` is the
      place of the symbol in its section, `clears` says that the section of
      the symbol keeps no addend (symbols and constants), `indirect` is the
      flag of a relocation against the offset table, or 0. */
  datatype Entry = Entry(address: nat, size: nat, pcRelative: bool, inPlace: bool, indirect: nat, offset: int,
      clears: bool)

  /** What goes into the image for it. */
  datatype Record = Record(flags: nat, position: int, size: nat)

  function Flags(e: Entry): nat {
    if e.indirect != 0 then e.indirect else if e.pcRelative then F.RELOC_REL else F.RELOC_ABS
  }

  ghost predicate AllInside(n: nat, es: seq<Entry>) {
    forall i :: 0 <= i < |es| ==> es[i].address + 4 <= n
  }

  /** The edits of one relocation: always to a whole word. */
  ghost function Edited(code: seq<Byte>, e: Entry): (r: seq<Byte>)
    requires e.address + 4 <= |code|
    ensures |r| == |code|
  {
    hide Stored, Field, Pow256;
    var a := if e.pcRelative then Stored(code, e.address, 4, Field(code, e.address, 4) - e.address) else code;
    var b := if e.clears then Stored(a, e.address, 4, 0) else a;
    if e.inPlace then Stored(b, e.address, 4, Field(b, e.address, 4) + e.offset) else b
  }

  /** The relocations from the last to the first. */
  ghost function EditedAll(code: seq<Byte>, es: seq<Entry>): (r: seq<Byte>)
    requires AllInside(|code|, es)
    ensures |r| == |code|
    decreases |es|
  {
    if es == [] then code
    else
      var k := |es| - 1;
      EditedAll(Edited(code, es[k]), es[..k])
  }

  method Edit(code: array<Byte>, e: Entry)
    requires e.address + 4 <= code.Length
    modifies code
    ensures code[..] == Edited(old(code[..]), e)
  {
    if e.pcRelative {
      var v := LoadField(code, e.address, 4);
      StoreField(code, e.address, 4, v - e.address);
    }
    if e.clears {
      StoreField(code, e.address, 4, 0);
    }
    if e.inPlace {
      var v := LoadField(code, e.address, 4);
      StoreField(code, e.address, 4, v + e.offset);
    }
  }

  /** Where byte `p` of a section comes from when its words are turned round. */
  ghost function Source(n: nat, p: nat): int {
    n - 4 * (p / 4) - 4 + p % 4
  }

  lemma SourceIn(n: nat, w: nat, b: nat)
    requires 4 * w + 4 <= n && b < 4
    ensures Source(n, 4 * w + b) == n - 4 * w - 4 + b && 0 <= n - 4 * w - 4 + b < n
  {
    assert (4 * w + b) / 4 == w && (4 * w + b) % 4 == b;
  }

  /** The words of a section in reverse; what does not fill a word stays as the
      new block was. */
  ghost predicate WordsReversed(b: seq<Byte>, junk: seq<Byte>, r: seq<Byte>)
    requires |junk| == |b|
  {
    && |r| == |b|
    && (forall p :: 0 <= p < 4 * (|b| / 4) ==> 0 <= Source(|b|, p) < |b| && r[p] == b[Source(|b|, p)])
    && (forall p :: 4 * (|b| / 4) <= p < |b| ==> r[p] == junk[p])
  }

  method ReverseWords(code: array<Byte>, junk: seq<Byte>) returns (turned: array<Byte>)
    requires |junk| == code.Length
    ensures fresh(turned) && WordsReversed(code[..], junk, turned[..])
  {
    hide Source;
    var n := code.Length;
    turned := new Byte[n](i requires 0 <= i < n => junk[i]);
    for w := 0 to n / 4
      invariant forall p :: 0 <= p < 4 * w ==> 0 <= Source(n, p) < n && turned[p] == code[Source(n, p)]
      invariant forall p :: 4 * w <= p < n ==> turned[p] == junk[p]
    {
      var from := n - 4 * w - 4;
      SourceIn(n, w, 0);
      SourceIn(n, w, 1);
      SourceIn(n, w, 2);
      SourceIn(n, w, 3);
      turned[4 * w] := code[from];
      turned[4 * w + 1] := code[from + 1];
      turned[4 * w + 2] := code[from + 2];
      turned[4 * w + 3] := code[from + 3];
    }
  }

  function Plain(e: Entry): Record {
    Record(Flags(e), e.address, e.size)
  }

  function Turned(e: Entry, n: nat): Record {
    Record(Flags(e), n - e.address - 4, e.size)
  }

  lemma OneEdit(code: seq<Byte>, es: seq<Entry>, i: nat)
    requires i < |es| && AllInside(|code|, es)
    ensures AllInside(|code|, es[..i + 1]) && AllInside(|code|, es[..i]) && es[i].address + 4 <= |code|
    ensures EditedAll(code, es[..i + 1]) == EditedAll(Edited(code, es[i]), es[..i])
  {
    hide Edited, Stored, Field;
    assert es[..i + 1][..i] == es[..i];
  }

  /** bfd_section_setup for an ordinary section, once the relocations are read:
      edits the code, and lists what is left to the loader. */
  method Setup(code: array<Byte>, es: seq<Entry>) returns (relocs: seq<Record>)
    requires AllInside(code.Length, es)
    modifies code
    ensures code[..] == EditedAll(old(code[..]), es)
    ensures |relocs| == |es| && forall i :: 0 <= i < |es| ==> relocs[i] == Plain(es[i])
    ensures forall i :: 0 <= i < |es| ==>
              && relocs[i].position == es[i].address && relocs[i].size == es[i].size
              && relocs[i].flags == if es[i].indirect != 0 then es[i].indirect else if es[i].pcRelative then 1 else 0
  {
    hide EditedAll, Edited;
    var i := |es|;
    relocs := [];
    assert es[..i] == es;
    while i > 0
      invariant 0 <= i <= |es| && |relocs| == |es| - i
      invariant AllInside(code.Length, es[..i]) && EditedAll(code[..], es[..i]) == EditedAll(old(code[..]), es)
      invariant forall j :: 0 <= j < |relocs| ==> relocs[j] == Plain(es[i + j])
    {
      i := i - 1;
      OneEdit(code[..], es, i);
      relocs := [Plain(es[i])] + relocs;
      Edit(code, es[i]);
    }
    NoEdit(code[..], es[..i]);
  }

  /** bfd_section_setup for a .ctors section: the code is turned round word by
      word, and the relocations with it. */
  method SetupCtors(code: array<Byte>, es: seq<Entry>, junk: seq<Byte>)
    returns (relocs: seq<Record>, code': array<Byte>)
    requires AllInside(code.Length, es) && |junk| == code.Length
    modifies code
    ensures code[..] == EditedAll(old(code[..]), es) && WordsReversed(code[..], junk, code'[..])
    ensures |relocs| == |es| && forall j :: 0 <= j < |es| ==> relocs[j] == Turned(es[|es| - 1 - j], code.Length)
    ensures forall j :: 0 <= j < |es| ==>
              var e := es[|es| - 1 - j];
              && relocs[j].position == code.Length - e.address - 4 && relocs[j].size == e.size
              && relocs[j].flags == if e.indirect != 0 then e.indirect else if e.pcRelative then 1 else 0
  {
    hide EditedAll, Edited;
    var i := |es|;
    relocs := [];
    assert es[..i] == es;
    while i > 0
      invariant 0 <= i <= |es| && |relocs| == |es| - i
      invariant AllInside(code.Length, es[..i]) && EditedAll(code[..], es[..i]) == EditedAll(old(code[..]), es)
      invariant forall j :: 0 <= j < |relocs| ==> relocs[j] == Turned(es[|es| - 1 - j], code.Length)
    {
      i := i - 1;
      OneEdit(code[..], es, i);
      relocs := relocs + [Turned(es[i], code.Length)];
      Edit(code, es[i]);
    }
    NoEdit(code[..], es[..i]);
    code' := ReverseWords(code, junk);
  }

  lemma NoEdit(code: seq<Byte>, es: seq<Entry>)
    requires |es| == 0
    ensures EditedAll(code, es) == code
  {
  }

  // ----- what the edits leave in a field -----

  ghost predicate FieldsApart(es: seq<Entry>) {
    forall i, j :: 0 <= i < j < |es| ==> es[i].address + 4 <= es[j].address || es[j].address + 4 <= es[i].address
  }

  /** What a field holds after its own edit. */
  ghost function Left(code: seq<Byte>, e: Entry): int
    requires e.address + 4 <= |code|
  {
    var a := Field(code, e.address, 4) - if e.pcRelative then e.address else 0;
    ((if e.clears then 0 else a) + if e.inPlace then e.offset else 0) % WORD32
  }

  lemma EditedHere(code: seq<Byte>, e: Entry)
    requires e.address + 4 <= |code|
    ensures Field(Edited(code, e), e.address, 4) == Left(code, e)
  {
    hide Stored, Field, Pow256;
    WordSize();
    var v := Field(code, e.address, 4);
    var a := if e.pcRelative then Stored(code, e.address, 4, v - e.address) else code;
    if e.pcRelative {
      FieldStored(code, e.address, 4, v - e.address);
    }
    var b := if e.clears then Stored(a, e.address, 4, 0) else a;
    if e.clears {
      FieldStored(a, e.address, 4, 0);
    }
    if e.inPlace {
      FieldStored(b, e.address, 4, Field(b, e.address, 4) + e.offset);
      ModAdd(v - e.address, e.offset, WORD32);
    }
  }

  lemma EditedElsewhere(code: seq<Byte>, e: Entry, pos: nat)
    requires e.address + 4 <= |code| && pos + 4 <= |code| && (pos + 4 <= e.address || e.address + 4 <= pos)
    ensures Field(Edited(code, e), pos, 4) == Field(code, pos, 4)
  {
    hide Stored, Field, Pow256;
    var a := if e.pcRelative then Stored(code, e.address, 4, Field(code, e.address, 4) - e.address) else code;
    var b := if e.clears then Stored(a, e.address, 4, 0) else a;
    if e.pcRelative {
      StoredApart(code, e.address, Field(code, e.address, 4) - e.address, pos);
    }
    if e.clears {
      StoredApart(a, e.address, 0, pos);
    }
    if e.inPlace {
      StoredApart(b, e.address, Field(b, e.address, 4) + e.offset, pos);
    }
  }

  lemma StoredApart(b: seq<Byte>, at: nat, v: int, pos: nat)
    requires at + 4 <= |b| && pos + 4 <= |b| && (pos + 4 <= at || at + 4 <= pos)
    ensures Field(Stored(b, at, 4, v), pos, 4) == Field(b, pos, 4)
  {
    forall p | pos <= p < pos + 4 ensures Stored(b, at, 4, v)[p] == b[p] {
      StoredElsewhere(b, at, 4, v, p);
    }
    FieldOf(Stored(b, at, 4, v), b, pos, 4);
  }

  /** Each field holds what its own relocation left there. */
  lemma {:induction false} EditedField(code: seq<Byte>, es: seq<Entry>, i: nat)
    requires AllInside(|code|, es) && FieldsApart(es) && i < |es|
    ensures Field(EditedAll(code, es), es[i].address, 4) == Left(code, es[i])
    decreases |es|
  {
    hide Edited, Stored, Field;
    var k := |es| - 1;
    var c, rest := Edited(code, es[k]), es[..k];
    if i == k {
      EditedHere(code, es[k]);
      EditedUntouched(c, rest, es[k].address);
    } else {
      EditedElsewhere(code, es[k], es[i].address);
      EditedField(c, rest, i);
      assert rest[i] == es[i];
    }
  }

  lemma {:induction false} EditedUntouched(code: seq<Byte>, es: seq<Entry>, pos: nat)
    requires AllInside(|code|, es) && pos + 4 <= |code|
    requires forall i :: 0 <= i < |es| ==> es[i].address + 4 <= pos || pos + 4 <= es[i].address
    ensures Field(EditedAll(code, es), pos, 4) == Field(code, pos, 4)
    decreases |es|
  {
    hide Edited, Stored, Field;
    if es != [] {
      var k := |es| - 1;
      EditedElsewhere(code, es[k], pos);
      EditedUntouched(Edited(code, es[k]), es[..k], pos);
    }
  }

  // ----- link time and load time together -----

  /** A word relocation against a section that keeps its addend: R_386_32 or
      R_386_PC32. */
  ghost predicate WordRelocation(e: Entry) {
    e.size == 4 && e.inPlace && !e.clears && e.indirect == 0
  }

  /** S + A, or S + A - P, for a field at `position` of section `s`: the meaning
      of R_386_32 and R_386_PC32 in chapter 4 of the System V ABI, Intel386
      supplement. */
  ghost function Meaning(e: Entry, addend: int, s: F.Section, target: F.Section, position: int): int {
    var S := target.base + e.offset;
    (S + addend - if e.pcRelative then s.base + position else 0) % WORD32
  }

  lemma LoadedField(s: F.Section, i: nat, e: Entry, target: F.Section, position: nat, left: int)
    requires F.AllFit(s) && i < |s.relocs| && s.relocs[i] == F.Reloc(4, Flags(e), position, target)
    requires e.indirect == 0 && Field(s.image, position, 4) == left % WORD32
    ensures F.Expected(s, i) == (left + target.base - if e.pcRelative then s.base else 0) % WORD32
  {
    hide Stored, Field, Pow256;
    WordSize();
    ModAdd(left, target.base - (if e.pcRelative then s.base else 0), WORD32);
  }

  lemma FieldMeans(code: seq<Byte>, e: Entry, s: F.Section, i: nat, target: F.Section, position: nat)
    requires e.address + 4 <= |code| && WordRelocation(e) && F.AllFit(s) && i < |s.relocs|
    requires s.relocs[i] == F.Reloc(e.size, Plain(e).flags, position, target)
             == F.Reloc(e.size, Turned(e, |code|).flags, position, target)
    requires position + 4 <= |s.image| && Field(s.image, position, 4) == Left(code, e)
    ensures F.Expected(s, i) ==
            (target.base + e.offset + Field(code, e.address, 4)
             - (if e.pcRelative then s.base + e.address else 0)) % WORD32
    ensures position == e.address ==> F.Expected(s, i) == Meaning(e, Field(code, e.address, 4), s, target, position)
    ensures e.pcRelative ==> Meaning(e, Field(code, e.address, 4), s, target, position) ==
                             (target.base + e.offset + Field(code, e.address, 4) - (s.base + position)) % WORD32
    ensures !e.pcRelative ==> F.Expected(s, i) == Meaning(e, Field(code, e.address, 4), s, target, position)
  {
    hide Stored, Field, Pow256;
    LoadedField(s, i, e, target, position,
        Field(code, e.address, 4) - (if e.pcRelative then e.address else 0) + e.offset);
  }

  /** Wherever the sections are placed, the edits of rlink and then those of riva
      leave in each field what its relocation asks for. `r` is the record that rlink
      leaves to the loader. */
  lemma RelocationMeans(code: seq<Byte>, es: seq<Entry>, i: nat, r: Record, s: F.Section, target: F.Section)
    requires AllInside(|code|, es) && FieldsApart(es) && i < |es| && WordRelocation(es[i])
    requires F.AllFit(s) && s.image == EditedAll(code, es) && i < |s.relocs|
    requires r == Plain(es[i]) && r.position >= 0 && s.relocs[i] == F.Reloc(r.size, r.flags, r.position, target)
    ensures F.Expected(s, i) == Meaning(es[i], Field(code, es[i].address, 4), s, target, es[i].address)
  {
    PlainIs(es[i]);
    hide *;
    InsideAt(|code|, es, i);
    EditedField(code, es, i);
    TurnedAt(es[i], |code|);
    FieldMeans(code, es[i], s, i, target, es[i].address);
  }

  /** A relocation against a symbol object gives the object and the offset. */
  lemma SymbolMeans(code: seq<Byte>, es: seq<Entry>, i: nat, r: Record, s: F.Section, target: F.Section)
    requires AllInside(|code|, es) && FieldsApart(es) && i < |es| && es[i].clears && !es[i].pcRelative
    requires es[i].size == 4 && es[i].inPlace && es[i].indirect == 0
    requires F.AllFit(s) && s.image == EditedAll(code, es) && i < |s.relocs|
    requires r == Plain(es[i]) && r.position >= 0 && s.relocs[i] == F.Reloc(r.size, r.flags, r.position, target)
    ensures F.Expected(s, i) == (target.base + es[i].offset) % WORD32
  {
    hide Stored, Field, EditedAll, Edited;
    EditedField(code, es, i);
    LoadedField(s, i, es[i], target, es[i].address, es[i].offset);
  }

  /** What rlink leaves in a word, before it is reduced. */
  ghost function Addend(code: seq<Byte>, e: Entry): int
    requires e.address + 4 <= |code|
  {
    (if e.clears then 0 else Field(code, e.address, 4) - if e.pcRelative then e.address else 0)
    + if e.inPlace then e.offset else 0
  }

  /** Any word relocation, by its flags. Those through the offset table (2 and 4)
      leave the address of the link in the field, and in the link the place of the
      symbol; 3 is the distance to the offset table itself. */
  lemma LoadedMeans(code: seq<Byte>, es: seq<Entry>, i: nat, r: Record, s: F.Section, target: F.Section)
    requires AllInside(|code|, es) && FieldsApart(es) && i < |es| && es[i].size == 4 && es[i].indirect <= 4
    requires s.image == EditedAll(code, es) && i < |s.relocs| && F.Finished(s) && F.FieldsApart(s)
    requires r == Plain(es[i]) && r.position >= 0 && s.relocs[i] == F.Reloc(r.size, r.flags, r.position, target)
    ensures es[i].address + 4 <= |code| && es[i].address + 4 <= s.Bytes.Length && i < s.Links.Length
    ensures var e := es[i];
            var after := Field(s.Bytes[..], e.address, 4);
            var left := (if e.clears then 0 else Field(code, e.address, 4) - if e.pcRelative then e.address else 0)
                        + if e.inPlace then e.offset else 0;
            match e.indirect
            case 0 => after == (left + target.base - if e.pcRelative then s.base else 0) % 0x1_0000_0000
            case 1 => after == (left + target.base - s.base) % 0x1_0000_0000
            case 3 =>
              after == (if s.kind == F.Text then left + s.got - s.base else left - target.base) % 0x1_0000_0000
            case _ =>
              if s.kind == F.Text then
                && after == (s.linksBase + 4 * i) % 0x1_0000_0000
                && s.Links[i] == (target.base + left) % 0x1_0000_0000
              else after == (left + target.base) % 0x1_0000_0000
  {
    hide *;
    Below();
    PlainIs(es[i]);
    InsideAt(|code|, es, i);
    EditedField(code, es, i);
    LeftIs(code, es[i]);
    FinishedWith(s, i, Addend(code, es[i]));
  }

  /** What a finished field holds, by what rlink left in it. */
  lemma FinishedWith(s: F.Section, i: nat, left: int)
    requires F.Finished(s) && F.FieldsApart(s) && i < |s.relocs| && s.relocs[i].size == 4 && s.relocs[i].flags <= 4
    requires s.relocs[i].pos + 4 <= |s.image| && Field(s.image, s.relocs[i].pos, 4) == left % WORD32
    ensures |s.image| == s.Bytes.Length && i < s.Links.Length
    ensures var r := s.relocs[i];
            var after := Field(s.Bytes[..], r.pos, 4);
            match r.flags
            case 0 => after == (left + r.target.base) % 0x1_0000_0000
            case 1 => after == (left + r.target.base - s.base) % 0x1_0000_0000
            case 3 =>
              after == (if s.kind == F.Text then left + s.got - s.base else left - r.target.base) % 0x1_0000_0000
            case _ =>
              if s.kind == F.Text then
                && after == (s.linksBase + 4 * i) % 0x1_0000_0000
                && s.Links[i] == (r.target.base + left) % 0x1_0000_0000
              else after == (left + r.target.base) % 0x1_0000_0000
  {
    hide *;
    var base := s.relocs[i].target.base;
    F.FinishedField(s, i);
    Reduced(left, base);
    Reduced(left, base - s.base);
    Reduced(left, s.got - s.base);
    Reduced(left, 0 - base);
  }

  lemma Reduced(left: int, x: int)
    ensures WORD32 == 0x1_0000_0000 && (left % WORD32 + x) % 0x1_0000_0000 == (left + x) % 0x1_0000_0000
  {
    ModAdd(left, x, WORD32);
  }

  lemma PlainIs(e: Entry)
    ensures Plain(e).position == e.address && Plain(e).size == e.size
    ensures Plain(e).flags == if e.indirect != 0 then e.indirect else if e.pcRelative then 1 else 0
  {
  }

  lemma LeftIs(code: seq<Byte>, e: Entry)
    requires e.address + 4 <= |code|
    ensures Left(code, e) == Addend(code, e) % WORD32
    ensures var left := if e.clears then 0 else Field(code, e.address, 4) - if e.pcRelative then e.address else 0;
            Addend(code, e) == left + if e.inPlace then e.offset else 0
  {
    hide Field;
  }

  lemma {:induction false} SameField(a: seq<Byte>, p: nat, b: seq<Byte>, q: nat, size: nat)
    requires p + size <= |a| && q + size <= |b| && forall k :: p <= k < p + size ==> a[k] == b[q + k - p]
    ensures Field(a, p, size) == Field(b, q, size)
    decreases size
  {
    if size > 0 {
      SameField(a, p + 1, b, q + 1, size - 1);
    }
  }

  /** Turning a section round moves a field to the mirror position. */
  lemma FieldTurned(b: seq<Byte>, junk: seq<Byte>, r: seq<Byte>, address: nat)
    requires |junk| == |b| && WordsReversed(b, junk, r) && address + 4 <= |b| && (|b| - address) % 4 == 0
    ensures Field(r, |b| - address - 4, 4) == Field(b, address, 4)
  {
    var n := |b|;
    var w := (n - address) / 4 - 1;
    assert n - address - 4 == 4 * w;
    forall k | 4 * w <= k < 4 * w + 4 ensures r[k] == b[address + k - 4 * w] {
      SourceIn(n, w, k - 4 * w);
    }
    SameField(r, 4 * w, b, address, 4);
  }

  /** In a .ctors section absolute relocations mean what they should.  A
      pc-relative one does exactly if its word is the middle one, because the
      code subtracts the place the field had before it was moved. */
  lemma CtorsMeans(code: seq<Byte>, es: seq<Entry>, i: nat, junk: seq<Byte>, r: Record, s: F.Section, j: nat,
                   target: F.Section)
    requires AllInside(|code|, es) && FieldsApart(es) && i < |es| && WordRelocation(es[i])
    requires |junk| == |code| <= WORD32 && (|code| - es[i].address) % 4 == 0
    requires F.AllFit(s) && WordsReversed(EditedAll(code, es), junk, s.image) && j < |s.relocs|
    requires r == Turned(es[i], |code|) && r.position >= 0
    requires s.relocs[j] == F.Reloc(r.size, r.flags, r.position, target)
    ensures F.Expected(s, j) == Meaning(es[i], Field(code, es[i].address, 4), s, target, |code| - es[i].address - 4)
            <==> !es[i].pcRelative || |code| - es[i].address - 4 == es[i].address
  {
    hide *;
    var e, at := es[i], |code| - es[i].address - 4;
    InsideAt(|code|, es, i);
    EditedField(code, es, i);
    FieldTurned(EditedAll(code, es), junk, s.image, e.address);
    SameSize(EditedAll(code, es), junk, s.image);
    TurnedAt(e, |code|);
    FieldMeans(code, e, s, j, target, at);
    if e.pcRelative {
      var x := target.base + e.offset + Field(code, e.address, 4);
      Below();
      SameMod(x - (s.base + e.address), x - (s.base + at), WORD32);
    }
  }

  /** The first of two words, pc-relative, with offset 0. */
  const FIRST := Entry(0, 4, true, true, 0, 0, false)

  /** A pc-relative word that is the first of two in a .ctors section, everything
      at address 0: it ends up holding 0 where S + A - P is -4. */
  method CtorsWord() returns (s: F.Section, target: F.Section)
    ensures |s.relocs| == 1 && F.AllFit(s) && s.relocs[0].size == 4 && s.relocs[0].pos == 4
    ensures F.Expected(s, 0) == 0 && Meaning(FIRST, 0, s, target, 4) == 0xFFFF_FFFC
  {
    FirstFits();
    hide *;
    var code := new Byte[8](_ => 0);
    ghost var before := code[..];
    var junk := seq(8, _ => 0);
    var relocs, turned := SetupCtors(code, [FIRST], junk);
    TurnedAt(FIRST, 8);
    SameSize(code[..], junk, turned[..]);
    var none := new Byte[0];
    var noLinks := new int[0];
    target := new F.Section(F.Text, 0, 0, 0, [], none, noLinks);
    var links := new int[1](_ => 0);
    s := new F.Section(F.Text, 0, 0, 0, [F.Reloc(4, 1, 4, target)], turned, links);
    CtorsValue(before, junk, s, target);
  }

  lemma FirstFits()
    ensures AllInside(8, [FIRST]) && FieldsApart([FIRST]) && WordRelocation(FIRST)
    ensures FIRST == Entry(0, 4, true, true, 0, 0, false) && F.RELOC_REL == 1 && Flags(FIRST) == 1
    ensures Plain(FIRST).flags == Turned(FIRST, 8).flags == 1
  {
  }

  lemma OneFits(s: F.Section)
    requires |s.relocs| == 1 && s.relocs[0].size == 4 && s.relocs[0].pos == 4 && |s.image| == 8
    ensures F.AllFit(s)
  {
  }

  lemma CtorsValue(before: seq<Byte>, junk: seq<Byte>, s: F.Section, target: F.Section)
    requires |before| == |junk| == 8 && (forall i :: 0 <= i < 8 ==> before[i] == 0) && AllInside(8, [FIRST])
    requires WordsReversed(EditedAll(before, [FIRST]), junk, s.image) && s.base == target.base == 0
    requires s.relocs == [F.Reloc(4, 1, 4, target)]
    ensures |s.image| == 8 && F.AllFit(s)
    ensures F.Expected(s, 0) == 0 && Meaning(FIRST, 0, s, target, 4) == 0xFFFF_FFFC
  {
    FirstFits();
    Below();
    hide *;
    ZeroField(before);
    EditedField(before, [FIRST], 0);
    SameSize(EditedAll(before, [FIRST]), junk, s.image);
    FieldTurned(EditedAll(before, [FIRST]), junk, s.image, 0);
    OneFits(s);
    FieldMeans(before, FIRST, s, 0, target, 4);
  }

  lemma ZeroField(b: seq<Byte>)
    requires |b| == 8 && forall i :: 0 <= i < 8 ==> b[i] == 0
    ensures Field(b, 0, 4) == 0
  {
    assert Field(b, 4, 0) == 0;
    assert Field(b, 3, 1) == 0;
    assert Field(b, 2, 2) == 0;
    assert Field(b, 1, 3) == 0;
  }

  lemma InsideAt(n: nat, es: seq<Entry>, i: nat)
    requires AllInside(n, es) && i < |es|
    ensures es[i].address + 4 <= n
  {
  }

  lemma Below()
    ensures WORD32 == 0x1_0000_0000
  {
  }

  lemma SameSize(b: seq<Byte>, junk: seq<Byte>, r: seq<Byte>)
    requires |junk| == |b| && WordsReversed(b, junk, r)
    ensures |r| == |b|
  {
  }

  lemma TurnedAt(e: Entry, n: nat)
    ensures Turned(e, n).position == n - e.address - 4 && Turned(e, n).flags == Plain(e).flags
    ensures Turned(e, n).size == e.size
  {
  }

  lemma SameMod(x: int, y: int, m: nat)
    requires 0 < m && y < x + m && x < y + m
    ensures x % m == y % m <==> x == y
  {
    if x % m == y % m {
      var k := x / m - y / m;
      assert x - y == m * k by {
        Distribute(m, x / m, y / m);
      }
      Words.Apart(m, k);
    }
  }
}
