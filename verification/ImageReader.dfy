/** The part of dev/src/riva/riva.c that reads an image (riva_load), and what it
    makes of the images that rlink writes. */
module ImageReader {
  import opened ImageFormat
  import opened ImageWriter
  import opened Options
  import opened Words

  /** Did a read give what parsing gives, and leave what parsing leaves? */
  ghost predicate Read<T>(p: Parsed<T>, r: Option<T>, rest: seq<Byte>) {
    match p
    case Fail => r == None
    case Ok(v, left) => r == Some(v) && rest == left
  }

  class Input {
    var rest: seq<Byte>

    constructor (data: seq<Byte>)
      ensures rest == data
    {
      rest := data;
    }

    method Read1() returns (r: Option<Byte>)
      modifies this
      ensures Read(ParseByte(old(rest)), r, rest)
    {
      if rest == [] {
        return None;
      }
      r := Some(rest[0]);
      rest := rest[1..];
    }

    method Read4() returns (r: Option<Word>)
      modifies this
      ensures Read(ParseWord(old(rest)), r, rest)
    {
      if |rest| < 4 {
        return None;
      }
      r := Some(WordOf(rest[0], rest[1], rest[2], rest[3]));
      rest := rest[4..];
    }

    method ReadBytes(n: nat) returns (r: Option<seq<Byte>>)
      modifies this
      ensures Read(ParseBytes(n, old(rest)), r, rest)
    {
      if |rest| < n {
        return None;
      }
      r := Some(rest[..n]);
      rest := rest[n..];
    }

    method ReadName() returns (r: Option<seq<Byte>>)
      modifies this
      ensures Read(ParseName(old(rest)), r, rest)
    {
      hide ParseWord, ParseBytes;
      var n := Read4();
      if n == None {
        return None;
      }
      r := ReadBytes(n.value);
    }

    method ReadReloc() returns (r: Option<Reloc>)
      modifies this
      ensures Read(ParseReloc(old(rest)), r, rest)
    {
      hide ParseByte, ParseWord;
      var size := Read1();
      if size == None {
        return None;
      }
      var flags := Read1();
      if flags == None {
        return None;
      }
      var position := Read4();
      if position == None {
        return None;
      }
      var section := Read4();
      if section == None {
        return None;
      }
      r := Some(Reloc(size.value, flags.value, position.value, section.value));
    }

    method ReadExport() returns (r: Option<Export>)
      modifies this
      ensures Read(ParseExport(old(rest)), r, rest)
    {
      hide ParseByte, ParseWord, ParseName;
      var flags := Read1();
      if flags == None {
        return None;
      }
      var section := Read4();
      if section == None {
        return None;
      }
      var offset := Read4();
      if offset == None {
        return None;
      }
      var name := ReadName();
      if name == None {
        return None;
      }
      r := Some(Export(flags.value, section.value, offset.value, name.value));
    }

    method ReadRequire() returns (r: Option<Require>)
      modifies this
      ensures Read(ParseRequire(old(rest)), r, rest)
    {
      hide ParseByte, ParseName;
      var flags := Read1();
      if flags == None {
        return None;
      }
      var name := ReadName();
      if name == None {
        return None;
      }
      r := Some(Require(flags.value, name.value));
    }

    method ReadRelocs(n: nat) returns (r: Option<seq<Reloc>>)
      modifies this
      ensures Read(ParseMany(n, ParseReloc, old(rest)), r, rest)
    {
      hide *;
      var xs := [];
      BehindStart(n, ParseReloc, rest);
      for i := 0 to n
        invariant ParseMany(n, ParseReloc, old(rest)) == Behind(xs, ParseMany(n - i, ParseReloc, rest))
      {
        ghost var before := rest;
        BehindStep(xs, n - i, ParseReloc, rest);
        var x := ReadReloc();
        ReadIs(ParseReloc(before), x, rest);
        ReadIs(ParseMany(n, ParseReloc, old(rest)), None, rest);
        if x == None {
          return None;
        }
        xs := xs + [x.value];
      }
      BehindEnd(xs, ParseReloc, rest);
      r := Some(xs);
      ReadIs(ParseMany(n, ParseReloc, old(rest)), r, rest);
    }

    method ReadExports(n: nat) returns (r: Option<seq<Export>>)
      modifies this
      ensures Read(ParseMany(n, ParseExport, old(rest)), r, rest)
    {
      hide *;
      var xs := [];
      BehindStart(n, ParseExport, rest);
      for i := 0 to n
        invariant ParseMany(n, ParseExport, old(rest)) == Behind(xs, ParseMany(n - i, ParseExport, rest))
      {
        ghost var before := rest;
        BehindStep(xs, n - i, ParseExport, rest);
        var x := ReadExport();
        ReadIs(ParseExport(before), x, rest);
        ReadIs(ParseMany(n, ParseExport, old(rest)), None, rest);
        if x == None {
          return None;
        }
        xs := xs + [x.value];
      }
      BehindEnd(xs, ParseExport, rest);
      r := Some(xs);
      ReadIs(ParseMany(n, ParseExport, old(rest)), r, rest);
    }

    method ReadRequires(n: nat) returns (r: Option<seq<Require>>)
      modifies this
      ensures Read(ParseMany(n, ParseRequire, old(rest)), r, rest)
    {
      hide *;
      var xs := [];
      BehindStart(n, ParseRequire, rest);
      for i := 0 to n
        invariant ParseMany(n, ParseRequire, old(rest)) == Behind(xs, ParseMany(n - i, ParseRequire, rest))
      {
        ghost var before := rest;
        BehindStep(xs, n - i, ParseRequire, rest);
        var x := ReadRequire();
        ReadIs(ParseRequire(before), x, rest);
        ReadIs(ParseMany(n, ParseRequire, old(rest)), None, rest);
        if x == None {
          return None;
        }
        xs := xs + [x.value];
      }
      BehindEnd(xs, ParseRequire, rest);
      r := Some(xs);
      ReadIs(ParseMany(n, ParseRequire, old(rest)), r, rest);
    }

    /** The cases of SECT_TEXT, and of SECT_DATA and its kin. */
    method ReadCode(kind: Byte, flags: Byte) returns (r: Option<Record>)
      modifies this
      ensures Read(ParseCode(kind, flags, old(rest)), r, rest)
    {
      hide ParseWord, ParseBytes, ParseMany;
      var length := Read4();
      if length == None {
        return None;
      }
      var n := Read4();
      if n == None {
        return None;
      }
      var bytes := ReadBytes(length.value);
      if bytes == None {
        return None;
      }
      var relocs := ReadRelocs(n.value);
      if relocs == None {
        return None;
      }
      r := Some(Code(kind, flags, bytes.value, relocs.value));
    }

    /** The case of SECT_IMPORT. */
    method ReadImport(flags: Byte) returns (r: Option<Record>)
      modifies this
      ensures Read(ParseImport(flags, old(rest)), r, rest)
    {
      hide ParseWord, ParseName;
      var library := Read4();
      if library == None {
        return None;
      }
      var name := ReadName();
      if name == None {
        return None;
      }
      r := Some(Import(flags, library.value, name.value));
    }

    /** The case of SECT_SYMBOL. */
    method ReadSymbol(flags: Byte) returns (r: Option<Record>)
      modifies this
      ensures Read(ParseSymbol(flags, old(rest)), r, rest)
    {
      hide ParseWord, ParseBytes;
      var length := Read4();
      if length == None {
        return None;
      }
      if length.value == ANONYMOUS {
        return Some(Symbol(flags, None));
      }
      var name := ReadBytes(length.value);
      if name == None {
        return None;
      }
      r := Some(Symbol(flags, Some(name.value)));
    }

    /** The case of SECT_CONSTANT. */
    method ReadConstant(flags: Byte) returns (r: Option<Record>)
      modifies this
      ensures Read(ParseConstant(flags, old(rest)), r, rest)
    {
      hide ParseWord;
      var init := Read4();
      if init == None {
        return None;
      }
      var offset := Read4();
      if offset == None {
        return None;
      }
      r := Some(Constant(flags, init.value, offset.value));
    }

    /** The case of SECT_MODULE. */
    method ReadModule(flags: Byte) returns (r: Option<Record>)
      modifies this
      ensures Read(ParseModule(flags, old(rest)), r, rest)
    {
      hide ParseWord, ParseMany;
      var n := Read4();
      if n == None {
        return None;
      }
      var exports := ReadExports(n.value);
      if exports == None {
        return None;
      }
      r := Some(Module(flags, exports.value));
    }

    method ReadBody(kind: Byte, flags: Byte) returns (r: Option<Record>)
      modifies this
      ensures Read(ParseBody(kind, flags, old(rest)), r, rest)
    {
      hide ParseCode, ParseName, ParseImport, ParseWord, ParseSymbol, ParseConstant, ParseModule;
      if IsCode(kind) {
        r := ReadCode(kind, flags);
      } else if kind == LIBRARY {
        var name := ReadName();
        if name == None {
          return None;
        }
        r := Some(Library(flags, name.value));
      } else if kind == IMPORT {
        r := ReadImport(flags);
      } else if IsSpace(kind) {
        var size := Read4();
        if size == None {
          return None;
        }
        r := Some(Space(kind, flags, size.value));
      } else if kind == SYMBOL {
        r := ReadSymbol(flags);
      } else if kind == CONSTANT {
        r := ReadConstant(flags);
      } else {
        r := ReadModule(flags);
      }
    }

    /** One turn of the loop over the sections. */
    method ReadRecord() returns (r: Option<Record>)
      modifies this
      ensures Read(ParseRecord(old(rest)), r, rest)
    {
      hide ParseByte, ParseBody;
      var kind := Read1();
      if kind == None || kind.value == TDATA {
        return None;
      }
      if !HasBody(kind.value) {
        return Some(Unknown(kind.value));
      }
      var flags := Read1();
      if flags == None {
        return None;
      }
      r := ReadBody(kind.value, flags.value);
    }

    method ReadRecords(n: nat) returns (r: Option<seq<Record>>)
      modifies this
      ensures Read(ParseMany(n, ParseRecord, old(rest)), r, rest)
    {
      hide *;
      var xs := [];
      BehindStart(n, ParseRecord, rest);
      for i := 0 to n
        invariant ParseMany(n, ParseRecord, old(rest)) == Behind(xs, ParseMany(n - i, ParseRecord, rest))
      {
        ghost var before := rest;
        BehindStep(xs, n - i, ParseRecord, rest);
        var x := ReadRecord();
        ReadIs(ParseRecord(before), x, rest);
        ReadIs(ParseMany(n, ParseRecord, old(rest)), None, rest);
        if x == None {
          return None;
        }
        xs := xs + [x.value];
      }
      BehindEnd(xs, ParseRecord, rest);
      r := Some(xs);
      ReadIs(ParseMany(n, ParseRecord, old(rest)), r, rest);
    }

    method ReadHeader() returns (r: Option<Header>)
      modifies this
      ensures Read(ParseHeader(old(rest)), r, rest)
    {
      hide ParseWord;
      var version := Read4();
      if version == None {
        return None;
      }
      var source := Read4();
      if source == None {
        return None;
      }
      var sections := Read4();
      if sections == None {
        return None;
      }
      var exports := Read4();
      if exports == None {
        return None;
      }
      var needs := Read4();
      if needs == None {
        return None;
      }
      r := Some(Header(version.value, source.value, sections.value, exports.value, needs.value));
    }

    method ReadLists(h: Header) returns (r: Option<Image>)
      modifies this
      ensures Read(ParseLists(h, old(rest)), r, rest)
    {
      hide ParseMany;
      var sections := ReadRecords(h.sections);
      if sections == None {
        return None;
      }
      var exports := ReadExports(h.exports);
      if exports == None {
        return None;
      }
      var needs := ReadRequires(h.needs);
      if needs == None {
        return None;
      }
      r := Some(Image(h.version, h.source, sections.value, exports.value, needs.value));
    }

    /** riva_load, up to the point where the image is read. */
    method Load() returns (r: Option<Image>)
      modifies this
      ensures Read(ParseImage(old(rest)), r, rest)
    {
      hide ParseHeader, ParseLists;
      if |rest| < 4 || rest[..4] != [0x52, 0x49, 0x56, 0x41] {
        return None;
      }
      rest := rest[4..];
      var h := ReadHeader();
      if h == None {
        return None;
      }
      r := ReadLists(h.value);
    }
  }

  // ----- loops as parsers -----

  /** Values that were parsed before. */
  ghost function Behind<T>(xs: seq<T>, p: Parsed<seq<T>>): Parsed<seq<T>> {
    match p
    case Fail => Fail
    case Ok(ys, rest) => Ok(xs + ys, rest)
  }

  lemma BehindStart<T>(n: nat, p: seq<Byte> -> Parsed<T>, b: seq<Byte>)
    ensures ParseMany(n, p, b) == Behind([], ParseMany(n, p, b))
  {
    if ParseMany(n, p, b).Ok? {
      var v := ParseMany(n, p, b).value;
      assert [] + v == v;
    }
  }

  lemma BehindStep<T>(xs: seq<T>, n: nat, p: seq<Byte> -> Parsed<T>, b: seq<Byte>)
    requires n > 0
    ensures p(b).Fail? ==> Behind(xs, ParseMany(n, p, b)) == Fail
    ensures p(b).Ok? ==> Behind(xs, ParseMany(n, p, b)) == Behind(xs + [p(b).value], ParseMany(n - 1, p, p(b).rest))
  {
    if p(b).Ok? && ParseMany(n - 1, p, p(b).rest).Ok? {
      var ys := ParseMany(n - 1, p, p(b).rest).value;
      assert xs + ([p(b).value] + ys) == xs + [p(b).value] + ys;
    }
  }

  lemma BehindEnd<T>(xs: seq<T>, p: seq<Byte> -> Parsed<T>, b: seq<Byte>)
    ensures Behind(xs, ParseMany(0, p, b)) == Ok(xs, b)
  {
    assert xs + [] == xs;
  }

  lemma ReadIs<T>(p: Parsed<T>, r: Option<T>, rest: seq<Byte>)
    ensures Read(p, r, rest) <==> if p.Fail? then r == None else r == Some(p.value) && rest == p.rest
  {
  }

  // ----- the round trip -----

  lemma {:induction false} ExportsFit(es: seq<LinkExport>)
    requires forall i :: 0 <= i < |es| ==> Fits(Ended(es[i].external))
    ensures |ExportsOf(es)| <= |es| && forall i :: 0 <= i < |ExportsOf(es)| ==> Fits(ExportsOf(es)[i].name)
    ensures |ExportsOf(es)| == |es| <==> forall i :: 0 <= i < |es| ==> es[i].section.Some?
  {
    if es != [] {
      ExportsFit(es[1..]);
      if forall i :: 0 <= i < |es| ==> es[i].section.Some? {
        assert forall i :: 0 <= i < |es[1..]| ==> es[1..][i] == es[i + 1];
      }
      if es[0].section.Some? && forall i :: 0 <= i < |es[1..]| ==> es[1..][i].section.Some? {
        assert forall i :: 0 < i < |es| ==> es[i] == es[1..][i - 1];
      }
    }
  }

  lemma SoundRecord(s: Section)
    requires Holdable(s)
    ensures Sound(RecordOf(s))
  {
    match s
    case ModuleSection(exports) => ExportsFit(exports);
    case _ =>
  }

  /** What the loader is to make of an image. */
  ghost function Meant(source: Word, sections: seq<Section>, exports: seq<LinkExport>,
      needs: seq<LinkRequire>): Image {
    Image(RIVA_VERSION, source, RecordsOf(sections), ExportsOf(exports), RequiresOf(needs))
  }

  lemma Lists(h: Header, records: seq<Record>, exports: seq<Export>, needs: seq<Require>, rest: seq<Byte>)
    requires h.sections == |records| && h.exports == |exports| && h.needs == |needs|
    requires forall i :: 0 <= i < |records| ==> Sound(records[i])
    requires forall i :: 0 <= i < |exports| ==> Fits(exports[i].name)
    requires forall i :: 0 <= i < |needs| ==> Fits(needs[i].name)
    ensures ParseLists(h, Concat(records, EncodeRecord)
              + (Concat(exports, EncodeExport) + (Concat(needs, EncodeRequire) + rest)))
            == Ok(Image(h.version, h.source, records, exports, needs), rest)
  {
    hide ParseMany, Concat, Sound, Fits;
    var b2 := Concat(needs, EncodeRequire) + rest;
    var b1 := Concat(exports, EncodeExport) + b2;
    RecordsBack(records, b1);
    ExportsBack(exports, b2);
    RequiresBack(needs, rest);
  }

  lemma AfterMagic(h: Header, rest: seq<Byte>)
    ensures ParseImage(MAGIC + EncodeHeader(h) + rest) == ParseLists(h, rest)
  {
    hide ParseHeader, EncodeHeader, ParseLists;
    var b := MAGIC + EncodeHeader(h) + rest;
    assert b[..4] == MAGIC && b[4..] == EncodeHeader(h) + rest;
    HeaderBack(h, rest);
  }

  lemma ImageParts(source: Word, sections: seq<Section>, exports: seq<LinkExport>, needs: seq<LinkRequire>)
    ensures ImageBytes(source, sections, exports, needs)
            == MAGIC + EncodeHeader(Header(RIVA_VERSION, source, Length(sections), Length(exports), Length(needs)))
               + (Concat(RecordsOf(sections), EncodeRecord)
                  + (Concat(ExportsOf(exports), EncodeExport) + (Concat(RequiresOf(needs), EncodeRequire) + [])))
  {
    hide Concat, EncodeHeader, RecordsOf, ExportsOf, RequiresOf, Length;
    var a := MAGIC + EncodeHeader(Header(RIVA_VERSION, source, Length(sections), Length(exports), Length(needs)));
    Nest(a, Concat(RecordsOf(sections), EncodeRecord), Concat(ExportsOf(exports), EncodeExport),
        Concat(RequiresOf(needs), EncodeRequire));
  }

  lemma Nest(a: seq<Byte>, b: seq<Byte>, c: seq<Byte>, d: seq<Byte>)
    ensures a + b + c + d == a + (b + (c + (d + [])))
  {
  }

  /** Reading an image gives as many exports as its header counts. */
  lemma ExportCount(h: Header, b: seq<Byte>)
    ensures ParseLists(h, b).Ok? ==> |ParseLists(h, b).value.exports| == h.exports
  {
    hide ParseMany;
    var s := ParseMany(h.sections, ParseRecord, b);
    if s.Ok? {
      ManyLength(h.exports, ParseExport, s.rest);
    }
  }

  /** Reading what was written gives every section, export and requirement back,
      exactly if every export has a section: the header counts the others too. */
  lemma ImageBack(source: Word, sections: seq<Section>, exports: seq<LinkExport>, needs: seq<LinkRequire>)
    requires HoldableImage(sections, exports, needs)
    ensures ParseImage(ImageBytes(source, sections, exports, needs))
            == Ok(Meant(source, sections, exports, needs), [])
            <==> forall i :: 0 <= i < |exports| ==> exports[i].section.Some?
  {
    ImageReady(sections, exports, needs);
    var h := Header(RIVA_VERSION, source, |sections|, |exports|, |needs|);
    assert h == Header(RIVA_VERSION, source, Length(sections), Length(exports), Length(needs));
    var rest := Concat(RecordsOf(sections), EncodeRecord)
                + (Concat(ExportsOf(exports), EncodeExport) + (Concat(RequiresOf(needs), EncodeRequire) + []));
    assert Meant(source, sections, exports, needs).exports == ExportsOf(exports);
    assert Meant(source, sections, exports, needs)
        == Image(h.version, h.source, RecordsOf(sections), ExportsOf(exports), RequiresOf(needs));
    hide *;
    ImageParts(source, sections, exports, needs);
    AfterMagic(h, rest);
    ExportCount(h, rest);
    if |ExportsOf(exports)| == |exports| {
      Lists(h, RecordsOf(sections), ExportsOf(exports), RequiresOf(needs), []);
    }
  }

  /** An image whose one export has no section cannot be read: its header counts
      an export that is not there. */
  lemma ExportLost()
    ensures HoldableImage([], [LinkExport(None, 0, 0, [65])], [])
    ensures ParseImage(ImageBytes(0, [], [LinkExport(None, 0, 0, [65])], [])) == Fail
  {
    var e := LinkExport(None, 0, 0, [65]);
    var h := Header(RIVA_VERSION, 0, 0, 1, 0);
    assert [e][1..] == [] && ExportsOf([e]) == [];
    ImageParts(0, [], [e], []);
    var nothing := Concat(RecordsOf([]), EncodeRecord)
                   + (Concat(ExportsOf([e]), EncodeExport) + (Concat(RequiresOf([]), EncodeRequire) + []));
    assert nothing == [];
    hide EncodeHeader, ImageBytes, ParseImage;
    AfterMagic(h, []);
  }

  lemma ImageReady(sections: seq<Section>, exports: seq<LinkExport>, needs: seq<LinkRequire>)
    requires HoldableImage(sections, exports, needs)
    ensures |sections| < 0x1_0000_0000 && |exports| < 0x1_0000_0000 && |needs| < 0x1_0000_0000
    ensures |RecordsOf(sections)| == |sections| && |RequiresOf(needs)| == |needs|
    ensures forall i :: 0 <= i < |RecordsOf(sections)| ==> Sound(RecordsOf(sections)[i])
    ensures forall i :: 0 <= i < |ExportsOf(exports)| ==> Fits(ExportsOf(exports)[i].name)
    ensures forall i :: 0 <= i < |RequiresOf(needs)| ==> Fits(RequiresOf(needs)[i].name)
    ensures |ExportsOf(exports)| == |exports| <==> forall i :: 0 <= i < |exports| ==> exports[i].section.Some?
  {
    hide Holdable, Sound, ExportsOf;
    ExportsFit(exports);
    forall i | 0 <= i < |sections| ensures Sound(RecordsOf(sections)[i]) {
      SoundRecord(sections[i]);
    }
  }

  lemma GroupRelocsFirst(b: Block, bs: seq<Block>, offset: nat)
    requires offset < WORD32
    ensures (offset + |b.code|) % WORD32 < WORD32 && (offset + |b.code|) % WORD32 >= 0
    ensures GroupRelocs([b] + bs, offset) == RelocsOf(b.relocs, offset) + GroupRelocs(bs, (offset + |b.code|) % WORD32)
    ensures |Codes([b] + bs)| == |b.code| + |Codes(bs)|
    ensures ((offset + |b.code|) % WORD32 + |Codes(bs)|) % WORD32 == (offset + |Codes([b] + bs)|) % WORD32
  {
    var s := [b] + bs;
    assert s[0] == b && s[1..] == bs;
    ModAdd(offset + |b.code|, |Codes(bs)|, WORD32);
  }

  lemma {:induction false} GroupRelocsJoin(a: seq<Block>, b: seq<Block>, offset: nat)
    requires offset < WORD32
    ensures GroupRelocs(a + b, offset) == GroupRelocs(a, offset) + GroupRelocs(b, (offset + |Codes(a)|) % WORD32)
  {
    if a == [] {
      assert a + b == b;
    } else {
      var x, rest := a[0], a[1..];
      assert a == [x] + rest && a + b == [x] + (rest + b);
      hide *;
      GroupRelocsFirst(x, rest, offset);
      GroupRelocsFirst(x, rest + b, offset);
      var next := (offset + |x.code|) % WORD32;
      GroupRelocsJoin(rest, b, next);
      Together(RelocsOf(x.relocs, offset), GroupRelocs(rest, next), GroupRelocs(b, (next + |Codes(rest)|) % WORD32));
    }
  }

  lemma Together(a: seq<Reloc>, b: seq<Reloc>, c: seq<Reloc>)
    ensures a + (b + c) == a + b + c
  {
  }

  /** The relocations of a block are moved by the length of the code before it. */
  lemma GroupRelocsAt(a: seq<Block>, b: Block, c: seq<Block>, k: nat)
    requires k < |b.relocs|
    ensures var i := |GroupRelocs(a, 0)| + k;
            i < |GroupRelocs(a + ([b] + c), 0)|
            && GroupRelocs(a + ([b] + c), 0)[i] == RelocOf(b.relocs[k], |Codes(a)| % WORD32)
            && GroupRelocs(a + ([b] + c), 0)[i] ==
               Reloc(b.relocs[k].size % 256, b.relocs[k].flags % 256,
                     (b.relocs[k].position + |Codes(a)|) % 0x1_0000_0000, b.relocs[k].section)
  {
    GroupRelocsJoin(a, [b] + c, 0);
    assert ([b] + c)[0] == b;
    ModAdd(|Codes(a)|, b.relocs[k].position, WORD32);
  }

  /** A relocation of a block names the same bytes after the blocks are joined. */
  lemma GroupField(a: seq<Block>, b: Block, c: seq<Block>, position: nat, size: nat)
    requires position + size <= |b.code|
    ensures |Codes(a)| + position + size <= |Codes(a + [b] + c)|
    ensures Field(Codes(a + [b] + c), |Codes(a)| + position, size) == Field(b.code, position, size)
  {
    OneCode(b);
    hide *;
    CodesJoin(a + [b], c);
    CodesJoin(a, [b]);
    ShiftedField(Codes(a), b.code, Codes(c), position, size);
  }

  lemma OneCode(b: Block)
    ensures Codes([b]) == b.code
  {
    assert [b][1..] == [];
    assert Codes([b]) == b.code + [];
  }

  lemma {:induction false} ShiftedField(a: seq<Byte>, b: seq<Byte>, c: seq<Byte>, position: nat, size: nat)
    requires position + size <= |b|
    ensures Field(a + b + c, |a| + position, size) == Field(b, position, size)
    decreases size
  {
    if size > 0 {
      ShiftedField(a, b, c, position + 1, size - 1);
    }
  }
}
