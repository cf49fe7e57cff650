/** The writers of dev/src/rlink/rlink.c: each kind of section, and the image. */
module ImageWriter {
  import opened ImageFormat
  import opened Options
  import opened Words

  const RIVA_VERSION: Word := 3
  const FLAG_GC := 1
  const LIBRARY_REL: Byte := 1
  const DOT: Byte := 46

  /** A relocation, with the index of the section it is against. */
  datatype Relocation = Relocation(flags: nat, position: Word, size: nat, section: Word)

  datatype Block = Block(code: seq<Byte>, relocs: seq<Relocation>)

  /** An export; one whose symbol has no section has none either. */
  datatype LinkExport = LinkExport(section: Option<Word>, offset: Word, flags: nat, external: seq<Byte>)

  datatype LinkRequire = LinkRequire(flags: nat, library: seq<Byte>)

  datatype Section =
    | LibrarySection(flags: nat, path: seq<Byte>)
    | ImportSection(library: Word, name: seq<Byte>)
    | BssSection(size: Word)
    | TbssSection(size: Word)
    | SymbolSection(symbol: Option<seq<Byte>>)
    | BfdSection(flags: nat, block: Block)
    | GroupSection(kind: Byte, blocks: seq<Block>)
    | ConstantSection(init: Word, offset: Word)
    | ModuleSection(exports: seq<LinkExport>)

  // ----- what the loader is to learn -----

  /** A C string with its end. */
  function Ended(s: seq<Byte>): seq<Byte> { s + [0] }

  function RelocOf(r: Relocation, offset: nat): Reloc {
    Reloc(r.size % 256, r.flags % 256, (r.position + offset) % WORD32, r.section)
  }

  ghost function RelocsOf(rs: seq<Relocation>, offset: nat): (r: seq<Reloc>)
    ensures |r| == |rs| && forall i :: 0 <= i < |rs| ==> r[i] == RelocOf(rs[i], offset)
  {
    seq(|rs|, i requires 0 <= i < |rs| => RelocOf(rs[i], offset))
  }

  ghost function Codes(bs: seq<Block>): seq<Byte> {
    if bs == [] then [] else bs[0].code + Codes(bs[1..])
  }

  /** The relocations of concatenated blocks, moved along with their code. */
  ghost function GroupRelocs(bs: seq<Block>, offset: nat): seq<Reloc> {
    if bs == [] then [] else RelocsOf(bs[0].relocs, offset) + GroupRelocs(bs[1..], (offset + |bs[0].code|) % WORD32)
  }

  function ExportOf(e: LinkExport): Export
    requires e.section.Some?
  {
    Export(e.flags % 256, e.section.value, e.offset, Ended(e.external))
  }

  /** The exports that have a section. */
  ghost function ExportsOf(es: seq<LinkExport>): seq<Export> {
    if es == [] then [] else OneExportOf(es[0]) + ExportsOf(es[1..])
  }

  ghost function OneExportOf(e: LinkExport): seq<Export> {
    if e.section.Some? then [ExportOf(e)] else []
  }

  function RequireOf(r: LinkRequire): Require {
    Require(r.flags % 256, Ended(r.library))
  }

  ghost function RequiresOf(rs: seq<LinkRequire>): (r: seq<Require>)
    ensures |r| == |rs| && forall i :: 0 <= i < |rs| ==> r[i] == RequireOf(rs[i])
  {
    seq(|rs|, i requires 0 <= i < |rs| => RequireOf(rs[i]))
  }

  ghost function RecordOf(s: Section): Record {
    match s
    case LibrarySection(flags, path) =>
      if path != [] && path[0] == DOT then Library(LIBRARY_REL, Ended(path[1..]))
      else Library(if flags % 2 == 1 then LIBRARY_REL else 0, Ended(path))
    case ImportSection(library, name) => Import(0, library, Ended(name))
    case BssSection(size) => Space(BSS, 0, size)
    case TbssSection(size) => Space(TBSS, 0, size)
    case SymbolSection(None) => Symbol(0, None)
    case SymbolSection(Some(name)) => Symbol(0, Some(Ended(name)))
    case BfdSection(flags, block) =>
      Code(if flags % 2 == FLAG_GC then DATA else TEXT, flags % 256, block.code, RelocsOf(block.relocs, 0))
    case GroupSection(kind, blocks) => Code(kind, 0, Codes(blocks) + [255, 255, 255, 255], GroupRelocs(blocks, 0))
    case ConstantSection(init, offset) => Constant(0, init, offset)
    case ModuleSection(exports) => Module(0, ExportsOf(exports))
  }

  /** Sizes that a 32-bit linker can hold. */
  ghost predicate Holdable(s: Section) {
    match s
    case LibrarySection(_, path) => Fits(Ended(path))
    case ImportSection(_, name) => Fits(Ended(name))
    case BssSection(_) => true
    case TbssSection(_) => true
    case SymbolSection(None) => true
    case SymbolSection(Some(name)) => |Ended(name)| < ANONYMOUS
    case BfdSection(_, block) => Fits(block.code) && Fits(block.relocs)
    case GroupSection(kind, blocks) =>
      (kind == METHODS || kind == INITIAL || kind == TYPEDFN) && Fits(Codes(blocks) + [255, 255, 255, 255])
          && Fits(GroupRelocs(blocks, 0))
    case ConstantSection(_, _) => true
    case ModuleSection(exports) =>
      Fits(exports) && forall i :: 0 <= i < |exports| ==> exports[i].section.Some? && Fits(Ended(exports[i].external))
  }

  // ----- writing -----

  class Output {
    var data: seq<Byte>

    constructor ()
      ensures data == []
    {
      data := [];
    }

    /** `Temp = v; gzwrite(File, &Temp, 1)` */
    method Write1(v: nat)
      modifies this
      ensures data == old(data) + [v % 256]
    {
      data := data + [v % 256];
    }

    /** `Temp = v; gzwrite(File, &Temp, 4)` */
    method Write4(v: Word)
      modifies this
      ensures data == old(data) + Word4(v)
    {
      data := data + Word4(v);
    }

    method WriteBytes(s: seq<Byte>)
      modifies this
      ensures data == old(data) + s
    {
      data := data + s;
    }

    /** A string, its length and its end. */
    method WriteString(s: seq<Byte>)
      requires Fits(Ended(s))
      modifies this
      ensures data == old(data) + Counted(Ended(s))
    {
      Write4(|s| + 1);
      WriteBytes(s + [0]);
    }

    method WriteRelocs(rs: seq<Relocation>, offset: nat)
      modifies this
      ensures data == old(data) + Concat(RelocsOf(rs, offset), EncodeReloc)
    {
      hide *;
      ghost var was, all := data, RelocsOf(rs, offset);
      EmptyConcat(all, EncodeReloc);
      for i := 0 to |rs|
        invariant data == was + Concat(all[..i], EncodeReloc)
      {
        Write1(rs[i].size);
        Write1(rs[i].flags);
        WritePosition(rs[i].position, offset);
        Write4(rs[i].section);
        RelocWritten(was, all, rs, offset, i, data);
      }
    }

    method WritePosition(position: Word, offset: nat)
      modifies this
      ensures data == old(data) + Word4((position + offset) % WORD32)
    {
      Write4((position + offset) % WORD32);
    }

    /** bfd_section_write */
    method WriteBfd(flags: nat, block: Block)
      requires Holdable(BfdSection(flags, block))
      modifies this
      ensures data == old(data) + EncodeRecord(RecordOf(BfdSection(flags, block)))
    {
      hide *;
      ghost var was := data;
      BfdFits(flags, block);
      if flags % 2 == 1 {
        Write1(DATA);
      } else {
        Write1(TEXT);
      }
      Write1(flags);
      Write4(|block.code|);
      Write4(|block.relocs|);
      WriteBytes(block.code);
      WriteRelocs(block.relocs, 0);
      BfdWritten(was, flags, block);
    }

    /** method_section_write, typedfn_section_write and initial_section_write,
        with the sizes that their setup functions add up. */
    method WriteGroup(kind: Byte, blocks: seq<Block>)
      requires Holdable(GroupSection(kind, blocks))
      modifies this
      ensures data == old(data) + EncodeRecord(RecordOf(GroupSection(kind, blocks)))
    {
      hide Word4, Concat, Counted, EncodeReloc, Codes, GroupRelocs;
      ghost var was := data;
      var size, n := GroupSize(blocks);
      Write1(kind);
      Write1(0);
      Write4(size + 4);
      Write4(n);
      WriteCodes(blocks);
      Ones();
      Write4(ANONYMOUS);
      WriteGroupRelocs(blocks);
      GroupWritten(was, kind, blocks);
    }

    method WriteCodes(blocks: seq<Block>)
      modifies this
      ensures data == old(data) + Codes(blocks)
    {
      assert blocks[..0] == [];
      for i := 0 to |blocks|
        invariant data == old(data) + Codes(blocks[..i])
      {
        WriteBytes(blocks[i].code);
        CodesLast(blocks, i);
      }
      assert blocks[..|blocks|] == blocks;
    }

    method WriteGroupRelocs(blocks: seq<Block>)
      modifies this
      ensures data == old(data) + Concat(GroupRelocs(blocks, 0), EncodeReloc)
    {
      hide *;
      ghost var was := data;
      var offset := 0;
      GroupStart(blocks);
      for i := 0 to |blocks|
        invariant offset >= 0
        invariant data + Concat(GroupRelocs(blocks[i..], offset), EncodeReloc)
                  == was + Concat(GroupRelocs(blocks, 0), EncodeReloc)
      {
        GroupFirst(blocks, i, offset);
        WriteRelocs(blocks[i].relocs, offset);
        offset := (offset + |blocks[i].code|) % 0x1_0000_0000;
      }
      GroupNone(blocks, offset);
    }

    /** library_section_write */
    method WriteLibrary(flags: nat, path: seq<Byte>)
      requires Holdable(LibrarySection(flags, path))
      modifies this
      ensures data == old(data) + EncodeRecord(RecordOf(LibrarySection(flags, path)))
    {
      hide *;
      ghost var was := data;
      LibraryFits(flags, path);
      Write1(LIBRARY);
      if path != [] && path[0] == DOT {
        Write1(LIBRARY_REL);
        Write4(|path|);
        WriteBytes(path[1..] + [0]);
      } else if flags % 2 == 1 {
        Write1(LIBRARY_REL);
        WriteString(path);
      } else {
        Write1(0);
        WriteString(path);
      }
      LibraryWritten(was, flags, path);
    }

    /** module_section_write, and the loop over the exports in main: an export
        without a section is passed over. */
    method WriteExports(es: seq<LinkExport>)
      requires forall i :: 0 <= i < |es| ==> Fits(Ended(es[i].external))
      modifies this
      ensures data == old(data) + Concat(ExportsOf(es), EncodeExport)
    {
      hide *;
      ghost var was := data;
      NoExports(es);
      for i := 0 to |es|
        invariant data == was + Concat(ExportsOf(es[..i]), EncodeExport)
      {
        ghost var now := data;
        if es[i].section.Some? {
          Write1(es[i].flags);
          Write4(es[i].section.value);
          Write4(es[i].offset);
          WriteString(es[i].external);
        }
        ExportWritten(was, now, es, i, data);
      }
      assert es[..|es|] == es;
    }

    method WriteRequires(rs: seq<LinkRequire>)
      requires forall i :: 0 <= i < |rs| ==> Fits(Ended(rs[i].library))
      modifies this
      ensures data == old(data) + Concat(RequiresOf(rs), EncodeRequire)
    {
      hide *;
      ghost var was, all := data, RequiresOf(rs);
      EmptyConcat(all, EncodeRequire);
      for i := 0 to |rs|
        invariant data == was + Concat(all[..i], EncodeRequire)
      {
        Write1(rs[i].flags);
        WriteString(rs[i].library);
        RequireWritten(was, all, rs, i, data);
      }
    }

    /** import_section_write */
    method WriteImport(library: Word, name: seq<Byte>)
      requires Holdable(ImportSection(library, name))
      modifies this
      ensures data == old(data) + EncodeRecord(RecordOf(ImportSection(library, name)))
    {
      hide Word4, Counted;
      Write1(IMPORT);
      Write1(0);
      Write4(library);
      WriteString(name);
    }

    /** bss_section_write and tbss_section_write */
    method WriteSpace(kind: Byte, size: Word)
      modifies this
      ensures data == old(data) + EncodeRecord(Space(kind, 0, size))
    {
      hide Word4;
      Write1(kind);
      Write1(0);
      Write4(size);
    }

    /** symbol_section_write */
    method WriteSymbol(symbol: Option<seq<Byte>>)
      requires Holdable(SymbolSection(symbol))
      modifies this
      ensures data == old(data) + EncodeRecord(RecordOf(SymbolSection(symbol)))
    {
      hide Word4, Counted;
      Write1(SYMBOL);
      Write1(0);
      if symbol.Some? {
        WriteString(symbol.value);
      } else {
        Write4(ANONYMOUS);
      }
    }

    /** constant_section_write */
    method WriteConstant(init: Word, offset: Word)
      modifies this
      ensures data == old(data) + EncodeRecord(RecordOf(ConstantSection(init, offset)))
    {
      hide Word4;
      Write1(CONSTANT);
      Write1(0);
      Write4(init);
      Write4(offset);
    }

    /** module_section_write */
    method WriteModule(exports: seq<LinkExport>)
      requires Holdable(ModuleSection(exports))
      modifies this
      ensures data == old(data) + EncodeRecord(RecordOf(ModuleSection(exports)))
    {
      hide *;
      ghost var was := data;
      ModuleFits(exports);
      AllExports(exports);
      Write1(MODULE);
      Write1(0);
      Write4(|exports|);
      WriteExports(exports);
      ModuleWritten(was, exports);
    }

    /** section_write */
    method WriteSection(s: Section)
      requires Holdable(s)
      modifies this
      ensures data == old(data) + EncodeRecord(RecordOf(s))
      ensures |old(data)| <= |data| && Spelled(s, data[|old(data)|..])
    {
      hide EncodeRecord, Holdable, Spelled;
      ghost var was := data;
      SectionSpelled(s);
      match s
      case LibrarySection(flags, path) => WriteLibrary(flags, path);
      case BfdSection(flags, block) => WriteBfd(flags, block);
      case GroupSection(kind, blocks) => WriteGroup(kind, blocks);
      case ImportSection(library, name) => WriteImport(library, name);
      case BssSection(size) => WriteSpace(BSS, size);
      case TbssSection(size) => WriteSpace(TBSS, size);
      case SymbolSection(symbol) => WriteSymbol(symbol);
      case ConstantSection(init, offset) => WriteConstant(init, offset);
      case ModuleSection(exports) => WriteModule(exports);
      assert data[|was|..] == EncodeRecord(RecordOf(s));
    }
  }

  // ----- the bytes of a section, kind by kind -----

  lemma LibraryBytes(flags: nat, path: seq<Byte>)
    requires Holdable(LibrarySection(flags, path))
    ensures EncodeRecord(RecordOf(LibrarySection(flags, path))) ==
            if path != [] && path[0] == 46 then [3, 1] + Word4(|path|) + path[1..] + [0]
            else [3, if flags % 2 == 1 then 1 else 0] + Word4(|path| + 1) + path + [0]
  {
  }

  lemma ImportBytes(library: Word, name: seq<Byte>)
    requires Holdable(ImportSection(library, name))
    ensures EncodeRecord(RecordOf(ImportSection(library, name))) ==
            [4, 0] + Word4(library) + Word4(|name| + 1) + name + [0]
  {
  }

  lemma SpaceBytes(size: Word)
    ensures EncodeRecord(RecordOf(BssSection(size))) == [5, 0] + Word4(size)
    ensures EncodeRecord(RecordOf(TbssSection(size))) == [13, 0] + Word4(size)
  {
  }

  lemma SymbolBytes(name: seq<Byte>)
    ensures EncodeRecord(RecordOf(SymbolSection(None))) == [6, 0, 255, 255, 255, 255]
    ensures Holdable(SymbolSection(Some(name))) ==>
              EncodeRecord(RecordOf(SymbolSection(Some(name)))) == [6, 0] + Word4(|name| + 1) + name + [0]
  {
    NoSymbolBytes();
    hide Word4;
    assert EncodeRecord(RecordOf(SymbolSection(None))) == [6, 0] + Word4(0xFFFF_FFFF);
  }

  lemma NoSymbolBytes()
    ensures Word4(0xFFFF_FFFF) == [255, 255, 255, 255]
  {
  }

  lemma ConstantBytes(init: Word, offset: Word)
    ensures EncodeRecord(RecordOf(ConstantSection(init, offset))) == [7, 0] + Word4(init) + Word4(offset)
  {
  }

  /** A relocation takes ten bytes. */
  lemma {:induction false} RelocBytesAt(rs: seq<Reloc>, i: nat)
    requires i < |rs|
    ensures var b := Concat(rs, EncodeReloc);
            && |b| == 10 * |rs|
            && b[10 * i..10 * i + 10] == [rs[i].size, rs[i].flags] + Word4(rs[i].position) + Word4(rs[i].section)
    decreases i
  {
    hide Word4;
    RelocBytes(rs);
    if i > 0 {
      var b, c := Concat(rs, EncodeReloc), Concat(rs[1..], EncodeReloc);
      RelocBytesAt(rs[1..], i - 1);
      assert b == EncodeReloc(rs[0]) + c;
      assert b[10 * i..10 * i + 10] == c[10 * i - 10..10 * i];
    }
  }

  lemma {:induction false} RelocBytes(rs: seq<Reloc>)
    ensures |Concat(rs, EncodeReloc)| == 10 * |rs|
  {
    hide Word4;
    if rs != [] {
      RelocBytes(rs[1..]);
    }
  }

  /** The relocations of a block, ten bytes each: size, flags, position, and the
      index of the section. */
  ghost predicate Listed(b: seq<Byte>, relocs: seq<Relocation>) {
    && |b| == 10 * |relocs|
    && forall i :: 0 <= i < |relocs| ==>
         var r := relocs[i];
         b[10 * i..10 * i + 10] == [r.size % 256, r.flags % 256] + Word4(r.position) + Word4(r.section)
  }

  lemma RelocsListed(relocs: seq<Relocation>)
    ensures Listed(Concat(RelocsOf(relocs, 0), EncodeReloc), relocs)
  {
    hide Concat, EncodeReloc, Word4;
    var rs := RelocsOf(relocs, 0);
    RelocBytes(rs);
    forall i | 0 <= i < |relocs|
      ensures Concat(rs, EncodeReloc)[10 * i..10 * i + 10] ==
              [relocs[i].size % 256, relocs[i].flags % 256] + Word4(relocs[i].position) + Word4(relocs[i].section)
    {
      RelocBytesAt(rs, i);
    }
  }

  /** Text is kind 1, data, which the collector must scan, kind 2. */
  lemma BfdBytes(flags: nat, block: Block)
    requires Holdable(BfdSection(flags, block))
    ensures |block.code| < 0x1_0000_0000 && |block.relocs| < 0x1_0000_0000
    ensures var tail := Concat(RelocsOf(block.relocs, 0), EncodeReloc);
            && Listed(tail, block.relocs)
            && EncodeRecord(RecordOf(BfdSection(flags, block))) ==
               [if flags % 2 == 1 then 2 else 1, flags % 256] + Word4(|block.code|) + Word4(|block.relocs|)
               + block.code + tail
  {
    RelocsListed(block.relocs);
    hide Concat, EncodeReloc, Word4, Listed;
  }

  lemma CodesMeans(b: Block, rest: seq<Block>)
    ensures Codes([]) == [] && Codes([b] + rest) == b.code + Codes(rest)
  {
    assert ([b] + rest)[1..] == rest;
  }

  /** One section for all blocks, with 0xFFFFFFFF behind the code. */
  lemma GroupBytes(kind: Byte, blocks: seq<Block>)
    requires Holdable(GroupSection(kind, blocks))
    ensures kind == 8 || kind == 9 || kind == 10
    ensures |Codes(blocks)| + 4 < 0x1_0000_0000 && |GroupRelocs(blocks, 0)| < 0x1_0000_0000
    ensures EncodeRecord(RecordOf(GroupSection(kind, blocks))) ==
            [kind, 0] + Word4(|Codes(blocks)| + 4) + Word4(|GroupRelocs(blocks, 0)|)
            + Codes(blocks) + [255, 255, 255, 255] + Concat(GroupRelocs(blocks, 0), EncodeReloc)
  {
    hide Concat, EncodeReloc, Word4;
  }

  /** The bytes of one export more, if it has a section. */
  lemma ExportBytesMore(e: LinkExport, rest: seq<LinkExport>)
    requires |e.external| + 1 < 0x1_0000_0000
    ensures Concat(ExportsOf([]), EncodeExport) == []
    ensures Concat(ExportsOf([e] + rest), EncodeExport) ==
            (if e.section.Some? then
               [e.flags % 256] + Word4(e.section.value) + Word4(e.offset) + Word4(|e.external| + 1) + e.external + [0]
             else [])
            + Concat(ExportsOf(rest), EncodeExport)
  {
    hide Word4;
    assert ([e] + rest)[1..] == rest;
    if e.section.Some? {
      var x := ExportOf(e);
      assert ([x] + ExportsOf(rest))[1..] == ExportsOf(rest);
      assert EncodeExport(x) ==
        [e.flags % 256] + Word4(e.section.value) + Word4(e.offset) + Word4(|e.external| + 1) + e.external + [0];
    } else {
      assert [] + ExportsOf(rest) == ExportsOf(rest);
    }
  }

  /** The bytes of one requirement more. */
  lemma RequireBytesMore(r: LinkRequire, rest: seq<LinkRequire>)
    requires |r.library| + 1 < 0x1_0000_0000
    ensures Concat(RequiresOf([]), EncodeRequire) == []
    ensures Concat(RequiresOf([r] + rest), EncodeRequire) ==
            [r.flags % 256] + Word4(|r.library| + 1) + r.library + [0] + Concat(RequiresOf(rest), EncodeRequire)
  {
    hide Word4;
    var x, xs := RequireOf(r), RequiresOf(rest);
    assert RequiresOf([r] + rest) == [x] + xs && ([x] + xs)[1..] == xs;
    assert EncodeRequire(x) == [r.flags % 256] + Word4(|r.library| + 1) + r.library + [0];
  }

  lemma ModuleBytes(exports: seq<LinkExport>)
    requires Holdable(ModuleSection(exports))
    ensures |exports| < 0x1_0000_0000
    ensures EncodeRecord(RecordOf(ModuleSection(exports))) ==
            [11, 0] + Word4(|exports|) + Concat(ExportsOf(exports), EncodeExport)
  {
    hide *;
    HoldableModule(exports);
    AllExports(exports);
    ModuleRecord(exports);
  }

  lemma ModuleRecord(exports: seq<LinkExport>)
    requires |ExportsOf(exports)| == |exports| < 0x1_0000_0000
    ensures EncodeRecord(RecordOf(ModuleSection(exports))) ==
            [11, 0] + Word4(|exports|) + Concat(ExportsOf(exports), EncodeExport)
  {
    hide Concat, EncodeExport, Word4, ExportsOf;
  }

  lemma HoldableModule(exports: seq<LinkExport>)
    requires Holdable(ModuleSection(exports))
    ensures |exports| < 0x1_0000_0000 && forall i :: 0 <= i < |exports| ==> exports[i].section.Some?
  {
  }

  /** The bytes of a section, spelled out. */
  ghost predicate Spelled(s: Section, b: seq<Byte>) {
    match s
    case LibrarySection(flags, path) =>
      |path| + 1 < 0x1_0000_0000 &&
      b == if path != [] && path[0] == 46 then [3, 1] + Word4(|path|) + path[1..] + [0]
           else [3, if flags % 2 == 1 then 1 else 0] + Word4(|path| + 1) + path + [0]
    case ImportSection(library, name) =>
      |name| + 1 < 0x1_0000_0000 && b == [4, 0] + Word4(library) + Word4(|name| + 1) + name + [0]
    case BssSection(size) => b == [5, 0] + Word4(size)
    case TbssSection(size) => b == [13, 0] + Word4(size)
    case SymbolSection(None) => b == [6, 0, 255, 255, 255, 255]
    case SymbolSection(Some(name)) =>
      |name| + 1 < 0x1_0000_0000 && b == [6, 0] + Word4(|name| + 1) + name + [0]
    case BfdSection(flags, block) =>
      && |block.code| < 0x1_0000_0000 && |block.relocs| < 0x1_0000_0000
      && var head := [if flags % 2 == 1 then 2 else 1, flags % 256] + Word4(|block.code|) + Word4(|block.relocs|)
                     + block.code;
         |head| <= |b| && b[..|head|] == head && Listed(b[|head|..], block.relocs)
    case GroupSection(kind, blocks) =>
      && |Codes(blocks)| + 4 < 0x1_0000_0000 && |GroupRelocs(blocks, 0)| < 0x1_0000_0000
      && b == [kind, 0] + Word4(|Codes(blocks)| + 4) + Word4(|GroupRelocs(blocks, 0)|)
              + Codes(blocks) + [255, 255, 255, 255] + Concat(GroupRelocs(blocks, 0), EncodeReloc)
    case ConstantSection(init, offset) => b == [7, 0] + Word4(init) + Word4(offset)
    case ModuleSection(exports) =>
      |exports| < 0x1_0000_0000 && b == [11, 0] + Word4(|exports|) + Concat(ExportsOf(exports), EncodeExport)
  }

  lemma SectionSpelled(s: Section)
    requires Holdable(s)
    ensures Spelled(s, EncodeRecord(RecordOf(s)))
  {
    hide EncodeRecord, RecordOf, Holdable, Concat, Word4, Listed;
    match s
    case LibrarySection(flags, path) => LibraryBytes(flags, path); HoldableNames(s);
    case ImportSection(library, name) => ImportBytes(library, name); HoldableNames(s);
    case BssSection(size) => SpaceBytes(size);
    case TbssSection(size) => SpaceBytes(size);
    case SymbolSection(None) => SymbolBytes([]);
    case SymbolSection(Some(name)) => SymbolBytes(name); HoldableNames(s);
    case BfdSection(flags, block) =>
      BfdBytes(flags, block);
      var head := [if flags % 2 == 1 then 2 else 1, flags % 256] + Word4(|block.code|) + Word4(|block.relocs|)
                  + block.code;
      var tail := Concat(RelocsOf(block.relocs, 0), EncodeReloc);
      assert EncodeRecord(RecordOf(s)) == head + tail;
      assert (head + tail)[|head|..] == tail;
    case GroupSection(kind, blocks) => GroupBytes(kind, blocks);
    case ConstantSection(init, offset) => ConstantBytes(init, offset);
    case ModuleSection(exports) => ModuleBytes(exports);
  }

  lemma HoldableNames(s: Section)
    requires Holdable(s)
    ensures s.LibrarySection? ==> |s.path| + 1 < 0x1_0000_0000
    ensures s.ImportSection? ==> |s.name| + 1 < 0x1_0000_0000
    ensures s.SymbolSection? && s.symbol.Some? ==> |s.symbol.value| + 1 < 0x1_0000_0000
  {
  }

  ghost function RecordsOf(ss: seq<Section>): (r: seq<Record>)
    ensures |r| == |ss| && forall i :: 0 <= i < |ss| ==> r[i] == RecordOf(ss[i])
  {
    seq(|ss|, i requires 0 <= i < |ss| => RecordOf(ss[i]))
  }

  /** The bytes of one section more: they come first, and are what is spelled out
      above for the section. */
  lemma SectionBytesMore(s: Section, rest: seq<Section>)
    requires Holdable(s)
    ensures Concat(RecordsOf([]), EncodeRecord) == []
    ensures var all, more := Concat(RecordsOf([s] + rest), EncodeRecord), Concat(RecordsOf(rest), EncodeRecord);
            |all| >= |more| && all[|all| - |more|..] == more && Spelled(s, all[..|all| - |more|])
  {
    hide *;
    SectionSpelled(s);
    var all, a, more := RecordsOf([s] + rest), EncodeRecord(RecordOf(s)), Concat(RecordsOf(rest), EncodeRecord);
    FirstRecord(s, rest);
    FirstBytes(all, EncodeRecord);
    assert (a + more)[..|a|] == a && (a + more)[|a|..] == more;
    assert RecordsOf([]) == [];
    NoBytes<Record>(EncodeRecord);
  }

  lemma FirstRecord(s: Section, rest: seq<Section>)
    ensures |RecordsOf([s] + rest)| == |rest| + 1
    ensures RecordsOf([s] + rest)[0] == RecordOf(s) && RecordsOf([s] + rest)[1..] == RecordsOf(rest)
  {
    hide RecordOf;
  }

  lemma FirstBytes<T>(xs: seq<T>, f: T -> seq<Byte>)
    requires xs != []
    ensures Concat(xs, f) == f(xs[0]) + Concat(xs[1..], f)
  {
  }

  lemma NoBytes<T>(f: T -> seq<Byte>)
    ensures Concat([], f) == []
  {
  }

  /** What main writes: the header counts every export, the list has those that
      have a section. */
  ghost function ImageBytes(source: Word, sections: seq<Section>, exports: seq<LinkExport>,
      needs: seq<LinkRequire>): seq<Byte> {
    MAGIC + EncodeHeader(Header(RIVA_VERSION, source, Length(sections), Length(exports), Length(needs)))
    + Concat(RecordsOf(sections), EncodeRecord) + Concat(ExportsOf(exports), EncodeExport)
        + Concat(RequiresOf(needs), EncodeRequire)
  }

  ghost predicate HoldableImage(sections: seq<Section>, exports: seq<LinkExport>, needs: seq<LinkRequire>) {
    && Fits(sections) && Fits(exports) && Fits(needs)
    && (forall i :: 0 <= i < |sections| ==> Holdable(sections[i]))
    && (forall i :: 0 <= i < |exports| ==> Fits(Ended(exports[i].external)))
    && (forall i :: 0 <= i < |needs| ==> Fits(Ended(needs[i].library)))
  }

  method WriteSections(out: Output, sections: seq<Section>)
    requires forall i :: 0 <= i < |sections| ==> Holdable(sections[i])
    modifies out
    ensures out.data == old(out.data) + Concat(RecordsOf(sections), EncodeRecord)
  {
    hide *;
    ghost var was, all := out.data, RecordsOf(sections);
    EmptyConcat(all, EncodeRecord);
    for i := 0 to |sections|
      invariant out.data == was + Concat(all[..i], EncodeRecord)
    {
      out.WriteSection(sections[i]);
      ConcatLast(all, i, EncodeRecord);
      Regroup3(was, Concat(all[..i], EncodeRecord), EncodeRecord(all[i]));
    }
  }

  /** The end of main: writes the image. */
  method WriteImage(source: Word, sections: seq<Section>, exports: seq<LinkExport>, needs: seq<LinkRequire>)
    returns (out: Output)
    requires HoldableImage(sections, exports, needs)
    ensures fresh(out) && out.data == ImageBytes(source, sections, exports, needs)
  {
    hide *;
    ImageFits(sections, exports, needs);
    out := new Output();
    out.WriteBytes([0x52, 0x49, 0x56, 0x41]);
    out.Write4(3);
    out.Write4(source);
    out.Write4(|sections|);
    out.Write4(|exports|);
    out.Write4(|needs|);
    ghost var head := out.data;
    WriteSections(out, sections);
    out.WriteExports(exports);
    out.WriteRequires(needs);
    ImageWritten(source, sections, exports, needs, head);
  }

  lemma Regroup3(a: seq<Byte>, b: seq<Byte>, c: seq<Byte>)
    ensures a + (b + c) == a + b + c
  {
  }

  lemma ImageFits(sections: seq<Section>, exports: seq<LinkExport>, needs: seq<LinkRequire>)
    requires HoldableImage(sections, exports, needs)
    ensures |sections| < 0x1_0000_0000 && |exports| < 0x1_0000_0000 && |needs| < 0x1_0000_0000
    ensures forall i :: 0 <= i < |sections| ==> Holdable(sections[i])
    ensures forall i :: 0 <= i < |exports| ==> Fits(Ended(exports[i].external))
    ensures forall i :: 0 <= i < |needs| ==> Fits(Ended(needs[i].library))
  {
    hide Holdable;
  }

  lemma ImageWritten(source: Word, sections: seq<Section>, exports: seq<LinkExport>, needs: seq<LinkRequire>,
      head: seq<Byte>)
    requires |sections| < 0x1_0000_0000 && |exports| < 0x1_0000_0000 && |needs| < 0x1_0000_0000
    requires head == [] + [0x52, 0x49, 0x56, 0x41] + Word4(3) + Word4(source) + Word4(|sections|)
             + Word4(|exports|) + Word4(|needs|)
    ensures head + Concat(RecordsOf(sections), EncodeRecord) + Concat(ExportsOf(exports), EncodeExport)
            + Concat(RequiresOf(needs), EncodeRequire)
            == ImageBytes(source, sections, exports, needs)
  {
    Six([0x52, 0x49, 0x56, 0x41], Word4(3), Word4(source), Word4(|sections|), Word4(|exports|), Word4(|needs|));
    ImageIs(source, sections, exports, needs);
    hide *;
  }

  lemma Six(a: seq<Byte>, b: seq<Byte>, c: seq<Byte>, d: seq<Byte>, e: seq<Byte>, f: seq<Byte>)
    ensures [] + a + b + c + d + e + f == a + (b + c + d + e + f)
  {
  }

  lemma ImageIs(source: Word, sections: seq<Section>, exports: seq<LinkExport>, needs: seq<LinkRequire>)
    requires |sections| < 0x1_0000_0000 && |exports| < 0x1_0000_0000 && |needs| < 0x1_0000_0000
    ensures ImageBytes(source, sections, exports, needs)
            == [0x52, 0x49, 0x56, 0x41]
               + (Word4(3) + Word4(source) + Word4(|sections|) + Word4(|exports|) + Word4(|needs|))
               + Concat(RecordsOf(sections), EncodeRecord) + Concat(ExportsOf(exports), EncodeExport)
                   + Concat(RequiresOf(needs), EncodeRequire)
  {
    hide Word4, Concat, RecordsOf, ExportsOf, RequiresOf;
  }

  // ----- sizes -----

  /** The size functions of the section kinds. */
  ghost function SizeOf(s: Section): nat {
    match s
    case LibrarySection(_, path) => if path != [] && path[0] == DOT then 1 + 1 + 4 + |path| else 1 + 1 + 4 + |path| + 1
    case ImportSection(_, name) => 1 + 1 + 4 + 4 + |name| + 1
    case BssSection(_) => 1 + 1 + 4
    case TbssSection(_) => 1 + 1 + 4
    case SymbolSection(None) => 1 + 1 + 4
    case SymbolSection(Some(name)) => 1 + 1 + 4 + |name| + 1
    case BfdSection(_, block) => 1 + 1 + 4 + 4 + |block.code| + (1 + 1 + 4 + 4) * |block.relocs|
    case GroupSection(_, blocks) => 1 + 1 + 4 + 4 + 4 + BlockSizes(blocks)
    case ConstantSection(_, _) => 1 + 1 + 4 + 4
    case ModuleSection(exports) => 1 + 1 + 4 + ExportSizes(exports)
  }

  ghost function BlockSizes(bs: seq<Block>): nat {
    if bs == [] then 0 else |bs[0].code| + (1 + 1 + 4 + 4) * |bs[0].relocs| + BlockSizes(bs[1..])
  }

  ghost function ExportSizes(es: seq<LinkExport>): nat {
    if es == [] then 0 else 1 + 4 + 4 + 4 + |es[0].external| + 1 + ExportSizes(es[1..])
  }

  /** Each size function gives the number of bytes that the writer writes. */
  lemma SizeWritten(s: Section)
    requires Holdable(s)
    ensures |EncodeRecord(RecordOf(s))| == SizeOf(s)
  {
    match s
    case BfdSection(_, block) => RelocsLength(RelocsOf(block.relocs, 0));
    case GroupSection(_, blocks) =>
      RelocsLength(GroupRelocs(blocks, 0));
      BlocksLength(blocks, 0);
    case ModuleSection(exports) => ExportsLength(exports);
    case _ =>
  }

  lemma {:induction false} RelocsLength(rs: seq<Reloc>)
    ensures |Concat(rs, EncodeReloc)| == (1 + 1 + 4 + 4) * |rs|
  {
    if rs != [] {
      RelocsLength(rs[1..]);
    }
  }

  lemma {:induction false} BlocksLength(bs: seq<Block>, offset: nat)
    ensures |Codes(bs)| + (1 + 1 + 4 + 4) * |GroupRelocs(bs, offset)| == BlockSizes(bs)
  {
    if bs != [] {
      BlocksLength(bs[1..], (offset + |bs[0].code|) % WORD32);
    }
  }

  lemma {:induction false} ExportsLength(es: seq<LinkExport>)
    requires forall i :: 0 <= i < |es| ==> es[i].section.Some? && Fits(Ended(es[i].external))
    ensures |Concat(ExportsOf(es), EncodeExport)| == ExportSizes(es)
  {
    if es != [] {
      ExportsLength(es[1..]);
      assert ExportsOf(es) == [ExportOf(es[0])] + ExportsOf(es[1..]);
      assert ExportsOf(es)[1..] == ExportsOf(es[1..]);
    }
  }

  /** The sizes that the setup function of a group adds up. */
  method GroupSize(blocks: seq<Block>) returns (size: nat, n: nat)
    ensures size == |Codes(blocks)| && n == |GroupRelocs(blocks, 0)|
  {
    size, n := 0, 0;
    ghost var offset := 0;
    assert blocks[0..] == blocks;
    for i := 0 to |blocks|
      invariant offset >= 0 && size + |Codes(blocks[i..])| == |Codes(blocks)|
      invariant n + |GroupRelocs(blocks[i..], offset)| == |GroupRelocs(blocks, 0)|
    {
      assert blocks[i..][1..] == blocks[i + 1..];
      size, n := size + |blocks[i].code|, n + |blocks[i].relocs|;
      offset := (offset + |blocks[i].code|) % WORD32;
    }
  }

  lemma BfdFits(flags: nat, block: Block)
    requires Holdable(BfdSection(flags, block))
    ensures |block.code| < 0x1_0000_0000 && |block.relocs| < 0x1_0000_0000 && 0 < DATA < 256 && 0 < TEXT < 256
  {
  }

  lemma BfdWritten(was: seq<Byte>, flags: nat, block: Block)
    requires Holdable(BfdSection(flags, block))
    ensures was + [(if flags % 2 == 1 then DATA else TEXT) % 256] + [flags % 256] + Word4(|block.code|)
            + Word4(|block.relocs|) + block.code
            + Concat(RelocsOf(block.relocs, 0), EncodeReloc)
            == was + EncodeRecord(RecordOf(BfdSection(flags, block)))
  {
    hide Word4, Concat, EncodeReloc;
    var kind: Byte := if flags % 2 == FLAG_GC then DATA else TEXT;
    var rs := RelocsOf(block.relocs, 0);
    assert RecordOf(BfdSection(flags, block)) == Code(kind, flags % 256, block.code, rs);
    assert EncodeRecord(Code(kind, flags % 256, block.code, rs))
        == [kind, flags % 256] + Word4(|block.code|) + Word4(|rs|) + block.code + Concat(rs, EncodeReloc);
  }

  lemma LibraryFits(flags: nat, path: seq<Byte>)
    requires Holdable(LibrarySection(flags, path))
    ensures |path| + 1 < 0x1_0000_0000 && Fits(Ended(path))
  {
  }

  lemma LibraryWritten(was: seq<Byte>, flags: nat, path: seq<Byte>)
    requires Holdable(LibrarySection(flags, path))
    ensures if path != [] && path[0] == DOT then
              was + [LIBRARY % 256] + [LIBRARY_REL % 256] + Word4(|path|) + (path[1..] + [0])
              == was + EncodeRecord(RecordOf(LibrarySection(flags, path)))
            else if flags % 2 == 1 then
              was + [LIBRARY % 256] + [LIBRARY_REL % 256] + Counted(Ended(path))
                  == was + EncodeRecord(RecordOf(LibrarySection(flags, path)))
            else
              was + [LIBRARY % 256] + [0 % 256] + Counted(Ended(path))
                  == was + EncodeRecord(RecordOf(LibrarySection(flags, path)))
  {
    NamePart(path);
    LibraryName(flags, path);
    hide *;
    if path != [] && path[0] == DOT {
      var name := path[1..] + [0];
      NameWritten(was, LIBRARY_REL, name);
      var head := was + [LIBRARY % 256] + [LIBRARY_REL % 256];
      assert head + Word4(|path|) + name == head + (Word4(|path|) + name);
    } else {
      NameWritten(was, if flags % 2 == 1 then LIBRARY_REL else 0, Ended(path));
    }
  }

  lemma NamePart(path: seq<Byte>)
    requires Fits(Ended(path))
    ensures path != [] ==> Counted(path[1..] + [0]) == Word4(|path|) + (path[1..] + [0])
  {
  }

  lemma LibraryName(flags: nat, path: seq<Byte>)
    ensures RecordOf(LibrarySection(flags, path)) ==
            if path != [] && path[0] == DOT then Library(LIBRARY_REL, path[1..] + [0])
            else Library(if flags % 2 == 1 then LIBRARY_REL else 0, Ended(path))
    ensures LIBRARY_REL % 256 == LIBRARY_REL
  {
  }

  lemma NameWritten(was: seq<Byte>, flag: Byte, name: seq<Byte>)
    ensures was + [LIBRARY % 256] + [flag % 256] + Counted(name) == was + EncodeRecord(Library(flag, name))
  {
    hide Counted;
  }

  lemma ModuleFits(exports: seq<LinkExport>)
    requires Holdable(ModuleSection(exports))
    ensures |exports| < 0x1_0000_0000 && forall i :: 0 <= i < |exports| ==>
              exports[i].section.Some? && Fits(Ended(exports[i].external))
  {
  }

  lemma ModuleWritten(was: seq<Byte>, exports: seq<LinkExport>)
    requires |exports| < 0x1_0000_0000 && |ExportsOf(exports)| == |exports|
    ensures was + [MODULE % 256] + [0 % 256] + Word4(|exports|) + Concat(ExportsOf(exports), EncodeExport)
            == was + EncodeRecord(RecordOf(ModuleSection(exports)))
  {
    hide Word4, Concat, ExportsOf;
    var es := ExportsOf(exports);
    assert EncodeRecord(Module(0, es)) == [MODULE, 0] + Word4(|es|) + Concat(es, EncodeExport);
  }

  lemma EmptyConcat<T>(xs: seq<T>, f: T -> seq<Byte>)
    ensures Concat(xs[..0], f) == [] && xs[..|xs|] == xs
    ensures forall s: seq<Byte> :: s == s + Concat(xs[..0], f)
  {
  }

  lemma {:induction false} ConcatJoin<T>(xs: seq<T>, ys: seq<T>, f: T -> seq<Byte>)
    ensures Concat(xs + ys, f) == Concat(xs, f) + Concat(ys, f)
  {
    if xs == [] {
      assert xs + ys == ys;
    } else {
      assert (xs + ys)[1..] == xs[1..] + ys;
      ConcatJoin(xs[1..], ys, f);
    }
  }

  lemma ConcatLast<T>(xs: seq<T>, i: nat, f: T -> seq<Byte>)
    requires i < |xs|
    ensures Concat(xs[..i + 1], f) == Concat(xs[..i], f) + f(xs[i])
  {
    assert xs[..i + 1] == xs[..i] + [xs[i]];
    ConcatJoin(xs[..i], [xs[i]], f);
    assert [xs[i]][1..] == [];
    assert Concat([xs[i]], f) == f(xs[i]) + [];
  }

  lemma RelocWritten(was: seq<Byte>, all: seq<Reloc>, rs: seq<Relocation>, offset: nat, i: nat, data: seq<Byte>)
    requires i < |rs| && all == RelocsOf(rs, offset)
    requires data == was + Concat(all[..i], EncodeReloc) + [rs[i].size % 256] + [rs[i].flags % 256]
                     + Word4((rs[i].position + offset) % WORD32) + Word4(rs[i].section)
    ensures data == was + Concat(all[..i + 1], EncodeReloc)
  {
    ConcatLast(all, i, EncodeReloc);
    hide Concat, Word4;
    var c := Concat(all[..i], EncodeReloc);
    assert data == was + (c + EncodeReloc(all[i]));
  }

  lemma RequireWritten(was: seq<Byte>, all: seq<Require>, rs: seq<LinkRequire>, i: nat, data: seq<Byte>)
    requires i < |rs| && all == RequiresOf(rs)
    requires data == was + Concat(all[..i], EncodeRequire) + [rs[i].flags % 256] + Counted(Ended(rs[i].library))
    ensures data == was + Concat(all[..i + 1], EncodeRequire)
  {
    ConcatLast(all, i, EncodeRequire);
    assert EncodeRequire(all[i]) == [rs[i].flags % 256] + Counted(Ended(rs[i].library));
    hide *;
    var c := Concat(all[..i], EncodeRequire);
    var a, b := [rs[i].flags % 256], Counted(Ended(rs[i].library));
    Regroup3(was + c, a, b);
    Regroup3(was, c, a + b);
  }

  lemma CodesLast(blocks: seq<Block>, i: nat)
    requires i < |blocks|
    ensures Codes(blocks[..i + 1]) == Codes(blocks[..i]) + blocks[i].code
  {
    assert blocks[..i + 1] == blocks[..i] + [blocks[i]];
    CodesJoin(blocks[..i], [blocks[i]]);
    assert [blocks[i]][1..] == [];
    assert Codes([blocks[i]]) == blocks[i].code + [];
  }

  lemma {:induction false} CodesJoin(a: seq<Block>, b: seq<Block>)
    ensures Codes(a + b) == Codes(a) + Codes(b)
  {
    if a == [] {
      assert a + b == b;
    } else {
      assert (a + b)[1..] == a[1..] + b;
      CodesJoin(a[1..], b);
    }
  }

  lemma Ones()
    ensures Word4(ANONYMOUS) == [255, 255, 255, 255]
  {
  }

  lemma GroupWritten(was: seq<Byte>, kind: Byte, blocks: seq<Block>)
    requires Holdable(GroupSection(kind, blocks)) && Word4(ANONYMOUS) == [255, 255, 255, 255]
    ensures was + [kind] + [0] + Word4(|Codes(blocks)| + 4) + Word4(|GroupRelocs(blocks, 0)|) + Codes(blocks)
            + Word4(ANONYMOUS) + Concat(GroupRelocs(blocks, 0), EncodeReloc)
            == was + EncodeRecord(RecordOf(GroupSection(kind, blocks)))
  {
    hide Word4, Concat, Codes, GroupRelocs;
    var c, rs := Codes(blocks) + [255, 255, 255, 255], GroupRelocs(blocks, 0);
    assert Length(c) == |Codes(blocks)| + 4 && Length(rs) == |rs|;
    assert EncodeRecord(Code(kind, 0, c, rs)) == [kind, 0] + Word4(|c|) + Word4(|rs|) + c + Concat(rs, EncodeReloc);
  }

  lemma GroupStart(blocks: seq<Block>)
    ensures blocks[0..] == blocks
  {
  }

  lemma GroupFirst(blocks: seq<Block>, i: nat, offset: nat)
    requires i < |blocks|
    ensures (offset + |blocks[i].code|) % 0x1_0000_0000 >= 0
    ensures Concat(GroupRelocs(blocks[i..], offset), EncodeReloc)
            == Concat(RelocsOf(blocks[i].relocs, offset), EncodeReloc)
               + Concat(GroupRelocs(blocks[i + 1..], (offset + |blocks[i].code|) % 0x1_0000_0000), EncodeReloc)
    ensures forall s: seq<Byte>, a: seq<Byte>, b: seq<Byte> :: s + (a + b) == (s + a) + b
  {
    assert blocks[i..][1..] == blocks[i + 1..];
    ConcatJoin(RelocsOf(blocks[i].relocs, offset),
        GroupRelocs(blocks[i + 1..], (offset + |blocks[i].code|) % WORD32), EncodeReloc);
  }

  lemma GroupNone(blocks: seq<Block>, offset: nat)
    ensures Concat(GroupRelocs(blocks[|blocks|..], offset), EncodeReloc) == []
    ensures forall s: seq<Byte> :: s + [] == s
  {
  }

  lemma NoExports(es: seq<LinkExport>)
    ensures Concat(ExportsOf(es[..0]), EncodeExport) == []
    ensures forall s: seq<Byte> :: s + Concat(ExportsOf(es[..0]), EncodeExport) == s
  {
  }

  lemma {:induction false} ExportsJoin(a: seq<LinkExport>, b: seq<LinkExport>)
    ensures ExportsOf(a + b) == ExportsOf(a) + ExportsOf(b)
  {
    hide OneExportOf;
    if a == [] {
      assert a + b == b;
    } else {
      assert (a + b)[1..] == a[1..] + b;
      ExportsJoin(a[1..], b);
    }
  }

  ghost function MaybeExport(e: LinkExport): seq<Byte> {
    if e.section.Some? then EncodeExport(ExportOf(e)) else []
  }

  lemma NextExport(es: seq<LinkExport>, i: nat)
    requires i < |es|
    ensures Concat(ExportsOf(es[..i + 1]), EncodeExport)
            == Concat(ExportsOf(es[..i]), EncodeExport) + MaybeExport(es[i])
  {
    assert es[..i + 1] == es[..i] + [es[i]];
    hide *;
    ExportsJoin(es[..i], [es[i]]);
    ConcatJoin(ExportsOf(es[..i]), ExportsOf([es[i]]), EncodeExport);
    OneExport(es[i]);
  }

  lemma ExportWritten(was: seq<Byte>, now: seq<Byte>, es: seq<LinkExport>, i: nat, data: seq<Byte>)
    requires i < |es| && now == was + Concat(ExportsOf(es[..i]), EncodeExport)
    requires data == if es[i].section.Some? then now + [es[i].flags % 256] + Word4(es[i].section.value)
             + Word4(es[i].offset)
                                                 + Counted(Ended(es[i].external))
                     else now
    ensures data == was + Concat(ExportsOf(es[..i + 1]), EncodeExport)
  {
    hide *;
    NextExport(es, i);
    ExportBytes(es[i]);
    var c := Concat(ExportsOf(es[..i]), EncodeExport);
    Regroup3(was, c, MaybeExport(es[i]));
    if es[i].section.Some? {
      Regroup5(now, [es[i].flags % 256], Word4(es[i].section.value), Word4(es[i].offset),
          Counted(Ended(es[i].external)));
    } else {
      assert now + [] == now;
    }
  }

  lemma ExportBytes(e: LinkExport)
    ensures e.section.Some? ==>
              MaybeExport(e) == [e.flags % 256] + Word4(e.section.value) + Word4(e.offset) + Counted(Ended(e.external))
    ensures e.section.None? ==> MaybeExport(e) == []
  {
  }

  lemma Regroup5(a: seq<Byte>, b: seq<Byte>, c: seq<Byte>, d: seq<Byte>, e: seq<Byte>)
    ensures a + b + c + d + e == a + (b + c + d + e)
  {
  }

  lemma OneExport(e: LinkExport)
    ensures Concat(ExportsOf([e]), EncodeExport) == MaybeExport(e)
  {
    assert [e][1..] == [];
    if e.section.Some? {
      assert ExportsOf([e]) == [ExportOf(e)] + [] == [ExportOf(e)];
      assert [ExportOf(e)][1..] == [];
      assert Concat([ExportOf(e)], EncodeExport) == EncodeExport(ExportOf(e)) + [];
    }
  }

  /** Each export of a module has a section. */
  lemma {:induction false} AllExports(es: seq<LinkExport>)
    requires forall i :: 0 <= i < |es| ==> es[i].section.Some?
    ensures |ExportsOf(es)| == |es|
  {
    hide ExportOf;
    if es != [] {
      AllExports(es[1..]);
    }
  }
}
