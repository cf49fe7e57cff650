/** The bytes of a .riva image, which dev/src/rlink/rlink.c writes and
    dev/src/riva/riva.c reads: encoding, parsing, and that parsing undoes
    encoding. */
module ImageFormat {
  import opened Options
  import opened Words

  type Word = x: int | 0 <= x < 0x1_0000_0000

  const TEXT: Byte := 1
  const DATA: Byte := 2
  const LIBRARY: Byte := 3
  const IMPORT: Byte := 4
  const BSS: Byte := 5
  const SYMBOL: Byte := 6
  const CONSTANT: Byte := 7
  const INITIAL: Byte := 8
  const METHODS: Byte := 9
  const TYPEDFN: Byte := 10
  const MODULE: Byte := 11
  const TDATA: Byte := 12
  const TBSS: Byte := 13
  const GOT: Byte := 14

  const ANONYMOUS: Word := 0xFFFF_FFFF

  datatype Reloc = Reloc(size: Byte, flags: Byte, position: Word, section: Word)

  datatype Export = Export(flags: Byte, section: Word, offset: Word, name: seq<Byte>)

  datatype Require = Require(flags: Byte, name: seq<Byte>)

  /** What the loader learns of a section. */
  datatype Record =
    | Code(kind: Byte, flags: Byte, bytes: seq<Byte>, relocs: seq<Reloc>)
    | Library(flags: Byte, name: seq<Byte>)
    | Import(flags: Byte, library: Word, name: seq<Byte>)
    | Space(kind: Byte, flags: Byte, size: Word)
    | Symbol(flags: Byte, symbol: Option<seq<Byte>>)
    | Constant(flags: Byte, init: Word, offset: Word)
    | Module(flags: Byte, exports: seq<Export>)
    | Unknown(kind: Byte)

  datatype Image = Image(version: Word, source: Word, sections: seq<Record>, exports: seq<Export>,
      needs: seq<Require>)

  predicate IsCode(kind: Byte) {
    kind == TEXT || kind == DATA || kind == METHODS || kind == INITIAL || kind == TYPEDFN
  }

  predicate IsSpace(kind: Byte) {
    kind == BSS || kind == TBSS || kind == GOT
  }

  // ----- encoding -----

  function Word4(v: Word): (r: seq<Byte>)
    ensures |r| == 4
  {
    [v % 256, v / 256 % 256, v / 0x10000 % 256, v / 0x1000000]
  }

  /** Four bytes, the lowest first. */
  lemma WordMeans(v: Word)
    ensures var a: int, b: int, c: int, d: int := Word4(v)[0], Word4(v)[1], Word4(v)[2], Word4(v)[3];
            a + 0x100 * b + 0x1_0000 * c + 0x100_0000 * d == v
  {
  }

  ghost function Concat<T>(xs: seq<T>, f: T -> seq<Byte>): seq<Byte> {
    if xs == [] then [] else f(xs[0]) + Concat(xs[1..], f)
  }

  ghost function EncodeReloc(r: Reloc): seq<Byte> {
    [r.size, r.flags] + Word4(r.position) + Word4(r.section)
  }

  /** A length, and as many bytes. */
  ghost function Counted(name: seq<Byte>): seq<Byte>
  {
    Word4(if |name| < 0x1_0000_0000 then |name| else 0) + name
  }

  ghost function EncodeExport(e: Export): seq<Byte> {
    [e.flags] + Word4(e.section) + Word4(e.offset) + Counted(e.name)
  }

  ghost function EncodeRequire(r: Require): seq<Byte> {
    [r.flags] + Counted(r.name)
  }

  ghost function Length<T>(s: seq<T>): Word {
    if |s| < 0x1_0000_0000 then |s| else 0
  }

  ghost function EncodeRecord(r: Record): seq<Byte> {
    match r
    case Code(kind, flags, bytes, relocs) =>
      [kind, flags] + Word4(Length(bytes)) + Word4(Length(relocs)) + bytes + Concat(relocs, EncodeReloc)
    case Library(flags, name) => [LIBRARY, flags] + Counted(name)
    case Import(flags, library, name) => [IMPORT, flags] + Word4(library) + Counted(name)
    case Space(kind, flags, size) => [kind, flags] + Word4(size)
    case Symbol(flags, None) => [SYMBOL, flags] + Word4(ANONYMOUS)
    case Symbol(flags, Some(name)) => [SYMBOL, flags] + Counted(name)
    case Constant(flags, init, offset) => [CONSTANT, flags] + Word4(init) + Word4(offset)
    case Module(flags, exports) => [MODULE, flags] + Word4(Length(exports)) + Concat(exports, EncodeExport)
    case Unknown(kind) => [kind]
  }

  /** Lengths that fit their fields. */
  ghost predicate Fits<T>(s: seq<T>) { |s| < 0x1_0000_0000 }

  ghost predicate Sound(r: Record) {
    match r
    case Code(kind, _, bytes, relocs) => IsCode(kind) && Fits(bytes) && Fits(relocs)
    case Library(_, name) => Fits(name)
    case Import(_, _, name) => Fits(name)
    case Space(kind, _, _) => IsSpace(kind)
    case Symbol(_, None) => true
    case Symbol(_, Some(name)) => |name| < ANONYMOUS
    case Constant(_, _, _) => true
    case Module(_, exports) => Fits(exports) && forall i :: 0 <= i < |exports| ==> Fits(exports[i].name)
    case Unknown(_) => false
  }

  // ----- parsing -----

  /** A value and what is left of the input, or a failure. */
  datatype Parsed<+T> = Fail | Ok(value: T, rest: seq<Byte>)

  ghost function ParseByte(b: seq<Byte>): Parsed<Byte> {
    if b == [] then Fail else Ok(b[0], b[1..])
  }

  function WordOf(a: int, b: int, c: int, d: int): Word
    requires 0 <= a < 256 && 0 <= b < 256 && 0 <= c < 256 && 0 <= d < 256
  {
    a + 256 * b + 0x10000 * c + 0x1000000 * d
  }

  ghost function ParseWord(b: seq<Byte>): Parsed<Word> {
    if |b| < 4 then Fail else Ok(WordOf(b[0], b[1], b[2], b[3]), b[4..])
  }

  ghost function ParseBytes(n: nat, b: seq<Byte>): Parsed<seq<Byte>> {
    if |b| < n then Fail else Ok(b[..n], b[n..])
  }

  ghost function ParseMany<T>(n: nat, p: seq<Byte> -> Parsed<T>, b: seq<Byte>): Parsed<seq<T>> {
    if n == 0 then Ok([], b)
    else
      match p(b)
      case Fail => Fail
      case Ok(x, rest) =>
        match ParseMany(n - 1, p, rest)
        case Fail => Fail
        case Ok(xs, rest') => Ok([x] + xs, rest')
  }

  ghost function ParseName(b: seq<Byte>): Parsed<seq<Byte>> {
    match ParseWord(b)
    case Fail => Fail
    case Ok(n, rest) => ParseBytes(n, rest)
  }

  ghost function ParseReloc(b: seq<Byte>): Parsed<Reloc> {
    match ParseByte(b)
    case Fail => Fail
    case Ok(size, b1) =>
      match ParseByte(b1)
      case Fail => Fail
      case Ok(flags, b2) =>
        match ParseWord(b2)
        case Fail => Fail
        case Ok(position, b3) =>
          match ParseWord(b3)
          case Fail => Fail
          case Ok(section, b4) => Ok(Reloc(size, flags, position, section), b4)
  }

  ghost function ParseExport(b: seq<Byte>): Parsed<Export> {
    match ParseByte(b)
    case Fail => Fail
    case Ok(flags, b1) =>
      match ParseWord(b1)
      case Fail => Fail
      case Ok(section, b2) =>
        match ParseWord(b2)
        case Fail => Fail
        case Ok(offset, b3) =>
          match ParseName(b3)
          case Fail => Fail
          case Ok(name, b4) => Ok(Export(flags, section, offset, name), b4)
  }

  ghost function ParseRequire(b: seq<Byte>): Parsed<Require> {
    match ParseByte(b)
    case Fail => Fail
    case Ok(flags, b1) =>
      match ParseName(b1)
      case Fail => Fail
      case Ok(name, b2) => Ok(Require(flags, name), b2)
  }

  ghost function ParseCode(kind: Byte, flags: Byte, b: seq<Byte>): Parsed<Record> {
    match ParseWord(b)
    case Fail => Fail
    case Ok(length, b1) =>
      match ParseWord(b1)
      case Fail => Fail
      case Ok(n, b2) =>
        match ParseBytes(length, b2)
        case Fail => Fail
        case Ok(bytes, b3) =>
          match ParseMany(n, ParseReloc, b3)
          case Fail => Fail
          case Ok(relocs, b4) => Ok(Code(kind, flags, bytes, relocs), b4)
  }

  ghost function ParseImport(flags: Byte, b: seq<Byte>): Parsed<Record> {
    match ParseWord(b)
    case Fail => Fail
    case Ok(library, b1) =>
      match ParseName(b1)
      case Fail => Fail
      case Ok(name, b2) => Ok(Import(flags, library, name), b2)
  }

  ghost function ParseSymbol(flags: Byte, b: seq<Byte>): Parsed<Record> {
    match ParseWord(b)
    case Fail => Fail
    case Ok(length, b1) =>
      if length == ANONYMOUS then Ok(Symbol(flags, None), b1)
      else
        match ParseBytes(length, b1)
        case Fail => Fail
        case Ok(name, b2) => Ok(Symbol(flags, Some(name)), b2)
  }

  ghost function ParseConstant(flags: Byte, b: seq<Byte>): Parsed<Record> {
    match ParseWord(b)
    case Fail => Fail
    case Ok(init, b1) =>
      match ParseWord(b1)
      case Fail => Fail
      case Ok(offset, b2) => Ok(Constant(flags, init, offset), b2)
  }

  ghost function ParseModule(flags: Byte, b: seq<Byte>): Parsed<Record> {
    match ParseWord(b)
    case Fail => Fail
    case Ok(n, b1) =>
      match ParseMany(n, ParseExport, b1)
      case Fail => Fail
      case Ok(exports, b2) => Ok(Module(flags, exports), b2)
  }

  /** A section of known kind behind its flags. */
  ghost function ParseBody(kind: Byte, flags: Byte, b: seq<Byte>): Parsed<Record> {
    if IsCode(kind) then ParseCode(kind, flags, b)
    else if kind == LIBRARY then
      match ParseName(b)
      case Fail => Fail
      case Ok(name, b1) => Ok(Library(flags, name), b1)
    else if kind == IMPORT then ParseImport(flags, b)
    else if IsSpace(kind) then
      match ParseWord(b)
      case Fail => Fail
      case Ok(size, b1) => Ok(Space(kind, flags, size), b1)
    else if kind == SYMBOL then ParseSymbol(flags, b)
    else if kind == CONSTANT then ParseConstant(flags, b)
    else ParseModule(flags, b)
  }

  predicate HasBody(kind: Byte) {
    TEXT <= kind <= GOT && kind != TDATA
  }

  /** A section.  The loader passes over a kind it does not know, and gives up
      on thread-local data. */
  ghost function ParseRecord(b: seq<Byte>): Parsed<Record> {
    match ParseByte(b)
    case Fail => Fail
    case Ok(kind, b1) =>
      if kind == TDATA then Fail
      else if !HasBody(kind) then Ok(Unknown(kind), b1)
      else
        match ParseByte(b1)
        case Fail => Fail
        case Ok(flags, b2) => ParseBody(kind, flags, b2)
  }

  const MAGIC: seq<Byte> := [0x52, 0x49, 0x56, 0x41]

  /** The five words behind the magic number. */
  datatype Header = Header(version: Word, source: Word, sections: Word, exports: Word, needs: Word)

  ghost function ParseHeader(b: seq<Byte>): Parsed<Header> {
    match ParseWord(b)
    case Fail => Fail
    case Ok(version, b1) =>
      match ParseWord(b1)
      case Fail => Fail
      case Ok(source, b2) =>
        match ParseWord(b2)
        case Fail => Fail
        case Ok(sections, b3) =>
          match ParseWord(b3)
          case Fail => Fail
          case Ok(exports, b4) =>
            match ParseWord(b4)
            case Fail => Fail
            case Ok(needs, b5) => Ok(Header(version, source, sections, exports, needs), b5)
  }

  ghost function ParseLists(h: Header, b: seq<Byte>): Parsed<Image> {
    match ParseMany(h.sections, ParseRecord, b)
    case Fail => Fail
    case Ok(sections, b1) =>
      match ParseMany(h.exports, ParseExport, b1)
      case Fail => Fail
      case Ok(exports, b2) =>
        match ParseMany(h.needs, ParseRequire, b2)
        case Fail => Fail
        case Ok(needs, b3) => Ok(Image(h.version, h.source, sections, exports, needs), b3)
  }

  ghost function ParseImage(b: seq<Byte>): Parsed<Image> {
    if |b| < 4 || b[..4] != MAGIC then Fail
    else
      match ParseHeader(b[4..])
      case Fail => Fail
      case Ok(h, rest) => ParseLists(h, rest)
  }

  ghost function EncodeHeader(h: Header): seq<Byte> {
    Word4(h.version) + Word4(h.source) + Word4(h.sections) + Word4(h.exports) + Word4(h.needs)
  }

  // ----- parsing undoes encoding -----

  lemma HeaderBack(h: Header, rest: seq<Byte>)
    ensures ParseHeader(EncodeHeader(h) + rest) == Ok(h, rest)
  {
    hide ParseWord, Word4;
    var b5 := Word4(h.needs) + rest;
    var b4 := Word4(h.exports) + b5;
    var b3 := Word4(h.sections) + b4;
    var b2 := Word4(h.source) + b3;
    assert EncodeHeader(h) + rest == Word4(h.version) + b2;
    WordBack(h.needs, rest);
    WordBack(h.exports, b5);
    WordBack(h.sections, b4);
    WordBack(h.source, b3);
    WordBack(h.version, b2);
  }

  /** A list that is parsed has the length that was asked for. */
  lemma {:induction false} ManyLength<T>(n: nat, p: seq<Byte> -> Parsed<T>, b: seq<Byte>)
    ensures ParseMany(n, p, b).Ok? ==> |ParseMany(n, p, b).value| == n
  {
    if n > 0 && p(b).Ok? {
      ManyLength(n - 1, p, p(b).rest);
    }
  }

  lemma WordBack(v: Word, rest: seq<Byte>)
    ensures ParseWord(Word4(v) + rest) == Ok(v, rest)
  {
    var b := Word4(v) + rest;
    assert b[4..] == rest;
    Digits(v);
  }

  lemma Digits(v: Word)
    ensures v == v % 256 + 256 * (v / 256 % 256) + 0x10000 * (v / 0x10000 % 256) + 0x1000000 * (v / 0x1000000)
  {
    assert v / 0x10000 == v / 256 / 256;
    assert v / 0x1000000 == v / 0x10000 / 256;
  }

  lemma ByteBack(x: Byte, rest: seq<Byte>)
    ensures ParseByte([x] + rest) == Ok(x, rest)
  {
  }

  lemma BytesBack(s: seq<Byte>, rest: seq<Byte>)
    ensures ParseBytes(|s|, s + rest) == Ok(s, rest)
  {
  }

  lemma NameBack(name: seq<Byte>, rest: seq<Byte>)
    requires Fits(name)
    ensures ParseName(Counted(name) + rest) == Ok(name, rest)
  {
    assert Counted(name) + rest == Word4(|name|) + (name + rest);
    WordBack(|name|, name + rest);
    BytesBack(name, rest);
  }

  lemma RelocBack(r: Reloc, rest: seq<Byte>)
    ensures ParseReloc(EncodeReloc(r) + rest) == Ok(r, rest)
  {
    hide ParseWord, Word4;
    var b3 := Word4(r.section) + rest;
    var b2 := Word4(r.position) + b3;
    var b1 := [r.flags] + b2;
    assert EncodeReloc(r) + rest == [r.size] + b1;
    WordBack(r.section, rest);
    WordBack(r.position, b3);
  }

  lemma ExportBack(e: Export, rest: seq<Byte>)
    requires Fits(e.name)
    ensures ParseExport(EncodeExport(e) + rest) == Ok(e, rest)
  {
    hide ParseWord, Word4, ParseName, Counted;
    var b3 := Counted(e.name) + rest;
    var b2 := Word4(e.offset) + b3;
    var b1 := Word4(e.section) + b2;
    assert EncodeExport(e) + rest == [e.flags] + b1;
    NameBack(e.name, rest);
    WordBack(e.offset, b3);
    WordBack(e.section, b2);
  }

  lemma RequireBack(r: Require, rest: seq<Byte>)
    requires Fits(r.name)
    ensures ParseRequire(EncodeRequire(r) + rest) == Ok(r, rest)
  {
    hide ParseName, Counted;
    assert EncodeRequire(r) + rest == [r.flags] + (Counted(r.name) + rest);
    NameBack(r.name, rest);
  }

  lemma NoneBack<T>(p: seq<Byte> -> Parsed<T>, f: T -> seq<Byte>, xs: seq<T>, rest: seq<Byte>)
    requires xs == []
    ensures ParseMany(|xs|, p, Concat(xs, f) + rest) == Ok(xs, rest)
  {
    assert Concat(xs, f) + rest == rest;
  }

  lemma OneMore<T>(p: seq<Byte> -> Parsed<T>, f: T -> seq<Byte>, xs: seq<T>, rest: seq<Byte>)
    requires xs != [] && p(f(xs[0]) + (Concat(xs[1..], f) + rest)) == Ok(xs[0], Concat(xs[1..], f) + rest)
    requires ParseMany(|xs[1..]|, p, Concat(xs[1..], f) + rest) == Ok(xs[1..], rest)
    ensures ParseMany(|xs|, p, Concat(xs, f) + rest) == Ok(xs, rest)
  {
    assert Concat(xs, f) + rest == f(xs[0]) + (Concat(xs[1..], f) + rest);
    assert xs == [xs[0]] + xs[1..];
  }

  lemma {:induction false} RelocsBack(xs: seq<Reloc>, rest: seq<Byte>)
    ensures ParseMany(|xs|, ParseReloc, Concat(xs, EncodeReloc) + rest) == Ok(xs, rest)
  {
    if xs == [] {
      NoneBack(ParseReloc, EncodeReloc, xs, rest);
    } else {
      hide *;
      var tail := Concat(xs[1..], EncodeReloc) + rest;
      RelocBack(xs[0], tail);
      RelocsBack(xs[1..], rest);
      OneMore(ParseReloc, EncodeReloc, xs, rest);
    }
  }

  lemma {:induction false} ExportsBack(xs: seq<Export>, rest: seq<Byte>)
    requires forall i :: 0 <= i < |xs| ==> Fits(xs[i].name)
    ensures ParseMany(|xs|, ParseExport, Concat(xs, EncodeExport) + rest) == Ok(xs, rest)
  {
    if xs == [] {
      NoneBack(ParseExport, EncodeExport, xs, rest);
    } else {
      hide *;
      var tail := Concat(xs[1..], EncodeExport) + rest;
      ExportBack(xs[0], tail);
      ExportsBack(xs[1..], rest);
      OneMore(ParseExport, EncodeExport, xs, rest);
    }
  }

  lemma {:induction false} RequiresBack(xs: seq<Require>, rest: seq<Byte>)
    requires forall i :: 0 <= i < |xs| ==> Fits(xs[i].name)
    ensures ParseMany(|xs|, ParseRequire, Concat(xs, EncodeRequire) + rest) == Ok(xs, rest)
  {
    if xs == [] {
      NoneBack(ParseRequire, EncodeRequire, xs, rest);
    } else {
      hide *;
      var tail := Concat(xs[1..], EncodeRequire) + rest;
      RequireBack(xs[0], tail);
      RequiresBack(xs[1..], rest);
      OneMore(ParseRequire, EncodeRequire, xs, rest);
    }
  }

  lemma CodeBack(kind: Byte, flags: Byte, bytes: seq<Byte>, relocs: seq<Reloc>, rest: seq<Byte>)
    requires Fits(bytes) && Fits(relocs)
    ensures ParseCode(kind, flags, Word4(|bytes|) + Word4(|relocs|) + bytes + Concat(relocs, EncodeReloc) + rest)
            == Ok(Code(kind, flags, bytes, relocs), rest)
  {
    hide ParseWord, Word4, ParseBytes, Concat, ParseMany;
    var b3 := Concat(relocs, EncodeReloc) + rest;
    var b2 := bytes + b3;
    var b1 := Word4(|relocs|) + b2;
    assert Word4(|bytes|) + Word4(|relocs|) + bytes + Concat(relocs, EncodeReloc) + rest == Word4(|bytes|) + b1;
    WordBack(|bytes|, b1);
    WordBack(|relocs|, b2);
    BytesBack(bytes, b3);
    RelocsBack(relocs, rest);
  }

  lemma HeadBack(kind: Byte, flags: Byte, body: seq<Byte>)
    requires HasBody(kind)
    ensures ParseRecord([kind, flags] + body) == ParseBody(kind, flags, body)
  {
    hide ParseBody;
    assert [kind, flags] + body == [kind] + ([flags] + body);
    ByteBack(kind, [flags] + body);
    ByteBack(flags, body);
  }

  lemma LibraryBack(flags: Byte, name: seq<Byte>, rest: seq<Byte>)
    requires Fits(name)
    ensures ParseRecord([LIBRARY, flags] + Counted(name) + rest) == Ok(Library(flags, name), rest)
  {
    hide ParseName, Counted, ParseRecord;
    assert [LIBRARY, flags] + Counted(name) + rest == [LIBRARY, flags] + (Counted(name) + rest);
    HeadBack(LIBRARY, flags, Counted(name) + rest);
    NameBack(name, rest);
  }

  lemma ImportBack(flags: Byte, library: Word, name: seq<Byte>, rest: seq<Byte>)
    requires Fits(name)
    ensures ParseRecord([IMPORT, flags] + Word4(library) + Counted(name) + rest)
            == Ok(Import(flags, library, name), rest)
  {
    hide ParseName, Counted, ParseWord, Word4, ParseRecord;
    var tail := Counted(name) + rest;
    assert [IMPORT, flags] + Word4(library) + Counted(name) + rest == [IMPORT, flags] + (Word4(library) + tail);
    HeadBack(IMPORT, flags, Word4(library) + tail);
    WordBack(library, tail);
    NameBack(name, rest);
  }

  lemma SpaceBack(kind: Byte, flags: Byte, size: Word, rest: seq<Byte>)
    requires IsSpace(kind)
    ensures ParseRecord([kind, flags] + Word4(size) + rest) == Ok(Space(kind, flags, size), rest)
  {
    hide ParseWord, Word4, ParseRecord;
    assert [kind, flags] + Word4(size) + rest == [kind, flags] + (Word4(size) + rest);
    HeadBack(kind, flags, Word4(size) + rest);
    WordBack(size, rest);
  }

  lemma AnonymousBack(flags: Byte, rest: seq<Byte>)
    ensures ParseRecord([SYMBOL, flags] + Word4(ANONYMOUS) + rest) == Ok(Symbol(flags, None), rest)
  {
    hide ParseWord, Word4, ParseRecord;
    assert [SYMBOL, flags] + Word4(ANONYMOUS) + rest == [SYMBOL, flags] + (Word4(ANONYMOUS) + rest);
    HeadBack(SYMBOL, flags, Word4(ANONYMOUS) + rest);
    WordBack(ANONYMOUS, rest);
  }

  lemma SymbolBack(flags: Byte, name: seq<Byte>, rest: seq<Byte>)
    requires |name| < ANONYMOUS
    ensures ParseRecord([SYMBOL, flags] + Counted(name) + rest) == Ok(Symbol(flags, Some(name)), rest)
  {
    hide ParseWord, Word4, ParseRecord, ParseBytes;
    assert [SYMBOL, flags] + Counted(name) + rest == [SYMBOL, flags] + (Word4(|name|) + (name + rest));
    HeadBack(SYMBOL, flags, Word4(|name|) + (name + rest));
    WordBack(|name|, name + rest);
    BytesBack(name, rest);
  }

  lemma ConstantBack(flags: Byte, init: Word, offset: Word, rest: seq<Byte>)
    ensures ParseRecord([CONSTANT, flags] + Word4(init) + Word4(offset) + rest)
            == Ok(Constant(flags, init, offset), rest)
  {
    hide ParseWord, Word4, ParseRecord;
    var tail := Word4(offset) + rest;
    assert [CONSTANT, flags] + Word4(init) + Word4(offset) + rest == [CONSTANT, flags] + (Word4(init) + tail);
    HeadBack(CONSTANT, flags, Word4(init) + tail);
    WordBack(init, tail);
    WordBack(offset, rest);
  }

  lemma ModuleBack(flags: Byte, exports: seq<Export>, rest: seq<Byte>)
    requires Fits(exports) && forall i :: 0 <= i < |exports| ==> Fits(exports[i].name)
    ensures ParseRecord([MODULE, flags] + Word4(|exports|) + Concat(exports, EncodeExport) + rest)
            == Ok(Module(flags, exports), rest)
  {
    hide ParseWord, Word4, ParseRecord, ParseMany, Concat;
    var tail := Concat(exports, EncodeExport) + rest;
    assert [MODULE, flags] + Word4(|exports|) + Concat(exports, EncodeExport) + rest
        == [MODULE, flags] + (Word4(|exports|) + tail);
    HeadBack(MODULE, flags, Word4(|exports|) + tail);
    WordBack(|exports|, tail);
    ExportsBack(exports, rest);
  }

  lemma CodeRecordBack(kind: Byte, flags: Byte, bytes: seq<Byte>, relocs: seq<Reloc>, rest: seq<Byte>)
    requires IsCode(kind) && Fits(bytes) && Fits(relocs)
    ensures ParseRecord([kind, flags] + Word4(|bytes|) + Word4(|relocs|) + bytes + Concat(relocs, EncodeReloc) + rest)
            == Ok(Code(kind, flags, bytes, relocs), rest)
  {
    hide ParseCode, Word4, ParseRecord, Concat;
    var body := Word4(|bytes|) + Word4(|relocs|) + bytes + Concat(relocs, EncodeReloc) + rest;
    assert [kind, flags] + Word4(|bytes|) + Word4(|relocs|) + bytes + Concat(relocs, EncodeReloc) + rest
        == [kind, flags] + body;
    HeadBack(kind, flags, body);
    CodeBack(kind, flags, bytes, relocs, rest);
  }

  /** Parsing undoes the encoding of a section. */
  lemma RecordBack(r: Record, rest: seq<Byte>)
    requires Sound(r)
    ensures ParseRecord(EncodeRecord(r) + rest) == Ok(r, rest)
  {
    hide ParseRecord, Word4, Concat, Counted;
    match r
    case Code(kind, flags, bytes, relocs) => CodeRecordBack(kind, flags, bytes, relocs, rest);
    case Library(flags, name) => LibraryBack(flags, name, rest);
    case Import(flags, library, name) => ImportBack(flags, library, name, rest);
    case Space(kind, flags, size) => SpaceBack(kind, flags, size, rest);
    case Symbol(flags, None) => AnonymousBack(flags, rest);
    case Symbol(flags, Some(name)) => SymbolBack(flags, name, rest);
    case Constant(flags, init, offset) => ConstantBack(flags, init, offset, rest);
    case Module(flags, exports) => ModuleBack(flags, exports, rest);
  }

  lemma {:induction false} RecordsBack(xs: seq<Record>, rest: seq<Byte>)
    requires forall i :: 0 <= i < |xs| ==> Sound(xs[i])
    ensures ParseMany(|xs|, ParseRecord, Concat(xs, EncodeRecord) + rest) == Ok(xs, rest)
  {
    if xs == [] {
      NoneBack(ParseRecord, EncodeRecord, xs, rest);
    } else {
      hide *;
      var tail := Concat(xs[1..], EncodeRecord) + rest;
      RecordBack(xs[0], tail);
      RecordsBack(xs[1..], rest);
      OneMore(ParseRecord, EncodeRecord, xs, rest);
    }
  }
}
