/** Which sections rlink puts into an image (dev/src/rlink/rlink.c:
    section_require, the setup and relocate functions, and the passes of main
    over exports and special sections). */
module Closure {
  import opened Options

  /** SEC_UNUSED */
  const UNUSED := -1

  /** What a relocation or an export refers to: a section, or a symbol object,
      which gets a section of its own the first time it is asked for. */
  datatype Ref = To(section: Section) | Named(key: nat)

  /** The relocations of one input section. */
  class Block {
    const refs: seq<Ref>
    /** The section that each relocation is against, once it is set up. */
    const Targets: array<Section?>

    constructor (refs: seq<Ref>)
      ensures this.refs == refs && fresh(Targets) && Targets.Length == |refs|
    {
      this.refs := refs;
      Targets := new Section?[|refs|](_ => null);
    }
  }

  class Section {
    /** Import, constant and module sections ask for other sections outright;
        text, data and the concatenated sections through their relocations. */
    const uses: seq<Ref>
    const blocks: seq<Block>
    var Index: int
    var Next: Section?

    constructor (uses: seq<Ref>, blocks: seq<Block>)
      ensures this.uses == uses && this.blocks == blocks && Index == UNUSED && Next == null
    {
      this.uses, this.blocks := uses, blocks;
      Index, Next := UNUSED, null;
    }
  }

  ghost function BlockRefs(bs: seq<Block>): seq<Ref> {
    if bs == [] then [] else bs[0].refs + BlockRefs(bs[1..])
  }

  /** All that a section refers to. */
  ghost function Refs(s: Section): seq<Ref> {
    s.uses + BlockRefs(s.blocks)
  }

  lemma {:induction false} RefOfBlock(bs: seq<Block>, j: nat, i: nat)
    requires j < |bs| && i < |bs[j].refs|
    ensures bs[j].refs[i] in BlockRefs(bs)
  {
    if j > 0 {
      RefOfBlock(bs[1..], j - 1, i);
    }
  }

  lemma {:induction false} BlockOfRef(bs: seq<Block>, r: Ref) returns (j: nat, i: nat)
    requires r in BlockRefs(bs)
    ensures j < |bs| && i < |bs[j].refs| && bs[j].refs[i] == r
  {
    if r in bs[0].refs {
      j := 0;
      i :| 0 <= i < |bs[0].refs| && bs[0].refs[i] == r;
    } else {
      j, i := BlockOfRef(bs[1..], r);
      j := j + 1;
    }
  }

  // ----- what is on the list, as a value -----

  /** The list of sections and the tables of symbols. */
  datatype State = State(listed: seq<Section>, symbols: map<nat, Section>)

  ghost function Target(st: State, r: Ref): Section? {
    match r
    case To(s) => s
    case Named(key) => if key in st.symbols then st.symbols[key] else null
  }

  /** Lists and tables only grow, at the end. */
  ghost predicate Grows(a: State, b: State) {
    a.listed <= b.listed && forall k :: k in a.symbols ==> k in b.symbols && b.symbols[k] == a.symbols[k]
  }

  lemma GrowsSame(a: State)
    ensures Grows(a, a)
  {
  }

  lemma GrowsTrans(a: State, b: State, c: State)
    requires Grows(a, b) && Grows(b, c)
    ensures Grows(a, c)
  {
  }

  ghost predicate IsListed(st: State, r: Ref) {
    Target(st, r) != null && Target(st, r) in st.listed
  }

  ghost predicate Refers(st: State, p: Section, s: Section) {
    exists r :: r in Refs(p) && Target(st, r) == s
  }

  lemma RefersGrows(a: State, b: State, p: Section, s: Section)
    requires Grows(a, b) && Refers(a, p, s)
    ensures Refers(b, p, s)
  {
    var r :| r in Refs(p) && Target(a, r) == s;
    assert Target(b, r) == s;
  }

  /** The references from number `i` on are listed, and `targets` has them. */
  ghost predicate Bound(st: State, refs: seq<Ref>, targets: seq<Section?>, i: nat) {
    |targets| == |refs| && forall k :: i <= k < |refs| ==> IsListed(st, refs[k]) && targets[k] == Target(st, refs[k])
  }

  /** The relocations of a block from number `i` on have their sections, and
      these are listed. */
  ghost predicate Recorded(st: State, b: Block, i: nat)
    reads b.Targets
  {
    Bound(st, b.refs, b.Targets[..], i)
  }

  ghost predicate UsesListed(st: State, s: Section, i: nat) {
    forall k :: 0 <= k < i && k < |s.uses| ==> IsListed(st, s.uses[k])
  }

  ghost predicate BlocksRecorded(st: State, s: Section, j: nat)
    reads set b | b in s.blocks :: b.Targets
  {
    forall k :: 0 <= k < j && k < |s.blocks| ==> Recorded(st, s.blocks[k], 0)
  }

  /** All that a section refers to is listed, and its relocations are bound. */
  ghost predicate Done(st: State, s: Section)
    reads set b | b in s.blocks :: b.Targets
  {
    UsesListed(st, s, |s.uses|) && BlocksRecorded(st, s, |s.blocks|)
  }

  lemma ListedGrows(a: State, b: State, r: Ref)
    requires Grows(a, b) && IsListed(a, r)
    ensures IsListed(b, r) && Target(b, r) == Target(a, r)
  {
    assert b.listed == a.listed + b.listed[|a.listed|..];
  }

  lemma BoundGrows(a: State, b: State, refs: seq<Ref>, targets: seq<Section?>, i: nat)
    requires Grows(a, b) && Bound(a, refs, targets, i)
    ensures Bound(b, refs, targets, i)
  {
    forall k | i <= k < |refs| ensures IsListed(b, refs[k]) && targets[k] == Target(b, refs[k]) {
      ListedGrows(a, b, refs[k]);
    }
  }

  lemma RecordedGrows(a: State, b: State, blk: Block, i: nat)
    requires Grows(a, b) && Recorded(a, blk, i)
    ensures Recorded(b, blk, i)
  {
    BoundGrows(a, b, blk.refs, blk.Targets[..], i);
  }

  lemma UsesGrow(a: State, b: State, s: Section, i: nat)
    requires Grows(a, b) && UsesListed(a, s, i)
    ensures UsesListed(b, s, i)
  {
    forall k | 0 <= k < i && k < |s.uses| ensures IsListed(b, s.uses[k]) {
      ListedGrows(a, b, s.uses[k]);
    }
  }

  lemma BlocksGrow(a: State, b: State, s: Section, j: nat)
    requires Grows(a, b) && BlocksRecorded(a, s, j)
    ensures BlocksRecorded(b, s, j)
  {
    forall k | 0 <= k < j && k < |s.blocks| ensures Recorded(b, s.blocks[k], 0) {
      RecordedGrows(a, b, s.blocks[k], 0);
    }
  }

  lemma DoneGrows(a: State, b: State, s: Section)
    requires Grows(a, b) && Done(a, s)
    ensures Done(b, s)
  {
    UsesGrow(a, b, s, |s.uses|);
    BlocksGrow(a, b, s, |s.blocks|);
  }

  ghost function Arrays(known: set<Section>): set<array<Section?>> {
    set s, b | s in known && b in s.blocks :: b.Targets
  }

  /** Every listed section whose setup is over is done. */
  ghost predicate AllDone(st: State, known: set<Section>, open: set<Section>)
    reads Arrays(known)
  {
    forall s :: s in known && s in st.listed && s !in open ==> Done(st, s)
  }

  /** The input refers to itself only, and each relocation table has its own
      array; what was made for a symbol refers to nothing. */
  ghost predicate Shape(st: State, known: set<Section>, made: set<Section>) {
    && known !! made
    && (forall s, r :: s in known && r in Refs(s) && r.To? ==> r.section in known)
    && (forall s :: s in made ==> s.uses == [] && s.blocks == [])
    && (forall k :: k in st.symbols ==> st.symbols[k] in made)
    && (forall s, j :: s in known && 0 <= j < |s.blocks| ==> s.blocks[j].Targets.Length == |s.blocks[j].refs|)
    && (forall s, j, t, k ::
          s in known && t in known && 0 <= j < |s.blocks| && 0 <= k < |t.blocks| && (s != t || j != k) ==>
            s.blocks[j].Targets != t.blocks[k].Targets)
  }

  /** A section has an index exactly if it is on the list, and the index is its
      place there; the links lead along the list. */
  ghost predicate Numbered(listed: seq<Section>, all: set<Section>)
    reads all
  {
    && (forall i :: 0 <= i < |listed| ==> listed[i] in all && listed[i].Index == i)
    && (forall s :: s in all && s.Index != UNUSED ==> 0 <= s.Index < |listed| && listed[s.Index] == s)
    && (forall i :: 0 <= i < |listed| ==> listed[i].Next == After(listed, i))
  }

  ghost function After(listed: seq<Section>, i: nat): Section? {
    if i + 1 < |listed| then listed[i + 1] else null
  }

  /** Whatever is on the list was asked for by main or by an earlier entry. */
  ghost predicate Wanted(st: State, parents: seq<int>, roots: set<Section>) {
    && |parents| == |st.listed|
    && forall k :: 0 <= k < |parents| ==>
         if parents[k] == -1 then st.listed[k] in roots
         else 0 <= parents[k] < k && Refers(st, st.listed[parents[k]], st.listed[k])
  }

  /** Every root is a special section or what an export stands for. */
  ghost predicate FromExports(st: State, exports: seq<Option<Ref>>, i: nat, roots: set<Section>,
      specials: seq<Section>) {
    forall s :: s in roots ==> s in specials || FromExport(st, exports, i, s)
  }

  ghost predicate FromExport(st: State, exports: seq<Option<Ref>>, i: nat, s: Section) {
    exists k :: 0 <= k < i && k < |exports| && exports[k].Some? && Target(st, exports[k].value) == s
  }

  lemma ExportsGrow(a: State, b: State, exports: seq<Option<Ref>>, i: nat)
    requires Grows(a, b) && forall k :: 0 <= k < i && k < |exports| && exports[k].Some? ==>
             IsListed(a, exports[k].value)
    ensures forall k :: 0 <= k < i && k < |exports| && exports[k].Some? ==> IsListed(b, exports[k].value)
  {
    forall k | 0 <= k < i && k < |exports| && exports[k].Some? ensures IsListed(b, exports[k].value) {
      ListedGrows(a, b, exports[k].value);
    }
  }

  lemma RootsGrow(a: State, b: State, exports: seq<Option<Ref>>, i: nat, roots: set<Section>, roots': set<Section>,
      specials: seq<Section>)
    requires Grows(a, b) && FromExports(a, exports, i, roots, specials) && i < |exports|
    requires forall s :: s in roots' ==> s in roots || (exports[i].Some? && Target(b, exports[i].value) == s)
    ensures FromExports(b, exports, i + 1, roots', specials)
  {
    forall s | s in roots' && s !in specials ensures FromExport(b, exports, i + 1, s) {
      if s in roots {
        var k :| 0 <= k < i && k < |exports| && exports[k].Some? && Target(a, exports[k].value) == s;
        assert Target(b, exports[k].value) == s;
      }
    }
  }

  lemma SpecialAsked(a: State, b: State, exports: seq<Option<Ref>>, roots: set<Section>, roots': set<Section>,
      specials: seq<Section>, i: nat)
    requires Grows(a, b) && FromExports(a, exports, |exports|, roots, specials) && i < |specials|
    requires forall s :: s in roots' ==> s in roots || s == specials[i]
    ensures FromExports(b, exports, |exports|, roots', specials)
  {
    forall s | s in roots' && s !in specials ensures FromExport(b, exports, |exports|, s) {
      var k :| 0 <= k < |exports| && k < |exports| && exports[k].Some? && Target(a, exports[k].value) == s;
      assert Target(b, exports[k].value) == s;
    }
  }

  lemma Subset<T>(a: set<T>, b: set<T>)
    requires a <= b
    ensures |a| <= |b|
  {
    var c := b - a;
    assert b == a + c;
  }

  /** What the relocations of a section are bound to. */
  ghost function Bindings(s: Section): (r: seq<seq<Section?>>)
    reads set b | b in s.blocks :: b.Targets
    ensures |r| == |s.blocks| && forall k :: 0 <= k < |r| ==> r[k] == s.blocks[k].Targets[..]
  {
    seq(|s.blocks|, k requires 0 <= k < |s.blocks| reads set b | b in s.blocks :: b.Targets => s.blocks[k].Targets[..])
  }

  lemma KeptParts(st: State, s: Section, j: nat, kept: seq<seq<Section?>>)
    requires j < |s.blocks| && kept == Bindings(s) && BlocksRecorded(st, s, j)
    ensures |kept| == |s.blocks| && forall k :: 0 <= k < |s.blocks| ==> kept[k] == s.blocks[k].Targets[..]
    ensures forall k :: 0 <= k < j ==> Bound(st, s.blocks[k].refs, kept[k], 0)
  {
    hide Bound;
    assert forall k :: 0 <= k < j ==> Recorded(st, s.blocks[k], 0);
  }

  class Linker {
    var Head: Section?
    var Tail: Section?
    var NoOfSections: nat
    /** SymbolTable and the tables of anonymous symbols. */
    var Symbols: map<nat, Section>
    /** The sections of the input, and those made for symbols. */
    ghost var Known: set<Section>
    ghost var Made: set<Section>
    /** The list, in order; for each entry the position of one that refers to
        it, or -1; the sections that main asks for; and the sections whose setup
        is under way. */
    ghost var Listed: seq<Section>
    ghost var Parents: seq<int>
    ghost var Roots: set<Section>
    ghost var Open: set<Section>

    constructor (ghost known: set<Section>)
      ensures Known == known && Made == {} && Listed == [] && Parents == [] && Roots == {} && Open == {}
      ensures Symbols == map[] && Head == null && Tail == null && NoOfSections == 0
    {
      Head, Tail, NoOfSections, Symbols := null, null, 0, map[];
      Known, Made, Listed, Parents, Roots, Open := known, {}, [], [], {}, {};
    }

    ghost function Now(): State
      reads `Listed, `Symbols
    {
      State(Listed, Symbols)
    }

    ghost predicate ListSound()
      reads `Known, `Made, `Listed, `Head, `Tail, `NoOfSections, Known, Made
    {
      && NoOfSections == |Listed| && Numbered(Listed, Known + Made)
      && (if Listed == [] then Head == null else Head == Listed[0] && Tail == Listed[|Listed| - 1])
    }

    ghost predicate Sound()
      reads this, Known, Made, Arrays(Known)
    {
      && Shape(Now(), Known, Made) && ListSound() && Wanted(Now(), Parents, Roots)
      && AllDone(Now(), Known, Open) && forall s :: s in Open ==> s in Listed
    }

    ghost function Rest(): set<Section>
      reads `Known, Known
    {
      set s | s in Known && s.Index == UNUSED
    }

    /** Gives a section the next number and links it to the end. */
    method Link(s: Section, ghost all: set<Section>)
      requires Numbered(Listed, all) && NoOfSections == |Listed| && s in all && s !in Listed
      requires if Listed == [] then Head == null else Head == Listed[0] && Tail == Listed[|Listed| - 1]
      modifies `Head, `Tail, `NoOfSections, all`Index, all`Next
      ensures Numbered(Listed + [s], all) && NoOfSections == |Listed| + 1
      ensures Head == (Listed + [s])[0] && Tail == s && s.Index == old(NoOfSections)
      ensures forall x :: x in all && x != s ==> x.Index == old(x.Index)
    {
      hide *;
      NumberedParts(Listed, all, s);
      s.Index := NoOfSections;
      NoOfSections := NoOfSections + 1;
      s.Next := null;
      if Head != null {
        Tail.Next := s;
        Tail := s;
      } else {
        Head, Tail := s, s;
      }
      NumberedMore(Listed, s, all);
    }

    /** Puts a section at the end of the list. */
    method Append(s: Section, ghost parent: int)
      requires Sound() && s in Known + Made && s.Index == UNUSED
      requires if parent == -1 then s in Roots else 0 <= parent < |Listed| && Refers(Now(), Listed[parent], s)
      modifies `Head, `Tail, `NoOfSections, `Listed, `Parents, `Open, Known`Index, Known`Next, Made`Index, Made`Next
      ensures Sound() && Open == old(Open) + {s} && Listed == old(Listed) + [s] && Grows(old(Now()), Now())
      ensures Rest() == old(Rest()) - {s} && s.Index != UNUSED
    {
      hide *;
      ghost var before, rest, open, parents := Now(), Rest(), Open, Parents;
      AppendReady(s);
      assert allocated(Arrays(Known)) && rest <= Known;
      Link(s, Known + Made);
      Listed := Listed + [s];
      Parents := Parents + [parent];
      Open := Open + {s};
      NowIs();
      assert Open - {s} == open && Parents[..|Parents| - 1] == parents;
      AppendDone(before, s, parent);
      RestLess(s, rest);
    }

    /** Finds what a reference is to; a symbol seen for the first time gets a new
        section. */
    method Resolve(r: Ref) returns (target: Section)
      requires Sound() && (r.To? ==> r.section in Known)
      modifies `Symbols, `Made
      ensures Sound() && target in Known + Made && Target(Now(), r) == target
      ensures Grows(old(Now()), Now()) && Rest() == old(Rest()) && old(Made) <= Made && fresh(Made - old(Made))
    {
      if r.To? {
        return r.section;
      }
      if r.key in Symbols {
        return Symbols[r.key];
      }
      target := AddSymbol(r.key);
    }

    /** A section for a symbol that has none yet. */
    method AddSymbol(key: nat) returns (target: Section)
      requires Sound() && key !in Symbols
      modifies `Symbols, `Made
      ensures Sound() && target in Made && Target(Now(), Named(key)) == target
      ensures Grows(old(Now()), Now()) && Rest() == old(Rest()) && old(Made) <= Made && fresh(Made - old(Made))
    {
      assert allocated(Arrays(Known)) && allocated(Known) && allocated(Made);
      hide *;
      target := new Section([], []);
      NewSymbol(key, target);
      ghost var before := Now();
      Symbols := Symbols[key := target];
      Made := Made + {target};
      NowIs();
      SymbolAdded(before, key, target);
    }

    lemma NewSymbol(key: nat, s: Section)
      requires Sound() && key !in Symbols && s !in Known && s !in Made && s.Index == UNUSED && s.uses == []
               && s.blocks == []
      ensures Shape(State(Listed, Symbols[key := s]), Known, Made + {s})
      ensures Numbered(Listed, Known + (Made + {s}))
      ensures NoOfSections == |Listed|
              && (if Listed == [] then Head == null else Head == Listed[0] && Tail == Listed[|Listed| - 1])
      ensures Wanted(Now(), Parents, Roots) && AllDone(Now(), Known, Open) && (forall x :: x in Open ==> x in Listed)
      ensures Now() == State(Listed, Symbols)
    {
      hide Wanted, AllDone;
    }

    lemma SymbolAdded(before: State, key: nat, s: Section)
      requires Now() == State(before.listed, before.symbols[key := s]) && key !in before.symbols
      requires Shape(Now(), Known, Made) && Numbered(Listed, Known + Made) && NoOfSections == |Listed|
      requires if Listed == [] then Head == null else Head == Listed[0] && Tail == Listed[|Listed| - 1]
      requires Wanted(before, Parents, Roots) && AllDone(before, Known, Open) && forall x :: x in Open ==> x in Listed
      ensures Sound() && Target(Now(), Named(key)) == s && Grows(before, Now())
    {
      assert Grows(before, Now());
      assert AllDone(Now(), Known, Open) by {
        hide Done;
        forall x | x in Known && x in Listed && x !in Open ensures Done(Now(), x) {
          DoneGrows(before, Now(), x);
        }
      }
      hide Shape, Numbered, AllDone;
      forall k | 0 <= k < |Parents| && Parents[k] != -1 ensures Refers(Now(), Listed[Parents[k]], Listed[k]) {
        RefersGrows(before, Now(), Listed[Parents[k]], Listed[k]);
      }
    }

    /** section_require: lists the section, if it is not, and sets it up. */
    method Require(s: Section, ghost parent: int)
      requires Sound() && s in Known + Made
      requires if parent == -1 then s in Roots else 0 <= parent < |Listed| && Refers(Now(), Listed[parent], s)
      modifies `Head, `Tail, `NoOfSections, `Symbols, `Made, `Listed, `Parents, `Open
      modifies Known`Index, Known`Next, Made`Index, Made`Next, Arrays(Known)
      ensures Sound() && s in Listed && Open == old(Open)
      ensures Grows(old(Now()), Now()) && Rest() <= old(Rest()) && old(Made) <= Made && fresh(Made - old(Made))
      ensures forall x, k :: x in Known && x in old(Listed) && 0 <= k < |x.blocks| ==>
                x.blocks[k].Targets[..] == old(x.blocks[k].Targets[..])
      decreases |Rest()|, 2
    {
      hide *;
      RequireFacts(s);
      if s.Index != UNUSED {
        GrowsSame(Now());
        return;
      }
      ghost var start, rest := Now(), Rest();
      Append(s, parent);
      ghost var middle := Now();
      AppendFacts(s, rest);
      Setup(s);
      GrowsTrans(start, middle, Now());
      SoundParts();
      Close(s);
    }

    /** Section `s` is no longer being set up. */
    ghost method Close(s: Section)
      requires Sound() && s in Open && Done(Now(), s)
      modifies `Open
      ensures Sound() && Open == old(Open) - {s} && Now() == old(Now()) && Rest() == old(Rest())
    {
      hide *;
      SoundParts();
      Closed(s);
      Open := Open - {s};
      NowIs();
      MakeSound();
    }

    /** Finds what section `s` refers to by `r`, and has it listed. */
    method Ask(s: Section, r: Ref) returns (target: Section)
      requires Sound() && s in Open && r in Refs(s)
      modifies `Head, `Tail, `NoOfSections, `Symbols, `Made, `Listed, `Parents, `Open
      modifies Known`Index, Known`Next, Made`Index, Made`Next, Arrays(Known)
      ensures Sound() && IsListed(Now(), r) && Target(Now(), r) == target && Open == old(Open)
      ensures Grows(old(Now()), Now()) && Rest() <= old(Rest()) && old(Made) <= Made && fresh(Made - old(Made))
      ensures forall x, k :: x in Known && x in old(Listed) && 0 <= k < |x.blocks| ==>
                x.blocks[k].Targets[..] == old(x.blocks[k].Targets[..])
      decreases |Rest()|, 3
    {
      hide *;
      ghost var start := Now();
      NowIs();
      AskFacts(s, r);
      target := Resolve(r);
      ghost var middle := Now();
      NowIs();
      OpenListed(s);
      RefersNow(s, r, target);
      Require(target, s.Index);
      NowIs();
      Asked(start, middle, r, target);
    }

    /** The setup function of a listed section. */
    method Setup(s: Section)
      requires Sound() && s in Open
      modifies `Head, `Tail, `NoOfSections, `Symbols, `Made, `Listed, `Parents, `Open
      modifies Known`Index, Known`Next, Made`Index, Made`Next, Arrays(Known)
      ensures Sound() && Done(Now(), s) && Open == old(Open)
      ensures Grows(old(Now()), Now()) && Rest() <= old(Rest()) && old(Made) <= Made && fresh(Made - old(Made))
      ensures forall x, k :: x in Known && x in old(Listed) && x != s && 0 <= k < |x.blocks| ==>
                x.blocks[k].Targets[..] == old(x.blocks[k].Targets[..])
      decreases |Rest()|, if s in Made then 0 else 6
    {
      hide *;
      ghost var start := Now();
      NowIs();
      SetupFacts(s);
      if s.uses == [] && s.blocks == [] {
        AllSet(s);
        return;
      }
      SetupUses(s);
      ghost var middle := Now();
      NowIs();
      GrownListed(start, middle);
      RestFinite(old(Rest()));
      SetupBlocks(s);
      GrowsTrans(start, middle, Now());
      UsesGrow(middle, Now(), s, |s.uses|);
      AllSet(s);
    }

    /** import_section_setup, constant_section_setup, module_section_setup */
    method SetupUses(s: Section)
      requires Sound() && s in Open
      modifies `Head, `Tail, `NoOfSections, `Symbols, `Made, `Listed, `Parents, `Open
      modifies Known`Index, Known`Next, Made`Index, Made`Next, Arrays(Known)
      ensures Sound() && UsesListed(Now(), s, |s.uses|) && Open == old(Open)
      ensures Grows(old(Now()), Now()) && Rest() <= old(Rest()) && old(Made) <= Made && fresh(Made - old(Made))
      ensures forall x, k :: x in Known && x in old(Listed) && 0 <= k < |x.blocks| ==>
                x.blocks[k].Targets[..] == old(x.blocks[k].Targets[..])
      decreases |Rest()|, 5
    {
      hide *;
      ghost var start := Now();
      NowIs();
      SetupFacts(s);
      for i := 0 to |s.uses|
        invariant Sound() && UsesListed(Now(), s, i) && Open == old(Open)
        invariant Grows(start, Now()) && Rest() <= old(Rest()) && old(Made) <= Made && fresh(Made - old(Made))
        invariant forall x, k :: x in Known && x in old(Listed) && 0 <= k < |x.blocks| ==>
                    x.blocks[k].Targets[..] == old(x.blocks[k].Targets[..])
      {
        ghost var now := Now();
        NowIs();
        GrownListed(start, now);
        RestFinite(old(Rest()));
        SetupFacts(s);
        var t := Ask(s, s.uses[i]);
        UseDone(start, now, s, i);
      }
    }

    /** The blocks of a text, data, methods, typedfn or initial section. */
    method SetupBlocks(s: Section)
      requires Sound() && s in Open
      modifies `Head, `Tail, `NoOfSections, `Symbols, `Made, `Listed, `Parents, `Open
      modifies Known`Index, Known`Next, Made`Index, Made`Next, Arrays(Known)
      ensures Sound() && BlocksRecorded(Now(), s, |s.blocks|) && Open == old(Open)
      ensures Grows(old(Now()), Now()) && Rest() <= old(Rest()) && old(Made) <= Made && fresh(Made - old(Made))
      ensures forall x, k :: x in Known && x in old(Listed) && x != s && 0 <= k < |x.blocks| ==>
                x.blocks[k].Targets[..] == old(x.blocks[k].Targets[..])
      decreases |Rest()|, 5
    {
      hide *;
      ghost var start := Now();
      NowIs();
      SetupFacts(s);
      for j := 0 to |s.blocks|
        invariant Sound() && BlocksRecorded(Now(), s, j) && Open == old(Open)
        invariant Grows(start, Now()) && Rest() <= old(Rest()) && old(Made) <= Made && fresh(Made - old(Made))
        invariant forall x, k :: x in Known && x in old(Listed) && x != s && 0 <= k < |x.blocks| ==>
                    x.blocks[k].Targets[..] == old(x.blocks[k].Targets[..])
      {
        ghost var now, kept := Now(), Bindings(s);
        NowIs();
        GrownListed(start, now);
        RestFinite(old(Rest()));
        SetupFacts(s);
        KeptParts(now, s, j, kept);
        SetupBlock(s, j);
        BlockDone(start, now, s, j, kept);
      }
    }

    /** bfd_section_setup as far as sections go: asks for the target of each
        relocation, the last one first, and binds the relocation to it. */
    method SetupBlock(s: Section, j: nat)
      requires Sound() && s in Open && s in Known && j < |s.blocks|
      modifies `Head, `Tail, `NoOfSections, `Symbols, `Made, `Listed, `Parents, `Open
      modifies Known`Index, Known`Next, Made`Index, Made`Next, Arrays(Known)
      ensures Sound() && Recorded(Now(), s.blocks[j], 0) && Open == old(Open)
      ensures Grows(old(Now()), Now()) && Rest() <= old(Rest()) && old(Made) <= Made && fresh(Made - old(Made))
      ensures forall x, k :: x in Known && x in old(Listed) && (x != s || k != j) && 0 <= k < |x.blocks| ==>
                x.blocks[k].Targets[..] == old(x.blocks[k].Targets[..])
      decreases |Rest()|, 4
    {
      hide *;
      ghost var start := Now();
      NowIs();
      var b := s.blocks[j];
      var i := |b.refs|;
      BlockFacts(s, j);
      GrowsSame(start);
      while i > 0
        invariant 0 <= i <= |b.refs| && Sound() && Recorded(Now(), b, i) && Open == old(Open) && Known == old(Known)
        invariant Grows(start, Now()) && Rest() <= old(Rest()) && old(Made) <= Made && fresh(Made - old(Made))
        invariant forall x, k :: x in Known && x in old(Listed) && (x != s || k != j) && 0 <= k < |x.blocks| ==>
                    x.blocks[k].Targets[..] == old(x.blocks[k].Targets[..])
      {
        i := i - 1;
        ghost var now, bound := Now(), b.Targets[..];
        NowIs();
        GrownListed(start, now);
        RestFinite(old(Rest()));
        SetupFacts(s);
        BlockFacts(s, j);
        RecordedIs(b, i + 1);
        var t := Ask(s, b.refs[i]);
        Bind(s, j, i, t);
        Rebound(start, now, b, bound, i);
      }
    }

    /** `Relocation->Section = Section` */
    method Bind(s: Section, j: nat, i: nat, t: Section)
      requires Sound() && s in Open && s in Known && j < |s.blocks| && i < |s.blocks[j].refs|
      requires Target(Now(), s.blocks[j].refs[i]) == t
      modifies s.blocks[j].Targets
      ensures Sound() && s.blocks[j].Targets[..] == old(s.blocks[j].Targets[..])[i := t]
      ensures |old(s.blocks[j].Targets[..])| == |s.blocks[j].refs|
    {
      hide *;
      BlockFacts(s, j);
      SoundParts();
      var a := s.blocks[j].Targets;
      DoneElsewhere(s);
      assert allocated(Arrays(Known));
      a[i] := t;
      assert a[..] == old(a[..])[i := t];
      DoneStill(s);
      MakeSound();
    }

    lemma DoneElsewhere(s: Section)
      requires AllDone(Now(), Known, Open) && s in Open
      ensures forall x :: x in Known && x in Listed && x !in Open ==> Done(Now(), x) && x != s
    {
      hide Done;
    }

    lemma DoneStill(s: Section)
      requires forall x :: x in Known && x in Listed && x !in Open ==> Done(Now(), x)
      ensures AllDone(Now(), Known, Open)
    {
      hide Done;
    }

    lemma Rebound(start: State, now: State, b: Block, bound: seq<Section?>, i: nat)
      requires Grows(start, now) && Grows(now, Now()) && i < |b.refs| == |bound| && Bound(now, b.refs, bound, i + 1)
      requires IsListed(Now(), b.refs[i]) && b.Targets[..] == bound[i := Target(Now(), b.refs[i])]
      ensures Grows(start, Now()) && Recorded(Now(), b, i)
    {
      GrowsTrans(start, now, Now());
      BoundGrows(now, Now(), b.refs, bound, i + 1);
    }

    lemma RecordedIs(b: Block, i: nat)
      ensures Recorded(Now(), b, i) <==> Bound(Now(), b.refs, b.Targets[..], i)
    {
    }

    lemma BlockFacts(s: Section, j: nat)
      requires Sound() && s in Open && s in Known && j < |s.blocks|
      ensures s.blocks[j].Targets in Arrays(Known) && s.blocks[j].Targets.Length == |s.blocks[j].refs|
      ensures Recorded(Now(), s.blocks[j], |s.blocks[j].refs|)
      ensures forall i :: 0 <= i < |s.blocks[j].refs| ==> s.blocks[j].refs[i] in Refs(s)
      ensures forall x, k :: x in Known && (x != s || k != j) && 0 <= k < |x.blocks| ==>
                x.blocks[k].Targets != s.blocks[j].Targets
      ensures forall x, b :: x in Known && x != s && b in x.blocks ==> b.Targets != s.blocks[j].Targets
    {
      forall i | 0 <= i < |s.blocks[j].refs| ensures s.blocks[j].refs[i] in Refs(s) {
        RefOfBlock(s.blocks, j, i);
      }
    }

    lemma AppendFacts(s: Section, rest: set<Section>)
      requires Sound() && s in Known + Made && Rest() == rest - {s} && (s in Known ==> s in rest)
      ensures |Rest()| < |rest| || (|Rest()| == |rest| && s in Made)
    {
    }

    lemma SoundParts()
      requires Sound()
      ensures Shape(Now(), Known, Made) && ListSound() && Wanted(Now(), Parents, Roots)
      ensures AllDone(Now(), Known, Open) && forall s :: s in Open ==> s in Listed
    {
    }

    lemma MakeSound()
      requires Shape(Now(), Known, Made) && ListSound() && Wanted(Now(), Parents, Roots)
      requires AllDone(Now(), Known, Open) && forall s :: s in Open ==> s in Listed
      ensures Sound()
    {
    }

    lemma Closed(s: Section)
      requires AllDone(Now(), Known, Open) && Done(Now(), s)
      ensures AllDone(Now(), Known, Open - {s})
    {
      hide Done;
    }

    lemma SetupFacts(s: Section)
      requires Sound() && s in Open
      ensures s in Listed && s in Known + Made && (s in Made ==> s.uses == [] && s.blocks == [])
      ensures s.uses != [] || s.blocks != [] ==> s !in Made
      ensures s.uses == [] && s.blocks == [] ==> UsesListed(Now(), s, |s.uses|) && BlocksRecorded(Now(), s, |s.blocks|)
      ensures forall i :: 0 <= i < |s.uses| ==> s.uses[i] in Refs(s)
      ensures UsesListed(Now(), s, 0) && BlocksRecorded(Now(), s, 0) && Grows(Now(), Now())
    {
    }

    lemma GrownListed(a: State, b: State)
      requires Grows(a, b)
      ensures forall x :: x in a.listed ==> x in b.listed
    {
      assert b.listed == a.listed + b.listed[|a.listed|..];
    }

    lemma RestFinite(rest: set<Section>)
      requires Rest() <= rest
      ensures |Rest()| <= |rest|
    {
      Subset(Rest(), rest);
    }

    lemma UseDone(start: State, now: State, s: Section, i: nat)
      requires i < |s.uses| && UsesListed(now, s, i) && Grows(start, now) && Grows(now, Now())
               && IsListed(Now(), s.uses[i])
      ensures UsesListed(Now(), s, i + 1) && Grows(start, Now())
    {
      UsesGrow(now, Now(), s, i);
      GrowsTrans(start, now, Now());
    }

    lemma BlockDone(start: State, now: State, s: Section, j: nat, kept: seq<seq<Section?>>)
      requires j < |s.blocks| == |kept| && Grows(start, now) && Grows(now, Now())
      requires forall k :: 0 <= k < j ==> Bound(now, s.blocks[k].refs, kept[k], 0) && s.blocks[k].Targets[..] == kept[k]
      requires Recorded(Now(), s.blocks[j], 0)
      ensures BlocksRecorded(Now(), s, j + 1) && Grows(start, Now())
    {
      hide Bound;
      GrowsTrans(start, now, Now());
      forall k | 0 <= k < j ensures Recorded(Now(), s.blocks[k], 0) {
        BoundGrows(now, Now(), s.blocks[k].refs, kept[k], 0);
      }
    }

    lemma AllSet(s: Section)
      requires UsesListed(Now(), s, |s.uses|) && BlocksRecorded(Now(), s, |s.blocks|)
      ensures Done(Now(), s)
    {
    }

    lemma AskFacts(s: Section, r: Ref)
      requires Sound() && s in Open && r in Refs(s)
      ensures r.To? ==> r.section in Known
      ensures s in Listed
    {
    }

    lemma OpenListed(s: Section)
      requires Sound() && s in Open
      ensures s in Listed && 0 <= s.Index < |Listed| && Listed[s.Index] == s && s.Index != -1
    {
    }

    lemma RefersNow(s: Section, r: Ref, target: Section)
      requires r in Refs(s) && Target(Now(), r) == target
      ensures Refers(Now(), s, target)
    {
    }

    lemma Asked(start: State, middle: State, r: Ref, target: Section)
      requires Grows(start, middle) && Grows(middle, Now()) && Target(middle, r) == target && target in Listed
      ensures Grows(start, Now()) && Target(Now(), r) == target && IsListed(Now(), r)
    {
    }

    /** Has a section listed because main asks for it. */
    method AskRoot(r: Ref)
      requires Sound() && Open == {} && (r.To? ==> r.section in Known)
      modifies `Head, `Tail, `NoOfSections, `Symbols, `Made, `Listed, `Parents, `Open, `Roots
      modifies Known`Index, Known`Next, Made`Index, Made`Next, Arrays(Known)
      ensures Sound() && Open == {} && IsListed(Now(), r) && Grows(old(Now()), Now())
      ensures Roots == old(Roots) + {Target(Now(), r)} && old(Made) <= Made && fresh(Made - old(Made))
    {
      hide *;
      ghost var start := Now();
      var target := Resolve(r);
      ghost var middle := Now();
      SoundParts();
      MoreRoots(target);
      assert allocated(Arrays(Known)) && allocated(Known) && allocated(Made);
      Roots := Roots + {target};
      MakeSound();
      Require(target, -1);
      NowIs();
      Asked(start, middle, r, target);
    }

    lemma MoreRoots(target: Section)
      requires Wanted(Now(), Parents, Roots)
      ensures Wanted(Now(), Parents, Roots + {target})
    {
      hide Refers;
    }

    /** The passes of main: every export that has a section, and then the initial,
        methods and typed function sections.  Afterwards the list is closed. */
    method Gather(exports: seq<Option<Ref>>, specials: seq<Section>)
      requires Sound() && Open == {} && Listed == [] && Roots == {}
      requires forall i :: 0 <= i < |exports| && exports[i].Some? && exports[i].value.To? ==>
                 exports[i].value.section in Known
      requires forall i :: 0 <= i < |specials| ==> specials[i] in Known
      modifies `Head, `Tail, `NoOfSections, `Symbols, `Made, `Listed, `Parents, `Open, `Roots
      modifies Known`Index, Known`Next, Made`Index, Made`Next, Arrays(Known)
      ensures Sound() && Open == {}
      ensures forall i :: 0 <= i < |exports| && exports[i].Some? ==> IsListed(Now(), exports[i].value)
      ensures forall i :: 0 <= i < |specials| ==> specials[i] in Listed
      ensures FromExports(Now(), exports, |exports|, Roots, specials)
    {
      hide *;
      NoRoots(exports);
      for i := 0 to |exports|
        invariant Sound() && Open == {} && Known == old(Known) && old(Made) <= Made && fresh(Made - old(Made))
        invariant forall k :: 0 <= k < i && k < |exports| && exports[k].Some? ==> IsListed(Now(), exports[k].value)
        invariant FromExports(Now(), exports, i, Roots, [])
      {
        ghost var now, roots := Now(), Roots;
        if exports[i].Some? {
          AskRoot(exports[i].value);
          ExportsGrow(now, Now(), exports, i);
        } else {
          GrowsSame(now);
        }
        RootsGrow(now, Now(), exports, i, roots, Roots, []);
      }
      AnySpecials(exports, specials);
      for i := 0 to |specials|
        invariant Sound() && Open == {} && Known == old(Known) && old(Made) <= Made && fresh(Made - old(Made))
        invariant forall k :: 0 <= k < |exports| && k < |exports| && exports[k].Some? ==>
                    IsListed(Now(), exports[k].value)
        invariant forall k :: 0 <= k < i ==> specials[k] in Listed
        invariant FromExports(Now(), exports, |exports|, Roots, specials)
      {
        ghost var now, roots := Now(), Roots;
        NowIs();
        AskRoot(To(specials[i]));
        NowIs();
        GrownListed(now, Now());
        ToIs(specials[i]);
        ExportsGrow(now, Now(), exports, |exports|);
        SpecialAsked(now, Now(), exports, roots, Roots, specials, i);
      }
    }

    lemma NoRoots(exports: seq<Option<Ref>>)
      requires Roots == {}
      ensures FromExports(Now(), exports, 0, Roots, [])
    {
    }

    lemma AnySpecials(exports: seq<Option<Ref>>, specials: seq<Section>)
      requires FromExports(Now(), exports, |exports|, Roots, [])
      ensures FromExports(Now(), exports, |exports|, Roots, specials)
    {
      hide FromExport;
    }

    lemma ToIs(s: Section)
      ensures Target(Now(), To(s)) == s && (IsListed(Now(), To(s)) ==> s in Listed)
    {
    }

    /** Sections nobody has numbered yet are a sound start. */
    lemma StartSound()
      requires Made == {} && Listed == [] && Parents == [] && Open == {} && Symbols == map[]
      requires Head == null && NoOfSections == 0
      requires Shape(State([], map[]), Known, {}) && forall s :: s in Known ==> s.Index == UNUSED
      ensures Sound()
    {
    }

    // ----- what the list is -----

    /** Once nothing is under way, whatever a listed section refers to is listed,
        and its relocations are bound to it. */
    lemma Complete(s: Section, r: Ref)
      requires Sound() && Open == {} && s in Listed && r in Refs(s)
      ensures IsListed(Now(), r)
      ensures forall j :: 0 <= j < |s.blocks| ==> Recorded(Now(), s.blocks[j], 0)
    {
      assert s in Known;
      assert Done(Now(), s);
      if r in s.uses {
        var i :| 0 <= i < |s.uses| && s.uses[i] == r;
        assert IsListed(Now(), s.uses[i]);
      } else {
        var j, i := BlockOfRef(s.blocks, r);
        assert Recorded(Now(), s.blocks[j], 0);
      }
    }

    /** The same, reference by reference: what a section uses is listed, and each of
        its relocations has the very section it is against, or that of its symbol. */
    lemma {:induction false} CompleteMeans(s: Section)
      requires Sound() && Open == {} && s in Listed
      ensures forall k :: 0 <= k < |s.uses| ==>
                && (s.uses[k].To? ==> s.uses[k].section in Listed)
                && (s.uses[k].Named? ==> s.uses[k].key in Symbols && Symbols[s.uses[k].key] in Listed)
      ensures forall j, k :: 0 <= j < |s.blocks| && 0 <= k < |s.blocks[j].refs| ==>
                && s.blocks[j].Targets.Length == |s.blocks[j].refs|
                && s.blocks[j].Targets[k] in Listed
                && (s.blocks[j].refs[k].To? ==> s.blocks[j].Targets[k] == s.blocks[j].refs[k].section)
                && (s.blocks[j].refs[k].Named? ==>
                      s.blocks[j].refs[k].key in Symbols
                      && s.blocks[j].Targets[k] == Symbols[s.blocks[j].refs[k].key])
    {
      DoneNow(s);
      forall j, k | 0 <= j < |s.blocks| && 0 <= k < |s.blocks[j].refs|
        ensures s.blocks[j].Targets.Length == |s.blocks[j].refs|
        ensures IsListed(Now(), s.blocks[j].refs[k]) && s.blocks[j].Targets[k] == Target(Now(), s.blocks[j].refs[k])
      {
        assert Recorded(Now(), s.blocks[j], 0);
      }
      hide Sound, Done;
    }

    lemma {:induction false} DoneNow(s: Section)
      requires Sound() && Open == {} && s in Listed
      ensures Done(Now(), s)
    {
      var i :| 0 <= i < |Listed| && Listed[i] == s;
      assert Listed[i] in Known + Made;
    }

    /** Every entry of the list is a special section, or what an export stands for, or
        what an earlier entry refers to. */
    lemma {:induction false} AskedMeans(i: nat, exports: seq<Option<Ref>>, specials: seq<Section>)
      requires Wanted(Now(), Parents, Roots) && FromExports(Now(), exports, |exports|, Roots, specials)
      requires i < |Listed|
      ensures var x := Listed[i];
              || x in specials
              || (exists k :: 0 <= k < |exports| && exports[k].Some?
                              && (exports[k].value == To(x)
                                  || exists key :: key in Symbols && Symbols[key] == x
                                      && exports[k].value == Named(key)))
              || (exists p, r :: 0 <= p < i
                                 && (r in Listed[p].uses
                                     || exists j :: 0 <= j < |Listed[p].blocks| && r in Listed[p].blocks[j].refs)
                                 && (r == To(x)
                                     || exists key :: key in Symbols && Symbols[key] == x && r == Named(key)))
    {
      var x := Listed[i];
      if Parents[i] == -1 {
        if x !in specials {
          assert FromExport(Now(), exports, |exports|, x);
          var k :| 0 <= k < |exports| && exports[k].Some? && Target(Now(), exports[k].value) == x;
          TargetIs(exports[k].value, x);
        }
      } else {
        var p := Parents[i];
        assert Refers(Now(), Listed[p], x);
        var r :| r in Refs(Listed[p]) && Target(Now(), r) == x;
        TargetIs(r, x);
        if r !in Listed[p].uses {
          var j, k := BlockOfRef(Listed[p].blocks, r);
        }
      }
    }

    lemma {:induction false} TargetIs(r: Ref, x: Section)
      requires Target(Now(), r) == x
      ensures r == To(x) || exists key :: key in Symbols && Symbols[key] == x && r == Named(key)
    {
    }

    /** Each section is listed once, its number is its place, and the number of
        sections is the length of the list. */
    lemma Once(i: nat, j: nat)
      requires Sound() && i < |Listed| && j < |Listed|
      ensures Listed[i].Index == i && NoOfSections == |Listed| && (Listed[i] == Listed[j] ==> i == j)
      ensures Head == Listed[0] && Listed[i].Next == if i + 1 < |Listed| then Listed[i + 1] else null
    {
    }

    lemma Counted()
      requires Sound()
      ensures NoOfSections == |Listed|
    {
    }

    /** Every listed section can be reached from a root. */
    lemma {:induction false} Reached(i: nat) returns (path: seq<Section>)
      requires Wanted(Now(), Parents, Roots) && i < |Listed|
      ensures path != [] && path[0] in Roots && path[|path| - 1] == Listed[i]
      ensures forall k :: 0 <= k < |path| - 1 ==> Refers(Now(), path[k], path[k + 1])
    {
      if Parents[i] == -1 {
        path := [Listed[i]];
      } else {
        path := Reached(Parents[i]);
        path := path + [Listed[i]];
      }
    }

    lemma RequireFacts(s: Section)
      requires Sound() && s in Known + Made
      ensures s.Index != UNUSED ==> s in Listed
      ensures s.Index == UNUSED ==> s !in Listed && (s in Known ==> s in Rest()) && s !in Open
    {
    }

    lemma AppendReady(s: Section)
      requires Sound() && s in Known + Made && s.Index == UNUSED
      ensures NoOfSections == |Listed| && s !in Listed && Numbered(Listed, Known + Made)
      ensures Listed == [] <==> Head == null
      ensures Listed != [] ==> Tail == Listed[|Listed| - 1] && Tail in Known + Made && Tail != s && Head == Listed[0]
      ensures Shape(Now(), Known, Made) && Wanted(Now(), Parents, Roots) && AllDone(Now(), Known, Open)
      ensures forall x :: x in Open ==> x in Listed
      ensures Rest() <= Known && forall x :: x in Rest() <==> x in Known && x.Index == UNUSED
      ensures Now() == State(Listed, Symbols) && s !in Open && UNUSED < 0
      ensures forall a :: a in Arrays(Known) ==> a as object !in (set x | x in Known + Made :: x as object)
    {
      hide Shape, Wanted, AllDone;
    }

    lemma NowIs()
      ensures Now() == State(Listed, Symbols)
    {
    }

    lemma RestLess(s: Section, rest: set<Section>)
      requires s.Index != UNUSED
      requires forall x :: x in Known && x != s ==> (x in rest <==> x.Index == UNUSED)
      requires forall x :: x in rest ==> x in Known
      ensures Rest() == rest - {s}
    {
    }

    lemma AppendDone(before: State, s: Section, parent: int)
      requires Shape(before, Known, Made) && AllDone(before, Known, Open - {s}) && s in Open && s !in before.listed
      requires |Parents| > 0 && Parents[|Parents| - 1] == parent && Wanted(before, Parents[..|Parents| - 1], Roots)
      requires Now() == State(before.listed + [s], before.symbols) && Numbered(Listed, Known + Made)
               && NoOfSections == |Listed|
      requires Head == Listed[0] && Tail == s && forall x :: x in Open && x != s ==> x in before.listed
      requires if parent == -1 then s in Roots
               else 0 <= parent < |before.listed| && Refers(before, before.listed[parent], s)
      ensures Sound() && Grows(before, Now())
    {
      assert Grows(before, Now());
      assert Shape(Now(), Known, Made) by {
        hide AllDone, Wanted, Numbered;
      }
      assert Wanted(Now(), Parents, Roots) by {
        hide AllDone, Numbered, Shape;
        WantedMore(before, Parents[..|Parents| - 1], Roots, s, parent);
        assert Parents == Parents[..|Parents| - 1] + [parent];
      }
      hide Shape, Wanted, Numbered, Done;
      forall x | x in Known && x in Listed && x !in Open ensures Done(Now(), x) {
        DoneGrows(before, Now(), x);
      }
    }
  }

  lemma WantedMore(st: State, parents: seq<int>, roots: set<Section>, s: Section, parent: int)
    requires Wanted(st, parents, roots)
    requires if parent == -1 then s in roots else 0 <= parent < |st.listed| && Refers(st, st.listed[parent], s)
    ensures Wanted(State(st.listed + [s], st.symbols), parents + [parent], roots)
  {
    var st', ps := State(st.listed + [s], st.symbols), parents + [parent];
    forall k | 0 <= k < |ps|
      ensures if ps[k] == -1 then st'.listed[k] in roots
              else 0 <= ps[k] < k && Refers(st', st'.listed[ps[k]], st'.listed[k])
    {
      if ps[k] != -1 {
        if k < |parents| {
          assert parents[k] == ps[k];
        }
        RefersGrows(st, st', st'.listed[ps[k]], st'.listed[k]);
      }
    }
  }

  lemma NumberedParts(listed: seq<Section>, all: set<Section>, s: Section)
    requires Numbered(listed, all) && s !in listed
    ensures forall i :: 0 <= i < |listed| ==> listed[i] in all && listed[i] != s && listed[i].Index == i
    ensures forall x :: x in all && x.Index != UNUSED ==> 0 <= x.Index < |listed| && listed[x.Index] == x
    ensures forall i :: 0 <= i < |listed| - 1 ==> listed[i].Next == listed[i + 1] && listed[i] != listed[|listed| - 1]
  {
    forall i | 0 <= i < |listed| - 1 ensures listed[i].Next == listed[i + 1] && listed[i] != listed[|listed| - 1] {
      assert listed[i].Next == After(listed, i);
    }
  }

  lemma NumberedMore(listed: seq<Section>, s: Section, all: set<Section>)
    requires s in all && s.Index == |listed| && s.Next == null
    requires forall i :: 0 <= i < |listed| ==> listed[i] in all && listed[i].Index == i
    requires forall x :: x in all && x != s && x.Index != UNUSED ==> 0 <= x.Index < |listed| && listed[x.Index] == x
    requires forall i :: 0 <= i < |listed| - 1 ==> listed[i].Next == listed[i + 1]
    requires listed != [] ==> listed[|listed| - 1].Next == s
    ensures Numbered(listed + [s], all)
  {
    var l := listed + [s];
    forall i | 0 <= i < |l| ensures l[i].Next == After(l, i) {
      assert i < |listed| - 1 ==> listed[i].Next == listed[i + 1];
    }
  }

  /** The whole of it, from sections that nobody has numbered: the list has every
      section once, under its number; it has what the exports stand for, the
      special sections, and whatever a listed section refers to; and each entry
      was asked for by main or by an earlier one. */
  method Collect(ghost known: set<Section>, exports: seq<Option<Ref>>, specials: seq<Section>) returns (l: Linker)
    requires Shape(State([], map[]), known, {}) && forall s :: s in known ==> s.Index == UNUSED
    requires forall i :: 0 <= i < |exports| && exports[i].Some? && exports[i].value.To? ==>
               exports[i].value.section in known
    requires forall i :: 0 <= i < |specials| ==> specials[i] in known
    modifies known`Index, known`Next, Arrays(known)
    ensures l.Sound() && l.Open == {}
    ensures l.NoOfSections == |l.Listed| && forall i :: 0 <= i < |l.Listed| ==> l.Listed[i].Index == i
    ensures forall i :: 0 <= i < |exports| && exports[i].Some? ==> IsListed(l.Now(), exports[i].value)
    ensures forall i :: 0 <= i < |specials| ==> specials[i] in l.Listed
    ensures forall s, r :: s in l.Listed && r in Refs(s) ==> IsListed(l.Now(), r)
    ensures Wanted(l.Now(), l.Parents, l.Roots) && FromExports(l.Now(), exports, |exports|, l.Roots, specials)
  {
    hide *;
    l := new Linker(known);
    assert allocated(known) && allocated(Arrays(known));
    l.StartSound();
    l.Gather(exports, specials);
    l.SoundParts();
    forall i | 0 <= i < |l.Listed|
      ensures l.Listed[i].Index == i && l.NoOfSections == |l.Listed|
    {
      l.Once(i, i);
    }
    l.Counted();
    forall s, r | s in l.Listed && r in Refs(s)
      ensures IsListed(l.Now(), r)
    {
      l.Complete(s, r);
    }
  }
}
