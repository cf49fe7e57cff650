/** Load-time fixups of dev/src/riva/riva.c: fixup_text_section,
    fixup_data_section and fixup_bss_section call each other over a graph of
    sections that may have cycles. */
module Fixups {
  import opened Words

  const RELOC_ABS := 0
  const RELOC_REL := 1
  const RELOC_IND := 2
  const RELOC_GOT := 3
  const RELOC_INDX := 4

  datatype Kind = Text | Data | Bss

  datatype Reloc = Reloc(size: nat, flags: nat, pos: nat, target: Section)

  /** What a fixup writes: the bytes of a section and the links in its header. */
  datatype View = View(bytes: seq<Byte>, links: seq<int>)

  class Section {
    const kind: Kind
    /** Address of the bytes, of the link table, and of the global offset table. */
    const base: nat
    const linksBase: nat
    const got: nat
    const relocs: seq<Reloc>
    const Bytes: array<Byte>
    const Links: array<int>
    var NoOfFixups: nat
    /** Is `Relocs` still set? */
    var HasRelocs: bool
    /** The bytes as loaded, and the relocations applied so far, in order. */
    ghost const image: seq<Byte>
    ghost var Done: seq<nat>

    constructor (kind: Kind, base: nat, linksBase: nat, got: nat, relocs: seq<Reloc>, bytes: array<Byte>,
        links: array<int>)
      requires links.Length == |relocs| && forall i :: 0 <= i < links.Length ==> links[i] == 0
      ensures this.kind == kind && this.base == base && this.linksBase == linksBase && this.got == got
      ensures this.relocs == relocs && Bytes == bytes && Links == links && image == bytes[..]
      ensures NoOfFixups == (if kind == Bss then 0 else |relocs|) && HasRelocs && Done == []
    {
      this.kind, this.base, this.linksBase, this.got := kind, base, linksBase, got;
      this.relocs, this.Bytes, this.Links := relocs, bytes, links;
      this.image := bytes[..];
      NoOfFixups := if kind == Bss then 0 else |relocs|;
      HasRelocs := true;
      Done := [];
    }

    /** How many relocations have been taken up. */
    ghost function Taken(): int
      reads `NoOfFixups
    {
      |relocs| - NoOfFixups
    }

    ghost function LinkAddress(i: nat): int {
      (linksBase + 4 * i) % WORD32
    }
  }

  predicate Patchable(size: nat) { size == 1 || size == 2 || size == 4 }

  /** Does the relocation read and clear a whole word besides its own field? */
  predicate Indirect(kind: Kind, r: Reloc) {
    kind == Text && (r.flags == RELOC_IND || r.flags == RELOC_INDX)
  }

  /** How many bytes a relocation touches. */
  function Width(kind: Kind, r: Reloc): nat {
    if Indirect(kind, r) then 4 else if Patchable(r.size) then r.size else 0
  }

  ghost function Added(b: seq<Byte>, pos: nat, size: nat, value: int): (r: seq<Byte>)
    requires Patchable(size) ==> pos + size <= |b|
    ensures |r| == |b|
  {
    if Patchable(size) then Stored(b, pos, size, Field(b, pos, size) + value) else b
  }

  /** What is added to the field of a relocation. */
  ghost function Value(s: Section, i: nat): int
    requires i < |s.relocs|
  {
    var r := s.relocs[i];
    if r.flags == RELOC_REL then r.target.base - s.base
    else if Indirect(s.kind, r) then s.LinkAddress(i)
    else if r.flags == RELOC_GOT then (if s.kind == Text then s.got - s.base else 0 - r.target.base)
    else r.target.base
  }

  ghost predicate Fits(s: Section, i: nat, v: View) {
    i < |s.relocs| && |v.links| == |s.relocs| && s.relocs[i].pos + Width(s.kind, s.relocs[i]) <= |v.bytes|
  }

  /** One relocation applied. */
  ghost function Applied(s: Section, i: nat, v: View): (w: View)
    requires Fits(s, i, v)
    ensures |w.bytes| == |v.bytes| && |w.links| == |v.links|
  {
    var r := s.relocs[i];
    if Indirect(s.kind, r) then
      var offset := Field(v.bytes, r.pos, 4);
      View(Added(Stored(v.bytes, r.pos, 4, 0), r.pos, r.size, Value(s, i)),
          v.links[i := (r.target.base + offset) % WORD32])
    else
      View(Added(v.bytes, r.pos, r.size, Value(s, i)), if s.kind == Text then v.links[i := r.target.base] else v.links)
  }

  ghost function Fresh(s: Section): View {
    View(s.image, seq(|s.relocs|, i => 0))
  }

  ghost predicate AllFit(s: Section) {
    forall i :: 0 <= i < |s.relocs| ==> s.relocs[i].pos + Width(s.kind, s.relocs[i]) <= |s.image|
  }

  ghost predicate Indices(s: Section, done: seq<nat>) {
    forall i :: i in done ==> i < |s.relocs|
  }

  /** The section after the relocations `done`, in that order. */
  ghost function Played(s: Section, done: seq<nat>): (v: View)
    requires AllFit(s) && Indices(s, done)
    ensures |v.bytes| == |s.image| && |v.links| == |s.relocs|
  {
    if done == [] then Fresh(s)
    else
      var k := |done| - 1;
      assert done[k] in done && forall i :: i in done[..k] ==> i in done;
      Applied(s, done[k], Played(s, done[..k]))
  }

  // ----- the order does not matter -----

  ghost predicate Overlap(s: Section, i: nat, j: nat)
    requires i < |s.relocs| && j < |s.relocs|
  {
    var a, b := s.relocs[i], s.relocs[j];
    a.pos < b.pos + Width(s.kind, b) && b.pos < a.pos + Width(s.kind, a)
  }

  ghost predicate FieldsApart(s: Section) {
    forall i, j :: 0 <= i < |s.relocs| && 0 <= j < |s.relocs| && i != j ==> !Overlap(s, i, j)
  }

  /** What a field holds in the end. */
  ghost function Expected(s: Section, i: nat): int
    requires AllFit(s) && i < |s.relocs| && Patchable(s.relocs[i].size)
  {
    var r := s.relocs[i];
    (if Indirect(s.kind, r) then Value(s, i) else Field(s.image, r.pos, r.size) + Value(s, i)) % Pow256(r.size)
  }

  /** What the link of a relocation holds in the end. */
  ghost function ExpectedLink(s: Section, i: nat): int
    requires AllFit(s) && i < |s.relocs|
  {
    var r := s.relocs[i];
    if Indirect(s.kind, r) then (r.target.base + Field(s.image, r.pos, 4)) % WORD32
    else if s.kind == Text then r.target.base
    else 0
  }

  ghost predicate Inside(s: Section, i: nat, p: nat)
    requires i < |s.relocs|
  {
    s.relocs[i].pos <= p < s.relocs[i].pos + Width(s.kind, s.relocs[i])
  }

  /** One relocation changes its own field and link and nothing else. */
  lemma AppliedElsewhere(s: Section, i: nat, v: View, p: nat)
    requires Fits(s, i, v) && p < |v.bytes| && !Inside(s, i, p)
    ensures Applied(s, i, v).bytes[p] == v.bytes[p]
  {
    var r := s.relocs[i];
    var b := if Indirect(s.kind, r) then Stored(v.bytes, r.pos, 4, 0) else v.bytes;
    if Indirect(s.kind, r) {
      StoredElsewhere(v.bytes, r.pos, 4, 0, p);
    }
    if Patchable(r.size) {
      StoredElsewhere(b, r.pos, r.size, Field(b, r.pos, r.size) + Value(s, i), p);
    }
  }

  lemma AppliedHere(s: Section, i: nat, v: View)
    requires Fits(s, i, v) && AllFit(s) && |v.bytes| == |s.image|
    requires forall p :: 0 <= p < |s.image| && Inside(s, i, p) ==> v.bytes[p] == s.image[p]
    requires !Indirect(s.kind, s.relocs[i]) && s.kind != Text ==> v.links[i] == 0
    ensures Patchable(s.relocs[i].size) ==>
              Field(Applied(s, i, v).bytes, s.relocs[i].pos, s.relocs[i].size) == Expected(s, i)
    ensures Applied(s, i, v).links[i] == ExpectedLink(s, i)
  {
    var r := s.relocs[i];
    if Indirect(s.kind, r) {
      FieldOf(v.bytes, s.image, r.pos, 4);
      var b := Stored(v.bytes, r.pos, 4, 0);
      if Patchable(r.size) {
        ZeroField(v.bytes, r.pos, r.size);
        FieldStored(b, r.pos, r.size, Field(b, r.pos, r.size) + Value(s, i));
      }
    } else if Patchable(r.size) {
      FieldOf(v.bytes, s.image, r.pos, r.size);
      FieldStored(v.bytes, r.pos, r.size, Field(v.bytes, r.pos, r.size) + Value(s, i));
    }
  }

  lemma ZeroBytes(b: seq<Byte>, pos: nat, size: nat, p: nat)
    requires pos + size <= |b| && pos <= p < pos + size
    ensures Stored(b, pos, size, 0)[p] == 0
    decreases size
  {
    var c := b[pos := 0];
    if p == pos {
      StoredElsewhere(c, pos + 1, size - 1, 0, pos);
    } else {
      ZeroBytes(c, pos + 1, size - 1, p);
    }
  }

  lemma ZeroField(b: seq<Byte>, pos: nat, size: nat)
    requires Patchable(size) && pos + 4 <= |b|
    ensures Field(Stored(b, pos, 4, 0), pos, size) == 0
  {
    var c := Stored(b, pos, 4, 0);
    forall p | pos <= p < pos + 4 ensures c[p] == 0 {
      ZeroBytes(b, pos, 4, p);
    }
    AllZero(c, pos, size);
  }

  lemma {:induction false} AllZero(c: seq<Byte>, pos: nat, size: nat)
    requires pos + size <= |c| && forall p :: pos <= p < pos + size ==> c[p] == 0
    ensures Field(c, pos, size) == 0
    decreases size
  {
    if size > 0 {
      AllZero(c, pos + 1, size - 1);
    }
  }

  /** What is known of byte `p` and of relocation `i` after `done`. */
  ghost predicate Settled(s: Section, done: seq<nat>)
    requires AllFit(s) && Indices(s, done)
  {
    var v := Played(s, done);
    && (forall i :: 0 <= i < |s.relocs| ==>
          if i in done then
            && (Patchable(s.relocs[i].size) ==> Field(v.bytes, s.relocs[i].pos, s.relocs[i].size) == Expected(s, i))
            && v.links[i] == ExpectedLink(s, i)
          else
            v.links[i] == 0)
    && (forall p :: 0 <= p < |s.image| && (forall i :: i in done ==> !Inside(s, i, p)) ==> v.bytes[p] == s.image[p])
  }

  ghost predicate Once(done: seq<nat>) {
    forall i, j :: 0 <= i < j < |done| ==> done[i] != done[j]
  }

  /** However the relocations are ordered, each field ends up with what it is
      meant to hold, and everything else is as it was loaded. */
  lemma {:induction false} PlayedSettles(s: Section, done: seq<nat>)
    requires AllFit(s) && FieldsApart(s) && Indices(s, done) && Once(done)
    ensures Settled(s, done)
  {
    if done != [] {
      var k := |done| - 1;
      var before, e := done[..k], done[k];
      assert done[k] in done && forall i :: i in before ==> i in done;
      assert e !in before;
      PlayedSettles(s, before);
      SettleStep(s, before, e);
      assert done == before + [e];
    }
  }

  lemma SettleStep(s: Section, before: seq<nat>, e: nat)
    requires AllFit(s) && FieldsApart(s) && Indices(s, before) && e < |s.relocs| && e !in before
    requires Settled(s, before)
    ensures Indices(s, before + [e]) && Settled(s, before + [e])
  {
    var done := before + [e];
    assert done[..|done| - 1] == before;
    var v, w := Played(s, before), Played(s, done);
    assert w == Applied(s, e, v);
    forall p | 0 <= p < |s.image| && Inside(s, e, p) ensures v.bytes[p] == s.image[p] {
      forall i | i in before ensures !Inside(s, i, p) {
        assert !Overlap(s, i, e);
      }
    }
    AppliedHere(s, e, v);
    forall i | 0 <= i < |s.relocs| && i != e
      ensures w.links[i] == v.links[i]
      ensures Patchable(s.relocs[i].size) ==>
                Field(w.bytes, s.relocs[i].pos, s.relocs[i].size) == Field(v.bytes, s.relocs[i].pos, s.relocs[i].size)
    {
      if Patchable(s.relocs[i].size) {
        FieldUntouched(s, e, i, v);
      }
    }
    forall p | 0 <= p < |s.image| && forall i :: i in done ==> !Inside(s, i, p) ensures w.bytes[p] == s.image[p] {
      assert e in done && forall i :: i in before ==> i in done;
      AppliedElsewhere(s, e, v, p);
    }
  }

  lemma FieldUntouched(s: Section, e: nat, i: nat, v: View)
    requires Fits(s, e, v) && AllFit(s) && |v.bytes| == |s.image| && i < |s.relocs| && !Overlap(s, e, i)
             && Patchable(s.relocs[i].size)
    ensures Field(Applied(s, e, v).bytes, s.relocs[i].pos, s.relocs[i].size)
            == Field(v.bytes, s.relocs[i].pos, s.relocs[i].size)
  {
    var r, w := s.relocs[i], Applied(s, e, v);
    forall p | r.pos <= p < r.pos + r.size ensures w.bytes[p] == v.bytes[p] {
      AppliedElsewhere(s, e, v, p);
    }
    FieldOf(w.bytes, v.bytes, r.pos, r.size);
  }

  // ----- the sections of an image -----

  ghost predicate Apart(secs: seq<Section>) {
    && (forall i, j :: 0 <= i < j < |secs| ==>
        secs[i] != secs[j] && secs[i].Bytes != secs[j].Bytes && secs[i].Links != secs[j].Links)
    && (forall i, j :: 0 <= i < |secs| && 0 <= j < |secs| ==> secs[i].Bytes as object != secs[j].Links)
  }

  /** The graph is closed, and every relocation lies inside its section. */
  ghost predicate Closed(secs: seq<Section>) {
    forall s :: s in secs ==>
      && AllFit(s) && s.Bytes.Length == |s.image| && s.Links.Length == |s.relocs|
      && (s.kind == Bss ==> s.relocs == [])
      && forall i :: 0 <= i < |s.relocs| ==> s.relocs[i].target in secs
  }

  /** A section between two steps: its bytes are what the relocations in `Done`
      make of the image. */
  ghost predicate Sound(s: Section)
    requires AllFit(s)
    reads s, s.Bytes, s.Links
  {
    && s.NoOfFixups <= |s.relocs| && (!s.HasRelocs ==> s.NoOfFixups == 0)
    && (forall i :: i in s.Done ==> i < s.Taken())
    && Played(s, s.Done) == View(s.Bytes[..], s.Links[..])
  }

  /** The target of every relocation that is applied has no fixups left to take,
      unless it is the section itself. */
  ghost predicate Drained(secs: seq<Section>)
    requires Closed(secs)
    reads secs
  {
    forall s, i :: s in secs && i in s.Done && i < |s.relocs| && s.relocs[i].target != s ==>
        s.relocs[i].target.NoOfFixups == 0
  }

  ghost predicate World(secs: seq<Section>)
    reads secs, set s | s in secs :: s.Bytes, set s | s in secs :: s.Links
  {
    Apart(secs) && Closed(secs) && Drained(secs) && forall s :: s in secs ==> Sound(s)
  }

  ghost function ViewOf(s: Section): View
    reads s.Bytes, s.Links
  {
    View(s.Bytes[..], s.Links[..])
  }

  // ----- applying one relocation -----

  method AddTo(a: array<Byte>, pos: nat, size: nat, value: int)
    requires Patchable(size) ==> pos + size <= a.Length
    modifies a
    ensures a[..] == Added(old(a[..]), pos, size, value)
  {
    if size == 1 || size == 2 || size == 4 {
      var v := LoadField(a, pos, size);
      StoreField(a, pos, size, v + value);
    }
  }

  /** The body of the loop of fixup_text_section, once the target is known. */
  method PatchText(s: Section, index: nat, value0: int)
    requires s.kind == Text && Fits(s, index, ViewOf(s)) && value0 == s.relocs[index].target.base
             && s.Bytes as object != s.Links
    modifies s.Bytes, s.Links
    ensures ViewOf(s) == Applied(s, index, old(ViewOf(s)))
  {
    var value := value0;
    var reloc := s.relocs[index];
    s.Links[index] := value;
    if reloc.flags == RELOC_REL {
      value := value - s.base;
    } else if reloc.flags == RELOC_IND {
      var offset := LoadField(s.Bytes, reloc.pos, 4);
      StoreField(s.Bytes, reloc.pos, 4, 0);
      s.Links[index] := (s.Links[index] + offset) % WORD32;
      value := (s.linksBase + 4 * index) % WORD32;
    } else if reloc.flags == RELOC_INDX {
      var offset := LoadField(s.Bytes, reloc.pos, 4);
      StoreField(s.Bytes, reloc.pos, 4, 0);
      s.Links[index] := (s.Links[index] + offset) % WORD32;
      value := (s.linksBase + 4 * index) % WORD32;
    } else if reloc.flags == RELOC_GOT {
      value := s.got - s.base;
    }
    AddTo(s.Bytes, reloc.pos, reloc.size, value);
  }

  /** The body of the loop of fixup_data_section, once the target is known. */
  method PatchData(s: Section, index: nat, value0: int)
    requires s.kind != Text && Fits(s, index, ViewOf(s)) && value0 == s.relocs[index].target.base
             && s.Bytes as object != s.Links
    modifies s.Bytes
    ensures ViewOf(s) == Applied(s, index, old(ViewOf(s)))
  {
    var value := value0;
    var reloc := s.relocs[index];
    if reloc.flags == RELOC_REL {
      value := value - s.base;
    } else if reloc.flags == RELOC_GOT {
      value := -value;
    }
    AddTo(s.Bytes, reloc.pos, reloc.size, value);
  }

  // ----- progress -----

  /** How far a section is: fixups in all, fixups left, relocations applied. */
  datatype Shot = Shot(n: nat, left: nat, done: seq<int>)

  ghost function ShotOf(s: Section): Shot
    reads s
  {
    Shot(|s.relocs|, s.NoOfFixups, s.Done)
  }

  ghost function Shots(secs: seq<Section>): (r: seq<Shot>)
    reads secs
    ensures |r| == |secs| && forall k :: 0 <= k < |secs| ==> r[k] == ShotOf(secs[k])
  {
    seq(|secs|, k requires 0 <= k < |secs| reads secs => ShotOf(secs[k]))
  }

  ghost function Range(lo: int, hi: int): seq<int>
    decreases hi - lo
  {
    if lo >= hi then [] else Range(lo, hi - 1) + [hi - 1]
  }

  /** The numbers from `lo` to `hi - 1`, each once, in any order. */
  ghost predicate Exactly(d: seq<int>, lo: int, hi: int) {
    multiset(d) == multiset(Range(lo, hi))
  }

  /** Every relocation taken up meanwhile has been applied, once. */
  ghost predicate Grown(a: Shot, b: Shot) {
    b.n == a.n && b.left <= a.left && a.done <= b.done && Exactly(b.done[|a.done|..], a.n - a.left, b.n - b.left)
  }

  ghost predicate GrownAll(x: seq<Shot>, y: seq<Shot>) {
    |x| == |y| && forall k :: 0 <= k < |x| ==> Grown(x[k], y[k])
  }

  ghost function Left(x: seq<Shot>): nat {
    if x == [] then 0 else x[0].left + Left(x[1..])
  }

  lemma {:induction false} RangeSplit(a: int, b: int, c: int)
    requires a <= b <= c
    ensures Range(a, c) == Range(a, b) + Range(b, c)
    decreases c - b
  {
    if b < c {
      RangeSplit(a, b, c - 1);
    }
  }

  lemma ExactlyJoin(d: seq<int>, e: seq<int>, a: int, b: int, c: int)
    requires a <= b <= c && Exactly(d, a, b) && Exactly(e, b, c)
    ensures Exactly(d + e, a, c)
  {
    RangeSplit(a, b, c);
  }

  lemma ExactlyLast(d: seq<int>, b: int, c: int)
    requires b < c && Exactly(d, b + 1, c)
    ensures Exactly(d + [b], b, c)
  {
    RangeSplit(b, b + 1, c);
    assert Range(b, b + 1) == Range(b, b) + [b] == [b];
    assert multiset(d + [b]) == multiset([b]) + multiset(d);
  }

  lemma GrownSame(x: seq<Shot>)
    ensures GrownAll(x, x)
  {
  }

  lemma Prefixes(a: seq<int>, b: seq<int>, c: seq<int>)
    requires a <= b <= c
    ensures |a| <= |b| <= |c| && a <= c && c[|a|..] == b[|a|..] + c[|b|..]
  {
    assert c == b + c[|b|..];
  }

  lemma OneMore(a: seq<int>, b: seq<int>, c: seq<int>, t: int)
    requires a <= b <= c
    ensures |a| <= |b| <= |c| && a <= c + [t] && (c + [t])[|a|..] == b[|a|..] + (c[|b|..] + [t])
  {
    Prefixes(a, b, c);
    assert (c + [t])[|a|..] == c[|a|..] + [t];
  }

  lemma GrownDef(a: Shot, b: Shot)
    ensures Grown(a, b) <==>
            && b.n == a.n && b.left <= a.left && a.done <= b.done
            && Exactly(b.done[|a.done|..], a.n - a.left, b.n - b.left)
  {
  }

  lemma GrownTrans(a: Shot, b: Shot, c: Shot)
    requires Grown(a, b) && Grown(b, c)
    ensures Grown(a, c)
  {
    hide *;
    GrownDef(a, b);
    GrownDef(b, c);
    GrownDef(a, c);
    Prefixes(a.done, b.done, c.done);
    ExactlyJoin(b.done[|a.done|..], c.done[|b.done|..], a.n - a.left, b.n - b.left, c.n - c.left);
  }

  /** One reloc taken up, whatever happens before it is applied, and then that. */
  lemma GrownStep(a: Shot, b: Shot, c: Shot)
    requires Grown(a, b) && b.left > 0 && Grown(b.(left := b.left - 1), c)
    ensures Grown(a, c.(done := c.done + [b.n - b.left]))
  {
    hide *;
    var t := b.n - b.left;
    GrownDef(a, b);
    GrownDef(b.(left := b.left - 1), c);
    GrownDef(a, c.(done := c.done + [t]));
    OneMore(a.done, b.done, c.done, t);
    ExactlyLast(c.done[|b.done|..], t, c.n - c.left);
    ExactlyJoin(b.done[|a.done|..], c.done[|b.done|..] + [t], a.n - a.left, t, c.n - c.left);
  }

  lemma GrownAllStep(x: seq<Shot>, y: seq<Shot>, z: seq<Shot>, k: nat)
    requires GrownAll(x, y) && k < |x| && y[k].left > 0 && GrownAll(y[k := y[k].(left := y[k].left - 1)], z)
    ensures GrownAll(x, z[k := z[k].(done := z[k].done + [y[k].n - y[k].left])])
  {
    hide Grown;
    forall j | 0 <= j < |x| && j != k ensures Grown(x[j], z[j]) {
      GrownTrans(x[j], y[j], z[j]);
    }
    GrownStep(x[k], y[k], z[k]);
  }

  lemma {:induction false} LeftGrown(x: seq<Shot>, y: seq<Shot>)
    requires GrownAll(x, y)
    ensures Left(y) <= Left(x)
  {
    if x != [] {
      LeftGrown(x[1..], y[1..]);
    }
  }

  lemma {:induction false} LeftTaken(x: seq<Shot>, k: nat)
    requires k < |x| && x[k].left > 0
    ensures Left(x[k := x[k].(left := x[k].left - 1)]) == Left(x) - 1
  {
    var y := x[k := x[k].(left := x[k].left - 1)];
    if k > 0 {
      assert y[1..] == x[1..][k - 1 := x[k].(left := x[k].left - 1)];
      LeftTaken(x[1..], k - 1);
    }
  }

  // ----- the fixup functions -----

  /** Takes up the next relocation: its number is fixed before anything else
      can run. */
  method TakeUp(s: Section, ghost secs: seq<Section>, ghost k: nat) returns (index: nat)
    requires World(secs) && k < |secs| && secs[k] == s && s.NoOfFixups > 0
    modifies s`NoOfFixups
    ensures World(secs) && index == |s.relocs| - old(s.NoOfFixups) < |s.relocs|
    ensures s.HasRelocs && old(Shots(secs))[k] == Shot(|s.relocs|, old(s.NoOfFixups), old(s.Done))
    ensures Shots(secs) == old(Shots(secs))[k := old(Shots(secs)[k]).(left := old(Shots(secs)[k]).left - 1)]
  {
    ghost var shots := Shots(secs);
    assert s in secs && Sound(s);
    index := |s.relocs| - s.NoOfFixups;
    s.NoOfFixups := s.NoOfFixups - 1;
    forall x | x in secs ensures Sound(x) {
      assert old(Sound(x));
    }
    assert forall i :: 0 <= i < |secs| && i != k ==> secs[i] != s;
  }

  /** Applies a relocation that has been taken up. */
  method Finish(s: Section, index: nat, value: int, ghost secs: seq<Section>, ghost k: nat)
    requires World(secs) && k < |secs| && secs[k] == s && index < |s.relocs| && index < s.Taken()
    requires value == s.relocs[index].target.base
    requires s.relocs[index].target == s || s.relocs[index].target.NoOfFixups == 0
    modifies s`Done, s.Bytes, s.Links
    ensures World(secs)
    ensures Shots(secs) == old(Shots(secs))[k := old(Shots(secs)[k]).(done := old(Shots(secs)[k]).done + [index])]
  {
    hide *;
    ghost var done, shots := s.Done, Shots(secs);
    FinishReady(s, index, secs, k);
    if s.kind == Text {
      PatchText(s, index, value);
    } else {
      PatchData(s, index, value);
    }
    s.Done := done + [index];
    PlayedMore(s, done, index);
    assert forall i :: 0 <= i < |secs| && i != k ==> Sound(secs[i]);
    SoundNow(s, done, index);
    ShotsMore(secs, k, done, index, shots);
    DrainedMore(secs, k, index, shots);
    MakeWorld(secs, k);
  }

  lemma FinishReady(s: Section, index: nat, secs: seq<Section>, k: nat)
    requires World(secs) && k < |secs| && secs[k] == s && index < |s.relocs| && index < s.Taken()
    ensures AllFit(s) && Indices(s, s.Done) && Fits(s, index, ViewOf(s)) && Played(s, s.Done) == ViewOf(s)
    ensures s.NoOfFixups <= |s.relocs| && (!s.HasRelocs ==> s.NoOfFixups == 0)
            && (forall i :: i in s.Done ==> i < s.Taken())
    ensures s.Bytes as object != s.Links && Apart(secs) && Closed(secs) && Drained(secs)
    ensures forall i :: 0 <= i < |secs| && i != k ==>
              && secs[i] != s && secs[i].Bytes != s.Bytes && secs[i].Links != s.Links && Sound(secs[i])
              && secs[i].Bytes as object != s.Links && secs[i].Links as object != s.Bytes && AllFit(secs[i])
    ensures forall i :: 0 <= i < |secs| ==> Shots(secs)[i] == ShotOf(secs[i])
    ensures Shots(secs)[k] == Shot(|s.relocs|, s.NoOfFixups, s.Done) && DrainedBy(secs, Shots(secs))
  {
    assert s in secs && Sound(s);
  }

  lemma SoundNow(s: Section, done: seq<nat>, index: nat)
    requires AllFit(s) && Indices(s, done + [index]) && Played(s, done + [index]) == ViewOf(s)
             && s.Done == done + [index]
    requires s.NoOfFixups <= |s.relocs| && (!s.HasRelocs ==> s.NoOfFixups == 0)
    requires index < s.Taken() && forall i :: i in done ==> i < s.Taken()
    ensures Sound(s)
  {
    hide Played;
  }

  /** `Drained`, for the progress that `shots` records. */
  ghost predicate DrainedBy(secs: seq<Section>, shots: seq<Shot>)
    requires Closed(secs)
    reads secs`NoOfFixups
  {
    |shots| == |secs| && forall x, i ::
        0 <= x < |secs| && i in shots[x].done && 0 <= i < |secs[x].relocs| && secs[x].relocs[i].target != secs[x] ==>
      secs[x].relocs[i].target in secs && secs[x].relocs[i].target.NoOfFixups == 0
  }

  lemma DrainedMore(secs: seq<Section>, k: nat, index: nat, before: seq<Shot>)
    requires Closed(secs) && k < |secs| && DrainedBy(secs, before) && index < |secs[k].relocs|
    requires Shots(secs) == before[k := before[k].(done := before[k].done + [index])]
    requires secs[k].relocs[index].target == secs[k] || secs[k].relocs[index].target.NoOfFixups == 0
    ensures Drained(secs)
  {
    forall s, i | s in secs && i in s.Done && i < |s.relocs| && s.relocs[i].target != s
      ensures s.relocs[i].target.NoOfFixups == 0
    {
      var x :| 0 <= x < |secs| && secs[x] == s;
      assert i in Shots(secs)[x].done;
      assert x != k || i != index ==> i in before[x].done;
    }
  }

  lemma MakeWorld(secs: seq<Section>, k: nat)
    requires Apart(secs) && Closed(secs) && Drained(secs) && k < |secs| && AllFit(secs[k]) && Sound(secs[k])
    requires forall i :: 0 <= i < |secs| && i != k ==> AllFit(secs[i]) && Sound(secs[i])
    ensures World(secs)
  {
    hide Sound, Apart, Drained, AllFit;
  }

  lemma ShotsMore(secs: seq<Section>, k: nat, done: seq<nat>, index: nat, before: seq<Shot>)
    requires k < |secs| && secs[k].Done == done + [index] && |before| == |secs|
    requires before[k].done == done && before[k].left == secs[k].NoOfFixups && before[k].n == |secs[k].relocs|
    requires forall i :: 0 <= i < |secs| && i != k ==> before[i] == ShotOf(secs[i])
    ensures Shots(secs) == before[k := before[k].(done := before[k].done + [index])]
  {
  }

  lemma PlayedMore(s: Section, done: seq<nat>, index: nat)
    requires AllFit(s) && Indices(s, done) && index < |s.relocs|
    ensures Indices(s, done + [index]) && Played(s, done + [index]) == Applied(s, index, Played(s, done))
  {
    assert (done + [index])[..|done|] == done;
  }

  ghost function Arrays(secs: seq<Section>): set<object> {
    (set s | s in secs :: s.Bytes as object) + (set s | s in secs :: s.Links as object)
  }

  /** Calls the fixup function of a section. */
  method Fixup(s: Section, ghost secs: seq<Section>) returns (address: int)
    requires World(secs) && s in secs
    modifies secs`NoOfFixups, secs`HasRelocs, secs`Done, Arrays(secs)
    ensures World(secs) && s.NoOfFixups == 0 && address == s.base
    ensures GrownAll(old(Shots(secs)), Shots(secs))
    decreases Left(Shots(secs)), 1
  {
    match s.kind {
      case Text => address := FixupText(s, secs);
      case Data => address := FixupData(s, secs);
      case Bss => address := FixupBss(s, secs);
    }
  }

  /** fixup_bss_section */
  method FixupBss(s: Section, ghost secs: seq<Section>) returns (address: int)
    requires World(secs) && s in secs && s.kind == Bss
    ensures address == s.base && s.NoOfFixups == 0 && GrownAll(Shots(secs), Shots(secs))
  {
    GrownSame(Shots(secs));
    assert Sound(s);
    address := s.base;
  }

  /** fixup_text_section */
  method FixupText(s: Section, ghost secs: seq<Section>) returns (address: int)
    requires World(secs) && s in secs && s.kind == Text
    modifies secs`NoOfFixups, secs`HasRelocs, secs`Done, Arrays(secs)
    ensures World(secs) && s.NoOfFixups == 0 && address == s.base
    ensures GrownAll(old(Shots(secs)), Shots(secs))
    decreases Left(Shots(secs)), 0
  {
    hide *;
    ghost var shots := Shots(secs);
    GrownSame(shots);
    ghost var k := IndexOf(s, secs);
    if s.NoOfFixups != 0 {
      while s.NoOfFixups != 0
        invariant World(secs) && GrownAll(shots, Shots(secs))
        decreases s.NoOfFixups
      {
        ghost var now := Shots(secs);
        var index := TakeUp(s, secs, k);
        StillSmaller(shots, now, Shots(secs), k, s.NoOfFixups);
        Relocs(s, index, secs);
        var reloc := s.relocs[index];
        var value;
        if reloc.target == s {
          GrownSame(Shots(secs));
          value := s.base;
        } else {
          value := Fixup(reloc.target, secs);
        }
        TakenStays(now, Shots(secs), secs, k, index);
        ghost var later := Shots(secs);
        Finish(s, index, value, secs, k);
        GrownAllStep(shots, now, later, k);
      }
      DropRelocs(s, secs);
    }
    address := s.base;
  }

  /** fixup_data_section */
  method FixupData(s: Section, ghost secs: seq<Section>) returns (address: int)
    requires World(secs) && s in secs && s.kind == Data
    modifies secs`NoOfFixups, secs`HasRelocs, secs`Done, Arrays(secs)
    ensures World(secs) && s.NoOfFixups == 0 && address == s.base
    ensures GrownAll(old(Shots(secs)), Shots(secs))
    decreases Left(Shots(secs)), 0
  {
    hide *;
    ghost var shots := Shots(secs);
    GrownSame(shots);
    ghost var k := IndexOf(s, secs);
    if s.NoOfFixups != 0 {
      while s.NoOfFixups != 0
        invariant World(secs) && GrownAll(shots, Shots(secs))
        decreases s.NoOfFixups
      {
        ghost var now := Shots(secs);
        var index := TakeUp(s, secs, k);
        StillSmaller(shots, now, Shots(secs), k, s.NoOfFixups);
        Relocs(s, index, secs);
        var reloc := s.relocs[index];
        var value;
        if reloc.target == s {
          GrownSame(Shots(secs));
          value := s.base;
        } else {
          value := Fixup(reloc.target, secs);
        }
        TakenStays(now, Shots(secs), secs, k, index);
        ghost var later := Shots(secs);
        Finish(s, index, value, secs, k);
        GrownAllStep(shots, now, later, k);
      }
      DropRelocs(s, secs);
    }
    address := s.base;
  }

  /** `Section->Relocs = 0`, once all fixups are taken. */
  method DropRelocs(s: Section, ghost secs: seq<Section>)
    requires World(secs) && s in secs && s.NoOfFixups == 0
    modifies s`HasRelocs
    ensures World(secs) && Shots(secs) == old(Shots(secs)) && s.NoOfFixups == 0
  {
    s.HasRelocs := false;
    forall x | x in secs ensures Sound(x) {
      assert old(Sound(x));
    }
  }

  lemma IndexOf(s: Section, secs: seq<Section>) returns (k: nat)
    requires s in secs
    ensures k < |secs| && secs[k] == s && Shots(secs)[k] == ShotOf(s) && s.Bytes in Arrays(secs)
            && s.Links in Arrays(secs)
  {
    k :| 0 <= k < |secs| && secs[k] == s;
  }

  lemma Relocs(s: Section, index: nat, secs: seq<Section>)
    requires World(secs) && s in secs && index < |s.relocs|
    ensures s.relocs[index].target in secs
  {
  }

  lemma StillSmaller(shots: seq<Shot>, now: seq<Shot>, later: seq<Shot>, k: nat, left: nat)
    requires GrownAll(shots, now) && k < |now| && now[k].left > 0 && later == now[k := now[k].(left := now[k].left - 1)]
    ensures Left(later) < Left(shots)
  {
    LeftGrown(shots, now);
    LeftTaken(now, k);
  }

  lemma TakenStays(now: seq<Shot>, later: seq<Shot>, secs: seq<Section>, k: nat, index: nat)
    requires k < |now| && now[k].left > 0 && GrownAll(now[k := now[k].(left := now[k].left - 1)], later)
    requires k < |secs| && later == Shots(secs) && now[k].n == |secs[k].relocs| && index == now[k].n - now[k].left
    ensures index < secs[k].Taken() && secs[k].NoOfFixups < now[k].left
  {
  }

  // ----- what the outermost call achieves -----

  /** No call is under way: what has been taken up has been applied, once. */
  ghost predicate Quiet(secs: seq<Section>)
    reads secs, set s | s in secs :: s.Bytes, set s | s in secs :: s.Links
  {
    World(secs) && forall k :: 0 <= k < |secs| ==>
        Exactly(Shots(secs)[k].done, 0, Shots(secs)[k].n - Shots(secs)[k].left)
  }

  /** Nothing is under way in sections that have just been loaded. */
  lemma LoadedQuiet(secs: seq<Section>)
    requires Apart(secs) && Closed(secs)
    requires forall s :: s in secs ==>
               && s.Done == [] && s.NoOfFixups == |s.relocs| && s.HasRelocs
               && s.Bytes[..] == s.image && forall i :: 0 <= i < s.Links.Length ==> s.Links[i] == 0
    ensures Quiet(secs)
  {
    forall s | s in secs ensures Sound(s) {
      assert s.Links[..] == Fresh(s).links;
    }
  }

  /** An outermost call leaves nothing under way. */
  lemma QuietAgain(secs: seq<Section>, before: seq<Shot>)
    requires World(secs) && GrownAll(before, Shots(secs))
    requires forall k :: 0 <= k < |before| ==>
               Exactly(before[k].done, 0, before[k].n - before[k].left) && before[k].left <= before[k].n
    ensures Quiet(secs)
  {
    hide *;
    forall k | 0 <= k < |secs| ensures Exactly(Shots(secs)[k].done, 0, Shots(secs)[k].n - Shots(secs)[k].left) {
      GrownAt(before, Shots(secs), k);
      GrownExactly(before[k], Shots(secs)[k]);
    }
    MakeQuiet(secs);
  }

  lemma GrownAt(x: seq<Shot>, y: seq<Shot>, k: nat)
    requires GrownAll(x, y) && k < |y|
    ensures k < |x| && Grown(x[k], y[k])
  {
  }

  lemma GrownExactly(a: Shot, b: Shot)
    requires Grown(a, b) && Exactly(a.done, 0, a.n - a.left) && a.left <= a.n
    ensures Exactly(b.done, 0, b.n - b.left)
  {
    hide *;
    GrownDef(a, b);
    assert b.done == a.done + b.done[|a.done|..];
    ExactlyJoin(a.done, b.done[|a.done|..], 0, a.n - a.left, b.n - b.left);
  }

  lemma MakeQuiet(secs: seq<Section>)
    requires World(secs) && |Shots(secs)| == |secs|
    requires forall k :: 0 <= k < |secs| ==> Exactly(Shots(secs)[k].done, 0, Shots(secs)[k].n - Shots(secs)[k].left)
    ensures Quiet(secs)
  {
    hide World, Exactly;
  }

  /** A way through the graph, from relocation to target. */
  ghost predicate Path(p: seq<Section>) {
    p != [] && forall i :: 0 <= i < |p| - 1 ==> Targets(p[i], p[i + 1])
  }

  ghost predicate Targets(s: Section, t: Section) {
    exists i :: 0 <= i < |s.relocs| && s.relocs[i].target == t
  }

  /** Once nothing is under way, every section that can be reached from one
      without fixups left has none left, and has had each of its relocations
      applied exactly once. */
  lemma {:induction false} ReachedApplied(secs: seq<Section>, p: seq<Section>)
    requires Quiet(secs) && Path(p) && p[0] in secs && p[0].NoOfFixups == 0
    ensures var t := p[|p| - 1]; t in secs && t.NoOfFixups == 0 && Exactly(t.Done, 0, |t.relocs|)
    decreases |p|
  {
    assert |p| > 0;
    hide *;
    DoneHere(secs, p[0]);
    if |p| > 1 {
      PathRest(p);
      DoneNext(secs, p[0], p[1]);
      ReachedApplied(secs, p[1..]);
    }
  }

  lemma DoneHere(secs: seq<Section>, s: Section)
    requires Quiet(secs) && s in secs && s.NoOfFixups == 0
    ensures Exactly(s.Done, 0, |s.relocs|)
  {
    hide Exactly, World;
    var k := IndexOf(s, secs);
    assert Exactly(Shots(secs)[k].done, 0, Shots(secs)[k].n - Shots(secs)[k].left);
  }

  lemma DoneNext(secs: seq<Section>, s: Section, t: Section)
    requires Quiet(secs) && s in secs && s.NoOfFixups == 0 && Exactly(s.Done, 0, |s.relocs|) && Targets(s, t)
    ensures t in secs && t.NoOfFixups == 0
  {
    hide Sound, Apart, Shots;
    var i :| 0 <= i < |s.relocs| && s.relocs[i].target == t;
    AllOnce(s.Done, |s.relocs|);
    assert i in s.Done;
  }

  lemma PathRest(p: seq<Section>)
    requires Path(p) && |p| > 1
    ensures Path(p[1..]) && Targets(p[0], p[1])
  {
    var q := p[1..];
    hide Targets;
    assert Targets(p[0], p[1]);
    forall j | 0 <= j < |q| - 1 ensures Targets(q[j], q[j + 1]) {
      assert Targets(p[j + 1], p[j + 1 + 1]);
    }
  }

  lemma {:induction false} InRange(lo: int, hi: int, i: int)
    ensures i in Range(lo, hi) <==> lo <= i < hi
    ensures multiset(Range(lo, hi))[i] <= 1
    decreases hi - lo
  {
    if lo < hi {
      InRange(lo, hi - 1, i);
      InRange(lo, hi - 1, hi - 1);
      assert multiset(Range(lo, hi)) == multiset(Range(lo, hi - 1)) + multiset{hi - 1};
    }
  }

  lemma AllOnce(done: seq<nat>, n: nat)
    requires Exactly(done, 0, n)
    ensures Once(done) && forall i: nat :: i in done <==> i < n
  {
    forall i: nat ensures i in done <==> i < n {
      InRange(0, n, i);
      assert i in multiset(done) <==> i in multiset(Range(0, n));
    }
    forall i, j | 0 <= i < j < |done| ensures done[i] != done[j] {
      InRange(0, n, done[i]);
      if done[i] == done[j] {
        Twice(done, i, j);
      }
    }
  }

  lemma Twice(done: seq<int>, i: nat, j: nat)
    requires i < j < |done| && done[i] == done[j]
    ensures multiset(done)[done[i]] >= 2
  {
    assert done == done[..j] + done[j..];
    assert done[i] in done[..j] && done[i] in done[j..];
    assert multiset(done)[done[i]] == multiset(done[..j])[done[i]] + multiset(done[j..])[done[i]];
  }

  /** Every field and every link holds what its relocation asks for, and the other
      bytes are as they were loaded. */
  ghost predicate Filled(s: Section)
    requires AllFit(s)
    reads s.Bytes, s.Links
  {
    && s.Bytes.Length == |s.image| && s.Links.Length == |s.relocs|
    && (forall i :: 0 <= i < |s.relocs| ==>
          && (Patchable(s.relocs[i].size) ==>
                Field(s.Bytes[..], s.relocs[i].pos, s.relocs[i].size) == Expected(s, i))
          && s.Links[i] == ExpectedLink(s, i))
    && (forall p :: 0 <= p < |s.image| && (forall i :: 0 <= i < |s.relocs| ==> !Inside(s, i, p)) ==>
          s.Bytes[p] == s.image[p])
  }

  /** The bytes and links of a section all of whose relocations are applied. */
  lemma FinalBytes(s: Section)
    requires AllFit(s) && Sound(s) && FieldsApart(s) && Exactly(s.Done, 0, |s.relocs|)
    requires s.Bytes.Length == |s.image| && s.Links.Length == |s.relocs|
    ensures Filled(s)
  {
    AllOnce(s.Done, |s.relocs|);
    PlayedSettles(s, s.Done);
    var v := Played(s, s.Done);
    forall i | 0 <= i < |s.relocs| ensures s.Links[i] == ExpectedLink(s, i) {
      assert v.links[i] == s.Links[..][i];
    }
    forall p | 0 <= p < |s.image| && forall i :: 0 <= i < |s.relocs| ==> !Inside(s, i, p)
      ensures s.Bytes[p] == s.image[p]
    {
      assert v.bytes[p] == s.Bytes[..][p];
    }
  }

  /** A section that is finished: each relocation applied once, and, if the fields
      lie apart, everything in its place. */
  ghost predicate Finished(s: Section)
    reads s, s.Bytes, s.Links
  {
    s.NoOfFixups == 0 && Exactly(s.Done, 0, |s.relocs|) && AllFit(s) && (FieldsApart(s) ==> Filled(s))
  }

  lemma ReachedFinished(secs: seq<Section>, p: seq<Section>)
    requires Quiet(secs) && Path(p) && p[0] in secs && p[0].NoOfFixups == 0
    ensures p != [] && p[|p| - 1] in secs && Finished(p[|p| - 1])
  {
    ReachedApplied(secs, p);
    var t := p[|p| - 1];
    SoundHere(secs, t);
    hide *;
    if FieldsApart(t) {
      FinalBytes(t);
    }
    MakeFinished(t);
  }

  lemma SoundHere(secs: seq<Section>, s: Section)
    requires Quiet(secs) && s in secs
    ensures AllFit(s) && Sound(s) && s.Bytes.Length == |s.image| && s.Links.Length == |s.relocs|
  {
    hide Sound, Apart, Drained, Exactly;
  }

  lemma MakeFinished(s: Section)
    requires s.NoOfFixups == 0 && Exactly(s.Done, 0, |s.relocs|) && AllFit(s) && (FieldsApart(s) ==> Filled(s))
    ensures Finished(s)
  {
    hide Exactly, AllFit, FieldsApart, Filled;
  }

  /** The call that riva makes for a section when no other is under way. When it
      returns, every section that can be reached is finished, on whatever path. */
  method FixupOutermost(s: Section, ghost secs: seq<Section>) returns (address: int)
    requires Quiet(secs) && s in secs
    modifies secs`NoOfFixups, secs`HasRelocs, secs`Done, Arrays(secs)
    ensures Quiet(secs) && address == s.base
    ensures forall p :: p != [] && Path(p) && p[0] == s ==> p[|p| - 1] in secs && Finished(p[|p| - 1])
  {
    hide *;
    ghost var before := Shots(secs);
    QuietParts(secs);
    address := Fixup(s, secs);
    QuietAgain(secs, before);
    forall p | p != [] && Path(p) && p[0] == s
      ensures p[|p| - 1] in secs && Finished(p[|p| - 1])
    {
      ReachedFinished(secs, p);
    }
  }

  lemma QuietParts(secs: seq<Section>)
    requires Quiet(secs)
    ensures World(secs)
    ensures forall k :: 0 <= k < |Shots(secs)| ==>
              && Exactly(Shots(secs)[k].done, 0, Shots(secs)[k].n - Shots(secs)[k].left)
              && Shots(secs)[k].left <= Shots(secs)[k].n
  {
    hide Apart, Drained, Exactly;
    forall k | 0 <= k < |secs| ensures Shots(secs)[k].left <= Shots(secs)[k].n {
      assert Sound(secs[k]);
    }
  }

  /** Whatever a relocation at the end of a path refers to is reached as well. */
  lemma PathMore(p: seq<Section>, i: nat)
    requires p != [] && Path(p) && i < |p[|p| - 1].relocs|
    ensures Path([p[|p| - 1]]) && Path(p + [p[|p| - 1].relocs[i].target])
  {
    var s := p[|p| - 1];
    var q := p + [s.relocs[i].target];
    assert Targets(s, s.relocs[i].target);
    hide Targets;
    forall k | 0 <= k < |q| - 1
      ensures Targets(q[k], q[k + 1])
    {
      assert k < |p| - 1 ==> Targets(p[k], p[k + 1]);
    }
  }

  /** Fields lie apart if one ends before the other starts; an indirect one of a text
      section is a word. */
  lemma ApartFields(s: Section)
    requires forall i :: 0 <= i < |s.relocs| ==> s.relocs[i].size in {1, 2, 4}
    requires forall i, j :: 0 <= i < |s.relocs| && 0 <= j < |s.relocs| && i != j ==>
               var a, b := s.relocs[i], s.relocs[j];
               || a.pos + (if s.kind == Text && a.flags in {2, 4} then 4 else a.size) <= b.pos
               || b.pos + (if s.kind == Text && b.flags in {2, 4} then 4 else b.size) <= a.pos
    ensures FieldsApart(s)
  {
  }

  /** A byte outside all fields is as it was loaded; a relocation of another size than
      1, 2 and 4 has no field. */
  lemma FinishedElsewhere(s: Section, p: nat)
    requires Finished(s) && FieldsApart(s) && p < |s.image|
    requires forall i :: 0 <= i < |s.relocs| ==>
               var r := s.relocs[i];
               p < r.pos || r.pos + (if s.kind == Text && r.flags in {2, 4} then 4
                                     else if r.size in {1, 2, 4} then r.size
                                     else 0) <= p
    ensures p < s.Bytes.Length && s.Bytes[p] == s.image[p]
  {
    hide Field, Stored, Pow256, FieldsApart, Exactly, Expected, ExpectedLink;
  }

  /** What a field of a finished section holds, by the kind of the section and the
      flags of the relocation: 1 is relative to the section, 2 and 4 go through the
      link table of a text section, 3 is the offset table, 0 is absolute. */
  lemma FinishedField(s: Section, i: nat)
    requires Finished(s) && FieldsApart(s) && i < |s.relocs| && s.relocs[i].size in {1, 2, 4}
    requires s.relocs[i].flags <= 4
    ensures s.relocs[i].pos + s.relocs[i].size <= |s.image| == s.Bytes.Length && i < s.Links.Length
    ensures var r := s.relocs[i];
            var m := if r.size == 1 then 0x100 else if r.size == 2 then 0x1_0000 else 0x1_0000_0000;
            var before, after := Field(s.image, r.pos, r.size), Field(s.Bytes[..], r.pos, r.size);
            match r.flags
            case 0 => after == (before + r.target.base) % m
            case 1 => after == (before + r.target.base - s.base) % m
            case 3 => after == (if s.kind == Text then before + s.got - s.base else before - r.target.base) % m
            case _ => after == (if s.kind == Text then (s.linksBase + 4 * i) % 0x1_0000_0000
                                else before + r.target.base) % m
    ensures var r := s.relocs[i];
            s.kind == Text ==>
              if r.flags == 2 || r.flags == 4 then
                && r.pos + 4 <= |s.image|
                && s.Links[i] == (r.target.base + Field(s.image, r.pos, 4)) % 0x1_0000_0000
              else s.Links[i] == r.target.base
  {
    WordSize();
    hide Field, Stored, Pow256, FieldsApart, Exactly;
  }
}
