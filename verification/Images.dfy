/** ELF files built field by field, in the order and widths of the structs of kernel/executables.c, and what the
    loader makes of them, down to the bytes that the program reads. */
module Images {
  import opened Options
  import opened Arithmetic
  import opened Memory
  import opened Words
  import opened Entry
  import opened Tables
  import opened UserSpace
  import opened Snapshots
  import opened Hardware
  import opened Elf
  import opened UserMemory
  import opened Programs
  import opened Paging
  import opened Loader
  import opened Teardown

  // ---------------------------------------------------------------- building a file

  /** A half word, word and double word, lowest byte first. */
  function Le2(v: nat): seq<byte> {
    [v % 0x100, v / 0x100 % 0x100]
  }

  function Le4(v: nat): seq<byte> {
    Le2(v % 0x1_0000) + Le2(v / 0x1_0000)
  }

  function Le8(v: nat): seq<byte> {
    Le4(v % 0x1_0000_0000) + Le4(v / 0x1_0000_0000)
  }

  /** struct elf_hdr, without the place and number of the program headers. */
  datatype Header = Header(
    ident: seq<byte>, kind: nat, machine: nat, version: nat, entry: nat, shoff: nat, flags: nat, ehsize: nat,
    phentsize: nat, shentsize: nat, shnum: nat, shstrndx: nat)

  /** struct elf_phdr. */
  datatype Segment = Segment(
    kind: nat, flags: nat, offset: nat, vaddr: nat, paddr: nat, filesz: nat, memsz: nat, align: nat)

  function HeaderBytes(h: Header, phoff: nat, phnum: nat): seq<byte> {
    h.ident + Le2(h.kind) + Le2(h.machine) + Le4(h.version) + Le8(h.entry) + Le8(phoff) + Le8(h.shoff) + Le4(h.flags)
    + Le2(h.ehsize) + Le2(h.phentsize) + Le2(phnum) + Le2(h.shentsize) + Le2(h.shnum) + Le2(h.shstrndx)
  }

  function SegmentBytes(ph: Segment): seq<byte> {
    Le4(ph.kind) + Le4(ph.flags) + Le8(ph.offset) + Le8(ph.vaddr) + Le8(ph.paddr) + Le8(ph.filesz) + Le8(ph.memsz)
    + Le8(ph.align)
  }

  function TableBytes(phs: seq<Segment>): seq<byte> {
    if phs == [] then [] else SegmentBytes(phs[0]) + TableBytes(phs[1..])
  }

  /** The header, some bytes, the program header table, and the rest of the file. */
  function Image(h: Header, gap: seq<byte>, phs: seq<Segment>, rest: seq<byte>): seq<byte> {
    HeaderBytes(h, 64 + |gap|, |phs|) + gap + TableBytes(phs) + rest
  }

  /** The values that the loader reads fit their fields. */
  predicate Fields(h: Header, gap: seq<byte>, phs: seq<Segment>) {
    && |h.ident| == 16 && h.entry < TWO64 && 64 + |gap| < TWO64 && |phs| < 0x1_0000
    && forall i :: 0 <= i < |phs| ==> SegmentFits(phs[i])
  }

  predicate SegmentFits(ph: Segment) {
    && ph.kind < 0x1_0000_0000 && ph.flags < 0x1_0000_0000 && ph.offset < TWO64 && ph.vaddr < TWO64
    && ph.filesz < TWO64 && ph.memsz < TWO64
  }

  // ---------------------------------------------------------------- reading it back

  lemma Read2(v: nat)
    requires v < 0x1_0000
    ensures |Le2(v)| == 2 && FromBytes(Le2(v)) == v
  {
    var s := Le2(v);
    assert FromBytes(s[2..]) == 0;
    FirstByte(s[1..], s[2..]);
    FirstByte(s, s[1..]);
  }

  lemma Read4(v: nat)
    requires v < 0x1_0000_0000
    ensures |Le4(v)| == 4 && FromBytes(Le4(v)) == v
  {
    hide FromBytes;
    Read2(v % 0x1_0000);
    Read2(v / 0x1_0000);
    FromBytesConcat(Le2(v % 0x1_0000), Le2(v / 0x1_0000));
    assert Pow256(2) == 256 * Pow256(1) && Pow256(1) == 256 * Pow256(0);
  }

  lemma Read8(v: nat)
    requires v < TWO64
    ensures |Le8(v)| == 8 && FromBytes(Le8(v)) == v
  {
    hide FromBytes, Le4;
    Read4(v % 0x1_0000_0000);
    Read4(v / 0x1_0000_0000);
    FromBytesConcat(Le4(v % 0x1_0000_0000), Le4(v / 0x1_0000_0000));
    assert Pow256(4) == 256 * Pow256(3) && Pow256(3) == 256 * Pow256(2);
    assert Pow256(2) == 256 * Pow256(1) && Pow256(1) == 256 * Pow256(0);
  }

  lemma SliceBetween(a: seq<byte>, b: seq<byte>, c: seq<byte>)
    ensures (a + b + c)[|a|..|a| + |b|] == b
  {
  }

  /** A program header, field by field. */
  lemma SegmentFields(ph: Segment)
    requires SegmentFits(ph)
    ensures var s := SegmentBytes(ph);
      && |s| == 56
      && FromBytes(s[0..4]) == ph.kind && FromBytes(s[4..8]) == ph.flags && FromBytes(s[8..16]) == ph.offset
      && FromBytes(s[16..24]) == ph.vaddr && FromBytes(s[32..40]) == ph.filesz && FromBytes(s[40..48]) == ph.memsz
  {
    hide FromBytes, Le4, Le8;
    Read4(ph.kind);
    Read4(ph.flags);
    Read8(ph.offset);
    Read8(ph.vaddr);
    Read8(ph.filesz);
    Read8(ph.memsz);
    Lengths(ph.paddr);
    Lengths(ph.align);
    var s := SegmentBytes(ph);
    var s1 := Le4(ph.kind) + Le4(ph.flags);
    var s2 := s1 + Le8(ph.offset);
    var s3 := s2 + Le8(ph.vaddr);
    var s4 := s3 + Le8(ph.paddr);
    var s5 := s4 + Le8(ph.filesz);
    var s6 := s5 + Le8(ph.memsz);
    assert s == s6 + Le8(ph.align);
    assert s[0..4] == Le4(ph.kind) && s[4..8] == Le4(ph.flags);
    assert s[8..16] == s2[8..16] == Le8(ph.offset);
    assert s[16..24] == s3[16..24] == Le8(ph.vaddr);
    assert s[32..40] == s5[32..40] == Le8(ph.filesz);
    assert s[40..48] == s6[40..48] == Le8(ph.memsz);
  }

  lemma Lengths(v: nat)
    ensures |Le2(v)| == 2 && |Le4(v)| == 4 && |Le8(v)| == 8
  {
  }

  lemma {:induction false} TableLength(phs: seq<Segment>)
    ensures |TableBytes(phs)| == 56 * |phs|
  {
    if phs != [] {
      TableLength(phs[1..]);
      SegmentLength(phs[0]);
    }
  }

  lemma SegmentLength(ph: Segment)
    ensures |SegmentBytes(ph)| == 56
  {
    hide Le4, Le8;
    Lengths(ph.kind);
    Lengths(ph.flags);
    Lengths(ph.offset);
    Lengths(ph.vaddr);
    Lengths(ph.paddr);
    Lengths(ph.filesz);
    Lengths(ph.memsz);
    Lengths(ph.align);
  }

  /** Program header `i` stands at 56 * i. */
  lemma {:induction false} TableAt(phs: seq<Segment>, i: nat)
    requires i < |phs|
    ensures |TableBytes(phs)| == 56 * |phs| && TableBytes(phs)[56 * i..56 * i + 56] == SegmentBytes(phs[i])
  {
    hide SegmentBytes;
    TableLength(phs);
    SegmentLength(phs[0]);
    if i > 0 {
      TableAt(phs[1..], i - 1);
      assert TableBytes(phs)[56 * i..56 * i + 56] == TableBytes(phs[1..])[56 * i - 56..56 * i];
    }
  }

  /** The header, field by field. */
  lemma HeaderFields(h: Header, phoff: nat, phnum: nat)
    requires |h.ident| == 16 && h.entry < TWO64 && phoff < TWO64 && phnum < 0x1_0000
    ensures var s := HeaderBytes(h, phoff, phnum);
      && |s| == 64 && FromBytes(s[24..32]) == h.entry && FromBytes(s[32..40]) == phoff && FromBytes(s[56..58]) == phnum
  {
    hide FromBytes, Le2, Le4, Le8;
    Read8(h.entry);
    Read8(phoff);
    Read2(phnum);
    Lengths(h.kind);
    Lengths(h.machine);
    Lengths(h.version);
    Lengths(h.shoff);
    Lengths(h.flags);
    Lengths(h.ehsize);
    Lengths(h.phentsize);
    Lengths(h.shentsize);
    Lengths(h.shnum);
    Lengths(h.shstrndx);
    var s1 := h.ident + Le2(h.kind) + Le2(h.machine) + Le4(h.version);
    var s2 := s1 + Le8(h.entry);
    var s3 := s2 + Le8(phoff);
    var s4 := s3 + Le8(h.shoff) + Le4(h.flags) + Le2(h.ehsize) + Le2(h.phentsize);
    var s5 := s4 + Le2(phnum);
    var s6 := s5 + Le2(h.shentsize) + Le2(h.shnum) + Le2(h.shstrndx);
    assert s6 == HeaderBytes(h, phoff, phnum);
    assert s2[24..32] == Le8(h.entry) && s3[32..40] == Le8(phoff) && s5[56..58] == Le2(phnum);
    assert s6[24..32] == s2[24..32] && s6[32..40] == s3[32..40] && s6[56..58] == s5[56..58];
  }

  /** The loader reads back exactly what the file was built from. */
  lemma ImageReads(h: Header, gap: seq<byte>, phs: seq<Segment>, rest: seq<byte>, i: nat)
    requires Fields(h, gap, phs)
    ensures var image := Image(h, gap, phs, rest);
      && HasTable(image) && EntryPoint(image) == h.entry && PhOff(image) == 64 + |gap| && PhNum(image) == |phs|
      && (i < |phs| ==>
            PhdrAt(image, i) == Phdr(phs[i].kind, phs[i].flags, phs[i].offset, phs[i].vaddr, phs[i].filesz,
                phs[i].memsz))
  {
    hide FromBytes, HeaderBytes, TableBytes, SegmentBytes;
    var image, head, table := Image(h, gap, phs, rest), HeaderBytes(h, 64 + |gap|, |phs|), TableBytes(phs);
    HeaderFields(h, 64 + |gap|, |phs|);
    TableLength(phs);
    assert image[24..32] == head[24..32] && image[32..40] == head[32..40] && image[56..58] == head[56..58];
    if i < |phs| {
      TableAt(phs, i);
      SegmentFields(phs[i]);
      var s, at := SegmentBytes(phs[i]), 64 + |gap| + 56 * i;
      assert image == (head + gap) + table + rest;
      SliceBetween(head + gap, table, rest);
      assert image[at..at + 56] == table[56 * i..56 * i + 56];
      FieldOfSlice(image, at, s, 0, 4);
      FieldOfSlice(image, at, s, 4, 4);
      FieldOfSlice(image, at, s, 8, 8);
      FieldOfSlice(image, at, s, 16, 8);
      FieldOfSlice(image, at, s, 32, 8);
      FieldOfSlice(image, at, s, 40, 8);
    }
  }

  lemma FieldOfSlice(image: seq<byte>, at: nat, s: seq<byte>, from: nat, n: nat)
    requires at + |s| <= |image| && image[at..at + |s|] == s && from + n <= |s|
    ensures Field(image, at + from, n) == FromBytes(s[from..from + n])
  {
    var t, u, w := image[at..at + |s|], s[from..from + n], image[at + from..at + from + n];
    forall k | 0 <= k < n ensures u[k] == w[k] {
      assert t[from + k] == image[at + (from + k)];
    }
    assert u == w;
  }

  // ---------------------------------------------------------------- the program

  predicate Loads(ph: Segment) {
    ph.kind == 1 && ph.filesz > 0
  }

  function SegmentCount(phs: seq<Segment>): nat {
    if phs == [] then 0
    else SegmentCount(phs[..|phs| - 1]) + if Loads(phs[|phs| - 1]) then 1 else 0
  }

  /** Every loaded segment lies in the file, and in one page of its own below 2^47 and apart from the stack. */
  ghost predicate GoodSegments(image: seq<byte>, phs: seq<Segment>) {
    && (forall i :: 0 <= i < |phs| && Loads(phs[i]) ==>
          && phs[i].offset + phs[i].memsz <= |image| && phs[i].vaddr < 0x8000_0000_0000
          && phs[i].vaddr % 0x1000 + phs[i].memsz <= 0x1000
          && !(0x7000_0000 <= phs[i].vaddr / 0x1000 <= 0x7000_0007))
    && forall i, j :: 0 <= i < j < |phs| && Loads(phs[i]) && Loads(phs[j]) ==>
         phs[i].vaddr / 0x1000 != phs[j].vaddr / 0x1000
  }

  /** The page of a segment: writable and executable as bits 1 and 0 of its flags say, the file's bytes in their
      place and zeros around them. */
  predicate HoldsSegment(image: seq<byte>, ph: Segment, page: Elf.Page)
    requires ph.offset + ph.memsz <= |image|
  {
    && page.user && page.writable == (ph.flags / 2 % 2 == 1) && page.executable == (ph.flags % 2 == 1)
    && |page.bytes| == 0x1000
    && forall x :: 0 <= x < 0x1000 ==>
         page.bytes[x] == if ph.vaddr % 0x1000 <= x < ph.vaddr % 0x1000 + ph.memsz
                          then image[ph.offset + (x - ph.vaddr % 0x1000)] else 0
  }

  /** Exactly the segments' pages and eight writable, non-executable zero pages of stack. */
  ghost predicate HoldsFile(image: seq<byte>, phs: seq<Segment>, space: Space)
    requires GoodSegments(image, phs)
  {
    && (forall v :: v in space <==>
          0x7000_0000 <= v <= 0x7000_0007 || exists i :: 0 <= i < |phs| && Loads(phs[i]) && phs[i].vaddr / 0x1000 == v)
    && (forall i :: 0 <= i < |phs| && Loads(phs[i]) ==>
          phs[i].vaddr / 0x1000 in space && HoldsSegment(image, phs[i], space[phs[i].vaddr / 0x1000]))
    && (forall v :: 0x7000_0000 <= v <= 0x7000_0007 ==>
          v in space && space[v] == Elf.Page(true, true, false, seq(0x1000, _ => 0)))
  }

  /** What the model of the loader asks of an image, for one that was built. */
  lemma BuiltIsTidy(h: Header, gap: seq<byte>, phs: seq<Segment>, rest: seq<byte>)
    requires Fields(h, gap, phs) && GoodSegments(Image(h, gap, phs, rest), phs)
    ensures Readable(Image(h, gap, phs, rest)) && Tidy(Image(h, gap, phs, rest))
  {
    hide Image, PhdrAt, HasTable, PhNum, Fields;
    var image := Image(h, gap, phs, rest);
    ImageReads(h, gap, phs, rest, 0);
    forall i | 0 <= i < |phs|
      ensures PhdrAt(image, i) == Phdr(phs[i].kind, phs[i].flags, phs[i].offset, phs[i].vaddr, phs[i].filesz,
                                       phs[i].memsz)
      ensures Loads(phs[i]) ==> phs[i].vaddr + phs[i].memsz <= 0x8000_0000_0000
    {
      ImageReads(h, gap, phs, rest, i);
      PageEnd(phs[i].vaddr, phs[i].memsz);
    }
  }

  lemma PageEnd(a: nat, n: nat)
    ensures a < 0x8000_0000_0000 && a % 0x1000 + n <= 0x1000 ==> a + n <= 0x8000_0000_0000
  {
  }

  /** Loading a built file gives exactly that. */
  lemma BuiltProgram(h: Header, gap: seq<byte>, phs: seq<Segment>, rest: seq<byte>, wp: bool)
    requires Fields(h, gap, phs) && GoodSegments(Image(h, gap, phs, rest), phs)
    ensures var image := Image(h, gap, phs, rest);
      Readable(image) && Program(image, wp).Some? && HoldsFile(image, phs, Program(image, wp).value)
  {
    hide Image, PhdrAt, HasTable, PhNum, Fields, Program, Readable, Tidy, SegmentPage, HoldsSegment;
    var image := Image(h, gap, phs, rest);
    ImageReads(h, gap, phs, rest, 0);
    BuiltIsTidy(h, gap, phs, rest);
    ProgramExactly(image, wp);
    var p := Program(image, wp).value;
    forall i | 0 <= i < |phs|
      ensures PageNo(image, i) == phs[i].vaddr / 0x1000 && (LoadedAt(image, i) <==> Loads(phs[i]))
      ensures Loads(phs[i]) ==> PageNo(image, i) in p && HoldsSegment(image, phs[i], p[PageNo(image, i)])
    {
      ImageReads(h, gap, phs, rest, i);
      if Loads(phs[i]) {
        PageOfSegment(image, phs[i], PhdrAt(image, i));
      }
    }
  }

  lemma PageOfSegment(image: seq<byte>, s: Segment, ph: Phdr)
    requires ph == Phdr(s.kind, s.flags, s.offset, s.vaddr, s.filesz, s.memsz)
    requires s.offset + s.memsz <= |image| && s.vaddr % 0x1000 + s.memsz <= 0x1000
    ensures Fits(ph) && HoldsSegment(image, s, SegmentPage(image, ph))
  {
  }

  lemma {:induction false} BuiltCount(h: Header, gap: seq<byte>, phs: seq<Segment>, rest: seq<byte>, n: nat)
    requires Fields(h, gap, phs) && n <= |phs|
    ensures HasTable(Image(h, gap, phs, rest)) && PhNum(Image(h, gap, phs, rest)) == |phs|
    ensures LoadCount(Image(h, gap, phs, rest), n) == SegmentCount(phs[..n])
  {
    hide Image, PhdrAt, HasTable, PhNum, Fields;
    ImageReads(h, gap, phs, rest, 0);
    if n > 0 {
      ImageReads(h, gap, phs, rest, n - 1);
      BuiltCount(h, gap, phs, rest, n - 1);
      assert phs[..n][..n - 1] == phs[..n - 1];
    }
  }

  // ---------------------------------------------------------------- in memory

  /** The user pages as the processor finds them: an address is translated exactly when its page is there, with the
      rights of the page, to the byte that the page holds there. */
  lemma SpaceInMemory(s: Phys, hhdm: nat, a: nat)
    requires UserOk(s, hhdm) && a < 0x8000_0000_0000
    ensures ROOT in s.own.tables
    ensures var found, space := BytesWalk(s.m, 4, 0x1000 * s.own.tables[ROOT], a), SpaceOf(s);
      && (found.Some? <==> a / 0x1000 in space)
      && (found.Some? ==>
            var page, x := space[a / 0x1000], found.value;
            && page.user == x.user && page.writable == x.writable && page.executable == x.executable
            && |page.bytes| == 0x1000 && 0x1000 * x.frame + a % 0x1000 < |s.m|
            && page.bytes[a % 0x1000] == s.m[0x1000 * x.frame + a % 0x1000])
  {
    hide Ok, UserSpaceOk, BytesWalk, Walk;
    var v := a / 0x1000;
    PageAddress(a);
    UserWalkAt(s, hhdm, v);
    BytesWalkIsWalk(s.m, 4, s.own.tables[ROOT], a);
    SpaceWellSized(s, hhdm);
    if v in s.own.leaves {
      ByteInPage(s.m, s.own.leaves[v].frame, a % 0x1000);
    }
  }

  lemma ByteInPage(m: seq<byte>, f: nat, x: nat)
    requires f < |m| / PAGE && x < 0x1000
    ensures 0x1000 * f + x < |m| && PageBytes(m, f)[x] == m[0x1000 * f + x]
  {
  }

  /** Address `a` reads as byte `b`, for the program, with these rights. */
  ghost predicate Reads(m: seq<byte>, root: nat, a: nat, b: byte, writable: bool, executable: bool) {
    var found := BytesWalk(m, 4, root, a);
    && found.Some? && found.value.user && found.value.writable == writable && found.value.executable == executable
    && 0x1000 * found.value.frame + a % 0x1000 < |m| && m[0x1000 * found.value.frame + a % 0x1000] == b
  }

  /** Byte `k` of the segment: the file's, writable and executable as bits 1 and 0 of the flags say. */
  ghost predicate ReadsSegment(m: seq<byte>, root: nat, image: seq<byte>, ph: Segment, k: nat)
    requires ph.offset + k < |image|
  {
    Reads(m, root, ph.vaddr + k, image[ph.offset + k], ph.flags / 2 % 2 == 1, ph.flags % 2 == 1)
  }

  /** What the started program finds in memory: each byte of each segment, eight pages of zeros for its stack, and
      no address translated outside those pages. */
  ghost predicate Started(m: seq<byte>, root: nat, image: seq<byte>, phs: seq<Segment>)
    requires GoodSegments(image, phs)
  {
    && (forall i, k :: 0 <= i < |phs| && Loads(phs[i]) && 0 <= k < phs[i].memsz ==>
          ReadsSegment(m, root, image, phs[i], k))
    && (forall a :: 0x700_0000_0000 <= a < 0x700_0000_8000 ==> Reads(m, root, a, 0, true, false))
    && (forall a :: 0 <= a < 0x8000_0000_0000 && BytesWalk(m, 4, root, a).Some? ==>
          || 0x700_0000_0000 <= a < 0x700_0000_8000
          || exists i :: 0 <= i < |phs| && Loads(phs[i]) && phs[i].vaddr / 0x1000 == a / 0x1000)
  }

  lemma HeldIsStarted(s: Phys, hhdm: nat, image: seq<byte>, phs: seq<Segment>)
    requires UserOk(s, hhdm) && GoodSegments(image, phs) && HoldsFile(image, phs, SpaceOf(s))
    ensures ROOT in s.own.tables && Started(s.m, 0x1000 * s.own.tables[ROOT], image, phs)
  {
    hide UserOk, SpaceOf, BytesWalk, HoldsSegment;
    SpaceInMemory(s, hhdm, 0);
    var root := 0x1000 * s.own.tables[ROOT];
    forall i, k | 0 <= i < |phs| && Loads(phs[i]) && 0 <= k < phs[i].memsz
      ensures ReadsSegment(s.m, root, image, phs[i], k)
    {
      SegmentByte(s, hhdm, image, phs[i], k);
    }
    forall a | 0x700_0000_0000 <= a < 0x700_0000_8000 ensures Reads(s.m, root, a, 0, true, false) {
      assert 0x7000_0000 <= a / 0x1000 <= 0x7000_0007;
      SpaceInMemory(s, hhdm, a);
    }
    forall a | 0 <= a < 0x8000_0000_0000 && BytesWalk(s.m, 4, root, a).Some?
      ensures 0x700_0000_0000 <= a < 0x700_0000_8000
           || exists i :: 0 <= i < |phs| && Loads(phs[i]) && phs[i].vaddr / 0x1000 == a / 0x1000
    {
      SpaceInMemory(s, hhdm, a);
    }
  }

  lemma SegmentByte(s: Phys, hhdm: nat, image: seq<byte>, ph: Segment, k: nat)
    requires UserOk(s, hhdm) && ph.offset + ph.memsz <= |image| && k < ph.memsz && ph.vaddr < 0x8000_0000_0000
    requires ph.vaddr % 0x1000 + ph.memsz <= 0x1000
    requires ph.vaddr / 0x1000 in SpaceOf(s) && HoldsSegment(image, ph, SpaceOf(s)[ph.vaddr / 0x1000])
    ensures ROOT in s.own.tables
    ensures ReadsSegment(s.m, 0x1000 * s.own.tables[ROOT], image, ph, k)
  {
    hide UserOk, SpaceOf, BytesWalk;
    QuotientUnique(ph.vaddr + k, 0x1000, ph.vaddr / 0x1000, ph.vaddr % 0x1000 + k);
    PageEnd(ph.vaddr, ph.memsz);
    SpaceInMemory(s, hhdm, ph.vaddr + k);
  }

  /** exec_setup on a file that was built like this, with four free pages for every loaded segment and stack page:
      it enters at the file's entry point with the stack pointer eight bytes below the end of the stack, and the
      program finds its segments, its stack and nothing else. */
  method ExecImage(k: Kernel, name: string, h: Header, gap: seq<byte>, phs: seq<Segment>, rest: seq<byte>, wp: bool)
    returns (outcome: Outcome)
    requires k.Valid() && k.cr3 == k.Root()
    requires Fields(h, gap, phs) && GoodSegments(Image(h, gap, phs, rest), phs)
    requires 4 * (SegmentCount(phs) + 8) <= |k.own.free|
    modifies k`freelist, k`freePageCounter, k`own, k`seen, k.mem
    ensures k.Valid() && k.cr3 == k.Root()
    ensures outcome == Entered(h.entry, 0x700_0000_7FF8)
    ensures Started(k.mem[..], k.cr3, Image(h, gap, phs, rest), phs)
  {
    hide Image, Fields, GoodSegments, SegmentCount, Started, SpaceOf, HoldsFile, UpperWalks, ListsLowerTables,
        Result, Ok,
         UserSpaceOk, Readable, View, Tidy, EntryPoint;
    var image := Image(h, gap, phs, rest);
    BuiltIsTidy(h, gap, phs, rest);
    ghost var freed;
    var modules := [Module(name, image)];
    ghost var free := |k.own.free|;
    outcome, freed := ExecSetup(k, name, modules, wp);
    assert FindModule(modules, name) == Some(modules[0]);
    BuiltResult(h, gap, phs, rest, wp, free + |freed|, outcome, SpaceOf(k.Now()));
    HeldIsStarted(k.Now(), k.hhdmBase, image, phs);
  }

  lemma BuiltResult(h: Header, gap: seq<byte>, phs: seq<Segment>, rest: seq<byte>, wp: bool, free: nat,
                    outcome: Outcome, space: Space)
    requires Fields(h, gap, phs) && GoodSegments(Image(h, gap, phs, rest), phs) && 4 * (SegmentCount(phs) + 8) <= free
    requires Result(Image(h, gap, phs, rest), wp, free, outcome, space)
    ensures outcome == Entered(h.entry, 0x700_0000_7FF8) && HoldsFile(Image(h, gap, phs, rest), phs, space)
  {
    hide Image, Fields, GoodSegments, SegmentCount, HoldsFile, Program, LoadCount, EntryPoint, PhNum, Readable,
        HasTable;
    ImageReads(h, gap, phs, rest, 0);
    BuiltProgram(h, gap, phs, rest, wp);
    BuiltCount(h, gap, phs, rest, |phs|);
    assert phs[..|phs|] == phs;
  }
}
