/** What loading a program image gives: exactly when it faults, exactly which pages it maps with which
    contents, and exactly when those contents are what the ELF standard asks for. */
module Programs {
  import opened Options
  import opened Arithmetic
  import opened Memory
  import opened Words
  import opened Tables
  import opened Elf

  /** A store to address `a` would not fault. */
  predicate CanStore(space: Space, a: nat, wp: bool) {
    a / PAGE in space && (space[a / PAGE].writable || !wp)
  }

  /** Same pages with the same rights. */
  ghost predicate SameShape(s: Space, t: Space) {
    && s.Keys == t.Keys
    && forall v :: v in s ==>
         && t[v].user == s[v].user && t[v].writable == s[v].writable
         && t[v].executable == s[v].executable
  }

  /** Byte `x` of page `v` after `data` went to address `dst`. */
  function ByteAfter(space: Space, dst: nat, data: seq<byte>, v: nat, x: nat): byte
    requires WellSized(space) && v in space && x < PAGE
  {
    var a := PAGE * v + x;
    if dst <= a < dst + |data| then data[a - dst] else space[v].bytes[x]
  }

  /** The copy faults exactly when it meets a page that is missing or, with write protection on, not
      writable; otherwise it changes the bytes it covers and nothing else. */
  lemma {:induction false} CopyExactly(space: Space, dst: nat, data: seq<byte>, wp: bool)
    requires WellSized(space)
    ensures var r := Copied(space, dst, data, wp);
      && (r.Some? <==> forall a :: dst <= a < dst + |data| ==> CanStore(space, a, wp))
      && (r.Some? ==> SameShape(space, r.value))
      && (r.Some? ==> forall v, x :: v in space && 0 <= x < PAGE ==>
            r.value[v].bytes[x] == ByteAfter(space, dst, data, v, x))
  {
    if data == [] {
    } else {
      var n := |data| - 1;
      CopyExactly(space, dst, data[..n], wp);
      var before := Copied(space, dst, data[..n], wp);
      if before.Some? {
        assert CanStore(before.value, dst + n, wp) <==> CanStore(space, dst + n, wp);
        if CanStore(space, dst + n, wp) {
          StoreExactly(space, before.value, dst, data, wp);
        }
      }
    }
  }

  lemma StoreExactly(space: Space, before: Space, dst: nat, data: seq<byte>, wp: bool)
    requires WellSized(space) && WellSized(before) && data != [] && SameShape(space, before)
    requires CanStore(before, dst + |data| - 1, wp)
    requires forall v, x :: v in space && 0 <= x < PAGE ==>
               before[v].bytes[x] == ByteAfter(space, dst, data[..|data| - 1], v, x)
    ensures var r := Stored(before, dst + |data| - 1, data[|data| - 1], wp);
      && r.Some? && SameShape(space, r.value)
      && forall v, x :: v in space && 0 <= x < PAGE ==> r.value[v].bytes[x] == ByteAfter(space, dst, data, v, x)
  {
    var a := dst + |data| - 1;
    var after := Stored(before, a, data[|data| - 1], wp).value;
    forall v, x | v in space && 0 <= x < PAGE
      ensures after[v].bytes[x] == ByteAfter(space, dst, data, v, x)
    {
      assert before[v].bytes[x] == ByteAfter(space, dst, data[..|data| - 1], v, x);
      assert PAGE * v + x == a <==> v == a / PAGE && x == a % PAGE;
    }
  }

  // ---------------------------------------------------------------- one segment

  /** The segment lies within one page. */
  predicate Fits(ph: Phdr) {
    ph.vaddr % PAGE + ph.memsz <= PAGE
  }

  function Zeros(n: nat): (s: seq<byte>)
    ensures |s| == n
  {
    seq(n, _ => 0)
  }

  /** A page of zeros with `data` at offset `at`. */
  function PageWith(at: nat, data: seq<byte>): (s: seq<byte>)
    requires at + |data| <= PAGE
    ensures |s| == PAGE
  {
    Zeros(at) + data + Zeros(PAGE - at - |data|)
  }

  /** The page that a fitting segment becomes. */
  function SegmentPage(image: seq<byte>, ph: Phdr): Page
    requires Fits(ph) && ph.offset + ph.memsz <= |image|
  {
    Page(true, ph.flags / 2 % 2 == 1, ph.flags % 2 == 1,
         PageWith(ph.vaddr % PAGE, image[ph.offset..ph.offset + ph.memsz]))
  }

  lemma InOnePage(ph: Phdr, k: nat)
    requires Fits(ph) && k < ph.memsz
    ensures (ph.vaddr + k) / PAGE == ph.vaddr / PAGE && (ph.vaddr + k) % PAGE == ph.vaddr % PAGE + k
  {
    QuotientUnique(ph.vaddr + k, PAGE, ph.vaddr / PAGE, ph.vaddr % PAGE + k);
  }

  /** A fitting segment on a fresh page adds that one page. */
  lemma FittingSegment(space: Space, image: seq<byte>, ph: Phdr, wp: bool)
    requires WellSized(space) && IsLoaded(ph) && ph.offset + ph.memsz <= |image|
    requires Fits(ph) && ph.vaddr / PAGE !in space
    ensures Loaded(space, image, ph, wp) == Some(space[ph.vaddr / PAGE := SegmentPage(image, ph)])
  {
    hide Copied, ByteAfter, Stored;
    var v, data := ph.vaddr / PAGE, image[ph.offset..ph.offset + ph.memsz];
    var m := Mapped(space, v);
    FittingCopy(space, image, ph, wp);
    var c := Copied(m, ph.vaddr, data, wp).value;
    assert Protected(c, v, HasFlag(ph.flags, 2), HasFlag(ph.flags, 1)) == space[v := SegmentPage(image, ph)];
  }

  lemma FittingCopy(space: Space, image: seq<byte>, ph: Phdr, wp: bool)
    requires WellSized(space) && IsLoaded(ph) && ph.offset + ph.memsz <= |image|
    requires Fits(ph) && ph.vaddr / PAGE !in space
    ensures var v, data := ph.vaddr / PAGE, image[ph.offset..ph.offset + ph.memsz];
      var r := Copied(Mapped(space, v), ph.vaddr, data, wp);
      && r.Some? && v in r.value && r.value.Keys == space.Keys + {v}
      && r.value[v].bytes == SegmentPage(image, ph).bytes
      && forall u :: u in space ==> r.value[u] == space[u]
  {
    hide Copied, Stored;
    var v, data := ph.vaddr / PAGE, image[ph.offset..ph.offset + ph.memsz];
    var m := Mapped(space, v);
    CopyExactly(m, ph.vaddr, data, wp);
    forall a | ph.vaddr <= a < ph.vaddr + |data| ensures CanStore(m, a, wp) {
      InOnePage(ph, a - ph.vaddr);
    }
    var c := Copied(m, ph.vaddr, data, wp).value;
    forall u | u in space ensures c[u] == space[u] {
      OtherPage(m, ph, data, u);
      assert c[u].bytes == m[u].bytes;
    }
    forall x | 0 <= x < PAGE ensures c[v].bytes[x] == SegmentPage(image, ph).bytes[x] {
      assert c[v].bytes[x] == ByteAfter(m, ph.vaddr, data, v, x);
    }
  }

  lemma OtherPage(m: Space, ph: Phdr, data: seq<byte>, u: nat)
    requires WellSized(m) && u in m && u != ph.vaddr / PAGE && Fits(ph) && |data| == ph.memsz
    ensures forall x :: 0 <= x < PAGE ==> ByteAfter(m, ph.vaddr, data, u, x) == m[u].bytes[x]
  {
    forall x | 0 <= x < PAGE ensures ByteAfter(m, ph.vaddr, data, u, x) == m[u].bytes[x] {
      OutsidePage(ph, u, x);
    }
  }

  lemma OutsidePage(ph: Phdr, u: nat, x: nat)
    requires u != ph.vaddr / PAGE && x < PAGE && Fits(ph)
    ensures !(ph.vaddr <= PAGE * u + x < ph.vaddr + ph.memsz)
  {
    if u < ph.vaddr / PAGE {
      assert PAGE * u + PAGE <= PAGE * (ph.vaddr / PAGE);
    } else {
      assert PAGE * (ph.vaddr / PAGE) + PAGE <= PAGE * u;
    }
  }

  /** Only the page of the first byte is mapped: a segment that is loaded where nothing else is faults exactly
      when it does not fit in that page. */
  lemma FaultsIffTooLong(space: Space, image: seq<byte>, ph: Phdr, wp: bool)
    requires WellSized(space) && IsLoaded(ph) && ph.offset + ph.memsz <= |image|
    requires ph.vaddr / PAGE !in space && ph.vaddr / PAGE + 1 !in space
    ensures Loaded(space, image, ph, wp) == None <==> !Fits(ph)
  {
    var v, data := ph.vaddr / PAGE, image[ph.offset..ph.offset + ph.memsz];
    var m := Mapped(space, v);
    CopyExactly(m, ph.vaddr, data, wp);
    if Fits(ph) {
      FittingSegment(space, image, ph, wp);
    } else {
      var k := PAGE - ph.vaddr % PAGE;
      QuotientUnique(ph.vaddr + k, PAGE, v + 1, 0);
      assert !CanStore(m, ph.vaddr + k, wp);
    }
  }

  // ---------------------------------------------------------------- the ELF rule

  /** Chapter 5 of the System V gABI, "Program Header": the file's `filesz` bytes, then zeros up to `memsz`. */
  function AbiBytes(image: seq<byte>, ph: Phdr): (s: seq<byte>)
    requires ph.filesz <= ph.memsz && ph.offset + ph.filesz <= |image|
    ensures |s| == ph.memsz
  {
    image[ph.offset..ph.offset + ph.filesz] + Zeros(ph.memsz - ph.filesz)
  }

  /** The loader copies `memsz` bytes of the file: that is the standard's segment exactly when the file
      happens to hold zeros behind the segment's file bytes. */
  lemma AbiIff(image: seq<byte>, ph: Phdr)
    requires Fits(ph) && ph.filesz <= ph.memsz && ph.offset + ph.memsz <= |image|
    ensures SegmentPage(image, ph).bytes == PageWith(ph.vaddr % PAGE, AbiBytes(image, ph))
       <==> forall i :: ph.offset + ph.filesz <= i < ph.offset + ph.memsz ==> image[i] == 0
  {
    var at, o := ph.vaddr % PAGE, ph.offset;
    var a, b := SegmentPage(image, ph).bytes, PageWith(at, AbiBytes(image, ph));
    if a == b {
      forall i | o + ph.filesz <= i < o + ph.memsz ensures image[i] == 0 {
        assert a[at + (i - o)] == image[i] && b[at + (i - o)] == 0;
      }
    }
    if forall i :: o + ph.filesz <= i < o + ph.memsz ==> image[i] == 0 {
      assert image[o..o + ph.memsz] == AbiBytes(image, ph);
    }
  }

  /** A LOAD segment on a fresh page becomes the standard's page exactly when it has file bytes at all (a
      purely zero-filled one is skipped) and the file bytes behind them are zero. */
  lemma LoadMeetsAbiIff(space: Space, image: seq<byte>, ph: Phdr, wp: bool)
    requires WellSized(space) && ph.kind == LOAD && ph.vaddr / PAGE !in space
    requires Fits(ph) && ph.filesz <= ph.memsz && ph.offset + ph.memsz <= |image|
    ensures var r := Loaded(space, image, ph, wp);
      (r.Some? && ph.vaddr / PAGE in r.value
       && r.value[ph.vaddr / PAGE].bytes == PageWith(ph.vaddr % PAGE, AbiBytes(image, ph)))
      <==>
      (ph.filesz > 0 && forall i :: ph.offset + ph.filesz <= i < ph.offset + ph.memsz ==> image[i] == 0)
  {
    if ph.filesz > 0 {
      FittingSegment(space, image, ph, wp);
      AbiIff(image, ph);
    }
  }

  /** Four bytes in the file, eight in memory, the ninth file byte not zero: the program does not find the
      zeros that the standard promises. */
  lemma AbiExample()
    ensures var ph, image := Phdr(LOAD, 6, 0, 0x40_0000, 4, 8), [1, 2, 3, 4, 5, 0, 0, 0];
      SegmentPage(image, ph).bytes != PageWith(0, AbiBytes(image, ph))
  {
    var ph, image: seq<byte> := Phdr(LOAD, 6, 0, 0x40_0000, 4, 8), [1, 2, 3, 4, 5, 0, 0, 0];
    AbiIff(image, ph);
    assert image[4] == 5;
  }

  // ---------------------------------------------------------------- the whole program

  function PageNo(image: seq<byte>, i: nat): nat
    requires HasTable(image) && i < PhNum(image)
  {
    PhdrAt(image, i).vaddr / PAGE
  }

  predicate LoadedAt(image: seq<byte>, i: nat)
    requires HasTable(image) && i < PhNum(image)
  {
    IsLoaded(PhdrAt(image, i))
  }

  /** Every loaded segment fits in one page of its own, apart from the stack. */
  ghost predicate Tidy(image: seq<byte>)
    requires Readable(image)
  {
    && (forall i :: 0 <= i < PhNum(image) && LoadedAt(image, i) ==> Fits(PhdrAt(image, i)))
    && (forall i, j :: 0 <= i < j < PhNum(image) && LoadedAt(image, i) && LoadedAt(image, j) ==>
          PageNo(image, i) != PageNo(image, j))
    && (forall i :: 0 <= i < PhNum(image) && LoadedAt(image, i) ==>
          !InStack(PageNo(image, i), STACKPAGES))
  }

  ghost predicate HoldsSegments(image: seq<byte>, n: nat, space: Space)
    requires Readable(image) && Tidy(image) && n <= PhNum(image)
  {
    && (forall v :: v in space ==> exists i :: 0 <= i < n && LoadedAt(image, i) && PageNo(image, i) == v)
    && (forall i :: 0 <= i < n && LoadedAt(image, i) ==>
          PageNo(image, i) in space && space[PageNo(image, i)] == SegmentPage(image, PhdrAt(image, i)))
  }

  lemma {:induction false} SegmentsLoad(image: seq<byte>, n: nat, wp: bool)
    requires Readable(image) && Tidy(image) && n <= PhNum(image)
    ensures LoadedUpTo(image, n, wp).Some? && HoldsSegments(image, n, LoadedUpTo(image, n, wp).value)
    decreases n
  {
    hide PhdrAt, SegmentPage, HasFlag, Copied, Protected, Mapped;
    if n > 0 {
      SegmentsLoad(image, n - 1, wp);
      var before := LoadedUpTo(image, n - 1, wp).value;
      if LoadedAt(image, n - 1) {
        FittingSegment(before, image, PhdrAt(image, n - 1), wp);
        var after := LoadedUpTo(image, n, wp).value;
        assert after == before[PageNo(image, n - 1) := SegmentPage(image, PhdrAt(image, n - 1))];
      }
    }
  }

  predicate InStack(v: nat, n: nat) {
    STACKPAGE <= v < STACKPAGE + n
  }

  lemma {:induction false} StackAdds(space: Space, n: nat)
    requires forall v :: InStack(v, n) ==> v !in space
    ensures forall v :: v in WithStack(space, n) <==> v in space || InStack(v, n)
    ensures forall v :: v in space ==> WithStack(space, n)[v] == space[v]
    ensures forall v :: InStack(v, n) ==> WithStack(space, n)[v] == Page(true, true, false, Zeros(PAGE))
  {
    if n > 0 {
      assert forall v :: InStack(v, n) <==> InStack(v, n - 1) || v == STACKPAGE + n - 1;
      StackAdds(space, n - 1);
    }
  }

  /** End to end, for a tidy image: the lower half holds exactly the segment pages, with the rights of their
      flags and the copied bytes in a zeroed page, and eight writable, non-executable zero pages of stack. */
  lemma ProgramExactly(image: seq<byte>, wp: bool)
    requires Readable(image) && Tidy(image)
    ensures Program(image, wp).Some?
    ensures var p := Program(image, wp).value;
      && (forall v :: v in p <==>
            || 0x7000_0000 <= v <= 0x7000_0007
            || exists i :: 0 <= i < PhNum(image) && LoadedAt(image, i) && PageNo(image, i) == v)
      && (forall i :: 0 <= i < PhNum(image) && LoadedAt(image, i) ==>
            p[PageNo(image, i)] == SegmentPage(image, PhdrAt(image, i)))
      && (forall v :: 0x7000_0000 <= v <= 0x7000_0007 ==> v in p && p[v] == Page(true, true, false, Zeros(4096)))
  {
    hide PhdrAt;
    SegmentsLoad(image, PhNum(image), wp);
    var s := LoadedUpTo(image, PhNum(image), wp).value;
    StackAdds(s, STACKPAGES);
    assert forall v :: InStack(v, STACKPAGES) <==> 0x7000_0000 <= v <= 0x7000_0007;
  }
}
