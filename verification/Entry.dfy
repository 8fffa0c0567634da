/** The 64-bit page-table entry of kernel/page.c and the splitting of addresses. */
module Entry {
  import opened Arithmetic
  import opened Words

  const MAXFRAMES: nat := 0x100_0000_0000 // 2^40, the frame numbers that the address field holds
  const PAGES: nat := 0x10_0000_0000      // 2^36, the pages of a 48-bit address space
  const LOWERPAGES: nat := 0x8_0000_0000  // 2^35, the pages below address 2^47

  type frameno = x: int | 0 <= x < MAXFRAMES
  type uint4 = x: int | 0 <= x < 16
  type uint11 = x: int | 0 <= x < 2048

  /** struct page_table_entry, lowest bit first. */
  datatype Entry = Entry(
    present: bool, writable: bool, user: bool, writeThrough: bool, cacheDisable: bool,
    accessed: bool, dirty: bool, pageSize: bool, unused0: uint4, address: frameno,
    unused1: uint11, noExecute: bool)

  function Bit(b: bool): (r: nat)
    ensures r < 2
  {
    if b then 1 else 0
  }

  /** The bits `bs`, lowest first, put below the number `r`. */
  function Push(bs: seq<bool>, r: nat): (x: nat) {
    if bs == [] then r else Bit(bs[0]) + 2 * Push(bs[1..], r)
  }

  function Shifted(x: nat, n: nat): (r: nat) {
    if n == 0 then x else Shifted(x / 2, n - 1)
  }

  /** The flag in bit `n`. */
  function Flag(x: nat, n: nat): bool {
    Shifted(x, n) % 2 == 1
  }

  lemma {:induction false} PushedFlags(bs: seq<bool>, r: nat)
    ensures Shifted(Push(bs, r), |bs|) == r
    ensures forall n :: 0 <= n < |bs| ==> Flag(Push(bs, r), n) == bs[n]
  {
    if bs != [] {
      PushedFlags(bs[1..], r);
      var x := Push(bs, r);
      assert x / 2 == Push(bs[1..], r);
      forall n | 0 <= n < |bs| ensures Flag(x, n) == bs[n] {
        if n > 0 { assert Flag(x, n) == Flag(x / 2, n - 1); }
      }
    }
  }

  lemma {:induction false} FlagsRecombine(x: nat, bs: seq<bool>)
    requires forall n :: 0 <= n < |bs| ==> bs[n] == Flag(x, n)
    ensures Push(bs, Shifted(x, |bs|)) == x
  {
    if bs != [] {
      assert bs[0] == Flag(x, 0);
      forall n | 0 <= n < |bs| - 1 ensures bs[1..][n] == Flag(x / 2, n) {
        assert bs[n + 1] == Flag(x, n + 1);
      }
      FlagsRecombine(x / 2, bs[1..]);
    }
  }

  /** Everything above the low eight flag bits. */
  function EncodeHigh(e: Entry): (r: nat)
    ensures r < 0x100_0000_0000_0000
  {
    e.unused0 + 16 * (e.address + MAXFRAMES * (e.unused1 + 2048 * Bit(e.noExecute)))
  }

  function FlagBits(e: Entry): (bs: seq<bool>)
    ensures |bs| == 8
  {
    [e.present, e.writable, e.user, e.writeThrough, e.cacheDisable, e.accessed, e.dirty, e.pageSize]
  }

  function Encode(e: Entry): word {
    PushBound(FlagBits(e), EncodeHigh(e), 0x100_0000_0000_0000);
    Doubled8(0x100_0000_0000_0000);
    Push(FlagBits(e), EncodeHigh(e))
  }

  function Doubled(b: nat, n: nat): nat {
    if n == 0 then b else 2 * Doubled(b, n - 1)
  }

  lemma Doubled8(b: nat)
    ensures Doubled(b, 8) == 256 * b
  {
    assert Doubled(b, 1) == 2 * b;
    assert Doubled(b, 3) == 4 * Doubled(b, 1);
    assert Doubled(b, 5) == 4 * Doubled(b, 3);
    assert Doubled(b, 7) == 4 * Doubled(b, 5);
  }

  lemma {:induction false} PushBound(bs: seq<bool>, r: nat, b: nat)
    requires r < b
    ensures Push(bs, r) < Doubled(b, |bs|)
  {
    if bs != [] {
      PushBound(bs[1..], r, b);
    }
  }

  function Decode(x: word): (e: Entry) {
    var rest := Shifted(x, 8);
    var frame := rest / 16;
    var high := frame / MAXFRAMES;
    Entry(Flag(x, 0), Flag(x, 1), Flag(x, 2), Flag(x, 3), Flag(x, 4), Flag(x, 5), Flag(x, 6), Flag(x, 7),
          rest % 16, frame % MAXFRAMES, high % 2048, high / 2048 == 1)
  }

  /** A field of width `d` below a number. */
  lemma FieldBelow(field: nat, d: nat, r: nat)
    requires field < d
    ensures (field + d * r) / d == r && (field + d * r) % d == field
  {
    QuotientUnique(field + d * r, d, r, field);
  }

  lemma DecodeEncode(e: Entry)
    ensures Decode(Encode(e)) == e
  {
    var high := e.unused1 + 2048 * Bit(e.noExecute);
    var frame := e.address + MAXFRAMES * high;
    FieldBelow(e.unused0, 16, frame);
    FieldBelow(e.address, MAXFRAMES, high);
    FieldBelow(e.unused1, 2048, Bit(e.noExecute));
    PushedFlags(FlagBits(e), EncodeHigh(e));
  }

  lemma EncodeDecode(x: word)
    ensures Encode(Decode(x)) == x
  {
    hide Shifted, Doubled, Push;
    Doubled8(0x100_0000_0000_0000);
    ShiftedBound(x, 8, 0x100_0000_0000_0000);
    FieldsRecombine(Shifted(x, 8));
    FlagsRecombine(x, FlagBits(Decode(x)));
  }

  lemma {:induction false} ShiftedBound(x: nat, n: nat, b: nat)
    requires x < Doubled(b, n)
    ensures Shifted(x, n) < b
  {
    if n > 0 {
      ShiftedBound(x / 2, n - 1, b);
    }
  }

  lemma FieldsRecombine(rest: nat)
    requires rest < 0x100_0000_0000_0000
    ensures var frame := rest / 16;
            var high := frame / MAXFRAMES;
            && high < 4096
            && rest == rest % 16 + 16 * (frame % MAXFRAMES + MAXFRAMES * (high % 2048 + 2048 * Bit(high / 2048 == 1)))
  {
  }

  // ---------------------------------------------------------------- the layout in numbers

  /** What each field of a 64-bit word reads as. */
  lemma DecodeLayout(x: word)
    ensures var e := Decode(x);
      && e.present == (x % 2 == 1) && e.writable == (x / 2 % 2 == 1) && e.user == (x / 4 % 2 == 1)
      && e.writeThrough == (x / 8 % 2 == 1) && e.cacheDisable == (x / 16 % 2 == 1)
      && e.accessed == (x / 32 % 2 == 1) && e.dirty == (x / 64 % 2 == 1) && e.pageSize == (x / 128 % 2 == 1)
      && e.unused0 == x / 0x100 % 16 && e.address == x / 0x1000 % 0x100_0000_0000
      && e.unused1 == x / 0x10_0000_0000_0000 % 0x800 && e.noExecute == (x / 0x8000_0000_0000_0000 == 1)
  {
    ShiftedNumber(x);
    QuotientOfQuotient(x, 0x100, 16);
    QuotientOfQuotient(x, 0x1000, 0x100_0000_0000);
    QuotientOfQuotient(x, 0x10_0000_0000_0000, 0x800);
    hide Shifted;
  }

  /** Where each field stands in the 64-bit word. */
  lemma EncodeLayout(e: Entry)
    ensures Encode(e)
         == (if e.present then 1 else 0) + 2 * (if e.writable then 1 else 0) + 4 * (if e.user then 1 else 0)
            + 8 * (if e.writeThrough then 1 else 0) + 16 * (if e.cacheDisable then 1 else 0)
            + 32 * (if e.accessed then 1 else 0) + 64 * (if e.dirty then 1 else 0)
            + 128 * (if e.pageSize then 1 else 0) + 0x100 * e.unused0 + 0x1000 * e.address
            + 0x10_0000_0000_0000 * e.unused1 + 0x8000_0000_0000_0000 * (if e.noExecute then 1 else 0)
  {
    hide Encode, Decode;
    DecodeEncode(e);
    var d0, d1, d2, d3, d4, d5, d6, d7, h := LowDigits(Encode(e));
    HighField(Encode(e), h);
  }

  /** The eight low bits as numbers, and what is above them. */
  lemma LowDigits(x: word)
    returns (d0: nat, d1: nat, d2: nat, d3: nat, d4: nat, d5: nat, d6: nat, d7: nat, h: nat)
    ensures x == d0 + 2 * d1 + 4 * d2 + 8 * d3 + 16 * d4 + 32 * d5 + 64 * d6 + 128 * d7 + 0x100 * h
    ensures h == x / 0x100
    ensures var e := Decode(x);
      && d0 == (if e.present then 1 else 0) && d1 == (if e.writable then 1 else 0) && d2 == (if e.user then 1 else 0)
      && d3 == (if e.writeThrough then 1 else 0) && d4 == (if e.cacheDisable then 1 else 0)
      && d5 == (if e.accessed then 1 else 0) && d6 == (if e.dirty then 1 else 0)
      && d7 == (if e.pageSize then 1 else 0)
  {
    hide Decode;
    DecodeLayout(x);
    LowBits(x);
    d0, d1, d2, d3, d4, d5, d6, d7, h := x % 2, x / 2 % 2, x / 4 % 2, x / 8 % 2, x / 16 % 2, x / 32 % 2, x / 64 % 2,
      x / 128 % 2, x / 0x100;
  }

  lemma HighField(x: word, h: nat)
    requires h == x / 0x100
    ensures var e := Decode(x);
      0x100 * h == 0x100 * e.unused0 + 0x1000 * e.address + 0x10_0000_0000_0000 * e.unused1
                   + 0x8000_0000_0000_0000 * (if e.noExecute then 1 else 0)
  {
    hide Decode;
    DecodeLayout(x);
    HighBits(x);
    assert x / 0x8000_0000_0000_0000 < 2;
  }

  lemma LowBits(x: nat)
    ensures x == x % 2 + 2 * (x / 2 % 2) + 4 * (x / 4 % 2) + 8 * (x / 8 % 2) + 16 * (x / 16 % 2) + 32 * (x / 32 % 2)
                 + 64 * (x / 64 % 2) + 128 * (x / 128 % 2) + 0x100 * (x / 0x100)
  {
    ShiftedNumber(x);
    Halves(x, 0);
    Halves(x, 1);
    Halves(x, 2);
    Halves(x, 3);
    Halves(x, 4);
    Halves(x, 5);
    Halves(x, 6);
    Halves(x, 7);
    hide Shifted;
    LowSum(Shifted(x, 0), Shifted(x, 1), Shifted(x, 2), Shifted(x, 3), Shifted(x, 4), Shifted(x, 5), Shifted(x, 6),
           Shifted(x, 7), Shifted(x, 8));
  }

  lemma Halves(x: nat, n: nat)
    ensures Shifted(x, n) == Shifted(x, n) % 2 + 2 * Shifted(x, n + 1)
  {
    ShiftedNext(x, n);
  }

  lemma LowSum(x0: nat, x1: nat, x2: nat, x3: nat, x4: nat, x5: nat, x6: nat, x7: nat, x8: nat)
    requires x0 == x0 % 2 + 2 * x1 && x1 == x1 % 2 + 2 * x2 && x2 == x2 % 2 + 2 * x3 && x3 == x3 % 2 + 2 * x4
    requires x4 == x4 % 2 + 2 * x5 && x5 == x5 % 2 + 2 * x6 && x6 == x6 % 2 + 2 * x7 && x7 == x7 % 2 + 2 * x8
    ensures x0 == x0 % 2 + 2 * (x1 % 2) + 4 * (x2 % 2) + 8 * (x3 % 2) + 16 * (x4 % 2) + 32 * (x5 % 2) + 64 * (x6 % 2)
                  + 128 * (x7 % 2) + 0x100 * x8
  {
  }

  lemma HighBits(x: nat)
    ensures 0x100 * (x / 0x100)
         == 0x100 * (x / 0x100 % 16) + 0x1000 * (x / 0x1000 % 0x100_0000_0000)
            + 0x10_0000_0000_0000 * (x / 0x10_0000_0000_0000 % 0x800)
            + 0x8000_0000_0000_0000 * (x / 0x8000_0000_0000_0000)
  {
    QuotientOfQuotient(x, 0x100, 16);
    QuotientOfQuotient(x, 0x1000, 0x100_0000_0000);
    QuotientOfQuotient(x, 0x10_0000_0000_0000, 0x800);
  }

  lemma ShiftedNumber(x: nat)
    ensures Shifted(x, 0) == x && Shifted(x, 1) == x / 2 && Shifted(x, 2) == x / 4 && Shifted(x, 3) == x / 8
    ensures Shifted(x, 4) == x / 16 && Shifted(x, 5) == x / 32 && Shifted(x, 6) == x / 64 && Shifted(x, 7) == x / 128
    ensures Shifted(x, 8) == x / 0x100
  {
    ShiftedNext(x, 0);
    ShiftedNext(x, 1);
    ShiftedNext(x, 2);
    ShiftedNext(x, 3);
    ShiftedNext(x, 4);
    ShiftedNext(x, 5);
    ShiftedNext(x, 6);
    ShiftedNext(x, 7);
  }

  lemma {:induction false} ShiftedNext(x: nat, n: nat)
    ensures Shifted(x, n + 1) == Shifted(x, n) / 2
  {
    if n > 0 { ShiftedNext(x / 2, n - 1); }
  }

  /** The page number of an address (bits 12 to 47). */
  function PageOf(address: nat): (v: nat)
    ensures v < PAGES
  {
    address / PAGE % PAGES
  }

  /** `v` without its `l` lowest nine-bit groups. */
  function Up(l: nat, v: nat): nat {
    if l == 0 then v else Up(l - 1, v) / 512
  }

  /** The table index that level `l` uses for page `v`. */
  function Index(l: nat, v: nat): (i: nat)
    requires l >= 1
    ensures i < 512
  {
    Up(l - 1, v) % 512
  }

  /** `(address >> 12 + 9(l-1)) & 0x1FF`, as the code computes it. */
  function ShiftedIndex(address: nat, l: nat): (i: nat)
    requires 1 <= l <= 4
    ensures i < 512
  {
    (if l == 1 then address / 0x1000
     else if l == 2 then address / 0x20_0000
     else if l == 3 then address / 0x4000_0000
     else address / 0x80_0000_0000) % 512
  }

  lemma ShiftedIndexIsIndex(address: nat, l: nat)
    requires 1 <= l <= 4
    ensures ShiftedIndex(address, l) == Index(l, PageOf(address))
  {
    UpFromTop(PageOf(address));
    if l == 1 {
      IndexBits(address, 1, 0x800_0000);
    } else if l == 2 {
      IndexBits(address, 0x200, 0x4_0000);
    } else if l == 3 {
      IndexBits(address, 0x4_0000, 0x200);
    } else {
      IndexBits(address, 0x800_0000, 1);
    }
  }

  /** Nine bits of an address, taken from the address or from its page number. */
  lemma IndexBits(address: nat, d: nat, k: nat)
    requires d > 0 && k > 0 && d * (512 * k) == PAGES
    ensures PAGE * d > 0 && address / (PAGE * d) % 512 == PageOf(address) / d % 512
  {
    var p := address / PAGE;
    QuotientOfQuotient(address, PAGE, d);
    RemainderOfRemainder(p, d, 512 * k);
    RemainderOfRemainder(p / d, 512, k);
  }

  /** `Up` as single divisions. */
  lemma UpFromTop(v: nat)
    ensures Up(1, v) == v / 0x200 && Up(2, v) == v / 0x4_0000
    ensures Up(3, v) == v / 0x800_0000 && Up(4, v) == v / PAGES
  {
    assert Up(1, v) == v / 512;
    QuotientOfQuotient(v, 512, 512);
    assert Up(2, v) == Up(1, v) / 512;
    QuotientOfQuotient(v, 0x4_0000, 512);
    assert Up(3, v) == Up(2, v) / 512;
    QuotientOfQuotient(v, 0x800_0000, 512);
  }

  /** The four indices and the offset give the 48 low bits of the address back. */
  lemma IndicesRecombine(address: nat)
    ensures address % 0x1_0000_0000_0000
         == (((ShiftedIndex(address, 4) * 512 + ShiftedIndex(address, 3)) * 512 + ShiftedIndex(address, 2)) * 512
             + ShiftedIndex(address, 1)) * PAGE + address % PAGE
  {
    var v := PageOf(address);
    RemainderOfRemainder(address, PAGE, PAGES);
    forall l | 1 <= l <= 4 ensures ShiftedIndex(address, l) == Index(l, v) {
      ShiftedIndexIsIndex(address, l);
    }
    UpFromTop(v);
    assert Up(3, v) == Index(4, v);
    assert Up(2, v) == Up(3, v) * 512 + Index(3, v);
    assert Up(1, v) == Up(2, v) * 512 + Index(2, v);
    assert v == Up(1, v) * 512 + Index(1, v);
  }

  /** Pages with the same four indices are the same page. */
  lemma IndicesInjective(u: nat, v: nat)
    requires u < PAGES && v < PAGES
    requires forall l :: 1 <= l <= 4 ==> Index(l, u) == Index(l, v)
    ensures u == v
  {
    assert Up(4, u) == 0 && Up(4, v) == 0 by { UpFromTop(u); UpFromTop(v); }
    assert Index(4, u) == Index(4, v);
    assert Up(3, u) == Up(3, v);
    assert Index(3, u) == Index(3, v);
    assert Up(2, u) == Up(2, v);
    assert Index(2, u) == Index(2, v);
    assert Up(1, u) == Up(1, v);
    assert Index(1, u) == Index(1, v);
  }
}
