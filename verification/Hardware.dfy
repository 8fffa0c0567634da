/** The processor's view of memory, in plain arithmetic on the bytes: the four-level walk of the Intel SDM, volume
    3A, sections 4.5 and 4.6, with every bit and shift written out. */
module Hardware {
  import opened Options
  import opened Arithmetic
  import opened Memory
  import opened Words
  import opened Entry
  import opened Tables
  import opened Snapshots
  import opened Teardown

  /** What the processor takes from an entry. */
  datatype EntryBits = EntryBits(present: bool, writable: bool, user: bool, huge: bool, frame: nat, executable: bool)

  function BitsOf(x: word): EntryBits {
    EntryBits(x % 2 == 1, x / 2 % 2 == 1, x / 4 % 2 == 1, x / 128 % 2 == 1, x / 0x1000 % 0x100_0000_0000,
              x < 0x8000_0000_0000_0000)
  }

  /** Where the entry for address `a` stands in the level-`l` table at physical address `table`. */
  function EntryAddress(l: nat, table: nat, a: nat): nat
    requires 1 <= l <= 4
  {
    table + 8 * (a / (if l == 4 then 0x80_0000_0000
                      else if l == 3 then 0x4000_0000
                      else if l == 2 then 0x20_0000
                      else 0x1000) % 512)
  }

  /** The frame that address `a` has in a page of 512 or 512 * 512 small ones. */
  function HugeFrame(frame: nat, span: nat, a: nat): nat
    requires span > 0
  {
    frame / span * span + a / 0x1000 % span
  }

  /** What address `a` translates to, from the level-`l` table at physical address `table`. */
  function BytesWalk(m: seq<byte>, l: nat, table: nat, a: nat): Option<Mapping>
    requires 1 <= l <= 4
    decreases l
  {
    var at := EntryAddress(l, table, a);
    if at + 8 > |m| - |m| % 4096 then None
    else
      var e := BitsOf(Load(m, at));
      if !e.present then None
      else if l == 1 then Some(Mapping(e.frame, e.user, e.writable, e.executable))
      else if e.huge then
        if l == 4 then None
        else Some(Mapping(HugeFrame(e.frame, if l == 3 then 512 * 512 else 512, a), e.user, e.writable, e.executable))
      else
        var below := BytesWalk(m, l - 1, 0x1000 * e.frame, a);
        if below.None? then None
        else Some(Mapping(below.value.frame, e.user && below.value.user, e.writable && below.value.writable,
                          e.executable && below.value.executable))
  }

  lemma PageAddress(a: nat)
    requires a < 0x1_0000_0000_0000
    ensures PageOf(a) == a / 0x1000 < PAGES
  {
  }

  lemma SlotThere(n: nat, t: nat, i: nat)
    requires i < 512
    ensures 0x1000 * t + 8 * i + 8 <= n - n % 4096 <==> t < n / PAGE
  {
  }

  /** Reading an entry is reading its word. */
  lemma EntryBytes(m: seq<byte>, l: nat, t: nat, a: nat)
    requires 1 <= l <= 4 && a < 0x1_0000_0000_0000
    ensures EntryAddress(l, 0x1000 * t, a) + 8 <= |m| - |m| % 4096 <==> t < |View(m)|
    ensures t < |View(m)| ==>
      var e := EntryAt(View(m), t, Index(l, PageOf(a)));
      BitsOf(Load(m, EntryAddress(l, 0x1000 * t, a)))
      == EntryBits(e.present, e.writable, e.user, e.pageSize, e.address, !e.noExecute)
  {
    hide Decode, Load;
    ShiftedIndexIsIndex(a, l);
    SlotThere(|m|, t, ShiftedIndex(a, l));
    if t < |View(m)| {
      var x := Load(m, Slot(t, ShiftedIndex(a, l)));
      DecodeLayout(x);
      SignBit(x);
    }
  }

  lemma SameHuge(l: nat, e: Entry, a: nat)
    requires 2 <= l <= 3 && a < 0x1_0000_0000_0000
    ensures HugeOf(l, e, PageOf(a)).frame == HugeFrame(e.address, if l == 3 then 512 * 512 else 512, a)
  {
    PageAddress(a);
  }

  /** The walk over page frames is that walk over bytes. */
  lemma {:induction false} BytesWalkIsWalk(m: seq<byte>, l: nat, t: nat, a: nat)
    requires 1 <= l <= 4 && a < 0x1_0000_0000_0000
    ensures BytesWalk(m, l, 0x1000 * t, a) == Walk(View(m), l, t, PageOf(a))
    decreases l
  {
    hide Load, View, EntryAt, PageOf, Index, Decode, BitsOf, EntryAddress, HugeFrame;
    EntryBytes(m, l, t, a);
    if t < |View(m)| {
      var e := EntryAt(View(m), t, Index(l, PageOf(a)));
      if 1 < l < 4 {
        SameHuge(l, e, a);
      }
      if l > 1 {
        BytesWalkIsWalk(m, l - 1, e.address, a);
      }
    }
  }

  lemma SignBit(x: word)
    ensures x / 0x8000_0000_0000_0000 == 1 <==> x >= 0x8000_0000_0000_0000
  {
  }

  // ---------------------------------------------------------------- the entry of a mapped page

  /** The eight bytes at `at` map a page to frame `frame` with these rights. */
  predicate LeafBytes(m: seq<byte>, at: nat, frame: nat, user: bool, writable: bool, executable: bool) {
    && at + 8 <= |m|
    && m[at] as int % 2 == 1
    && m[at] as int / 2 % 2 == (if writable then 1 else 0)
    && m[at] as int / 4 % 2 == (if user then 1 else 0)
    && Load(m, at) / 0x1000 % 0x100_0000_0000 == frame
    && m[at + 7] as int / 128 == (if executable then 0 else 1)
  }

  /** Where the level-1 entry of page `v` stands, given its table's frame. */
  function LeafSlot(t: nat, a: nat): nat {
    0x1000 * t + 8 * (a / 0x1000 % 512)
  }

  lemma EndBytes(m: seq<byte>, at: nat)
    requires at + 8 <= |m|
    ensures var x := Load(m, at); var first, last := m[at] as int, m[at + 7] as int;
      && x % 2 == first % 2 && x / 2 % 2 == first / 2 % 2 && x / 4 % 2 == first / 4 % 2
      && (x / 0x8000_0000_0000_0000 == 1 <==> last / 128 == 1)
  {
    hide Load;
    LoadLittleEndian(m, at);
    var x, first, last := Load(m, at), m[at] as int, m[at + 7] as int;
    var rest := m[at + 1] as int + 0x100 * m[at + 2] as int + 0x1_0000 * m[at + 3] as int
                + 0x100_0000 * m[at + 4] as int + 0x1_0000_0000 * m[at + 5] as int + 0x100_0000_0000 * m[at + 6] as int;
    LowByte(x, first, rest + 0x1_0000_0000_0000 * last);
    HighByte(x, first + 0x100 * rest, last);
  }

  lemma LowByte(x: nat, first: nat, k: nat)
    requires x == first + 0x100 * k
    ensures x % 2 == first % 2 && x / 2 % 2 == first / 2 % 2 && x / 4 % 2 == first / 4 % 2
  {
    QuotientUnique(x, 2, first / 2 + 128 * k, first % 2);
    QuotientUnique(x / 2, 2, first / 4 + 64 * k, first / 2 % 2);
    QuotientUnique(x / 4, 2, first / 8 + 32 * k, first / 4 % 2);
  }

  lemma HighByte(x: nat, low: nat, last: nat)
    requires x == low + 0x100_0000_0000_0000 * last && low < 0x100_0000_0000_0000 && last < 256
    ensures x / 0x8000_0000_0000_0000 == 1 <==> last / 128 == 1
  {
  }

  /** In every state of the kernel the entry of every mapped page is in memory, bit for bit. */
  lemma LeafInMemory(s: Phys, hhdm: nat, a: nat)
    requires Ok(s, hhdm) && PageOf(a) in s.own.leaves
    ensures On(1, PageOf(a)) in s.own.tables
    ensures var x := s.own.leaves[PageOf(a)];
      LeafBytes(s.m, LeafSlot(s.own.tables[On(1, PageOf(a))], a), x.frame, x.user, x.writable, x.executable)
  {
    hide Decode, Load;
    var v := PageOf(a);
    var t := s.own.tables[On(1, v)];
    assert PlaceOk(|View(s.m)|, s.own, On(1, v));
    ShiftedIndexIsIndex(a, 1);
    ChildOn(1, v);
    assert SlotOk(View(s.m), s.own, On(1, v), Index(1, v));
    var at := LeafSlot(t, a);
    assert at == Slot(t, Index(1, v)) && at + 8 <= |s.m|;
    DecodeLayout(Load(s.m, at));
    EndBytes(s.m, at);
  }

  // ---------------------------------------------------------------- the lower half

  /** Below 2^47 nothing is translated any more; above, everything as before. */
  ghost predicate LowerDropped(m0: seq<byte>, m: seq<byte>, root: nat) {
    forall a :: 0 <= a < 0x1_0000_0000_0000 ==>
      BytesWalk(m, 4, root, a) == if a < 0x8000_0000_0000 then None else BytesWalk(m0, 4, root, a)
  }

  lemma LowerGoneIsDropped(m0: seq<byte>, m: seq<byte>, t: nat)
    requires LowerGone(View(m0), View(m), t)
    ensures LowerDropped(m0, m, 0x1000 * t)
  {
    hide BytesWalk, Walk, View;
    forall a: nat | a < 0x1_0000_0000_0000
      ensures BytesWalk(m, 4, 0x1000 * t, a)
           == if a < 0x8000_0000_0000 then None else BytesWalk(m0, 4, 0x1000 * t, a)
    {
      PageAddress(a);
      BytesWalkIsWalk(m, 4, t, a);
      BytesWalkIsWalk(m0, 4, t, a);
    }
  }
}
