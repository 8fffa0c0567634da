/** vm_unmap hands pmem_free the 40-bit frame number instead of the page address. What that does, when it
    does harm, and what the shifted call would do. */
module Unmapping {
  import opened Options
  import opened Arithmetic
  import opened Memory
  import opened Words
  import opened Entry
  import opened Tables
  import opened Edits
  import opened UserSpace
  import opened Growth
  import opened Snapshots

  /** Memory after `pmem_free(p)` with list head `head`, and then `present = false` in the entry that
      slot `j` of frame `t` holds by that time. */
  function Unmapped(m: seq<byte>, p: nat, head: word, t: nat, j: nat): (r: seq<byte>)
    requires p + 8 <= |m| && t < |m| / PAGE && j < 512
    ensures |r| == |m|
  {
    var m1 := Store(m, p, head);
    Store(m1, Slot(t, j), Encode(Decode(Load(m1, Slot(t, j))).(present := false)))
  }

  /** The eight bytes at `p` miss page `f`. */
  predicate Misses(p: nat, f: nat) {
    p + 8 <= PAGE * f || PAGE * f + PAGE <= p
  }

  /** The ownership that unmapping page `v` should leave. */
  function UnmapPage(o: Own, v: nat): (bool, Own) {
    if v in o.leaves then (true, WithoutLeaf(o, v)) else (false, o)
  }

  function WithoutPage(o: Own, v: nat): Own {
    o.(leaves := o.leaves - {v})
  }

  lemma StoreMisses(m: seq<byte>, p: nat, v: word, f: nat)
    requires p + 8 <= |m| && f < |m| / PAGE && Misses(p, f)
    ensures View(Store(m, p, v))[f] == View(m)[f]
  {
    var m' := Store(m, p, v);
    assert PAGE * f + PAGE <= |m|;
    forall x | PAGE * f <= x < PAGE * f + PAGE ensures m'[x] == m[x] {
    }
    assert PageBytes(m', f) == PageBytes(m, f);
    SameBytesSameFrame(m, m', f);
  }

  /** The view after the two stores, when the first misses the table. */
  lemma UnmappedView(m: seq<byte>, p: nat, head: word, t: nat, j: nat)
    requires p + 8 <= |m| && t < |m| / PAGE && j < 512 && Misses(p, t)
    ensures var w, w' := View(m), View(Unmapped(m, p, head, t, j));
      && w' == PutEntry(View(Store(m, p, head)), t, j, EntryAt(w, t, j).(present := false))
      && forall f :: 0 <= f < |w| && Misses(p, f) && f != t ==> w'[f] == w[f]
  {
    var m1 := Store(m, p, head);
    StoreMisses(m, p, head, t);
    assert Load(m1, Slot(t, j)) == View(m1)[t][j];
    ViewOfStore(m1, t, j, Encode(EntryAt(View(m), t, j).(present := false)));
    forall f | 0 <= f < |m| / PAGE && Misses(p, f) ensures View(m1)[f] == View(m)[f] {
      StoreMisses(m, p, head, f);
    }
  }

  lemma UnmappedEdit(m: seq<byte>, p: nat, head: word, t: nat, j: nat, zs: set<nat>)
    requires p + 8 <= |m| && t < |m| / PAGE && j < 512 && Misses(p, t)
    requires forall f :: f in zs <==> 0 <= f < |m| / PAGE && !Misses(p, f)
    ensures Edited(View(m), View(Unmapped(m, p, head, t, j)), t, j, EntryAt(View(m), t, j).(present := false), zs)
  {
    var e := EntryAt(View(m), t, j).(present := false);
    UnmappedView(m, p, head, t, j);
    StoreMisses(m, p, head, t);
    PutEntryAt(View(Store(m, p, head)), t, j, e);
  }

  /** As long as the eight bytes written at the frame number lie in no page table, vm_unmap takes exactly
      page `v` out of the address space. */
  lemma UnmapTranslations(s: Phys, hhdm: nat, v: nat)
    requires Ok(s, hhdm) && v < PAGES && v in s.own.leaves && On(1, v) in s.own.tables &&
          s.own.tables[On(1, v)] < |s.m| / PAGE
    requires s.own.leaves[v].frame + 8 <= |s.m|
    requires forall q :: q in s.own.tables ==> Misses(s.own.leaves[v].frame, s.own.tables[q])
    ensures var m' := Unmapped(s.m, s.own.leaves[v].frame, s.head, s.own.tables[On(1, v)], Index(1, v));
      && TreeOk(View(m'), WithoutPage(s.own, v))
      && SameWalksBut(View(s.m), View(m'), s.own.tables[ROOT], v)
      && Walk(View(m'), 4, s.own.tables[ROOT], v) == None
  {
    hide RolesOk, ChainOk, TreeOk, Unmapped, Decode, Load, FrameAt;
    var n, t, j := s.own.leaves[v].frame, s.own.tables[On(1, v)], Index(1, v);
    var w, w', o' := View(s.m), View(Unmapped(s.m, n, s.head, t, j)), WithoutPage(s.own, v);
    var e := EntryAt(w, t, j).(present := false);
    var zs := set f | 0 <= f < |w| && !Misses(n, f);
    UnmappedEdit(s.m, n, s.head, t, j, zs);
    LeafEditTree(w, w', s.own, o', v, e, zs);
    OnRoot(v);
    WalkDead(w', o', 1, 4, v);
  }

  /** What vm_unmap finds to unmap lies in memory. */
  ghost predicate InMemory(s: Phys, v: nat) {
    s.head < TWO64
    && (v in s.own.leaves ==>
          && On(1, v) in s.own.tables && s.own.tables[On(1, v)] < |s.m| / PAGE && s.own.leaves[v].frame + 8 <= |s.m|)
  }

  /** The state that vm_unmap leaves, as it is written. */
  ghost function AfterUnmap(s: Phys, hhdm: nat, v: nat): Phys
    requires InMemory(s, v)
  {
    if v !in s.own.leaves then s
    else
      var f := s.own.leaves[v].frame;
      Phys(Unmapped(s.m, f, s.head, s.own.tables[On(1, v)], Index(1, v)), f + hhdm, s.count + 1, s.own)
  }

  /** The memory and list head that vm_unmap leaves satisfy the invariant with the page unmapped and its frame
      given back if and only if nothing was mapped. */
  lemma UnmapConservesIff(s: Phys, hhdm: nat, v: nat)
    requires Ok(s, hhdm) && v < PAGES && (v in s.own.leaves ==> OwnFrame(s.own, v))
    ensures InMemory(s, v)
    ensures var s' := AfterUnmap(s, hhdm, v);
      Inv(View(s'.m), hhdm, s'.head, UnmapPage(s.own, v).1) <==> v !in s.own.leaves
  {
    if v in s.own.leaves {
      hide SlotOk, Unmapped, Load, FrameAt;
      OwnedInRange(s, hhdm, v);
      assert PlaceOk(|View(s.m)|, s.own, On(1, v));
    }
  }

  /** After a successful vm_unmap of an owned page the list is no list of pages at all, unless the frame
      number is itself a page address; the next allocation then hands out another page. */
  lemma UnmapPoisonsList(w: seq<Frame>, hhdm: nat, n: nat, free: seq<nat>)
    requires n > 0 && ChainOk(w, hhdm, n + hhdm, free) && hhdm > 0
    ensures free != [] && n == PAGE * free[0] && free[0] != n
  {
  }

  // ---------------------------------------------------------------- an example

  function PointerTo(f: frameno): Entry {
    Entry(true, true, true, false, false, false, false, false, 0, f, 0, false)
  }

  function OneEntry(f: frameno): Frame {
    ZeroFrame()[0 := Encode(PointerTo(f))]
  }

  /** Page 0 of the address space is mapped to frame 5, by tables in frames 1 to 4; no page is free. */
  function ExampleOwn(): Own {
    Own([], map[ROOT := 1, Path(3, 0) := 2, Path(2, 0) := 3, Path(1, 0) := 4], map[0 := Mapping(5, true, true, true)],
        map[1 := Table(ROOT), 2 := Table(Path(3, 0)), 3 := Table(Path(2, 0)), 4 := Table(Path(1, 0)), 5 := Leaf(0)])
  }

  function ExampleFrames(): seq<Frame> {
    [ZeroFrame(), OneEntry(2), OneEntry(3), OneEntry(4), OneEntry(5), ZeroFrame()]
  }

  function Example(): Phys {
    Phys(Flatten(ExampleFrames()), 0, 0, ExampleOwn())
  }

  lemma OneEntryAt(w: seq<Frame>, t: nat, f: frameno, j: nat)
    requires t < |w| && w[t] == OneEntry(f) && j < 512
    ensures j == 0 ==> EntryAt(w, t, j) == PointerTo(f)
    ensures j != 0 ==> !EntryAt(w, t, j).present && !EntryAt(w, t, j).pageSize
  {
    DecodeEncode(PointerTo(f));
    ZeroIsAbsent(j);
  }

  lemma ExampleSlot(q: Path, j: nat)
    requires q in ExampleOwn().tables && j < 512
    ensures ExampleOwn().tables[q] < |ExampleFrames()| && SlotOk(ExampleFrames(), ExampleOwn(), q, j)
  {
    hide Encode, Decode, OneEntry;
    OneEntryAt(ExampleFrames(), ExampleOwn().tables[q], ExampleOwn().tables[q] + 1, j);
  }

  lemma ExampleTree()
    ensures TreeOk(ExampleFrames(), ExampleOwn())
  {
    hide SlotOk, OneEntry;
    assert On(1, 0) == Path(1, 0);
    forall q, j | q in ExampleOwn().tables && 0 <= j < 512
      ensures ExampleOwn().tables[q] < |ExampleFrames()| && SlotOk(ExampleFrames(), ExampleOwn(), q, j)
    {
      ExampleSlot(q, j);
    }
  }

  lemma ExampleRoles()
    ensures RolesOk(6, ExampleOwn())
  {
  }

  lemma ExampleOk(hhdm: nat)
    requires 0 < hhdm && hhdm + 6 * PAGE <= TWO64
    ensures Ok(Example(), hhdm) && View(Example().m) == ExampleFrames()
  {
    hide TreeOk, RolesOk, OneEntry, View, Flatten;
    ViewOfFlatten(ExampleFrames());
    ExampleTree();
    ExampleRoles();
  }

  /** There vm_unmap of page 0 puts address 5 at the head, instead of 0x5000: no list of pages starts there, and
      the invariant is lost. */
  lemma UnmapExample(hhdm: nat)
    requires 0 < hhdm && hhdm + 6 * PAGE <= TWO64
    ensures Ok(Example(), hhdm) && 0 in Example().own.leaves && OwnFrame(Example().own, 0) && InMemory(Example(), 0)
    ensures var s' := AfterUnmap(Example(), hhdm, 0);
      && s'.head == 5 + hhdm
      && !Inv(View(s'.m), hhdm, s'.head, UnmapPage(Example().own, 0).1)
      && forall free :: !ChainOk(View(s'.m), hhdm, s'.head, free)
  {
    hide Ok, Inv, Unmapped, ExampleFrames, Flatten, View, ChainOk;
    ExampleOk(hhdm);
    UnmapConservesIff(Example(), hhdm, 0);
    var s' := AfterUnmap(Example(), hhdm, 0);
    forall free ensures !ChainOk(View(s'.m), hhdm, s'.head, free) {
      if ChainOk(View(s'.m), hhdm, s'.head, free) {
        UnmapPoisonsList(View(s'.m), hhdm, 5, free);
        assert false;
      }
    }
  }

  /** Memory when the call is `pmem_free(address << 12)`. */
  ghost predicate ShiftedUnmap(s: Phys, s': Phys, hhdm: nat, v: nat) {
    && Ok(s, hhdm) && v < PAGES && v in s.own.leaves && OwnFrame(s.own, v)
    && On(1, v) in s.own.tables && s.own.tables[On(1, v)] < |s.m| / PAGE && s.own.leaves[v].frame < |s.m| / PAGE
    && s'.m == Unmapped(s.m, PAGE * s.own.leaves[v].frame, s.head, s.own.tables[On(1, v)], Index(1, v))
    && s'.head == PAGE * s.own.leaves[v].frame + hhdm
    && s'.count == s.count + 1
    && s'.own == WithoutLeaf(s.own, v)
  }

  lemma ShiftedUnmapView(m: seq<byte>, f: nat, head: word, t: nat, j: nat)
    requires f < |m| / PAGE && t < |m| / PAGE && j < 512 && f != t
    ensures var w, w' := View(m), View(Unmapped(m, PAGE * f, head, t, j));
      && Edited(w, w', t, j, EntryAt(w, t, j).(present := false), {f})
      && w'[f][0] == head
  {
    hide Decode, Encode, Load, Store;
    var w := View(m);
    ApartPagesMiss(f, t);
    UnmappedView(m, PAGE * f, head, t, j);
    ViewOfStore(m, f, 0, head);
    PutEntryEdits(w, t, j, EntryAt(w, t, j).(present := false), f, w[f][0 := head]);
  }

  lemma LeafIsNoTable(n: nat, o: Own, v: nat)
    requires RolesOk(n, o) && v in o.leaves && OwnFrame(o, v)
    ensures forall q :: q in o.tables ==> o.tables[q] != o.leaves[v].frame
  {
  }

  lemma ShiftedUnmapOk(s: Phys, s': Phys, hhdm: nat, v: nat)
    requires ShiftedUnmap(s, s', hhdm, v)
    ensures Ok(s', hhdm) && SameWalksBut(View(s.m), View(s'.m), s.own.tables[ROOT], v)
    ensures LeafEdit(View(s.m), View(s'.m), s.own, s'.own, v,
                     Next(s, v, 1).(present := false), {s.own.leaves[v].frame})
  {
    hide Decode, Load, Unmapped, FrameAt, ChainOk, RolesOk, SlotOk, PlaceOk;
    var f, t, w, w' := s.own.leaves[v].frame, s.own.tables[On(1, v)], View(s.m), View(s'.m);
    LeafIsNoTable(|w|, s.own, v);
    ShiftedUnmapView(s.m, f, s.head, t, Index(1, v));
    ReleaseLeaf(w, w', hhdm, s.head, s.own, v, Next(s, v, 1).(present := false));
  }

  /** With the shift, unmapping an owned page keeps every invariant and returns its frame. */
  lemma ShiftedUnmapStep(s: Phys, s': Phys, hhdm: nat, v: nat)
    requires ShiftedUnmap(s, s', hhdm, v)
    ensures Kept(s, s', hhdm, v) && Walk(View(s'.m), 4, s.own.tables[ROOT], v) == None
  {
    hide Decode, Load, Unmapped, FrameAt, RolesOk, ChainOk, OpenSlot;
    var w, w', o' := View(s.m), View(s'.m), s'.own;
    ShiftedUnmapOk(s, s', hhdm, v);
    OnRoot(v);
    WalkDead(w', o', 1, 4, v);
    if UserSpaceOk(w, s.own) {
      ReleasedOwned(s.own, v);
      LeafEditUser(w, w', s.own, o', v, Next(s, v, 1).(present := false), {s.own.leaves[v].frame});
    }
  }

  lemma ReleasedOwned(o: Own, v: nat)
    requires v in o.leaves && OwnFrame(o, v)
    requires forall u :: u in o.leaves && u < LOWERPAGES ==> OwnFrame(o, u)
    ensures var o' := WithoutLeaf(o, v); forall u :: u in o'.leaves && u < LOWERPAGES ==> OwnFrame(o', u)
  {
    var o' := WithoutLeaf(o, v);
    forall u | u in o'.leaves && u < LOWERPAGES ensures OwnFrame(o', u) {
      assert OwnFrame(o, u);
    }
  }

  lemma ApartPagesMiss(f: nat, g: nat)
    requires f != g
    ensures Misses(PAGE * f, g)
  {
    if f < g {
      assert PAGE * f + PAGE <= PAGE * g;
    } else {
      assert PAGE * g + PAGE <= PAGE * f;
    }
  }
}
