/** The free list that mem_init builds from the bootloader's memory map. */
module Boot {
  import opened Options
  import opened Words
  import opened Memory
  import opened Entry
  import opened Tables
  import opened Edits
  import opened UserSpace
  import opened Snapshots
  import Growth
  import opened Teardown

  /** An entry of the memory map: type 1 is usable memory. */
  datatype MmapEntry = MmapEntry(base: nat, length: nat, kind: nat)

  /** The page frames of a usable entry, lowest first. */
  function FramesOf(e: MmapEntry): (r: seq<nat>) {
    if e.kind == 1 then seq(e.length / PAGE, i requires 0 <= i => e.base / PAGE + i) else []
  }

  function UsableFrames(memmap: seq<MmapEntry>): seq<nat> {
    if memmap == [] then []
    else UsableFrames(memmap[..|memmap| - 1]) + FramesOf(memmap[|memmap| - 1])
  }

  /** Page frame `f` lies in the region from `base` of `length` bytes. */
  predicate InRegion(e: MmapEntry, f: nat) {
    e.base <= 0x1000 * f && 0x1000 * f + 0x1000 <= e.base + e.length
  }

  /** The frames that the loops go through are those of the regions of type 1. */
  lemma {:induction false} UsableIff(memmap: seq<MmapEntry>, f: nat)
    requires forall e :: e in memmap && e.kind == 1 ==> e.base % 0x1000 == 0 && e.length % 0x1000 == 0
    ensures f in UsableFrames(memmap) <==> exists e :: e in memmap && e.kind == 1 && InRegion(e, f)
    decreases |memmap|
  {
    if memmap != [] {
      var n := |memmap| - 1;
      assert memmap == memmap[..n] + [memmap[n]];
      UsableIff(memmap[..n], f);
      FramesIff(memmap[n], f);
    }
  }

  lemma FramesIff(e: MmapEntry, f: nat)
    requires e.kind == 1 ==> e.base % 0x1000 == 0 && e.length % 0x1000 == 0
    ensures f in FramesOf(e) <==> e.kind == 1 && InRegion(e, f)
  {
    if e.kind == 1 && InRegion(e, f) {
      assert FramesOf(e)[f - e.base / PAGE] == f;
    }
  }

  /** What the bootloader promises: whole pages of real memory, disjoint, not page 0, holding no table. */
  ghost predicate MapIsSound(memmap: seq<MmapEntry>, n: nat, o: Own) {
    && (forall e :: e in memmap && e.kind == 1 ==> e.base % PAGE == 0 && e.length % PAGE == 0)
    && NoRepeat(UsableFrames(memmap))
    && (forall f :: f in UsableFrames(memmap) ==> 0 < f < n && f !in o.role)
  }

  /** An empty level-4 table in frame `f`, and no free page. */
  function EmptySpace(f: nat): Own {
    Own([], map[ROOT := f], map[], map[f := Table(ROOT)])
  }

  /** Memory with one empty level-4 table satisfies every invariant, whatever else is in it: this is a state
      from which mem_init can start. */
  lemma EmptySpaceOk(w: seq<Frame>, hhdm: nat, f: nat)
    requires 0 < f < |w| <= MAXFRAMES && 0 < hhdm && hhdm + PAGE * |w| <= TWO64 && w[f] == ZeroFrame()
    ensures Inv(w, hhdm, 0, EmptySpace(f)) && UserSpaceOk(w, EmptySpace(f))
    ensures forall v :: 0 <= v < PAGES ==> Growth.NoHuge(w, EmptySpace(f), v) && Walk(w, 4, f, v) == None
  {
    hide Decode;
    var o := EmptySpace(f);
    forall j | 0 <= j < 512
      ensures SlotOk(w, o, ROOT, j) && OpenSlot(w, o, ROOT, j) && !EntryAt(w, f, j).present
    {
      ZeroIsAbsent(j);
    }
    assert TreeOk(w, o);
    assert RolesOk(|w|, o);
  }

  /** A page enters the allocator's care. */
  function WithFree(o: Own, f: nat): Own {
    Own([f] + o.free, o.tables, o.leaves, o.role[f := Free])
  }

  function Pushed(o: Own, fs: seq<nat>): Own {
    if fs == [] then o else WithFree(Pushed(o, fs[..|fs| - 1]), fs[|fs| - 1])
  }

  lemma {:induction false} PushedParts(o: Own, fs: seq<nat>)
    ensures var p := Pushed(o, fs);
      && p.tables == o.tables && p.leaves == o.leaves
      && |p.free| == |o.free| + |fs|
      && (forall f :: f in p.free <==> f in fs || f in o.free)
      && (forall f :: f in p.role <==> f in fs || f in o.role)
      && (forall f :: f in p.role ==> p.role[f] == if f in fs then Free else o.role[f])
  {
    if fs != [] {
      PushedParts(o, fs[..|fs| - 1]);
      assert fs == fs[..|fs| - 1] + [fs[|fs| - 1]];
    }
  }

  lemma PushFree(s: Phys, s': Phys, hhdm: nat, f: nat)
    requires Ok(s, hhdm) && f !in s.own.role && 0 < f < |s.m| / PAGE
    requires s'.m == Store(s.m, PAGE * f, s.head) && s'.head == PAGE * f + hhdm
    requires s'.own == WithFree(s.own, f)
    ensures Ok(s', hhdm) && SameWalks(View(s.m), View(s'.m), s.own.tables[ROOT])
    ensures SameBut(s.m, s'.m, {f})
  {
    hide Load, FrameAt, Decode, Walk, TreeOk, RolesOk, ChainOk, SlotOk, SameBut, Store, View;
    assert ROOT in s.own.tables by { RootThere(View(s.m), s.own); }
    var w, w', o, o' := View(s.m), View(s'.m), s.own, s'.own;
    ViewOfStore(s.m, f, 0, s.head);
    StoreInPage(s.m, f, 0, s.head);
    NewFrameIsNoTable(|w|, o, f);
    OutsideTree(w, w', o, o', f);
    PushedRoles(|w|, o, f);
    PushedChain(w, w', hhdm, s.head, o, f);
  }

  lemma PushedRoles(n: nat, o: Own, f: nat)
    requires RolesOk(n, o) && f !in o.role && 0 < f < n
    ensures RolesOk(n, WithFree(o, f))
  {
    forall g | g in WithFree(o, f).role ensures 0 < g < n && RoleOk(WithFree(o, f), g) {
      if g in o.role { assert RoleOk(o, g); }
    }
  }

  lemma PushedChain(w: seq<Frame>, w': seq<Frame>, hhdm: nat, head: word, o: Own, f: nat)
    requires RolesOk(|w|, o) && ChainOk(w, hhdm, head, o.free) && f !in o.role && f < |w|
    requires w' == w[f := w[f][0 := head]]
    ensures ChainOk(w', hhdm, PAGE * f + hhdm, WithFree(o, f).free)
  {
    forall i | 0 <= i < |o.free| ensures w'[o.free[i]] == w[o.free[i]] {
      assert o.free[i] in o.free;
    }
    ChainPushed(w, w', hhdm, head, o.free, f);
  }

  lemma RootThere(w: seq<Frame>, o: Own)
    requires TreeOk(w, o)
    ensures ROOT in o.tables
  {
  }

  lemma NewFrameIsNoTable(n: nat, o: Own, f: nat)
    requires RolesOk(n, o) && f !in o.role
    ensures forall q :: q in o.tables ==> o.tables[q] != f
  {
  }

  lemma NextFrame(memmap: seq<MmapEntry>, n: nat, o: Own, c: nat, k: nat)
    requires MapIsSound(memmap, n, o) && c < |memmap| && memmap[c].kind == 1 && PAGE * k < memmap[c].length
    ensures k < |FramesOf(memmap[c])| && memmap[c].base + PAGE * k == PAGE * FramesOf(memmap[c])[k]
    ensures var seen := UsableFrames(memmap[..c]) + FramesOf(memmap[c])[..k];
      var f := FramesOf(memmap[c])[k];
      f in UsableFrames(memmap) && f !in Pushed(o, seen).role
  {
    var e := memmap[c];
    assert e in memmap;
    var a, b := UsableFrames(memmap[..c]), FramesOf(e);
    var seen := a + b[..k];
    UsablePrefix(memmap, c + 1);
    assert memmap[..c + 1][..c] == memmap[..c];
    assert UsableFrames(memmap[..c + 1]) == a + b;
    assert (a + b)[|a| + k] == b[k];
    assert seen + [b[k]] <= a + b <= UsableFrames(memmap);
    NotSeen(UsableFrames(memmap), seen, b[k]);
    PushedParts(o, seen);
  }

  lemma NotSeen(u: seq<nat>, s: seq<nat>, x: nat)
    requires NoRepeat(u) && s + [x] <= u
    ensures x !in s
  {
    assert u[|s|] == x;
    assert forall i :: 0 <= i < |s| ==> u[i] == s[i];
  }

  lemma {:induction false} UsablePrefix(memmap: seq<MmapEntry>, c: nat)
    requires c <= |memmap|
    ensures UsableFrames(memmap[..c]) <= UsableFrames(memmap)
    decreases |memmap|
  {
    if c == |memmap| {
      assert memmap[..c] == memmap;
    } else {
      UsablePrefix(memmap[..|memmap| - 1], c);
      assert memmap[..|memmap| - 1][..c] == memmap[..c];
    }
  }

  /** The pages `fs` were pushed; the counter counts each of them twice. */
  ghost predicate Booting(s0: Phys, s: Phys, hhdm: nat, fs: seq<nat>) {
    && Ok(s0, hhdm) && Ok(s, hhdm) && s.own == Pushed(s0.own, fs) && |s.m| == |s0.m|
    && ROOT in s0.own.tables && ROOT in s.own.tables && s.own.tables[ROOT] == s0.own.tables[ROOT]
    && SameWalks(View(s0.m), View(s.m), s0.own.tables[ROOT])
    && s.count == 2 * |fs|
  }

  lemma BootStart(s: Phys, hhdm: nat)
    requires Ok(s, hhdm) && s.count == 0
    ensures Booting(s, s, hhdm, [])
  {
  }

  lemma EntryStart(memmap: seq<MmapEntry>, c: nat)
    requires c < |memmap|
    ensures UsableFrames(memmap[..c]) + FramesOf(memmap[c])[..0] == UsableFrames(memmap[..c])
    ensures UsableFrames(memmap[..c + 1]) == UsableFrames(memmap[..c]) + FramesOf(memmap[c])
  {
    assert memmap[..c + 1][..c] == memmap[..c];
  }

  lemma EntryEnd(memmap: seq<MmapEntry>, n: nat, o: Own, c: nat, k: nat)
    requires MapIsSound(memmap, n, o) && c < |memmap| && memmap[c].kind == 1
    requires PAGE * k >= memmap[c].length && k <= |FramesOf(memmap[c])|
    ensures FramesOf(memmap[c])[..k] == FramesOf(memmap[c])
  {
    assert memmap[c] in memmap;
  }

  lemma BootStep(s0: Phys, s: Phys, s1: Phys, hhdm: nat, memmap: seq<MmapEntry>, c: nat, k: nat)
    requires MapIsSound(memmap, |s0.m| / PAGE, s0.own) && c < |memmap| && memmap[c].kind == 1
    requires PAGE * k < memmap[c].length && k < |FramesOf(memmap[c])|
    requires var f := FramesOf(memmap[c])[k];
      && Booting(s0, s, hhdm, UsableFrames(memmap[..c]) + FramesOf(memmap[c])[..k])
      && f < |s.m| / PAGE && s1.m == Store(s.m, PAGE * f, s.head) && s1.head == PAGE * f + hhdm
      && s1.count == s.count + 2
    ensures var f := FramesOf(memmap[c])[k];
      Booting(s0, s1.(own := WithFree(s.own, f)), hhdm, UsableFrames(memmap[..c]) + FramesOf(memmap[c])[..k + 1])
  {
    hide Load, FrameAt, Store, TreeOk, RolesOk, ChainOk, MapIsSound, SameWalks, UsableFrames;
    var f, before := FramesOf(memmap[c])[k], UsableFrames(memmap[..c]) + FramesOf(memmap[c])[..k];
    var after := UsableFrames(memmap[..c]) + FramesOf(memmap[c])[..k + 1];
    NextFrame(memmap, |s0.m| / PAGE, s0.own, c, k);
    SoundFrame(memmap, |s0.m| / PAGE, s0.own, f);
    PushFree(s, s1.(own := WithFree(s.own, f)), hhdm, f);
    assert after[..|after| - 1] == before && after[|after| - 1] == f;
    SameWalksChain(View(s0.m), View(s.m), View(s1.m), s0.own.tables[ROOT]);
  }

  lemma SoundFrames(memmap: seq<MmapEntry>, n: nat, o: Own)
    requires MapIsSound(memmap, n, o)
    ensures forall f :: f in UsableFrames(memmap) ==> f !in o.role
  {
  }

  lemma NoFrames()
    ensures UsableFrames([]) == []
  {
  }

  lemma NotUsable(e: MmapEntry)
    requires e.kind != 1
    ensures FramesOf(e) == []
  {
  }

  lemma InRange(s: Phys, hhdm: nat)
    requires Ok(s, hhdm)
    ensures 0 < hhdm && hhdm + |s.m| <= TWO64 && |s.m| / PAGE <= MAXFRAMES && s.head < TWO64 && ROOT in s.own.tables
  {
  }

  lemma SoundFrame(memmap: seq<MmapEntry>, n: nat, o: Own, f: nat)
    requires MapIsSound(memmap, n, o) && f in UsableFrames(memmap)
    ensures 0 < f < n && f !in o.role
  {
  }

  lemma SameWalksChain(w: seq<Frame>, w1: seq<Frame>, w2: seq<Frame>, root: nat)
    requires SameWalks(w, w1, root) && SameWalks(w1, w2, root)
    ensures SameWalks(w, w2, root)
  {
    forall u | 0 <= u < PAGES ensures Walk(w2, 4, root, u) == Walk(w, 4, root, u) {
      assert Walk(w1, 4, root, u) == Walk(w, 4, root, u);
    }
  }

  /** After the teardown: which pages are free, and that the tables given back were the boot loader's. */
  lemma BootResult(n: nat, o0: Own, fs: seq<nat>, freed: seq<nat>)
    requires o0.free == [] && (forall f :: f in fs ==> f !in o0.role)
    requires ListsLowerTables(Pushed(o0, fs), freed)
    ensures ListsLowerTables(o0, freed) && |Pushed(o0, fs).free| == |fs|
    ensures var o := TornDown(Pushed(o0, fs), freed);
      && (forall f :: f in o.free <==> f in fs || f in freed)
      && |o.free| == |fs| + |freed|
  {
    PushedParts(o0, fs);
    var p := Pushed(o0, fs);
    forall f ensures f in freed <==> f in o0.role && o0.role[f].Table? && IsLower(o0.role[f].path) {
      assert f in freed <==> f in p.role && p.role[f].Table? && IsLower(p.role[f].path);
    }
  }

  lemma LowerGoneFrom(w0: seq<Frame>, w: seq<Frame>, w': seq<Frame>, root: nat)
    requires SameWalks(w0, w, root) && LowerGone(w, w', root)
    ensures LowerGone(w0, w', root)
  {
    forall v | 0 <= v < PAGES ensures Walk(w', 4, root, v) == if v < LOWERPAGES then None else Walk(w0, 4, root, v) {
      assert Walk(w, 4, root, v) == Walk(w0, 4, root, v);
    }
  }
}
