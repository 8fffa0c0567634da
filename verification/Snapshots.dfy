/** The steps of vm_map, on snapshots of the allocator and page-table state. */
module Snapshots {
  import opened Words
  import opened Memory
  import opened Entry
  import opened Tables
  import opened Edits
  import opened UserSpace
  import opened Growth

  /** Physical memory, free-list head, free-page counter and ownership. */
  datatype Phys = Phys(m: seq<byte>, head: nat, count: int, own: Own)

  ghost predicate Ok(s: Phys, hhdm: nat) {
    && 0 < hhdm && hhdm + |s.m| <= TWO64
    && s.head < TWO64
    && Inv(View(s.m), hhdm, s.head, s.own)
  }

  /** Pages outside `ps` keep every byte. */
  ghost predicate SameBut(m: seq<byte>, m': seq<byte>, ps: set<nat>) {
    && |m'| == |m|
    && forall f :: 0 <= f < |m| / PAGE && f !in ps ==> PageBytes(m', f) == PageBytes(m, f)
  }

  lemma StoreInPage(m: seq<byte>, f: nat, i: nat, v: word)
    requires f < |m| / PAGE && i < 512
    ensures SameBut(m, Store(m, Slot(f, i), v), {f})
  {
    OtherFramesSame(m, Store(m, Slot(f, i), v), f);
  }

  lemma SameButChain(m: seq<byte>, m1: seq<byte>, m2: seq<byte>, ps: set<nat>, qs: set<nat>)
    requires SameBut(m, m1, ps) && SameBut(m1, m2, qs)
    ensures SameBut(m, m2, ps + qs)
  {
    forall f | 0 <= f < |m| / PAGE && f !in ps + qs ensures PageBytes(m2, f) == PageBytes(m, f) {
      assert PageBytes(m1, f) == PageBytes(m, f);
    }
  }

  predicate IsData(o: Own, f: nat) {
    f !in o.role || o.role[f].Leaf? || o.role[f].Leaked?
  }

  /** Pages that hold neither a table nor a free-list node keep every byte. */
  ghost predicate KeepsData(m: seq<byte>, m': seq<byte>, o: Own) {
    && |m'| == |m|
    && forall f :: 0 <= f < |m| / PAGE && IsData(o, f) ==> PageBytes(m', f) == PageBytes(m, f)
  }

  /** What an operation on page `v` keeps: the invariant, the counter's distance from the list length, the
      translations of all other pages, and a lower half built by these routines only. */
  ghost predicate Kept(s0: Phys, s: Phys, hhdm: nat, v: nat) {
    && Ok(s0, hhdm) && Ok(s, hhdm) && v < PAGES
    && s.count - |s.own.free| == s0.count - |s0.own.free|
    && s.own.tables[ROOT] == s0.own.tables[ROOT]
    && SameWalksBut(View(s0.m), View(s.m), s.own.tables[ROOT], v)
    && (UserSpaceOk(View(s0.m), s0.own) ==> UserSpaceOk(View(s.m), s.own))
  }

  /** All that, and the contents of every data page. */
  ghost predicate Safe(s0: Phys, s: Phys, hhdm: nat, v: nat) {
    Kept(s0, s, hhdm, v) && KeepsData(s0.m, s.m, s0.own)
  }

  /** vm_map for page `v` has reached level `k`. */
  ghost predicate Reached(s0: Phys, s: Phys, hhdm: nat, v: nat, k: nat) {
    && 1 <= k <= 4 && Safe(s0, s, hhdm, v)
    && SameWalks(View(s0.m), View(s.m), s.own.tables[ROOT])
    && s.own == Grown(s0.own, v, k) && On(k, v) in s.own.tables
    && NoHuge(View(s.m), s.own, v)
  }

  /** The entry that level `k` of the walk for `v` reads. */
  ghost function Next(s: Phys, v: nat, k: nat): Entry
    requires k >= 1 && On(k, v) in s.own.tables && s.own.tables[On(k, v)] < |s.m| / PAGE
  {
    EntryAt(View(s.m), s.own.tables[On(k, v)], Index(k, v))
  }

  lemma FreeInRange(s: Phys, hhdm: nat)
    requires Ok(s, hhdm)
    ensures forall f :: f in s.own.free ==> f < |s.m| / PAGE && f < MAXFRAMES
  {
    assert forall f :: f in s.own.free ==> f in s.own.role;
  }

  lemma Start(s: Phys, hhdm: nat, v: nat)
    requires Ok(s, hhdm) && v < PAGES && NoHuge(View(s.m), s.own, v)
    ensures Reached(s, s, hhdm, v, 4)
  {
    OnRoot(v);
  }

  lemma TableThere(s0: Phys, s: Phys, hhdm: nat, v: nat, k: nat)
    requires Reached(s0, s, hhdm, v, k)
    ensures s.own.tables[On(k, v)] < |s.m| / PAGE
    ensures k >= 2 ==> !Next(s, v, k).pageSize
  {
    assert PlaceOk(|s.m| / PAGE, s.own, On(k, v));
  }

  lemma Descend(s0: Phys, s: Phys, hhdm: nat, v: nat, k: nat)
    requires Reached(s0, s, hhdm, v, k) && 2 <= k && s.own.tables[On(k, v)] < |s.m| / PAGE
    requires Next(s, v, k).present
    ensures Reached(s0, s, hhdm, v, k - 1) && Next(s, v, k).address == s.own.tables[On(k - 1, v)]
  {
    hide Decode, Load, FrameAt, SameWalks, SameWalksBut, KeepsData, UserSpaceOk, ChainOk, RolesOk;
    var w := View(s.m);
    assert SlotOk(w, s.own, On(k, v), Index(k, v));
    ChildOn(k, v);
    GrownTables(s0.own, v, k);
    assert On(k - 1, v) in s0.own.tables;
    GrownBelow(View(s0.m), s0.own, v, k - 1);
  }

  /** A table that was there from the start has all tables above it. */
  lemma {:induction false} GrownBelow(w: seq<Frame>, o: Own, v: nat, k: nat)
    requires TreeOk(w, o) && v < PAGES && 1 <= k <= 3 && On(k, v) in o.tables
    ensures Grown(o, v, k) == o && Grown(o, v, k + 1) == o
  {
    ChildOn(k + 1, v);
    assert PlaceOk(|w|, o, On(k, v));
    OnRoot(v);
  }

  lemma AlreadyMapped(s0: Phys, s: Phys, hhdm: nat, v: nat, user: bool, writable: bool, executable: bool)
    requires Reached(s0, s, hhdm, v, 1) && s.own.tables[On(1, v)] < |s.m| / PAGE && Next(s, v, 1).present
    ensures MapPage(s0.own, v, user, writable, executable) == (false, s.own)
  {
    ChildOn(1, v);
    assert SlotOk(View(s.m), s.own, On(1, v), Index(1, v));
    GrownFree(s0.own, v, 1);
    assert On(1, v) in s0.own.tables;
  }

  lemma OutOfMemory(s0: Phys, s: Phys, hhdm: nat, v: nat, k: nat, user: bool, writable: bool, executable: bool)
    requires Reached(s0, s, hhdm, v, k) && s.own.tables[On(k, v)] < |s.m| / PAGE
    requires !Next(s, v, k).present && s.own.free == []
    ensures MapPage(s0.own, v, user, writable, executable) == (false, s.own)
  {
    NothingThere(s, hhdm, v, k);
    GrownFree(s0.own, v, k);
    if k > 1 {
      GrownTables(s0.own, v, k);
      GrownStuck(View(s.m), s0.own, s.own, v, k, 1);
    }
  }

  lemma NothingThere(s: Phys, hhdm: nat, v: nat, k: nat)
    requires Ok(s, hhdm) && 1 <= k <= 4 && On(k, v) in s.own.tables
    requires s.own.tables[On(k, v)] < |s.m| / PAGE && !Next(s, v, k).present
    ensures v !in s.own.leaves && (k > 1 ==> On(k - 1, v) !in s.own.tables)
  {
    ChildOn(k, v);
    assert SlotOk(View(s.m), s.own, On(k, v), Index(k, v));
    if k > 1 {
      NotMappedBelow(View(s.m), s.own, k - 1, v);
    }
  }

  lemma {:induction false} GrownStuck(w: seq<Frame>, o: Own, p: Own, v: nat, k: nat, l: nat)
    requires TreeOk(w, p) && 1 <= l < k <= 4
    requires p == Grown(o, v, k) && p.free == [] && On(k - 1, v) !in p.tables
    requires forall q :: q in o.tables ==> q in p.tables
    ensures Grown(o, v, l) == p && On(l, v) !in p.tables
    decreases k - l
  {
    hide TreeOk, On;
    if l + 1 < k {
      GrownStuck(w, o, p, v, k, l + 1);
      MissingAbove(w, p, l, v);
    }
  }

  /** The free frame at the head was zeroed and linked, by entry `e`, below level `k` on the way to `v`. */
  ghost predicate Linked(s: Phys, s': Phys, hhdm: nat, v: nat, k: nat, e: Entry) {
    && Ok(s, hhdm) && v < PAGES && 1 <= k <= 4 && On(k, v) in s.own.tables
    && s.own.free != [] && s.own.free[0] < |s.m| / PAGE
    && s.own.tables[On(k, v)] < |s.m| / PAGE && !Next(s, v, k).present
    && e.present && e.address == s.own.free[0] && e.pageSize == Next(s, v, k).pageSize
    && SameBut(s.m, s'.m, {s.own.free[0], s.own.tables[On(k, v)]})
    && View(s'.m) == PutEntry(View(s.m)[s.own.free[0] := ZeroFrame()], s.own.tables[On(k, v)], Index(k, v), e)
    && s'.head == Ptr(hhdm, s.own.free, 1) && s'.count == s.count - 1
  }

  /** The free frame was zeroed, leaving memory `m1`, and is about to be linked. */
  ghost predicate Zeroed(s: Phys, m1: seq<byte>, hhdm: nat, v: nat, k: nat) {
    && Ok(s, hhdm) && v < PAGES && 1 <= k <= 4 && On(k, v) in s.own.tables
    && s.own.free != [] && s.own.free[0] < |s.m| / PAGE && s.own.free[0] < MAXFRAMES
    && s.own.tables[On(k, v)] < |s.m| / PAGE && !Next(s, v, k).present
    && SameBut(s.m, m1, {s.own.free[0]}) && View(m1) == View(s.m)[s.own.free[0] := ZeroFrame()]
  }

  lemma ZeroedEntry(s: Phys, m1: seq<byte>, hhdm: nat, v: nat, k: nat)
    requires Zeroed(s, m1, hhdm, v, k)
    ensures s.own.free[0] != s.own.tables[On(k, v)]
    ensures |m1| == |s.m| && EntryAt(View(m1), s.own.tables[On(k, v)], Index(k, v)) == Next(s, v, k)
  {
    assert s.own.free[0] in s.own.free;
  }

  /** Writing the entry after that links the frame. */
  lemma LinkedByStores(s: Phys, s': Phys, m1: seq<byte>, hhdm: nat, v: nat, k: nat, e: Entry)
    requires Zeroed(s, m1, hhdm, v, k)
    requires SameBut(m1, s'.m, {s.own.tables[On(k, v)]})
    requires View(s'.m) == PutEntry(View(m1), s.own.tables[On(k, v)], Index(k, v), e)
    requires e.present && e.address == s.own.free[0] && e.pageSize == Next(s, v, k).pageSize
    requires s'.head == Ptr(hhdm, s.own.free, 1) && s'.count == s.count - 1
    ensures Linked(s, s', hhdm, v, k, e)
  {
    SameButChain(s.m, m1, s'.m, {s.own.free[0]}, {s.own.tables[On(k, v)]});
    assert {s.own.free[0]} + {s.own.tables[On(k, v)]} == {s.own.free[0], s.own.tables[On(k, v)]};
  }

  lemma LinkedIsLinking(s: Phys, s': Phys, hhdm: nat, v: nat, k: nat, e: Entry)
    requires Linked(s, s', hhdm, v, k, e)
    ensures Edited(View(s.m), View(s'.m), s.own.tables[On(k, v)], Index(k, v), e, {s.own.free[0]})
    ensures View(s'.m)[s.own.free[0]] == ZeroFrame()
    ensures k >= 2 ==> Linking(View(s.m), View(s'.m), s.own, On(k, v), Index(k, v), e)
  {
    assert s.own.free[0] in s.own.free;
    PutEntryEdits(View(s.m), s.own.tables[On(k, v)], Index(k, v), e, s.own.free[0], ZeroFrame());
  }

  lemma LinkedOk(s: Phys, s': Phys, hhdm: nat, v: nat, k: nat, e: Entry)
    requires Linked(s, s', hhdm, v, k, e) && k >= 2 && !e.pageSize && NoHuge(View(s.m), s.own, v)
    requires s'.own == WithTable(s.own, On(k - 1, v))
    ensures Ok(s', hhdm) && SameWalks(View(s.m), View(s'.m), s.own.tables[ROOT])
    ensures NoHuge(View(s'.m), s'.own, v) && s'.own.tables[ROOT] == s.own.tables[ROOT]
    ensures OpenEntry(e) && UserSpaceOk(View(s.m), s.own) ==> UserSpaceOk(View(s'.m), s'.own)
  {
    var w, w', q, j := View(s.m), View(s'.m), On(k, v), Index(k, v);
    LinkedIsLinking(s, s', hhdm, v, k, e);
    ChildOn(k, v);
    assert SlotOk(w, s.own, q, j);
    LinkTable(w, w', hhdm, s.head, s.own, q, j, e);
    LinkNoHuge(w, w', s.own, v, k, e);
    if OpenEntry(e) && UserSpaceOk(w, s.own) {
      LinkTableUser(w, w', s.own, q, j, e);
    }
  }

  lemma WalksChain(w: seq<Frame>, w1: seq<Frame>, w2: seq<Frame>, root: nat, v: nat)
    requires SameWalks(w, w1, root) && SameWalksBut(w1, w2, root, v)
    ensures SameWalksBut(w, w2, root, v)
    ensures SameWalks(w1, w2, root) ==> SameWalks(w, w2, root)
  {
    forall u | 0 <= u < PAGES && (u != v || SameWalks(w1, w2, root)) ensures Walk(w2, 4, root, u) == Walk(w, 4,
          root, u) {
      assert Walk(w1, 4, root, u) == Walk(w, 4, root, u);
    }
  }

  /** The frame at the head of the free list became the missing table of level `k - 1`. */
  lemma LinkStep(s0: Phys, s: Phys, s1: Phys, hhdm: nat, v: nat, k: nat, e: Entry)
    requires Reached(s0, s, hhdm, v, k) && 2 <= k
    requires Linked(s, s1, hhdm, v, k, e) && OpenEntry(e)
    ensures Reached(s0, s1.(own := WithTable(s.own, On(k - 1, v))), hhdm, v, k - 1)
  {
    var s' := s1.(own := WithTable(s.own, On(k - 1, v)));
    LinkedOk(s, s', hhdm, v, k, e);
    WalksChain(View(s0.m), View(s.m), View(s'.m), s.own.tables[ROOT], v);
    LinkKeepsData(s0, s, s', hhdm, v, k);
    LinkGrows(s0, s, s', hhdm, v, k, e);
  }

  lemma LinkGrows(s0: Phys, s: Phys, s': Phys, hhdm: nat, v: nat, k: nat, e: Entry)
    requires Reached(s0, s, hhdm, v, k) && 2 <= k
    requires Linked(s, s', hhdm, v, k, e) && !e.pageSize
    requires s'.own == WithTable(s.own, On(k - 1, v))
    ensures s'.own == Grown(s0.own, v, k - 1)
  {
    GrownTables(s0.own, v, k);
    ChildOn(k, v);
    assert SlotOk(View(s.m), s.own, On(k, v), Index(k, v));
    assert NoHuge(View(s.m), s.own, v);
    assert On(k - 1, v) !in s.own.tables;
  }

  lemma LinkKeepsData(s0: Phys, s: Phys, s': Phys, hhdm: nat, v: nat, k: nat)
    requires Reached(s0, s, hhdm, v, k) && s.own.free != []
    requires SameBut(s.m, s'.m, {s.own.free[0], s.own.tables[On(k, v)]})
    ensures KeepsData(s0.m, s'.m, s0.own)
  {
    hide TreeOk, ChainOk, Grown, NoHuge, SameWalks, SameWalksBut, UserSpaceOk, PageBytes, FrameAt;
    forall f | 0 <= f < |s0.m| / PAGE && IsData(s0.own, f) ensures PageBytes(s'.m, f) == PageBytes(s0.m, f) {
      DataIsApart(|s.m| / PAGE, s0.own, s.own, v, k, f);
      assert PageBytes(s.m, f) == PageBytes(s0.m, f);
    }
  }

  /** A data page is neither the next free frame nor a table. */
  lemma DataIsApart(n: nat, o0: Own, o: Own, v: nat, k: nat, f: nat)
    requires RolesOk(n, o0) && RolesOk(n, o) && o == Grown(o0, v, k) && IsData(o0, f)
    requires On(k, v) in o.tables && o.free != []
    ensures f != o.free[0] && f != o.tables[On(k, v)]
  {
    GrownRoles(o0, v, k);
    assert o.free[0] in o.free;
    assert o.role[o.tables[On(k, v)]] == Table(On(k, v));
  }

  lemma LinkNoHuge(w: seq<Frame>, w': seq<Frame>, o: Own, v: nat, k: nat, e: Entry)
    requires 2 <= k <= 4 && On(k, v) in o.tables && Linking(w, w', o, On(k, v), Index(k, v), e) && !e.pageSize
    requires NoHuge(w, o, v) && TreeOk(w', WithTable(o, On(k - 1, v)))
    ensures NoHuge(w', WithTable(o, On(k - 1, v)), v)
  {
    var o' := WithTable(o, On(k - 1, v));
    forall l | 2 <= l <= 4 && On(l, v) in o'.tables
      ensures PlaceOk(|w'|, o', On(l, v)) && !EntryAt(w', o'.tables[On(l, v)], Index(l, v)).pageSize
    {
      if l == k - 1 {
        ZeroIsAbsent(Index(l, v));
      } else {
        assert PlaceOk(|w|, o, On(l, v));
        if l != k {
          EditedElsewhere(w, w', o, On(k, v), Index(k, v), e, {o.free[0]}, On(l, v), Index(l, v));
        }
      }
    }
  }

  lemma NextHead(s: Phys, hhdm: nat)
    requires Ok(s, hhdm)
    ensures Ptr(hhdm, s.own.free, 1) < TWO64
  {
    if 1 < |s.own.free| { assert s.own.free[1] < |View(s.m)|; }
  }

  lemma LeafLinkedEdit(s: Phys, s': Phys, hhdm: nat, v: nat, e: Entry)
    requires Linked(s, s', hhdm, v, 1, e)
    ensures v !in s.own.leaves && ROOT in s.own.tables && RolesOk(|View(s.m)|, s.own)
    ensures LeafEdit(View(s.m), View(s'.m), s.own, WithLeaf(s.own, v, LeafOf(e)), v, e, {s.own.free[0]})
  {
    hide Load, FrameAt, Decode, Encode, Walk, PutEntry, SameBut;
    LinkedIsLinking(s, s', hhdm, v, 1, e);
    ChildOn(1, v);
    assert SlotOk(View(s.m), s.own, On(1, v), Index(1, v));
    assert s.own.free[0] in s.own.free;
  }

  lemma LeafLinkedOk(s: Phys, s': Phys, hhdm: nat, v: nat, e: Entry)
    requires Linked(s, s', hhdm, v, 1, e)
    requires s'.own == WithLeaf(s.own, v, LeafOf(e))
    ensures v !in s.own.leaves
    ensures Ok(s', hhdm) && SameWalksBut(View(s.m), View(s'.m), s.own.tables[ROOT], v)
    ensures s'.own.tables == s.own.tables
    ensures UserSpaceOk(View(s.m), s.own) ==> UserSpaceOk(View(s'.m), s'.own)
  {
    hide Load, FrameAt, Walk, LeafEdit, RolesOk, ChainOk, TreeOk, PutEntry, UserSpaceOk, Ptr;
    NextHead(s, hhdm);
    LeafLinkedEdit(s, s', hhdm, v, e);
    LinkLeaf(View(s.m), View(s'.m), hhdm, s.head, s.own, v, e);
    if UserSpaceOk(View(s.m), s.own) {
      LeafLinkedUser(View(s.m), View(s'.m), s.own, v, e);
    }
  }

  lemma LeafLinkedUser(w: seq<Frame>, w': seq<Frame>, o: Own, v: nat, e: Entry)
    requires o.free != [] && e.address == o.free[0] && RolesOk(|w|, o)
    requires LeafEdit(w, w', o, WithLeaf(o, v, LeafOf(e)), v, e, {o.free[0]})
    requires UserSpaceOk(w, o) && TreeOk(w', WithLeaf(o, v, LeafOf(e)))
    ensures UserSpaceOk(w', WithLeaf(o, v, LeafOf(e)))
  {
    hide Decode, SlotOk, Edited;
    NewLeafOwned(|w|, o, v, LeafOf(e));
    LeafEditUser(w, w', o, WithLeaf(o, v, LeafOf(e)), v, e, {o.free[0]});
  }

  lemma NewLeafOwned(n: nat, o: Own, v: nat, m: Mapping)
    requires RolesOk(n, o) && o.free != [] && m.frame == o.free[0]
    requires forall u :: u in o.leaves && u < LOWERPAGES ==> OwnFrame(o, u)
    ensures var o' := WithLeaf(o, v, m); forall u :: u in o'.leaves && u < LOWERPAGES ==> OwnFrame(o', u)
  {
    assert o.free[0] in o.free;
    var o' := WithLeaf(o, v, m);
    forall u | u in o'.leaves && u < LOWERPAGES ensures OwnFrame(o', u) {
      if u != v { assert OwnFrame(o, u); }
    }
  }

  /** The frame at the head of the free list became the frame of page `v`. */
  lemma LeafStep(s0: Phys, s: Phys, s1: Phys, hhdm: nat, v: nat, e: Entry)
    requires Reached(s0, s, hhdm, v, 1) && Linked(s, s1, hhdm, v, 1, e)
    ensures Safe(s0, s1.(own := WithLeaf(s.own, v, LeafOf(e))), hhdm, v)
    ensures MapPage(s0.own, v, e.user, e.writable, !e.noExecute) == (true, WithLeaf(s.own, v, LeafOf(e)))
  {
    var s' := s1.(own := WithLeaf(s.own, v, LeafOf(e)));
    LeafLinkedOk(s, s', hhdm, v, e);
    WalksChain(View(s0.m), View(s.m), View(s'.m), s.own.tables[ROOT], v);
    GrownFree(s0.own, v, 1);
    LinkKeepsData(s0, s, s', hhdm, v, 1);
  }

  /** A present level-1 entry on the way to `v` is the mapping of `v`. */
  lemma PresentLeaf(s: Phys, hhdm: nat, v: nat)
    requires Ok(s, hhdm) && On(1, v) in s.own.tables && s.own.tables[On(1, v)] < |s.m| / PAGE
    requires Next(s, v, 1).present
    ensures v in s.own.leaves && LeafOf(Next(s, v, 1)) == s.own.leaves[v]
  {
    ChildOn(1, v);
    assert SlotOk(View(s.m), s.own, On(1, v), Index(1, v));
  }

  lemma OwnedInRange(s: Phys, hhdm: nat, v: nat)
    requires Ok(s, hhdm) && v in s.own.leaves && OwnFrame(s.own, v)
    ensures 0 < s.own.leaves[v].frame < |s.m| / PAGE
  {
  }

  /** The entry of the mapped page `v` was rewritten to `e`, giving memory `m'`. */
  ghost predicate Rewritten(s: Phys, m': seq<byte>, hhdm: nat, v: nat, e: Entry) {
    && Ok(s, hhdm) && v < PAGES && v in s.own.leaves && On(1, v) in s.own.tables
    && s.own.tables[On(1, v)] < |s.m| / PAGE
    && SameBut(s.m, m', {s.own.tables[On(1, v)]})
    && View(m') == PutEntry(View(s.m), s.own.tables[On(1, v)], Index(1, v), e)
  }

  lemma RewrittenEdit(s: Phys, m': seq<byte>, hhdm: nat, v: nat, e: Entry)
    requires Rewritten(s, m', hhdm, v, e) && e.present
    ensures LeafEdit(View(s.m), View(m'), s.own, WithRights(s.own, v, LeafOf(e)), v, e, {})
    ensures Ok(s, hhdm) && ROOT in s.own.tables
  {
    hide Load, FrameAt, Decode, Encode, Walk, SlotOk, PlaceOk;
    PutEntryAt(View(s.m), s.own.tables[On(1, v)], Index(1, v), e);
  }

  lemma RightsStep(s: Phys, m': seq<byte>, hhdm: nat, v: nat, e: Entry)
    requires Rewritten(s, m', hhdm, v, e) && e.present && e.address == s.own.leaves[v].frame
    ensures Safe(s, s.(m := m', own := WithRights(s.own, v, LeafOf(e))), hhdm, v)
    ensures Ok(s.(m := m', own := WithRights(s.own, v, LeafOf(e))), hhdm)
  {
    hide Load, FrameAt, Walk, TreeOk, RolesOk, ChainOk, KeepsData, LeafEdit, PutEntry, View, UserSpaceOk;
    var w, w', o, o' := View(s.m), View(m'), s.own, WithRights(s.own, v, LeafOf(e));
    RewrittenEdit(s, m', hhdm, v, e);
    ChangeRights(w, w', hhdm, s.head, o, v, e);
    RewriteKeepsData(s, m', hhdm, v, e);
    if UserSpaceOk(w, o) {
      RightsUser(w, w', o, v, e);
    }
  }

  lemma RightsUser(w: seq<Frame>, w': seq<Frame>, o: Own, v: nat, e: Entry)
    requires v in o.leaves && LeafEdit(w, w', o, WithRights(o, v, LeafOf(e)), v, e, {}) && e.present
    requires e.address == o.leaves[v].frame && UserSpaceOk(w, o) && TreeOk(w', WithRights(o, v, LeafOf(e)))
    ensures UserSpaceOk(w', WithRights(o, v, LeafOf(e)))
  {
    hide Decode, SlotOk, Edited;
    RightsOwned(o, v, LeafOf(e));
    LeafEditUser(w, w', o, WithRights(o, v, LeafOf(e)), v, e, {});
  }

  lemma RightsOwned(o: Own, v: nat, m: Mapping)
    requires v in o.leaves && m.frame == o.leaves[v].frame
    requires forall u :: u in o.leaves && u < LOWERPAGES ==> OwnFrame(o, u)
    ensures var o' := WithRights(o, v, m); forall u :: u in o'.leaves && u < LOWERPAGES ==> OwnFrame(o', u)
  {
    var o' := WithRights(o, v, m);
    forall u | u in o'.leaves && u < LOWERPAGES ensures OwnFrame(o', u) {
      assert OwnFrame(o, u);
    }
  }

  lemma RewriteKeepsData(s: Phys, m': seq<byte>, hhdm: nat, v: nat, e: Entry)
    requires Rewritten(s, m', hhdm, v, e)
    ensures KeepsData(s.m, m', s.own)
  {
    assert s.own.role[s.own.tables[On(1, v)]] == Table(On(1, v));
  }
}
