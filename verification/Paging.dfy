/** kernel/page.c: the physical page allocator and the routines that edit the page tables, on the bytes of
    physical memory. Each is proved against the ownership state `own`. */
module Paging {
  import opened Options
  import opened Arithmetic
  import opened Memory
  import opened Words
  import opened Entry
  import opened Tables
  import opened Edits
  import opened UserSpace
  import opened Growth
  import opened Snapshots
  import opened Unmapping
  import opened Teardown
  import opened Boot
  import opened Windows
  import opened MapStores
  import opened MapLoop
  import opened Hardware

  lemma Appended(s: seq<seq<Frame>>, v1: seq<Frame>, v2: seq<Frame>, v3: seq<Frame>, v4: seq<Frame>, v5: seq<Frame>)
    ensures s + [v1] + [v2] + [v3] + [v4] + [v5] == s + [v1, v2, v3, v4, v5]
  {
  }

  class Kernel {
    const mem: array<byte>
    var hhdmBase: nat
    var freelist: nat
    var freePageCounter: int
    var cr3: nat
    ghost var own: Own
    ghost var seen: seq<seq<Frame>> // memory after each store, as the page walker could have read it

    ghost function Frames(): (w: seq<Frame>)
      reads mem
    {
      View(mem[..])
    }

    /** The memory that direct-map pointers reach. */
    ghost predicate MapOk()
      reads this
    {
      0 < hhdmBase && hhdmBase + mem.Length <= TWO64 && mem.Length / PAGE <= MAXFRAMES && freelist < TWO64
    }

    ghost predicate Valid()
      reads this, mem
    {
      MapOk() && Ok(Now(), hhdmBase)
    }

    ghost function Now(): Phys
      reads this, mem
    {
      Phys(mem[..], freelist, freePageCounter, own)
    }

    /** Physical address of the level-4 table. */
    ghost function Root(): nat
      reads this
      requires ROOT in own.tables
    {
      PAGE * own.tables[ROOT]
    }

    function PtoV(paddr: nat): nat
      reads this
    {
      paddr + hhdmBase
    }

    /** A table pointer with its frame: direct-map address of frame `t`. */
    ghost predicate TablePtr(table: nat, t: nat)
      reads this
    {
      table == PAGE * t + hhdmBase && t < mem.Length / PAGE
    }

    /** `table[index]` as read from memory. */
    function At(table: nat, index: nat): Entry
      reads this, mem
      requires hhdmBase <= table && table - hhdmBase + 8 * index + 8 <= mem.Length
    {
      Decode(Load(mem[..], table - hhdmBase + 8 * index))
    }

    lemma AtIsEntry(table: nat, t: nat, index: nat)
      requires TablePtr(table, t) && index < 512
      ensures table - hhdmBase + 8 * index + 8 <= mem.Length
      ensures At(table, index) == EntryAt(Frames(), t, index)
    {
    }

    method StoreWord(p: nat, v: word)
      requires p + 8 <= mem.Length
      modifies mem, this`seen
      ensures mem[..] == Store(old(mem[..]), p, v)
      ensures seen == old(seen) + [Frames()]
    {
      var bytes := ToBytes(v, 8);
      for i := 0 to 8
        invariant mem[..] == old(mem[..p]) + bytes[..i] + old(mem[p + i..]) && seen == old(seen)
      {
        mem[p + i] := bytes[i];
      }
      seen := seen + [Frames()];
    }

    /** Memory is `m0` with entry `index` of the table in frame `t` set to `e`. */
    ghost predicate Amended(m0: seq<byte>, t: nat, index: nat, e: Entry)
      reads mem
    {
      && t < |m0| / PAGE && index < 512
      && SameBut(m0, mem[..], {t})
      && Frames() == PutEntry(View(m0), t, index, e)
    }

    /** One assignment to a field of `table[index]`, the last of several since memory was `m0`. */
    method Amend(table: nat, index: nat, e: Entry, ghost m0: seq<byte>, ghost t: nat)
      requires TablePtr(table, t) && index < 512
      requires Amended(m0, t, index, At(table, index))
      modifies mem, this`seen
      ensures t < |View(m0)| && Amended(m0, t, index, e) && At(table, index) == e
      ensures Frames() == PutEntry(View(m0), t, index, e)
      ensures seen == old(seen) + [Frames()]
    {
      ghost var m1, w0 := mem[..], View(m0);
      AtIsEntry(table, t, index);
      ViewOfStore(m1, t, index, Encode(e));
      StoreInPage(m1, t, index, Encode(e));
      SameButChain(m0, m1, Store(m1, Slot(t, index), Encode(e)), {t}, {t});
      assert {t} + {t} == {t};
      PutEntryTwice(w0, t, index, At(table, index), e);
      PutEntryAt(w0, t, index, e);
      StoreWord(table - hhdmBase + 8 * index, Encode(e));
      AtIsEntry(table, t, index);
    }

    lemma InView(m0: seq<byte>, t: nat, index: nat, e: Entry)
      requires Amended(m0, t, index, e)
      ensures t < |View(m0)|
    {
    }

    /** Reading the entry before the first assignment. */
    lemma AmendStart(table: nat, index: nat, t: nat)
      requires TablePtr(table, t) && index < 512
      ensures At(table, index) == EntryAt(Frames(), t, index)
      ensures Amended(mem[..], t, index, At(table, index))
    {
      AtIsEntry(table, t, index);
      EncodeDecode(Frames()[t][index]);
      assert Frames()[t][index := Frames()[t][index]] == Frames()[t];
    }

    /** Take a page off the free list; 0 means there is none. */
    method PmemAlloc() returns (page: nat)
      requires Valid()
      modifies this`freelist, this`freePageCounter
      ensures MapOk() && (page == 0 <==> own.free == [])
      ensures own.free == [] ==> freelist == old(freelist) && freePageCounter == old(freePageCounter)
      ensures own.free != [] ==>
        && page == PAGE * own.free[0] && own.free[0] < mem.Length / PAGE
        && freelist == Ptr(hhdmBase, own.free, 1)
        && freePageCounter == old(freePageCounter) - 1
    {
      if own.free != [] {
        assert own.free[0] in own.free;
      }
      if freelist == 0 {
        return 0;
      }
      page := freelist - hhdmBase;
      assert Load(mem[..], Slot(own.free[0], 0)) == Frames()[own.free[0]][0];
      freelist := Load(mem[..], freelist - hhdmBase);
      freePageCounter := freePageCounter - 1;
    }

    /** Push the page at `p`: whatever `p` is, its first eight bytes become the link. */
    method PmemFree(p: nat)
      requires MapOk() && p + 8 <= mem.Length
      modifies mem, this`freelist, this`freePageCounter, this`seen
      ensures mem[..] == Store(old(mem[..]), p, old(freelist))
      ensures seen == old(seen) + [Frames()]
      ensures freelist == p + hhdmBase && MapOk()
      ensures freePageCounter == old(freePageCounter) + 1
    {
      var node := p + hhdmBase;
      StoreWord(node - hhdmBase, freelist);
      freelist := node;
      freePageCounter := freePageCounter + 1;
    }

    /** memset of one page to zero. */
    method ZeroPage(page: nat, ghost f: nat)
      requires page == PAGE * f && f < mem.Length / PAGE
      modifies mem, this`seen
      ensures seen == old(seen) + [Frames()]
      ensures Frames() == old(Frames())[f := ZeroFrame()]
      ensures SameBut(old(mem[..]), mem[..], {f})
      ensures PageBytes(mem[..], f) == seq(PAGE, _ => 0)
    {
      ViewOfZeroed(mem[..], f);
      OtherFramesSame(mem[..], Fill(mem[..], page, 0, PAGE), f);
      MemSet(mem, page, 0, 0x1000);
      seen := seen + [Frames()];
    }

    /** The five assignments that turn an absent entry into a link to the page at `page`. */
    method Link(table: nat, index: nat, page: nat, user: bool, writable: bool, noExecute: bool,
                ghost e0: Entry, ghost m1: seq<byte>, ghost t: nat)
      requires TablePtr(table, t) && index < 512 && page / PAGE < MAXFRAMES
      requires Amended(m1, t, index, e0) && At(table, index) == e0
      modifies mem, this`seen
      ensures seen == old(seen) + EntryViews(View(m1), t, index,
                                             LinkEntries(e0, page / PAGE, user, writable, noExecute, PresentFirst))
      ensures Amended(m1, t, index, LinkEntry(e0, page / PAGE, user, writable, noExecute))
      ensures table - hhdmBase + 8 * index + 8 <= mem.Length
      ensures At(table, index) == LinkEntry(e0, page / PAGE, user, writable, noExecute)
    {
      hide Amended, Decode, Encode, Load, FrameAt, PutEntry, EntryViews, LinkEntries, LinkEntry;
      assert t < |View(m1)| by { InView(m1, t, index, e0); }
      ghost var before := seen;
      ghost var es := LinkEntries(e0, page / PAGE, user, writable, noExecute, PresentFirst);
      LinkEntriesAssign(e0, page / PAGE, user, writable, noExecute);
      FiveViews(View(m1), t, index, es);
      Amend(table, index, At(table, index).(present := true), m1, t);
      assert At(table, index) == es[0];
      ghost var v1 := Frames();
      Amend(table, index, At(table, index).(address := page / PAGE), m1, t);
      assert At(table, index) == es[1];
      ghost var v2 := Frames();
      Amend(table, index, At(table, index).(noExecute := noExecute), m1, t);
      assert At(table, index) == es[2];
      ghost var v3 := Frames();
      Amend(table, index, At(table, index).(user := user), m1, t);
      assert At(table, index) == es[3];
      ghost var v4 := Frames();
      Amend(table, index, At(table, index).(writable := writable), m1, t);
      Appended(before, v1, v2, v3, v4, Frames());
    }

    /** Link a fresh zeroed page into the absent entry of the level-`k` table on the way to page `v`;
        0 means that there is no free page. */
    method LinkFresh(table: nat, index: nat, user: bool, writable: bool, noExecute: bool, ghost v: nat, ghost k: nat)
      returns (page: nat)
      requires Valid() && v < PAGES && 1 <= k <= 4 && On(k, v) in own.tables && index == Index(k, v)
      requires TablePtr(table, own.tables[On(k, v)]) && !Next(Now(), v, k).present
      modifies this`freelist, this`freePageCounter, this`seen, mem
      ensures MapOk() && (page == 0 <==> own.free == [])
      ensures page == 0 ==> Now() == old(Now()) && seen == old(seen)
      ensures page != 0 ==>
        && own.free[0] < mem.Length / PAGE && own.free[0] < MAXFRAMES
        && old(CanLink(Frames(), own, v, k))
        && seen == old(seen) + old(StepViews(Frames(), own, v, k, user, writable, noExecute, PresentFirst))
        && Linked(old(Now()), Now(), hhdmBase, v, k,
                  LinkEntry(old(Next(Now(), v, k)), own.free[0], user, writable, noExecute))
        && PageBytes(mem[..], own.free[0]) == seq(PAGE, _ => 0)
        && table - hhdmBase + 8 * index + 8 <= mem.Length
        && At(table, index).address == own.free[0]
    {
      hide Walk, Load, FrameAt, Decode, Linked, TreeOk, ChainOk, RolesOk, LinkEntries, LinkEntry, EntryViews, PutEntry;
      ghost var s, t, e0, before := Now(), own.tables[On(k, v)], Next(Now(), v, k), seen;
      FreeInRange(s, hhdmBase);
      page := PmemAlloc();
      if page == 0 {
        return;
      }
      ghost var f := own.free[0];
      assert page / PAGE == f;
      var newTable := page + hhdmBase;
      ZeroPage(newTable - hhdmBase, f);
      ghost var m1 := mem[..];
      ZeroedEntry(s, m1, hhdmBase, v, k);
      AmendStart(table, index, t);
      Link(table, index, page, user, writable, noExecute, e0, m1, t);
      LinkedByStores(s, Now(), m1, hhdmBase, v, k, LinkEntry(e0, f, user, writable, noExecute));
      assert PageBytes(mem[..], f) == PageBytes(m1, f);
      ghost var es := LinkEntries(e0, f, user, writable, noExecute, PresentFirst);
      assert before + [View(m1)] + EntryViews(View(m1), t, index, es)
          == before + ([View(m1)] + EntryViews(View(m1), t, index, es));
    }

    /** Map a page of the address space at `root` to a fresh frame. */
    method VmMap(root: nat, address: nat, usable: bool, writable: bool, executable: bool) returns (ok: bool)
      requires Valid() && root == Root() && NoHuge(Frames(), own, PageOf(address))
      modifies this`freelist, this`freePageCounter, this`own, this`seen, mem
      ensures Valid() && Root() == root
      ensures (ok, own) == MapPage(old(own), PageOf(address), usable, writable, executable)
      ensures Safe(old(Now()), Now(), hhdmBase, PageOf(address))
      ensures !ok ==> SameWalks(old(Frames()), Frames(), own.tables[ROOT])
      ensures ok ==> PageOf(address) in own.leaves && own.leaves[PageOf(address)].frame < mem.Length / PAGE
      ensures ok ==> PageBytes(mem[..], own.leaves[PageOf(address)].frame) == seq(PAGE, _ => 0)
      ensures ok ==>
        && On(1, PageOf(address)) in own.tables
        && LeafBytes(mem[..], LeafSlot(own.tables[On(1, PageOf(address))], address),
                     own.leaves[PageOf(address)].frame, usable, writable, executable)
      ensures Frames() == MapFrames(old(Frames()), old(own), PageOf(address), usable, writable, executable)
      ensures seen == old(seen)
                      + MapViews(old(Frames()), old(own), PageOf(address), usable, writable, executable, PresentFirst)
      ensures Agrees(old(Frames()), seen[|old(seen)|..], own.tables[ROOT], old(Flushed(own, PageOf(address))), Frames())
         <==> old(Harmless(Frames(), own, PageOf(address), 1, Flushed(own, PageOf(address))))
    {
      hide Inv, SameWalks, SameWalksBut, KeepsData, UserSpaceOk, NoHuge, Walk, Load, FrameAt, Decode, Linked,
           Looping, StepViews, MapPage, MapFrames, MapViews, GrownFrames, GrownViews, Grown, Safe, CanLink, LinkEntry,
           View, PageBytes, Up, Agrees, Harmless, Flushed, Ok,
           LeafBytes, LeafSlot;
      ghost var v, s0, views: seq<seq<Frame>> := PageOf(address), Now(), [];
      LoopStart(s0, hhdmBase, v);
      MapCoherentIff(View(s0.m), hhdmBase, s0.head, s0.own, v, usable, writable, executable);
      var table_phys := root;
      var table := root + hhdmBase;
      OnRoot(v);
      LoopTable(s0, s0, hhdmBase, v, 4, []);
      var i := 4;
      while i > 0
        invariant 1 <= i <= 4 && MapOk() && On(i, v) in own.tables
        invariant Looping(s0, Now(), hhdmBase, v, i, views) && seen == old(seen) + views
        invariant table_phys == PAGE * own.tables[On(i, v)] && table == table_phys + hhdmBase
      {
        var index := ShiftedIndex(address, i);
        ghost var s, t := Now(), own.tables[On(i, v)];
        ShiftedIndexIsIndex(address, i);
        LoopTable(s0, s, hhdmBase, v, i, views);
        AtIsEntry(table, t, index);
        if At(table, index).present {
          if i == 1 {
            LoopFails(s0, s, hhdmBase, v, i, views, usable, writable, executable);
            return false;
          }
          LoopDescends(s0, s, hhdmBase, v, i, views);
          LoopTable(s0, s, hhdmBase, v, i - 1, views);
        } else {
          var newTable := LinkFresh(table, index,
                                    if i == 1 then usable else true,
                                    if i == 1 then writable else true,
                                    if i == 1 then !executable else false, v, i);
          if newTable == 0 {
            LoopFails(s0, s, hhdmBase, v, i, views, usable, writable, executable);
            return false;
          }
          ghost var s1, f := Now(), own.free[0];
          if i == 1 {
            own := WithLeaf(own, v, Mapping(f, usable, writable, executable));
            LoopMaps(s0, s, s1, hhdmBase, v, views, LinkEntry(Next(s, v, i), f, usable, writable, !executable),
                  usable, writable, executable);
            LeafInMemory(Now(), hhdmBase, address);
            return true;
          }
          own := WithTable(own, On(i - 1, v));
          LoopLinks(s0, s, s1, hhdmBase, v, i, views, LinkEntry(Next(s, v, i), f, true, true, false));
          views := views + StepViews(View(s.m), s.own, v, i, true, true, false, PresentFirst);
        }
        table_phys := At(table, index).address * PAGE;
        table := table_phys + hhdmBase;
        i := i - 1;
      }
      assert false;
    }

    /** The descent that vm_unmap and vm_protect share: the level-1 table of a mapped page. */
    method FindLeaf(root: nat, address: nat) returns (found: bool, table: nat)
      requires Valid() && root == Root() && NoHuge(Frames(), own, PageOf(address))
      ensures found <==> PageOf(address) in own.leaves
      ensures found ==> On(1, PageOf(address)) in own.tables && TablePtr(table, own.tables[On(1, PageOf(address))])
      ensures found ==>
        && Next(Now(), PageOf(address), 1).present
        && LeafOf(Next(Now(), PageOf(address), 1)) == own.leaves[PageOf(address)]
    {
      hide Inv, SameWalks, SameWalksBut, KeepsData, UserSpaceOk, NoHuge, Grown, Walk, Load, FrameAt, Decode;
      ghost var v, s := PageOf(address), Now();
      Start(s, hhdmBase, v);
      var table_phys := root;
      table := root + hhdmBase;
      OnRoot(v);
      var i := 4;
      while i > 0
        invariant 1 <= i <= 4
        invariant Reached(s, s, hhdmBase, v, i)
        invariant table_phys == PAGE * own.tables[On(i, v)] && table == table_phys + hhdmBase
      {
        var index := ShiftedIndex(address, i);
        ghost var t := own.tables[On(i, v)];
        ShiftedIndexIsIndex(address, i);
        TableThere(s, s, hhdmBase, v, i);
        AtIsEntry(table, t, index);
        if !At(table, index).present {
          NothingThere(s, hhdmBase, v, i);
          return false, table;
        }
        if i == 1 {
          PresentLeaf(s, hhdmBase, v);
          return true, table;
        }
        Descend(s, s, hhdmBase, v, i);
        table_phys := At(table, index).address * PAGE;
        table := table_phys + hhdmBase;
        i := i - 1;
      }
      assert false;
    }

    /** Change the rights of a mapped page. */
    method VmProtect(root: nat, address: nat, user: bool, writable: bool, executable: bool) returns (ok: bool)
      requires Valid() && root == Root() && NoHuge(Frames(), own, PageOf(address))
      modifies this`own, this`seen, mem
      ensures Valid() && Root() == root
      ensures (ok, own) == ProtectPage(old(own), PageOf(address), user, writable, executable)
      ensures Safe(old(Now()), Now(), hhdmBase, PageOf(address))
      ensures !ok ==> mem[..] == old(mem[..])
      ensures ok ==>
        && On(1, PageOf(address)) in own.tables
        && LeafBytes(mem[..], LeafSlot(own.tables[On(1, PageOf(address))], address),
                     own.leaves[PageOf(address)].frame, user, writable, executable)
      ensures old(seen) <= seen && AllSameBut(old(Frames()), seen[|old(seen)|..], own.tables[ROOT], PageOf(address))
    {
      hide Inv, SameWalks, SameWalksBut, KeepsData, UserSpaceOk, NoHuge, Grown, Walk, Load, FrameAt, Decode, Encode,
           AllSameBut, PutEntry, Up, ShiftedIndex, Index, PageBytes, LeafBytes, LeafSlot, Safe, Store;
      ghost var v, s := PageOf(address), Now();
      Start(s, hhdmBase, v);
      InRange(s, hhdmBase);
      NothingSeen(View(s.m), seen, own.tables[ROOT], v);
      var found, table := FindLeaf(root, address);
      if !found {
        return false;
      }
      var index := ShiftedIndex(address, 1);
      ShiftedIndexIsIndex(address, 1);
      ghost var t := own.tables[On(1, v)];
      ghost var before := seen;
      AmendStart(table, index, t);
      Amend(table, index, At(table, index).(noExecute := !executable), s.m, t);
      ghost var v1 := Frames();
      RightsView(s, hhdmBase, v, At(table, index));
      Amend(table, index, At(table, index).(user := user), s.m, t);
      ghost var v2 := Frames();
      RightsView(s, hhdmBase, v, At(table, index));
      Amend(table, index, At(table, index).(writable := writable), s.m, t);
      RightsView(s, hhdmBase, v, At(table, index));
      ThreeQuiet(View(s.m), v1, v2, Frames(), before, seen, own.tables[ROOT], v);
      own := WithRights(own, v, Mapping(own.leaves[v].frame, user, writable, executable));
      RightsStep(s, mem[..], hhdmBase, v, At(table, index));
      LeafInMemory(Now(), hhdmBase, address);
      return true;
    }

    /** Unmap a page, as kernel/page.c:390-442 is written: the frame number itself goes to pmem_free. */
    method VmUnmap(root: nat, address: nat) returns (ok: bool)
      requires Valid() && root == Root() && NoHuge(Frames(), own, PageOf(address))
      requires InMemory(Now(), PageOf(address))
      modifies this`freelist, this`freePageCounter, this`seen, mem
      ensures ok <==> PageOf(address) in own.leaves
      ensures Now() == AfterUnmap(old(Now()), hhdmBase, PageOf(address))
    {
      hide Inv, Walk, Load, FrameAt, Decode, Store, Encode;
      var found, table := FindLeaf(root, address);
      if !found {
        return false;
      }
      var index := ShiftedIndex(address, 1);
      ShiftedIndexIsIndex(address, 1);
      AtIsEntry(table, own.tables[On(1, PageOf(address))], index);
      PmemFree(At(table, index).address);
      StoreWord(table - hhdmBase + 8 * index, Encode(At(table, index).(present := false)));
      return true;
    }

    /** The same routine with the shift that the other three calls of pmem_free on an entry have. */
    method VmUnmapShifted(root: nat, address: nat) returns (ok: bool)
      requires Valid() && root == Root() && NoHuge(Frames(), own, PageOf(address))
      requires PageOf(address) in own.leaves ==> OwnFrame(own, PageOf(address))
      modifies this`freelist, this`freePageCounter, this`own, this`seen, mem
      ensures Valid() && Root() == root
      ensures (ok, own) == UnmapPage(old(own), PageOf(address))
      ensures Kept(old(Now()), Now(), hhdmBase, PageOf(address))
      ensures ok ==> Walk(Frames(), 4, own.tables[ROOT], PageOf(address)) == None
      ensures old(seen) <= seen && AllSameBut(old(Frames()), seen[|old(seen)|..], own.tables[ROOT], PageOf(address))
    {
      hide Inv, Walk, Load, FrameAt, Decode, Store, Encode, AllSameBut;
      ghost var v, s, before := PageOf(address), Now(), seen;
      Start(s, hhdmBase, v);
      NothingSeen(View(s.m), seen, own.tables[ROOT], v);
      var found, table := FindLeaf(root, address);
      if !found {
        return false;
      }
      var index := ShiftedIndex(address, 1);
      ShiftedIndexIsIndex(address, 1);
      AtIsEntry(table, own.tables[On(1, v)], index);
      OwnedInRange(s, hhdmBase, v);
      LeafApart(s, hhdmBase, v);
      DataStoreWalks(s, hhdmBase, own.leaves[v].frame, freelist);
      PmemFree(At(table, index).address * PAGE);
      ghost var v1 := Frames();
      SameIsSameBut(View(s.m), v1, own.tables[ROOT], v);
      StoreWord(table - hhdmBase + 8 * index, Encode(At(table, index).(present := false)));
      own := WithoutLeaf(own, v);
      ShiftedUnmapStep(s, Now(), hhdmBase, v);
      TwoQuiet(View(s.m), v1, Frames(), before, seen, own.tables[ROOT], v);
      return true;
    }

    /** The address translation that `translate` prints, for the address space that CR3 selects. */
    method Translate(address: nat) returns (physical: Option<nat>)
      requires Valid() && cr3 - cr3 % PAGE == Root() && NoHuge(Frames(), own, PageOf(address))
      ensures physical == if PageOf(address) in own.leaves
                          then Some(PAGE * own.leaves[PageOf(address)].frame + address % PAGE) else None
    {
      hide Inv, SameWalks, SameWalksBut, KeepsData, UserSpaceOk, NoHuge, Grown, Walk, Load, FrameAt, Decode;
      ghost var v, s := PageOf(address), Now();
      Start(s, hhdmBase, v);
      var table_phys := cr3 - cr3 % PAGE;
      var table := table_phys + hhdmBase;
      OnRoot(v);
      for i := 4 downto 0
        invariant i > 0 ==> Reached(s, s, hhdmBase, v, i)
        invariant i > 0 ==> table_phys == PAGE * own.tables[On(i, v)] && table == table_phys + hhdmBase
        invariant i == 0 ==> v in own.leaves && table_phys == PAGE * own.leaves[v].frame
      {
        var index := ShiftedIndex(address, i + 1);
        ShiftedIndexIsIndex(address, i + 1);
        TableThere(s, s, hhdmBase, v, i + 1);
        AtIsEntry(table, own.tables[On(i + 1, v)], index);
        if !At(table, index).present {
          NothingThere(s, hhdmBase, v, i + 1);
          return None;
        }
        if i > 0 {
          Descend(s, s, hhdmBase, v, i + 1);
        } else {
          PresentLeaf(s, hhdmBase, v);
        }
        table_phys := At(table, index).address * PAGE;
        table := table_phys + hhdmBase;
      }
      return Some(table_phys + address % PAGE);
    }

    /** The innermost loop of unmap_lower_half: give back the level-1 tables below a level-2 table. */
    method FreeLevel1(l2_table: nat, ghost s0: Phys, ghost l4: nat, ghost l3: nat, ghost freed0: seq<nat>)
      returns (ghost freed: seq<nat>)
      requires l4 < 256 && l3 < 512 && MapOk() && Path(2, 512 * l4 + l3) in s0.own.tables
      requires TablePtr(l2_table, s0.own.tables[Path(2, 512 * l4 + l3)])
      requires Tearing(s0, Now(), hhdmBase, l4 + 1, At3(l4, l3), freed0)
      modifies this`freelist, this`freePageCounter, this`seen, mem
      ensures MapOk() && Tearing(s0, Now(), hhdmBase, l4 + 1, At2(l4, l3, 512), freed)
    {
      hide Ok, Tearing, Load, FrameAt, Decode, Store, Done, At3, At2;
      freed := freed0;
      ghost var q, r := Path(2, 512 * l4 + l3), l4 + 1;
      CursorSteps(l4, l3, 0);
      for l2_index := 0 to 512
        invariant MapOk() && Tearing(s0, Now(), hhdmBase, r, At2(l4, l3, l2_index), freed)
      {
        ghost var s, c, c' := Now(), At2(l4, l3, l2_index), At2(l4, l3, l2_index + 1);
        CursorSteps(l4, l3, l2_index);
        EntryStill(s0, s, hhdmBase, r, c, freed, q, l2_index);
        AtIsEntry(l2_table, s0.own.tables[q], l2_index);
        if At(l2_table, l2_index).present && !At(l2_table, l2_index).pageSize {
          PmemFree(At(l2_table, l2_index).address * PAGE);
          GiveBack(s0, s, Now(), hhdmBase, r, c, c', freed, Child(q, l2_index));
          freed := [s0.own.tables[Child(q, l2_index)]] + freed;
        } else {
          Skip(s0, s, hhdmBase, r, c, c', freed);
        }
      }
    }

    /** The middle loop: give back the level-2 tables below a level-3 table, each after its children. */
    method FreeLevel2(l3_table: nat, ghost s0: Phys, ghost l4: nat, ghost freed0: seq<nat>)
      returns (ghost freed: seq<nat>)
      requires l4 < 256 && MapOk() && Path(3, l4) in s0.own.tables
      requires TablePtr(l3_table, s0.own.tables[Path(3, l4)])
      requires Tearing(s0, Now(), hhdmBase, l4 + 1, At4(l4), freed0)
      modifies this`freelist, this`freePageCounter, this`seen, mem
      ensures MapOk() && Tearing(s0, Now(), hhdmBase, l4 + 1, At3(l4, 512), freed)
    {
      hide Ok, Tearing, Load, FrameAt, Decode, Store, Done, At4, At3, At2;
      freed := freed0;
      ghost var q, r := Path(3, l4), l4 + 1;
      CursorSteps(l4, 0, 0);
      for l3_index := 0 to 512
        invariant MapOk() && Tearing(s0, Now(), hhdmBase, r, At3(l4, l3_index), freed)
      {
        ghost var c, c', child := At3(l4, l3_index), At3(l4, l3_index + 1), Child(q, l3_index);
        CursorSteps(l4, l3_index, 512);
        EntryStill(s0, Now(), hhdmBase, r, c, freed, q, l3_index);
        AtIsEntry(l3_table, s0.own.tables[q], l3_index);
        if At(l3_table, l3_index).present && !At(l3_table, l3_index).pageSize {
          var l2_table := PtoV(At(l3_table, l3_index).address * PAGE);
          freed := FreeLevel1(l2_table, s0, l4, l3_index, freed);
          ghost var s, c2 := Now(), At2(l4, l3_index, 512);
          EntryStill(s0, s, hhdmBase, r, c2, freed, q, l3_index);
          AtIsEntry(l3_table, s0.own.tables[q], l3_index);
          PmemFree(At(l3_table, l3_index).address * PAGE);
          GiveBack(s0, s, Now(), hhdmBase, r, c2, c', freed, child);
          freed := [s0.own.tables[child]] + freed;
        } else {
          StartIsOk(s0, Now(), hhdmBase, r, c, freed);
          NoneBelow2(View(s0.m), s0.own, l4, l3_index);
          Skip(s0, Now(), hhdmBase, r, c, c', freed);
        }
      }
    }

    /** Take the lower half out of the address space at `root`: its tables go back to the free list, the
        pages mapped in it do not. */
    method UnmapLowerHalf(root: nat) returns (ghost freed: seq<nat>)
      requires Valid() && root == Root()
      modifies this`freelist, this`freePageCounter, this`own, this`seen, mem
      ensures Valid() && Root() == root
      ensures own == TornDown(old(own), freed) && ListsLowerTables(old(own), freed)
      ensures freePageCounter - |own.free| == old(freePageCounter - |own.free|)
      ensures KeepsData(old(mem[..]), mem[..], old(own))
      ensures UserSpaceOk(Frames(), own)
      ensures LowerGone(old(Frames()), Frames(), own.tables[ROOT])
      ensures RootCleared(old(Frames()), Frames(), own.tables[ROOT], 256)
      ensures LastFirst(old(own), 256, freed)
      ensures LowerDropped(old(mem[..]), mem[..], root)
    {
      hide RootCleared, LastFirst, LowerDropped;
      hide Ok, Tearing, Load, FrameAt, Decode, Encode, Store, Walk, KeepsData, UserSpaceOk, Done, At4, At3,
            LowerGone, SameBut, TornDown;
      ghost var s0 := Now();
      TearingStart(s0, hhdmBase);
      freed := [];
      var l4_table := PtoV(root);
      CursorSteps(0, 0, 0);
      ghost var t := own.tables[ROOT];
      assert LastFirst(own, 0, freed) by { NoSlots(own, freed); }
      for l4_index := 0 to 256
        invariant MapOk() && own == s0.own && TablePtr(l4_table, t)
        invariant Tearing(s0, Now(), hhdmBase, l4_index, At4(l4_index), freed)
        invariant LastFirst(s0.own, l4_index, freed)
      {
        ghost var c, c', child := At4(l4_index), At4(l4_index + 1), Child(ROOT, l4_index);
        CursorSteps(l4_index, 512, 0);
        EntryStill(s0, Now(), hhdmBase, l4_index, c, freed, ROOT, l4_index);
        AtIsEntry(l4_table, t, l4_index);
        if At(l4_table, l4_index).present {
          ghost var s1 := Now();
          AmendStart(l4_table, l4_index, t);
          Amend(l4_table, l4_index, At(l4_table, l4_index).(present := false), s1.m, t);
          ClearRoot(s0, s1, Now(), hhdmBase, l4_index, c, freed);
          var l3_table := PtoV(At(l4_table, l4_index).address * PAGE);
          freed := FreeLevel2(l3_table, s0, l4_index, freed);
          ghost var s, c3 := Now(), At3(l4_index, 512);
          RootEntryStill(s0, s, hhdmBase, l4_index + 1, c3, freed, l4_index);
          AtIsEntry(l4_table, t, l4_index);
          PmemFree(At(l4_table, l4_index).address * PAGE);
          GiveBack(s0, s, Now(), hhdmBase, l4_index + 1, c3, c', freed, child);
          freed := [s0.own.tables[child]] + freed;
        } else {
          StartIsOk(s0, Now(), hhdmBase, l4_index, c, freed);
          NoneBelow3(View(s0.m), s0.own, l4_index);
          SkipRoot(s0, Now(), hhdmBase, l4_index, c, freed);
          Skip(s0, Now(), hhdmBase, l4_index + 1, c, c', freed);
        }
        LastFirstStep(s0.own, l4_index, freed);
      }
      own := TornDown(own, freed);
      TornDownAll(s0, Now().(own := s0.own), hhdmBase, freed);
      LowerGoneIsDropped(s0.m, mem[..], t);
    }

    /** Fill the free list from the memory map, then take the boot loader's lower half out of the current
        address space. */
    method MemInit(memmap: seq<MmapEntry>, hhdm: nat) returns (ghost freed: seq<nat>)
      requires Ok(Now(), hhdm) && cr3 == Root() && mem.Length / PAGE <= MAXFRAMES
      requires own.free == [] && freelist == 0 && freePageCounter == 0
      requires MapIsSound(memmap, mem.Length / PAGE, own)
      modifies this, mem
      ensures Valid() && Root() == old(Root()) && hhdmBase == hhdm
      ensures ListsLowerTables(old(own), freed)
      ensures forall f :: f in own.free <==> f in UsableFrames(memmap) || f in freed
      ensures |own.free| == |UsableFrames(memmap)| + |freed|
      ensures freePageCounter == 2 * |UsableFrames(memmap)| + |freed|
      ensures UserSpaceOk(Frames(), own)
      ensures LowerGone(old(Frames()), Frames(), own.tables[ROOT])
    {
      hide Ok, Load, FrameAt, Decode, Store, Walk, UserSpaceOk, LowerGone, MapIsSound, TornDown, SameWalks, Pushed,
           UsableFrames, FramesOf, ListsLowerTables;
      ghost var s0 := Now();
      BootStart(s0, hhdm);
      InRange(s0, hhdm);
      hhdmBase := hhdm;
      assert memmap[..|memmap|] == memmap;
      NoFrames();
      for current := 0 to |memmap|
        invariant MapOk() && hhdmBase == hhdm && cr3 == old(cr3)
        invariant Booting(s0, Now(), hhdm, UsableFrames(memmap[..current]))
      {
        var cur := memmap[current];
        ghost var before, frames := UsableFrames(memmap[..current]), FramesOf(cur);
        EntryStart(memmap, current);
        if cur.kind == 1 {
          var curr, end := cur.base, cur.base + cur.length;
          ghost var k := 0;
          while curr < end
            invariant curr == cur.base + PAGE * k && k <= |frames|
            invariant MapOk() && hhdmBase == hhdm && cr3 == old(cr3)
            invariant Booting(s0, Now(), hhdm, before + frames[..k])
          {
            ghost var s := Now();
            NextFrame(memmap, |s0.m| / PAGE, s0.own, current, k);
            SoundFrame(memmap, |s0.m| / PAGE, s0.own, frames[k]);
            PmemFree(curr);
            curr := curr + 0x1000;
            freePageCounter := freePageCounter + 1;
            own := WithFree(own, frames[k]);
            BootStep(s0, s, Now(), hhdm, memmap, current, k);
            k := k + 1;
          }
          EntryEnd(memmap, |s0.m| / PAGE, s0.own, current, k);
        } else {
          NotUsable(cur);
        }
      }
      ghost var s1 := Now();
      freed := UnmapLowerHalf(cr3);
      InRange(Now(), hhdm);
      SoundFrames(memmap, |s0.m| / PAGE, s0.own);
      BootResult(|s0.m| / PAGE, s0.own, UsableFrames(memmap), freed);
      LowerGoneFrom(View(s0.m), View(s1.m), Frames(), own.tables[ROOT]);
    }
  }
}
