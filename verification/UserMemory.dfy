/** The user pages that physical memory and the page tables hold together, and what each operation of the
    kernel does to them. */
module UserMemory {
  import opened Options
  import opened Memory
  import opened Words
  import opened Entry
  import opened Tables
  import opened Edits
  import opened UserSpace
  import opened Growth
  import opened Snapshots
  import opened Teardown
  import opened Elf

  /** The lower half as a program sees it: rights from the tables, contents from the frames. */
  function SpaceOf(s: Phys): Space {
    map v | v in s.own.leaves && v < LOWERPAGES :: PageAt(s, s.own.leaves[v])
  }

  function PageAt(s: Phys, x: Mapping): Page {
    Page(x.user, x.writable, x.executable, if x.frame < |s.m| / PAGE then PageBytes(s.m, x.frame) else [])
  }

  /** A state whose lower half only the kernel's own routines built. */
  ghost predicate UserOk(s: Phys, hhdm: nat) {
    Ok(s, hhdm) && UserSpaceOk(View(s.m), s.own)
  }

  lemma SpaceWellSized(s: Phys, hhdm: nat)
    requires UserOk(s, hhdm)
    ensures WellSized(SpaceOf(s))
    ensures forall v :: v in s.own.leaves && v < LOWERPAGES ==>
              0 < s.own.leaves[v].frame < |s.m| / PAGE && OwnFrame(s.own, v)
  {
    forall v | v in s.own.leaves && v < LOWERPAGES
      ensures 0 < s.own.leaves[v].frame < |s.m| / PAGE && OwnFrame(s.own, v)
    {
      assert OwnFrame(s.own, v);
    }
  }

  /** The frame of a user page is no table and no free page, so what keeps data keeps its contents. */
  lemma DataKept(s: Phys, m': seq<byte>, hhdm: nat, v: nat)
    requires UserOk(s, hhdm) && KeepsData(s.m, m', s.own) && v in s.own.leaves && v < LOWERPAGES
    ensures s.own.leaves[v].frame < |s.m| / PAGE
    ensures PageBytes(m', s.own.leaves[v].frame) == PageBytes(s.m, s.own.leaves[v].frame)
  {
    SpaceWellSized(s, hhdm);
  }

  lemma UserNoHuge(s: Phys, hhdm: nat, v: nat)
    requires UserOk(s, hhdm) && v < LOWERPAGES
    ensures NoHuge(View(s.m), s.own, v)
  {
    hide RolesOk, ChainOk, SlotOk, Decode;
    forall l | 2 <= l <= 4 && On(l, v) in s.own.tables
      ensures PlaceOk(|View(s.m)|, s.own, On(l, v))
      ensures !EntryAt(View(s.m), s.own.tables[On(l, v)], Index(l, v)).pageSize
    {
      ChildOn(l, v);
      OnIsLower(l - 1, v);
      assert OpenSlot(View(s.m), s.own, On(l, v), Index(l, v));
    }
  }

  /** vm_map on user pages. */
  lemma SpaceAfterMap(s: Phys, s': Phys, hhdm: nat, v: nat, user: bool, writable: bool, executable: bool, ok: bool)
    requires UserOk(s, hhdm) && Safe(s, s', hhdm, v) && v < LOWERPAGES
    requires (ok, s'.own) == MapPage(s.own, v, user, writable, executable)
    requires ok ==> v in s'.own.leaves && s'.own.leaves[v].frame < |s'.m| / PAGE
    requires ok ==> PageBytes(s'.m, s'.own.leaves[v].frame) == seq(PAGE, _ => 0)
    ensures SpaceOf(s') == if ok then SpaceOf(s)[v := Page(user, writable, executable, seq(PAGE,
          _ => 0))] else SpaceOf(s)
    ensures ok <==> v !in SpaceOf(s) && Needed(s.own, v) <= |s.own.free|
    ensures |s'.own.free| >= |s.own.free| - 4
  {
    hide Ok, UserSpaceOk, MapPage, KeepsData, TreeOk, PageBytes;
    MapCostAt(s, hhdm, v, user, writable, executable);
    forall u | u in s.own.leaves && u < LOWERPAGES
      ensures PageAt(s', s.own.leaves[u]) == PageAt(s, s.own.leaves[u])
    {
      DataKept(s, s'.m, hhdm, u);
      SameSize(s.m, s'.m, s.own);
    }
  }

  lemma SameSize(m: seq<byte>, m': seq<byte>, o: Own)
    requires KeepsData(m, m', o)
    ensures |m'| == |m|
  {
  }

  lemma MapCostAt(s: Phys, hhdm: nat, v: nat, user: bool, writable: bool, executable: bool)
    requires Ok(s, hhdm) && v < PAGES
    ensures var (ok, p) := MapPage(s.own, v, user, writable, executable); var f := s.own.free;
      && (ok <==> v !in s.own.leaves && Needed(s.own, v) <= |f|)
      && (ok ==> p.free == f[Needed(s.own, v)..])
      && (ok ==> v in p.leaves && p.leaves == s.own.leaves[v := Mapping(p.leaves[v].frame, user, writable, executable)])
      && (!ok ==> p.leaves == s.own.leaves && (p.free == [] || p.free == f))
      && (!ok && p.free == [] && f != [] ==> |f| < 4)
  {
    hide MapPage, ChainOk;
    MapCost(View(s.m), hhdm, s.head, s.own, v, user, writable, executable);
  }

  /** vm_protect on user pages. */
  lemma SpaceAfterProtect(s: Phys, s': Phys, hhdm: nat, v: nat, writable: bool, executable: bool, ok: bool)
    requires UserOk(s, hhdm) && Safe(s, s', hhdm, v) && v < LOWERPAGES
    requires (ok, s'.own) == ProtectPage(s.own, v, true, writable, executable)
    ensures SpaceOf(s') == Protected(SpaceOf(s), v, writable, executable)
    ensures s'.own.free == s.own.free
  {
    hide Ok, UserSpaceOk, KeepsData, TreeOk, PageBytes;
    forall u | u in s.own.leaves && u < LOWERPAGES
      ensures PageAt(s', s.own.leaves[u]) == PageAt(s, s.own.leaves[u])
    {
      DataKept(s, s'.m, hhdm, u);
      SameSize(s.m, s'.m, s.own);
    }
  }

  /** Memory after a store of byte `b` at physical address `p`. */
  function Poked(s: Phys, p: nat, b: byte): Phys
    requires p < |s.m|
  {
    s.(m := s.m[p := b])
  }

  /** A store into the frame of a user page changes no table, no list node and no other page. */
  lemma PokeKeeps(s: Phys, hhdm: nat, v: nat, x: nat, b: byte)
    requires UserOk(s, hhdm) && v in s.own.leaves && v < LOWERPAGES && x < PAGE
    requires s.own.leaves[v].frame < |s.m| / PAGE
    ensures UserOk(Poked(s, PAGE * s.own.leaves[v].frame + x, b), hhdm)
    ensures SameWalks(View(s.m), View(Poked(s, PAGE * s.own.leaves[v].frame + x, b).m), s.own.tables[ROOT])
  {
    hide Load, FrameAt, PageBytes, SlotOk, PlaceOk, OpenSlot, Walk;
    var f := s.own.leaves[v].frame;
    var s' := Poked(s, PAGE * f + x, b);
    SpaceWellSized(s, hhdm);
    OtherFramesSame(s.m, s'.m, f);
    OutsideTree(View(s.m), View(s'.m), s.own, s.own, f);
    PokedUser(View(s.m), View(s'.m), s.own, f);
    assert forall i :: 0 <= i < |s.own.free| ==> s.own.free[i] in s.own.free;
  }

  lemma PokedUser(w: seq<Frame>, w': seq<Frame>, o: Own, f: nat)
    requires TreeOk(w, o) && TreeOk(w', o) && UserSpaceOk(w, o) && f < |w| == |w'| && w' == w[f := w'[f]]
    requires forall q :: q in o.tables ==> o.tables[q] != f
    ensures UserSpaceOk(w', o)
  {
    forall q, j | q in o.tables && q.level >= 2 && 0 <= j < 512 && IsLower(Child(q, j))
      ensures PlaceOk(|w'|, o, q) && OpenSlot(w', o, q, j)
    {
      assert PlaceOk(|w|, o, q) && OpenSlot(w, o, q, j);
    }
  }

  /** The store through the page tables is the store into the program's page. */
  lemma SpaceAfterPoke(s: Phys, hhdm: nat, a: nat, b: byte, wp: bool)
    requires UserOk(s, hhdm) && a / PAGE in s.own.leaves && a / PAGE < LOWERPAGES
    requires var x := s.own.leaves[a / PAGE]; x.frame < |s.m| / PAGE && (x.writable || !wp)
    ensures WellSized(SpaceOf(s))
    ensures Stored(SpaceOf(s), a, b, wp) == Some(SpaceOf(Poked(s, PAGE * s.own.leaves[a / PAGE].frame + a % PAGE, b)))
  {
    hide Ok, UserSpaceOk, TreeOk, View, PageBytes;
    var v, f := a / PAGE, s.own.leaves[a / PAGE].frame;
    var s' := Poked(s, PAGE * f + a % PAGE, b);
    SpaceWellSized(s, hhdm);
    PokedPage(s, f, a % PAGE, b);
    forall u | u in s.own.leaves && u < LOWERPAGES && u != v
      ensures PageAt(s', s.own.leaves[u]) == PageAt(s, s.own.leaves[u])
    {
      OtherPageSame(s, s', f, a % PAGE, b, s.own.leaves[u].frame);
    }
    assert SpaceOf(s') == SpaceOf(s)[v := SpaceOf(s)[v].(bytes := PageBytes(s'.m, f))];
  }

  lemma PokedPage(s: Phys, f: nat, x: nat, b: byte)
    requires f < |s.m| / PAGE && x < PAGE
    ensures PageBytes(Poked(s, PAGE * f + x, b).m, f) == PageBytes(s.m, f)[x := b]
  {
  }

  lemma OtherPageSame(s: Phys, s': Phys, f: nat, x: nat, b: byte, g: nat)
    requires f < |s.m| / PAGE && g < |s.m| / PAGE && f != g && x < PAGE && s' == Poked(s, PAGE * f + x, b)
    ensures PageBytes(s'.m, g) == PageBytes(s.m, g)
  {
    OtherFramesSame(s.m, s'.m, f);
  }

  lemma SpaceAfterDrop(s: Phys, o: Own, freed: seq<nat>)
    requires s.own == TornDown(o, freed)
    ensures SpaceOf(s) == map[]
  {
  }
}
