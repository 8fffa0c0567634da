/** exec_setup of kernel/executables.c: tear down the lower half, load the segments of a module into it,
    and map a stack. */
module Loader {
  import opened Options
  import opened Memory
  import opened Words
  import opened Entry
  import opened Tables
  import opened UserSpace
  import opened Growth
  import opened Snapshots
  import opened Teardown
  import opened Boot
  import opened Paging
  import opened Elf
  import opened UserMemory

  datatype Outcome = NotFound | PageFault | Entered(instruction: nat, stack: nat)

  /** The module that the search loop stops at. */
  function FindModule(modules: seq<Module>, name: string): (r: Option<Module>)
    ensures r.Some? ==>
      exists i :: 0 <= i < |modules| && modules[i] == r.value && r.value.name == name
                  && forall j :: 0 <= j < i ==> modules[j].name != name
    ensures r == None <==> forall m :: m in modules ==> m.name != name
  {
    if modules == [] then None
    else if modules[0].name == name then Some(modules[0])
    else FindModule(modules[1..], name)
  }

  /** A store by the processor to virtual address `a`: translated by the page tables at CR3. */
  method StoreVirtual(k: Kernel, a: nat, b: byte, wp: bool) returns (ok: bool)
    requires k.Valid() && UserOk(k.Now(), k.hhdmBase) && k.cr3 == k.Root() && a < PAGE * LOWERPAGES
    modifies k.mem
    ensures k.Valid() && UserOk(k.Now(), k.hhdmBase)
    ensures WellSized(old(SpaceOf(k.Now())))
    ensures Stored(old(SpaceOf(k.Now())), a, b, wp) == if ok then Some(SpaceOf(k.Now())) else None
    ensures !ok ==> k.mem[..] == old(k.mem[..])
    ensures SameWalks(old(k.Frames()), k.Frames(), k.own.tables[ROOT])
  {
    hide Ok, UserSpaceOk, Stored, SpaceOf, View, Walk, WellSized;
    ghost var s := k.Now();
    SpaceWellSized(s, k.hhdmBase);
    UserWalkAt(s, k.hhdmBase, a / PAGE);
    var found := Walk(View(k.mem[..]), 4, k.cr3 / PAGE, a / PAGE);
    if found.None? || (wp && !found.value.writable) {
      StoreFaults(s, a, b, wp);
      return false;
    }
    SpaceAfterPoke(s, k.hhdmBase, a, b, wp);
    PokeKeeps(s, k.hhdmBase, a / PAGE, a % PAGE, b);
    k.mem[PAGE * found.value.frame + a % PAGE] := b;
    assert k.Now() == Poked(s, PAGE * found.value.frame + a % PAGE, b);
    return true;
  }

  lemma UserWalkAt(s: Phys, hhdm: nat, v: nat)
    requires UserOk(s, hhdm) && v < LOWERPAGES
    ensures ROOT in s.own.tables && Walk(View(s.m), 4, s.own.tables[ROOT], v) == Lookup(s.own.leaves, v)
  {
    UserWalk(View(s.m), s.own, v);
  }

  lemma StoreFaults(s: Phys, a: nat, b: byte, wp: bool)
    requires WellSized(SpaceOf(s))
    requires a / PAGE in s.own.leaves && a / PAGE < LOWERPAGES ==> wp && !s.own.leaves[a / PAGE].writable
    ensures Stored(SpaceOf(s), a, b, wp) == None
  {
  }

  /** memcpy of `data` to virtual address `dst`, byte by byte; false is a page fault on the way. */
  method CopyVirtual(k: Kernel, dst: nat, data: seq<byte>, wp: bool) returns (ok: bool)
    requires k.Valid() && UserOk(k.Now(), k.hhdmBase) && k.cr3 == k.Root() && dst + |data| <= PAGE * LOWERPAGES
    modifies k.mem
    ensures k.Valid() && UserOk(k.Now(), k.hhdmBase)
    ensures WellSized(old(SpaceOf(k.Now())))
    ensures Copied(old(SpaceOf(k.Now())), dst, data, wp) == if ok then Some(SpaceOf(k.Now())) else None
    ensures SameWalks(old(k.Frames()), k.Frames(), k.own.tables[ROOT])
  {
    hide Ok, UserSpaceOk, Stored, SpaceOf, View, Walk, WellSized, SameWalks;
    ghost var s := k.Now();
    SpaceWellSized(s, k.hhdmBase);
    InRange(s, k.hhdmBase);
    SameWalksSelf(View(s.m), s.own.tables[ROOT]);
    var cdest := dst;
    for i := 0 to |data|
      invariant k.Valid() && UserOk(k.Now(), k.hhdmBase) && cdest == dst + i
      invariant Copied(SpaceOf(s), dst, data[..i], wp) == Some(SpaceOf(k.Now()))
      invariant SameWalks(View(s.m), k.Frames(), k.own.tables[ROOT])
    {
      assert data[..i + 1][..i] == data[..i];
      ghost var w := k.Frames();
      var stored := StoreVirtual(k, cdest, data[i], wp);
      if !stored {
        CopyStops(SpaceOf(s), dst, data, i + 1, wp);
        return false;
      }
      SameWalksChain(View(s.m), w, k.Frames(), k.own.tables[ROOT]);
      cdest := cdest + 1;
    }
    assert data[..|data|] == data;
    return true;
  }

  lemma SameWalksSelf(w: seq<Frame>, root: nat)
    ensures SameWalks(w, w, root)
  {
  }

  /** A copy that faults part of the way faults. */
  lemma {:induction false} CopyStops(space: Space, dst: nat, data: seq<byte>, n: nat, wp: bool)
    requires WellSized(space) && n <= |data| && Copied(space, dst, data[..n], wp) == None
    ensures Copied(space, dst, data, wp) == None
    decreases |data|
  {
    if n == |data| {
      assert data[..n] == data;
    } else {
      assert data[..|data| - 1][..n] == data[..n];
      CopyStops(space, dst, data[..|data| - 1], n, wp);
    }
  }

  /** No upper-half translation changes. */
  ghost predicate UpperWalks(w: seq<Frame>, w': seq<Frame>, root: nat) {
    forall u :: LOWERPAGES <= u < PAGES ==> Walk(w', 4, root, u) == Walk(w, 4, root, u)
  }

  lemma UpperWalksChain(w: seq<Frame>, w1: seq<Frame>, w2: seq<Frame>, root: nat)
    requires UpperWalks(w, w1, root)
    ensures UpperWalks(w1, w2, root) ==> UpperWalks(w, w2, root)
    ensures SameWalks(w1, w2, root) ==> UpperWalks(w, w2, root)
    ensures forall v :: 0 <= v < LOWERPAGES && SameWalksBut(w1, w2, root, v) ==> UpperWalks(w, w2, root)
  {
    forall u | LOWERPAGES <= u < PAGES ensures Walk(w1, 4, root, u) == Walk(w, 4, root, u) {
    }
  }

  /** What loading keeps throughout. */
  ghost predicate Sound(s0: Phys, s: Phys, hhdm: nat) {
    && UserOk(s, hhdm) && ROOT in s0.own.tables && ROOT in s.own.tables
    && s.own.tables[ROOT] == s0.own.tables[ROOT]
    && s.count - |s.own.free| == s0.count - |s0.own.free|
    && UpperWalks(View(s0.m), View(s.m), s0.own.tables[ROOT])
  }

  lemma SoundAfterSafe(s0: Phys, s: Phys, s': Phys, hhdm: nat, v: nat)
    requires Sound(s0, s, hhdm) && Safe(s, s', hhdm, v) && v < LOWERPAGES
    ensures Sound(s0, s', hhdm)
  {
    hide Ok, UserSpaceOk, KeepsData, SameWalksBut, UpperWalks;
    InRange(s', hhdm);
    UpperWalksChain(View(s0.m), View(s.m), View(s'.m), s0.own.tables[ROOT]);
  }

  lemma PageNumber(a: nat)
    requires a < PAGE * LOWERPAGES
    ensures PageOf(a) == a / PAGE < LOWERPAGES
  {
  }

  /** vm_map of a user page, as the loader calls it: the result is not looked at. */
  method MapUser(k: Kernel, address: nat, ghost s0: Phys)
    requires k.Valid() && Sound(s0, k.Now(), k.hhdmBase) && k.cr3 == k.Root() && address < PAGE * LOWERPAGES
    modifies k`freelist, k`freePageCounter, k`own, k`seen, k.mem
    ensures k.Valid() && Sound(s0, k.Now(), k.hhdmBase) && k.cr3 == k.Root()
    ensures |k.own.free| >= old(|k.own.free|) - 4
    ensures 4 <= old(|k.own.free|) ==> SpaceOf(k.Now()) == Mapped(old(SpaceOf(k.Now())), address / PAGE)
  {
    hide Ok, UserSpaceOk, SpaceOf, Safe, MapPage, NoHuge, UpperWalks;
    ghost var s := k.Now();
    PageNumber(address);
    UserNoHuge(s, k.hhdmBase, address / PAGE);
    var ok := k.VmMap(k.cr3 - k.cr3 % PAGE, address, true, true, false);
    SpaceAfterMap(s, k.Now(), k.hhdmBase, address / PAGE, true, true, false, ok);
    SoundAfterSafe(s0, s, k.Now(), k.hhdmBase, address / PAGE);
  }

  /** One iteration of the program-header loop. */
  method LoadSegment(k: Kernel, image: seq<byte>, ph: Phdr, wp: bool, ghost s0: Phys) returns (ok: bool)
    requires k.Valid() && Sound(s0, k.Now(), k.hhdmBase) && k.cr3 == k.Root()
    requires IsLoaded(ph) ==>
      && ph.offset + ph.memsz <= |image|
      && ph.vaddr + ph.memsz <= PAGE * LOWERPAGES && ph.vaddr < PAGE * LOWERPAGES
    modifies k`freelist, k`freePageCounter, k`own, k`seen, k.mem
    ensures k.Valid() && Sound(s0, k.Now(), k.hhdmBase) && k.cr3 == k.Root()
    ensures |k.own.free| >= old(|k.own.free|) - if IsLoaded(ph) then 4 else 0
    ensures WellSized(old(SpaceOf(k.Now())))
    ensures 4 <= old(|k.own.free|) ==>
      Loaded(old(SpaceOf(k.Now())), image, ph, wp) == if ok then Some(SpaceOf(k.Now())) else None
  {
    hide Ok, UserSpaceOk, SpaceOf, Safe, NoHuge, ProtectPage, UpperWalks, Copied, WellSized;
    ghost var s := k.Now();
    SpaceWellSized(s, k.hhdmBase);
    if ph.kind == LOAD && ph.filesz > 0 {
      MapUser(k, ph.vaddr, s0);
      ghost var s1 := k.Now();
      ok := CopyVirtual(k, ph.vaddr, image[ph.offset..ph.offset + ph.memsz], wp);
      ghost var s2 := k.Now();
      UpperWalksChain(View(s0.m), View(s1.m), View(s2.m), s0.own.tables[ROOT]);
      if !ok {
        return false;
      }
      var executable, writable := false, false;
      if ph.flags / 1 % 2 == 1 {
        executable := true;
      }
      if ph.flags / 2 % 2 == 1 {
        writable := true;
      }
      PageNumber(ph.vaddr);
      UserNoHuge(s2, k.hhdmBase, ph.vaddr / PAGE);
      var changed := k.VmProtect(k.cr3, ph.vaddr, true, writable, executable);
      SpaceAfterProtect(s2, k.Now(), k.hhdmBase, ph.vaddr / PAGE, writable, executable, changed);
      SoundAfterSafe(s0, s2, k.Now(), k.hhdmBase, ph.vaddr / PAGE);
    }
    return true;
  }

  /** With enough free pages loading does exactly what `Program` says. */
  ghost predicate Result(image: seq<byte>, wp: bool, free: nat, outcome: Outcome, space: Space) {
    Readable(image) && (4 * (LoadCount(image, PhNum(image)) + STACKPAGES) <= free ==>
      var program := Program(image, wp);
      && outcome == (if program == None then PageFault else Entered(EntryPoint(image), 0x700_0000_7FF8))
      && (program.Some? ==> space == program.value))
  }

  /** The two loops: load the segments, then map the stack pages. */
  method LoadProgram(k: Kernel, image: seq<byte>, wp: bool, ghost s0: Phys) returns (outcome: Outcome)
    requires k.Valid() && Sound(s0, k.Now(), k.hhdmBase) && k.cr3 == k.Root()
    requires Readable(image) && SpaceOf(k.Now()) == map[]
    modifies k`freelist, k`freePageCounter, k`own, k`seen, k.mem
    ensures k.Valid() && Sound(s0, k.Now(), k.hhdmBase) && k.cr3 == k.Root()
    ensures outcome != NotFound && Result(image, wp, old(|k.own.free|), outcome, SpaceOf(k.Now()))
  {
    hide Ok, UserSpaceOk, SpaceOf, Safe, UpperWalks, Readable, Result, Loaded, WellSized, PhdrAt, Field, HasTable,
         LoadCount, LoadedUpTo, WithStack, Mapped;
    ghost var free := |k.own.free|;
    ReadableStart(image, wp);
    ghost var enough := 4 * (LoadCount(image, PhNum(image)) + STACKPAGES) <= free;
    var n := PhNum(image);
    var p := 0;
    while p < n
      invariant p <= n && k.Valid() && Sound(s0, k.Now(), k.hhdmBase) && k.cr3 == k.Root()
      invariant enough ==> |k.own.free| >= 4 * (LoadCount(image, n) - LoadCount(image, p) + STACKPAGES)
      invariant enough ==> LoadedUpTo(image, p, wp) == Some(SpaceOf(k.Now()))
    {
      ReadableAt(image, p);
      LoadCountGrows(image, p + 1, n);
      ghost var space := SpaceOf(k.Now());
      var loaded := LoadSegment(k, image, PhdrAt(image, p), wp, s0);
      OneMore(image, p, wp);
      if !loaded {
        if enough { LoadingStops(image, p + 1, n, wp); }
        ResultOf(image, wp, free, PageFault, SpaceOf(k.Now()));
        return PageFault;
      }
      p := p + 1;
    }
    var stack := 0x700_0000_0000;
    var a := stack;
    ghost var segments, pages := SpaceOf(k.Now()), 0;
    StackStart(segments);
    while a < stack + 8 * 0x1000
      invariant a == stack + PAGE * pages && pages <= STACKPAGES
      invariant k.Valid() && Sound(s0, k.Now(), k.hhdmBase) && k.cr3 == k.Root()
      invariant enough ==> |k.own.free| >= 4 * (STACKPAGES - pages)
      invariant enough ==> SpaceOf(k.Now()) == WithStack(segments, pages)
    {
      StackStep(segments, pages);
      MapUser(k, a, s0);
      a := a + 0x1000;
      pages := pages + 1;
    }
    outcome := Entered(EntryPoint(image), stack + 8 * 0x1000 - 8);
    ResultOf(image, wp, free, outcome, SpaceOf(k.Now()));
  }

  lemma OneMore(image: seq<byte>, p: nat, wp: bool)
    requires Readable(image) && p < PhNum(image)
    ensures LoadCount(image, p + 1) == LoadCount(image, p) + if IsLoaded(PhdrAt(image, p)) then 1 else 0
    ensures IsLoaded(PhdrAt(image, p)) ==> PhdrAt(image, p).offset + PhdrAt(image, p).memsz <= |image|
    ensures var before := LoadedUpTo(image, p, wp);
      before.Some? ==> LoadedUpTo(image, p + 1, wp) == Loaded(before.value, image, PhdrAt(image, p), wp)
  {
    hide Loaded, PhdrAt;
  }

  lemma StackStart(space: Space)
    ensures WithStack(space, 0) == space
  {
  }

  lemma StackStep(space: Space, n: nat)
    ensures WithStack(space, n + 1) == Mapped(WithStack(space, n), STACKPAGE + n)
    ensures (0x700_0000_0000 + PAGE * n) / PAGE == STACKPAGE + n
  {
  }

  lemma AfterTeardown(s: Phys, s': Phys, hhdm: nat, freed: seq<nat>)
    requires Ok(s', hhdm) && UserSpaceOk(View(s'.m), s'.own) && s'.own == TornDown(s.own, freed)
    requires ROOT in s.own.tables && ROOT in s'.own.tables && s'.own.tables[ROOT] == s.own.tables[ROOT]
    requires s'.count - |s'.own.free| == s.count - |s.own.free|
    requires LowerGone(View(s.m), View(s'.m), s.own.tables[ROOT])
    ensures Sound(s, s', hhdm) && SpaceOf(s') == map[] && |s'.own.free| == |s.own.free| + |freed|
  {
    SpaceAfterDrop(s', s.own, freed);
  }

  /** Replace the program in the current address space by the module called `modulename`. */
  method ExecSetup(k: Kernel, modulename: string, modules: seq<Module>, wp: bool)
    returns (outcome: Outcome, ghost freed: seq<nat>)
    requires k.Valid() && k.cr3 == k.Root()
    requires forall m :: m in modules && m.name == modulename ==> Readable(m.image)
    modifies k`freelist, k`freePageCounter, k`own, k`seen, k.mem
    ensures k.Valid() && k.cr3 == k.Root() && UserOk(k.Now(), k.hhdmBase)
    ensures ListsLowerTables(old(k.own), freed)
    ensures k.freePageCounter - |k.own.free| == old(k.freePageCounter - |k.own.free|)
    ensures UpperWalks(old(k.Frames()), k.Frames(), k.own.tables[ROOT])
    ensures outcome == NotFound <==> FindModule(modules, modulename) == None
    ensures outcome == NotFound ==> SpaceOf(k.Now()) == map[]
    ensures outcome != NotFound ==>
      Result(FindModule(modules, modulename).value.image, wp, old(|k.own.free|) + |freed|, outcome, SpaceOf(k.Now()))
  {
    hide Ok, UserSpaceOk, SpaceOf, Safe, UpperWalks, Readable, LowerGone, TornDown, ListsLowerTables, Result,
          Loaded, WellSized;
    ghost var before := k.Now();
    InRange(before, k.hhdmBase);
    freed := k.UnmapLowerHalf(k.cr3);
    ghost var s0 := k.Now();
    InRange(s0, k.hhdmBase);
    AfterTeardown(before, s0, k.hhdmBase, freed);
    var i := 0;
    var found := false;
    var ourmod := Module("", []);
    while i < |modules|
      invariant 0 <= i <= |modules| && !found
      invariant FindModule(modules, modulename) == FindModule(modules[i..], modulename)
    {
      ourmod := modules[i];
      if modulename == ourmod.name {
        found := true;
        break;
      }
      i := i + 1;
    }
    if !found {
      return NotFound, freed;
    }
    FoundIsReadable(modules, modulename);
    outcome := LoadProgram(k, ourmod.image, wp, before);
  }

  lemma FoundIsReadable(modules: seq<Module>, name: string)
    requires forall m :: m in modules && m.name == name ==> Readable(m.image)
    requires FindModule(modules, name).Some?
    ensures Readable(FindModule(modules, name).value.image)
  {
  }

  lemma ReadableStart(image: seq<byte>, wp: bool)
    requires Readable(image)
    ensures HasTable(image) && LoadCount(image, 0) == 0 && LoadedUpTo(image, 0, wp) == Some(map[])
  {
  }

  lemma ReadableAt(image: seq<byte>, i: nat)
    requires Readable(image) && i < PhNum(image)
    ensures IsLoaded(PhdrAt(image, i)) ==>
      && PhdrAt(image, i).offset + PhdrAt(image, i).memsz <= |image|
      && PhdrAt(image, i).vaddr + PhdrAt(image, i).memsz <= PAGE * LOWERPAGES
      && PhdrAt(image, i).vaddr < PAGE * LOWERPAGES
  {
  }

  lemma {:induction false} LoadCountGrows(image: seq<byte>, i: nat, n: nat)
    requires HasTable(image) && i <= n <= PhNum(image)
    ensures LoadCount(image, i) <= LoadCount(image, n)
    decreases n
  {
    hide PhdrAt, Field;
    if i < n { LoadCountGrows(image, i, n - 1); }
  }

  lemma {:induction false} LoadingStops(image: seq<byte>, i: nat, n: nat, wp: bool)
    requires Readable(image) && i <= n <= PhNum(image) && LoadedUpTo(image, i, wp) == None
    ensures LoadedUpTo(image, n, wp) == None
    decreases n
  {
    hide PhdrAt, Field, Loaded;
    if i < n { LoadingStops(image, i, n - 1, wp); }
  }

  lemma ResultOf(image: seq<byte>, wp: bool, free: nat, outcome: Outcome, space: Space)
    requires Readable(image)
    requires 4 * (LoadCount(image, PhNum(image)) + STACKPAGES) <= free ==>
      var segments := LoadedUpTo(image, PhNum(image), wp);
      if segments == None then outcome == PageFault
      else outcome == Entered(EntryPoint(image), 0x700_0000_7FF8)
           && space == WithStack(segments.value, STACKPAGES)
    ensures Result(image, wp, free, outcome, space)
  {
  }
}
