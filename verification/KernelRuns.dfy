/** Runs of the kernel's own routines on memory: any sequence of calls, and the sequence after which the
    translation cache can be wrong. */
module KernelRuns {
  import opened Options
  import opened Memory
  import opened Words
  import opened Entry
  import opened Tables
  import opened Edits
  import opened UserSpace
  import opened Growth
  import opened Unmapping
  import opened Snapshots
  import opened Teardown
  import opened UserMemory
  import opened Paging
  import opened Runs
  import opened Windows
  import opened MapStores
  import opened StaleEntries
  import opened Hardware
  import Loader

  /** A call on a lower-half page, or of unmap_lower_half. */
  datatype Call =
    | CallMap(address: nat, user: bool, writable: bool, executable: bool)
    | CallProtect(address: nat, user: bool, writable: bool, executable: bool)
    | CallUnmap(address: nat)
    | CallDropLower

  predicate IsLowerCall(c: Call) {
    c.CallDropLower? || PageOf(c.address) < LOWERPAGES
  }

  /** The step of the ownership state that a call makes. */
  predicate Makes(c: Call, op: Op) {
    match c
    case CallMap(a, u, w, x) => op == Map(PageOf(a), u, w, x)
    case CallProtect(a, u, w, x) => op == Protect(PageOf(a), u, w, x)
    case CallUnmap(a) => op == Unmap(PageOf(a))
    case CallDropLower => op.DropLower?
  }

  /** What every call keeps, since state `s0`. */
  ghost predicate Running(s0: Phys, s: Phys, hhdm: nat) {
    && UserOk(s, hhdm) && ROOT in s0.own.tables && ROOT in s.own.tables
    && s.own.tables[ROOT] == s0.own.tables[ROOT]
    && s.count - |s.own.free| == s0.count - |s0.own.free|
    && Loader.UpperWalks(View(s0.m), View(s.m), s0.own.tables[ROOT])
  }

  lemma RunningStart(s: Phys, hhdm: nat)
    requires UserOk(s, hhdm)
    ensures Running(s, s, hhdm)
  {
  }

  lemma RunningKept(s0: Phys, s: Phys, s': Phys, hhdm: nat, v: nat)
    requires Running(s0, s, hhdm) && Kept(s, s', hhdm, v) && v < LOWERPAGES
    ensures Running(s0, s', hhdm)
  {
    hide SameWalksBut, Walk, Inv, UserSpaceOk, Loader.UpperWalks;
    RootOk(s, hhdm);
    RootOk(s', hhdm);
    Loader.UpperWalksChain(View(s0.m), View(s.m), View(s'.m), s0.own.tables[ROOT]);
  }

  lemma RootOk(s: Phys, hhdm: nat)
    requires Ok(s, hhdm)
    ensures ROOT in s.own.tables && s.own.tables[ROOT] < |View(s.m)| && TreeOk(View(s.m), s.own)
  {
  }

  lemma RunningDropped(s0: Phys, s: Phys, s': Phys, hhdm: nat)
    requires Running(s0, s, hhdm) && UserOk(s', hhdm) && s'.count - |s'.own.free| == s.count - |s.own.free|
    requires ROOT in s'.own.tables && s'.own.tables[ROOT] == s0.own.tables[ROOT]
    requires LowerGone(View(s.m), View(s'.m), s0.own.tables[ROOT])
    ensures Running(s0, s', hhdm)
  {
    hide Walk, Inv, UserSpaceOk;
  }

  lemma RunningOk(s0: Phys, s: Phys, hhdm: nat)
    requires Running(s0, s, hhdm)
    ensures UserOk(s, hhdm) && Ok(s, hhdm)
    ensures ROOT in s0.own.tables && ROOT in s.own.tables && s.own.tables[ROOT] == s0.own.tables[ROOT]
  {
  }

  lemma UserOwns(s: Phys, hhdm: nat, v: nat)
    requires UserOk(s, hhdm) && v in s.own.leaves && v < LOWERPAGES
    ensures OwnFrame(s.own, v)
  {
  }

  /** One call. */
  method Do(k: Kernel, c: Call, ghost s0: Phys) returns (ok: bool, ghost op: Op)
    requires k.Valid() && Running(s0, k.Now(), k.hhdmBase) && k.cr3 == k.Root() && IsLowerCall(c)
    modifies k`freelist, k`freePageCounter, k`own, k`seen, k.mem
    ensures k.Valid() && Running(s0, k.Now(), k.hhdmBase) && k.cr3 == k.Root()
    ensures Makes(c, op) && Legal(old(k.own), op) && (ok, k.own) == Step(old(k.own), op)
  {
    hide Inv, UserSpaceOk, SameWalks, SameWalksBut, KeepsData, Walk, FrameAt, MapPage, NoHuge, TornDown, LowerGone,
         Running, AllSameBut, ListsLowerTables, MapFrames, MapViews, Loader.UpperWalks;
    ghost var s, hhdm := k.Now(), k.hhdmBase;
    RunningOk(s0, s, hhdm);
    match c
    case CallMap(a, u, w, x) =>
      UserNoHuge(s, hhdm, PageOf(a));
      ok := k.VmMap(k.cr3, a, u, w, x);
      op := Map(PageOf(a), u, w, x);
      RunningKept(s0, s, k.Now(), hhdm, PageOf(a));
    case CallProtect(a, u, w, x) =>
      UserNoHuge(s, hhdm, PageOf(a));
      ok := k.VmProtect(k.cr3, a, u, w, x);
      op := Protect(PageOf(a), u, w, x);
      RunningKept(s0, s, k.Now(), hhdm, PageOf(a));
    case CallUnmap(a) =>
      UserNoHuge(s, hhdm, PageOf(a));
      assert PageOf(a) in k.own.leaves ==> OwnFrame(k.own, PageOf(a)) by {
        if PageOf(a) in k.own.leaves { UserOwns(s, hhdm, PageOf(a)); }
      }
      ok := k.VmUnmapShifted(k.cr3, a);
      op := Unmap(PageOf(a));
      RunningKept(s0, s, k.Now(), hhdm, PageOf(a));
    case CallDropLower =>
      ghost var freed := k.UnmapLowerHalf(k.cr3);
      ok := true;
      op := DropLower(freed);
      RootOk(k.Now(), hhdm);
      RunningDropped(s0, s, k.Now(), hhdm);
  }

  // ---------------------------------------------------------------- any run

  lemma {:induction false} RunAppend(o: Own, ops: seq<Op>, op: Op)
    requires LegalRun(o, ops) && Legal(Final(o, ops), op)
    ensures LegalRun(o, ops + [op]) && Final(o, ops + [op]) == Step(Final(o, ops), op).1
    ensures Results(o, ops + [op]) == Results(o, ops) + [Step(Final(o, ops), op).0]
    decreases |ops|
  {
    if ops == [] {
      assert [op][1..] == [];
    } else {
      assert (ops + [op])[1..] == ops[1..] + [op];
      RunAppend(Step(o, ops[0]).1, ops[1..], op);
    }
  }

  lemma NoRun(o: Own)
    ensures LegalRun(o, []) && Final(o, []) == o && Results(o, []) == []
  {
  }

  /** What the hardware finds for page `v` is what a plain map holds. */
  predicate Finds(found: Option<Mapping>, m: map<nat, Rights>, v: nat) {
    && (found.Some? <==> v in m)
    && (found.Some? ==> Rights(found.value.user, found.value.writable, found.value.executable) == m[v])
  }

  /** Any sequence of calls, from any state whose lower half only the kernel's routines built: every invariant
      holds at the end, the distance of the counter from the list length has not changed, no upper-half page
      translates differently, and for every lower-half page the hardware finds what replaying the successful
      calls on a plain map gives. */
  method RunCalls(k: Kernel, calls: seq<Call>) returns (results: seq<bool>, ghost ops: seq<Op>)
    requires k.Valid() && UserOk(k.Now(), k.hhdmBase) && k.cr3 == k.Root()
    requires forall c :: c in calls ==> IsLowerCall(c)
    modifies k`freelist, k`freePageCounter, k`own, k`seen, k.mem
    ensures k.Valid() && UserOk(k.Now(), k.hhdmBase) && k.cr3 == k.Root()
    ensures |ops| == |calls| && forall i :: 0 <= i < |ops| ==> Makes(calls[i], ops[i])
    ensures LegalRun(old(k.own), ops) && k.own == Final(old(k.own), ops) && results == Results(old(k.own), ops)
    ensures k.freePageCounter - |k.own.free| == old(k.freePageCounter - |k.own.free|)
    ensures Loader.UpperWalks(old(k.Frames()), k.Frames(), k.own.tables[ROOT])
    ensures forall a :: 0 <= a < 0x8000_0000_0000 ==>
              Finds(BytesWalk(k.mem[..], 4, k.cr3, a), Replay(RightsOf(old(k.own)), ops, results), a / 0x1000)
  {
    hide Inv, UserSpaceOk, Walk, BytesWalk, Running, Loader.UpperWalks, Final, Results, LegalRun, Step, Legal, Makes,
        FrameAt,
         IsLowerCall, Replay, RightsOf, Finds;
    ghost var s0 := k.Now();
    RunningStart(s0, k.hhdmBase);
    NoRun(k.own);
    results, ops := [], [];
    for i := 0 to |calls|
      invariant k.Valid() && Running(s0, k.Now(), k.hhdmBase) && ROOT in k.own.tables && k.cr3 == k.Root()
      invariant |ops| == i && forall j :: 0 <= j < i ==> Makes(calls[j], ops[j])
      invariant LegalRun(s0.own, ops) && k.own == Final(s0.own, ops) && results == Results(s0.own, ops)
    {
      ghost var op;
      var ok;
      ok, op := Do(k, calls[i], s0);
      RootOk(k.Now(), k.hhdmBase);
      RunAppend(s0.own, ops, op);
      results, ops := results + [ok], ops + [op];
    }
    RunEnds(s0, k.Now(), k.hhdmBase, ops);
  }

  lemma RunEnds(s0: Phys, s: Phys, hhdm: nat, ops: seq<Op>)
    requires Running(s0, s, hhdm) && s.own == Final(s0.own, ops)
    ensures UserOk(s, hhdm) && s.count - |s.own.free| == s0.count - |s0.own.free|
    ensures ROOT in s.own.tables && Loader.UpperWalks(View(s0.m), View(s.m), s.own.tables[ROOT])
    ensures forall a :: 0 <= a < 0x8000_0000_0000 ==>
      Finds(BytesWalk(s.m, 4, 0x1000 * s.own.tables[ROOT], a), Replay(RightsOf(s0.own), ops, Results(s0.own, ops)),
            a / 0x1000)
  {
    hide Inv, Walk, BytesWalk, Loader.UpperWalks, Final, Results, Replay, RightsOf;
    RootOk(s, hhdm);
    forall a | 0 <= a < 0x8000_0000_0000
      ensures Finds(BytesWalk(s.m, 4, 0x1000 * s.own.tables[ROOT], a),
                    Replay(RightsOf(s0.own), ops, Results(s0.own, ops)), a / 0x1000)
    {
      PageAddress(a);
      BytesWalkIsWalk(s.m, 4, s.own.tables[ROOT], a);
      RunWalk(View(s.m), s0.own, ops, PageOf(a));
    }
  }

  // ---------------------------------------------------------------- the run after which the cache can be wrong

  /** Nothing is left of the lower half. */
  ghost predicate LowerEmpty(o: Own) {
    (forall q :: q in o.tables ==> !IsLower(q)) && forall v :: v in o.leaves ==> v >= LOWERPAGES
  }

  lemma DroppedIsEmpty(o: Own, freed: seq<nat>)
    ensures LowerEmpty(TornDown(o, freed)) && TornDown(o, freed).free == freed + o.free
  {
  }

  /** Mapping the first page of an empty lower half takes four pages, the first for the level-3 table of its slot,
      which is then the only one. */
  lemma FirstMap(w: seq<Frame>, hhdm: nat, head: nat, o: Own, v: nat, user: bool, writable: bool, executable: bool)
    requires Inv(w, hhdm, head, o) && LowerEmpty(o) && v < LOWERPAGES && |o.free| >= 4
    ensures var (ok, p) := MapPage(o, v, user, writable, executable);
      && ok && v in p.leaves && |p.free| == |o.free| - 4
      && On(3, v) in p.tables && p.tables[On(3, v)] == o.free[0]
      && (forall q :: q in p.tables && IsLower(q) ==> q == On(q.level, v))
  {
    hide TreeOk, RolesOk, ChainOk;
    MapCost(w, hhdm, head, o, v, user, writable, executable);
    OnIsLower(1, v);
    OnIsLower(2, v);
    OnIsLower(3, v);
    assert On(1, v) !in o.tables && On(2, v) !in o.tables && On(3, v) !in o.tables;
    ThirdFirst(o, v);
  }

  lemma ThirdFirst(o: Own, v: nat)
    requires o.free != [] && On(1, v) !in o.tables && On(2, v) !in o.tables && On(3, v) !in o.tables
    ensures var p := Grown(o, v, 1); On(3, v) in p.tables && p.tables[On(3, v)] == o.free[0]
  {
    assert Grown(o, v, 4) == o;
    assert Grown(o, v, 3) == WithTable(o, On(3, v));
    var p2 := Grown(o, v, 2);
    assert On(3, v) in p2.tables && p2.tables[On(3, v)] == o.free[0];
  }

  lemma SlotOf(v: nat)
    requires v < LOWERPAGES
    ensures Index(4, v) < 256 && Child(ROOT, Index(4, v)) == On(3, v) && On(4, v) == ROOT
  {
    OnRoot(v);
    ChildOn(4, v);
    OnIsLower(3, v);
  }

  /** The slot of the only page is the last one that is used. */
  lemma OnlySlotIsLast(o: Own, v: nat)
    requires v < LOWERPAGES && On(3, v) in o.tables && forall q :: q in o.tables && IsLower(q) ==> q == On(q.level, v)
    ensures LastSlot(o, Index(4, v), 256)
  {
    SlotOf(v);
    forall j | Index(4, v) < j < 256 ensures Child(ROOT, j) !in o.tables {
      assert IsLower(Child(ROOT, j));
    }
  }

  /** After the teardown the entry of that slot still names the frame that is now the head of the list. */
  lemma SlotStillNames(w: seq<Frame>, w': seq<Frame>, o: Own, freed: seq<nat>, v: nat)
    requires TreeOk(w, o) && v < LOWERPAGES && On(3, v) in o.tables && |w'| == |w|
    requires forall q :: q in o.tables && IsLower(q) ==> q == On(q.level, v)
    requires RootCleared(w, w', o.tables[ROOT], 256) && LastFirst(o, 256, freed)
    ensures freed != [] && freed[0] == o.tables[On(3, v)]
    ensures EntryAt(w', o.tables[ROOT], Index(4, v)).address == freed[0]
  {
    hide RolesOk, Encode, Decode;
    SlotOf(v);
    OnlySlotIsLast(o, v);
    assert SlotOk(w, o, ROOT, Index(4, v));
    ClearedAddress(w[o.tables[ROOT]][Index(4, v)]);
  }

  lemma ClearedAddress(x: word)
    ensures Decode(Cleared(x)).address == Decode(x).address
  {
    DecodeEncode(Decode(x).(present := false));
  }

  /** vm_map leaves the level-4 entries of other slots alone. */
  lemma {:induction false} GrownRoot(w: seq<Frame>, hhdm: nat, head: nat, o: Own, v: nat, k: nat, j: nat)
    requires Mappable(w, hhdm, head, o, v) && 1 <= k <= 4 && j < 512 && j != Index(4, v)
    ensures ROOT in o.tables && o.tables[ROOT] < |w|
    ensures GrownFrames(w, o, v, k)[o.tables[ROOT]][j] == w[o.tables[ROOT]][j]
    decreases 4 - k
  {
    hide Mappable, Stands, Linkable, CanLink, On, Grown, GrownFrames, GrownViews, Harmless, LinkedFrames;
    RootInRange(w, hhdm, head, o, v);
    if k >= 4 || On(k, v) in o.tables {
      GrownStart(w, o, v, k, PresentFirst, v);
    } else {
      GrownStep(w, o, v, k);
      GrownRoot(w, hhdm, head, o, v, k + 1, j);
      if Grown(o, v, k + 1).free != [] {
        GrownKeeps(w, hhdm, head, o, v, k + 1);
        GrownLinks(w, hhdm, head, o, v, k);
        StandsParts(w, hhdm, o, v, GrownFrames(w, o, v, k + 1), Grown(o, v, k + 1));
        LinkedRoot(GrownFrames(w, o, v, k + 1), Grown(o, v, k + 1), v, k + 1, true, true, false, j);
      }
    }
  }

  lemma RootInRange(w: seq<Frame>, hhdm: nat, head: nat, o: Own, v: nat)
    requires Mappable(w, hhdm, head, o, v)
    ensures ROOT in o.tables && o.tables[ROOT] < |w|
  {
  }

  lemma LinkedRoot(w: seq<Frame>, o: Own, v: nat, k: nat, user: bool, writable: bool, noExecute: bool, j: nat)
    requires Linkable(w, o, v, k) && j < 512 && j != Index(4, v)
    ensures ROOT in o.tables && o.tables[ROOT] < |w| && CanLink(w, o, v, k)
    ensures LinkedFrames(w, o, v, k, user, writable, noExecute)[o.tables[ROOT]][j] == w[o.tables[ROOT]][j]
  {
    hide Decode, SlotOk;
    var e := LinkEntry(Held(w, o, v, k), o.free[0], user, writable, noExecute);
    FreeFrameApart(w, o);
    EntryEdits(w, o, v, k, e);
    EditedElsewhere(w, WithEntry(w, o, v, k, e), o, On(k, v), Index(k, v), e, {o.free[0]}, ROOT, j);
  }

  lemma MapRoot(w: seq<Frame>, hhdm: nat, head: nat, o: Own, v: nat, user: bool, writable: bool, executable: bool,
      j: nat)
    requires Mappable(w, hhdm, head, o, v) && j < 512 && j != Index(4, v)
    ensures ROOT in o.tables && o.tables[ROOT] < |w|
    ensures MapFrames(w, o, v, user, writable, executable)[o.tables[ROOT]][j] == w[o.tables[ROOT]][j]
  {
    hide Mappable, Stands, Linkable, CanLink, Grown, GrownFrames, LinkedFrames, LinksPage;
    GrownRoot(w, hhdm, head, o, v, 1, j);
    LinksWhenOk(w, hhdm, head, o, v);
    GrownKeeps(w, hhdm, head, o, v, 1);
    if LinksPage(w, o, v) {
      StandsParts(w, hhdm, o, v, GrownFrames(w, o, v, 1), Grown(o, v, 1));
      LinkedRoot(GrownFrames(w, o, v, 1), Grown(o, v, 1), v, 1, user, writable, !executable, j);
    }
  }

  /** Different slots have different level-3 tables. */
  lemma SlotsDiffer(u: nat, v: nat)
    requires Index(4, u) != Index(4, v)
    ensures On(3, u) != On(3, v)
  {
  }

  /** Mapping page `v1` of another slot then turns that frame into the level-3 table of that slot. */
  lemma NamesAfterMap(w: seq<Frame>, hhdm: nat, head: nat, o: Own, v1: nat, v: nat, w': seq<Frame>, p: Own)
    requires Mappable(w, hhdm, head, o, v1) && LowerEmpty(o) && v < LOWERPAGES && v1 < LOWERPAGES && |o.free| >= 4
    requires Index(4, v) != Index(4, v1) && v % 0x800_0000 != v1 % 0x800_0000
    requires ROOT in o.tables && o.tables[ROOT] < |w| && EntryAt(w, o.tables[ROOT], Index(4, v)).address == o.free[0]
    requires p == MapPage(o, v1, true, true, false).1 && w' == MapFrames(w, o, v1, true, true, false)
    requires TreeOk(w', p) && RolesOk(|w'|, p) && UserSpaceOk(w', p) && ROOT in p.tables
        && p.tables[ROOT] == o.tables[ROOT]
    ensures NamesOther(w', p, v, v1)
  {
    hide TreeOk, RolesOk, UserSpaceOk, MapPage, MapFrames, Decode, NoHuge;
    FirstMap(w, hhdm, head, o, v1, true, true, false);
    MapRoot(w, hhdm, head, o, v1, true, true, false, Index(4, v));
    SlotsDiffer(v1, v);
    OnIsLower(3, v);
  }

  /** A program with a page `a` comes and goes: the level-4 entry of its slot still names the page that is now the
      head of the free list. */
  method FirstProgram(k: Kernel, a: nat)
    requires k.Valid() && UserOk(k.Now(), k.hhdmBase) && k.cr3 == k.Root() && |k.own.free| >= 12
    requires PageOf(a) < LOWERPAGES
    modifies k`freelist, k`freePageCounter, k`own, k`seen, k.mem
    ensures k.Valid() && UserOk(k.Now(), k.hhdmBase) && k.cr3 == k.Root()
    ensures LowerEmpty(k.own) && |k.own.free| >= 8 && k.own.tables[ROOT] < |k.Frames()|
    ensures EntryAt(k.Frames(), k.own.tables[ROOT], Index(4, PageOf(a))).address == k.own.free[0]
  {
    hide Safe, Walk, MapPage, NoHuge, TornDown, LowerGone, KeepsData, View, Index, Decode, TreeOk,
         ListsLowerTables, MapFrames, MapViews, RootCleared, LastFirst, LowerEmpty, UserSpaceOk, IsLower, Inv, Up,
         LowerDropped, LeafBytes, LeafSlot;
    ghost var v, hhdm := PageOf(a), k.hhdmBase;
    ghost var o0 := k.own;
    ghost var freed := k.UnmapLowerHalf(k.cr3);
    DroppedIsEmpty(o0, freed);
    ghost var s1 := k.Now();
    UserNoHuge(s1, hhdm, v);
    FirstMap(View(s1.m), hhdm, s1.head, s1.own, v, true, true, false);
    var ok := k.VmMap(k.cr3, a, true, true, false);
    ghost var s2 := k.Now();
    RootOk(s2, hhdm);
    freed := k.UnmapLowerHalf(k.cr3);
    RootOk(k.Now(), hhdm);
    DroppedIsEmpty(s2.own, freed);
    SlotStillNames(View(s2.m), k.Frames(), s2.own, freed, v);
  }

  /** A segment at 0x400000 and the first stack page of exec_setup are two such pages; the slot of the stack then
      shows the segment at 0x70000400000. */
  lemma ExecPages()
    ensures var v1, v2 := PageOf(0x40_0000), PageOf(0x700_0000_0000);
      && v1 < LOWERPAGES && v2 < LOWERPAGES && Index(4, v1) != Index(4, v2) && v1 % 0x800_0000 != v2 % 0x800_0000
      && PAGE * Twin(v2, v1) == 0x700_0040_0000
  {
    UpFromTop(0x400);
    UpFromTop(0x7000_0000);
  }

  /** As exec_setup does for a second program: the lower half is dropped, a page `a1` (of a segment) is mapped in
      one slot and then a page `a2` (of the stack) in the slot that only the first program's stack had used. The
      last call succeeds, and some possible cache disagrees with the tables when it has returned. */
  method SecondProgram(k: Kernel, a1: nat, a2: nat) returns (ghost before: seq<Frame>, ghost views: seq<seq<Frame>>)
    requires k.Valid() && UserOk(k.Now(), k.hhdmBase) && k.cr3 == k.Root() && |k.own.free| >= 12
    requires PageOf(a1) < LOWERPAGES && PageOf(a2) < LOWERPAGES
    requires Index(4, PageOf(a1)) != Index(4, PageOf(a2)) && PageOf(a1) % 0x800_0000 != PageOf(a2) % 0x800_0000
    modifies k`freelist, k`freePageCounter, k`own, k`seen, k.mem
    ensures k.Valid() && UserOk(k.Now(), k.hhdmBase) && k.cr3 == k.Root()
    ensures PageOf(a1) in k.own.leaves && PageOf(a2) in k.own.leaves
    ensures |views| < |k.seen| && views == k.seen[|k.seen| - |views|..] && before == k.seen[|k.seen| - |views| - 1]
    ensures !Agrees(before, views, k.own.tables[ROOT], PageOf(a2), k.Frames())
  {
    hide Inv, UserSpaceOk, SameWalks, SameWalksBut, KeepsData, Walk, FrameAt, MapPage, NoHuge, SameBut, AllSameBut,
         LeafBytes, LeafSlot,
         MapFrames, MapViews, NamesOther, LowerEmpty, Agrees, Harmless;
    ghost var v1, v2, hhdm := PageOf(a1), PageOf(a2), k.hhdmBase;
    FirstProgram(k, a2);
    // the second program's segment page
    ghost var s3 := k.Now();
    RootOk(s3, hhdm);
    UserNoHuge(s3, hhdm, v1);
    FirstMap(View(s3.m), hhdm, s3.head, s3.own, v1, true, true, false);
    var ok := k.VmMap(k.cr3, a1, true, true, false);
    // its stack page
    ghost var s4, n := k.Now(), |k.seen|;
    before := k.Frames();
    LastView(View(s3.m), hhdm, s3.head, s3.own, v1, true, true, false);
    StillNamed(s3, s4, hhdm, v1, v2);
    UserNoHuge(s4, hhdm, v2);
    SecondMap(before, hhdm, s4.head, s4.own, v2, v1);
    ok := k.VmMap(k.cr3, a2, true, true, false);
    views := k.seen[n..];
    assert views == MapViews(before, s4.own, v2, true, true, false, PresentFirst);
  }

  /** The last store of a call that succeeds leaves memory as it is afterwards. */
  lemma LastView(w: seq<Frame>, hhdm: nat, head: nat, o: Own, v: nat, user: bool, writable: bool, executable: bool)
    requires Mappable(w, hhdm, head, o, v) && MapPage(o, v, user, writable, executable).0
    ensures var views := MapViews(w, o, v, user, writable, executable, PresentFirst);
      views != [] && views[|views| - 1] == MapFrames(w, o, v, user, writable, executable)
  {
    hide Mappable, Linkable, GrownFrames, GrownViews, PutEntry, Grown;
    LinksWhenOk(w, hhdm, head, o, v);
  }

  lemma StillNamed(s: Phys, s': Phys, hhdm: nat, v1: nat, v: nat)
    requires UserOk(s, hhdm) && UserOk(s', hhdm) && NoHuge(View(s.m), s.own, v1) && LowerEmpty(s.own)
    requires v < LOWERPAGES && v1 < LOWERPAGES && |s.own.free| >= 4
    requires Index(4, v) != Index(4, v1) && v % 0x800_0000 != v1 % 0x800_0000
    requires EntryAt(View(s.m), s.own.tables[ROOT], Index(4, v)).address == s.own.free[0]
    requires s'.own == MapPage(s.own, v1, true, true, false).1
    requires View(s'.m) == MapFrames(View(s.m), s.own, v1, true, true, false)
    requires s'.own.tables[ROOT] == s.own.tables[ROOT]
    ensures NamesOther(View(s'.m), s'.own, v, v1)
  {
    RootOk(s, hhdm);
    RootOk(s', hhdm);
    hide MapPage, MapFrames, NoHuge, TreeOk, RolesOk, ChainOk, UserSpaceOk, Decode, NamesOther;
    NamesAfterMap(View(s.m), hhdm, s.head, s.own, v1, v, View(s'.m), s'.own);
  }

  lemma NotThere(w: seq<Frame>, hhdm: nat, head: nat, o: Own, v: nat)
    requires Mappable(w, hhdm, head, o, v) && On(1, v) !in o.tables && |o.free| >= 4
    ensures var (ok, p) := MapPage(o, v, true, true, false);
      && ok && v in p.leaves && (forall u :: u in o.leaves ==> u in p.leaves)
  {
    hide RolesOk, ChainOk, SlotOk;
    MapCost(w, hhdm, head, o, v, true, true, false);
  }

  /** Mapping a page of a slot whose entry names another slot's table succeeds with four free pages, and is not
      coherent. */
  lemma SecondMap(w: seq<Frame>, hhdm: nat, head: nat, o: Own, v: nat, v1: nat)
    requires Mappable(w, hhdm, head, o, v) && NamesOther(w, o, v, v1) && |o.free| >= 4
    ensures ROOT in o.tables
    ensures var (ok, p) := MapPage(o, v, true, true, false);
      && ok && v in p.leaves && (forall u :: u in o.leaves ==> u in p.leaves)
    ensures !Agrees(w, MapViews(w, o, v, true, true, false, PresentFirst), o.tables[ROOT], v,
                    MapFrames(w, o, v, true, true, false))
  {
    hide Mappable, NamesOther, Harmless, Agrees, MapViews, MapFrames;
    MappableParts(w, hhdm, head, o, v);
    MissingBelow(w, hhdm, head, o, v, v1);
    NotThere(w, hhdm, head, o, v);
    OtherHarms(w, hhdm, head, o, v, v1);
    MapCoherentIff(w, hhdm, head, o, v, true, true, false);
  }
}
