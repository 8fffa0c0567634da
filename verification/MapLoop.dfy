/** The loop of vm_map on snapshots: after every iteration memory, the ownership state and the stores so far are
    what MapStores says. */
module MapLoop {
  import opened Words
  import opened Entry
  import opened Tables
  import opened Edits
  import opened UserSpace
  import opened Growth
  import opened Snapshots
  import opened MapStores

  /** The loop of vm_map, started in `s0`, stands at level `k`; `views` is what it stored. */
  ghost predicate Looping(s0: Phys, s: Phys, hhdm: nat, v: nat, k: nat, views: seq<seq<Frame>>) {
    && Reached(s0, s, hhdm, v, k)
    && View(s.m) == GrownFrames(View(s0.m), s0.own, v, k)
    && views == GrownViews(View(s0.m), s0.own, v, k, PresentFirst)
  }

  lemma LoopStart(s: Phys, hhdm: nat, v: nat)
    requires Ok(s, hhdm) && v < PAGES && NoHuge(View(s.m), s.own, v)
    ensures Looping(s, s, hhdm, v, 4, []) && Mappable(View(s.m), hhdm, s.head, s.own, v)
  {
    Start(s, hhdm, v);
    GrownStart(View(s.m), s.own, v, 4, PresentFirst, v);
  }

  /** Above a table that is there, nothing was missing. */
  lemma NothingGrown(w: seq<Frame>, o: Own, v: nat, k: nat)
    requires TreeOk(w, o) && v < PAGES && 2 <= k <= 4 && On(k - 1, v) in Grown(o, v, k).tables
    ensures GrownFrames(w, o, v, k - 1) == GrownFrames(w, o, v, k)
    ensures GrownViews(w, o, v, k - 1, PresentFirst) == GrownViews(w, o, v, k, PresentFirst)
  {
    GrownTables(o, v, k);
    ChildOn(k, v);
    assert On(k - 1, v) in o.tables;
    assert On(k, v) in o.tables;
    GrownStart(w, o, v, k, PresentFirst, v);
    GrownStart(w, o, v, k - 1, PresentFirst, v);
  }

  lemma LoopDescends(s0: Phys, s: Phys, hhdm: nat, v: nat, k: nat, views: seq<seq<Frame>>)
    requires Looping(s0, s, hhdm, v, k, views) && 2 <= k && s.own.tables[On(k, v)] < |s.m| / PAGE
    requires Next(s, v, k).present
    ensures Looping(s0, s, hhdm, v, k - 1, views) && Next(s, v, k).address == s.own.tables[On(k - 1, v)]
  {
    Descend(s0, s, hhdm, v, k);
    hide Safe, SameWalks, NoHuge, Decode, GrownFrames, GrownViews, Grown;
    NothingGrown(View(s0.m), s0.own, v, k);
  }

  lemma LoopLinks(s0: Phys, s: Phys, s1: Phys, hhdm: nat, v: nat, k: nat, views: seq<seq<Frame>>, e: Entry)
    requires Looping(s0, s, hhdm, v, k, views) && 2 <= k
    requires Linked(s, s1, hhdm, v, k, e) && CanLink(View(s.m), s.own, v, k)
    requires e == LinkEntry(Next(s, v, k), s.own.free[0], true, true, false)
    ensures Looping(s0, s1.(own := WithTable(s.own, On(k - 1, v))), hhdm, v, k - 1,
                    views + StepViews(View(s.m), s.own, v, k, true, true, false, PresentFirst))
  {
    TableThere(s0, s, hhdm, v, k);
    LinkStep(s0, s, s1, hhdm, v, k, e);
    NothingThere(s, hhdm, v, k);
    GrownTables(s0.own, v, k);
    hide Safe, SameWalks, NoHuge, Decode, GrownFrames, GrownViews, Grown, StepViews, Harmless;
    GrownStep(View(s0.m), s0.own, v, k - 1);
    QuietStep(View(s0.m), s0.own, v, k - 1, PresentFirst, v);
  }

  lemma LoopMaps(s0: Phys, s: Phys, s1: Phys, hhdm: nat, v: nat, views: seq<seq<Frame>>, e: Entry,
                 user: bool, writable: bool, executable: bool)
    requires Looping(s0, s, hhdm, v, 1, views) && Linked(s, s1, hhdm, v, 1, e) && CanLink(View(s.m), s.own, v, 1)
    requires e == LinkEntry(Next(s, v, 1), s.own.free[0], user, writable, !executable)
    ensures var o := WithLeaf(s.own, v, Mapping(s.own.free[0], user, writable, executable));
      && Ok(s1.(own := o), hhdm) && Safe(s0, s1.(own := o), hhdm, v)
          && MapPage(s0.own, v, user, writable, executable) == (true, o)
      && ROOT in o.tables && ROOT in s0.own.tables && o.tables[ROOT] == s0.own.tables[ROOT]
    ensures View(s1.m) == MapFrames(View(s0.m), s0.own, v, user, writable, executable)
    ensures views + StepViews(View(s.m), s.own, v, 1, user, writable, !executable, PresentFirst)
         == MapViews(View(s0.m), s0.own, v, user, writable, executable, PresentFirst)
  {
    LeafStep(s0, s, s1, hhdm, v, e);
    NothingThere(s, hhdm, v, 1);
    GrownFree(s0.own, v, 1);
  }

  /** Without free pages nothing more is linked. */
  lemma {:induction false} StuckViews(w: seq<Frame>, o: Own, v: nat, k: nat, l: nat)
    requires TreeOk(GrownFrames(w, o, v, k), Grown(o, v, k))
    requires 1 <= l < k <= 4 && Grown(o, v, k).free == [] && On(k - 1, v) !in Grown(o, v, k).tables
    ensures Grown(o, v, l) == Grown(o, v, k) && GrownFrames(w, o, v, l) == GrownFrames(w, o, v, k)
    ensures GrownViews(w, o, v, l, PresentFirst) == GrownViews(w, o, v, k, PresentFirst)
    decreases k - l
  {
    hide GrownFrames, GrownViews, Harmless;
    GrownTables(o, v, k);
    GrownStuck(GrownFrames(w, o, v, k), o, Grown(o, v, k), v, k, l);
    if l + 1 < k {
      StuckViews(w, o, v, k, l + 1);
    }
    GrownStep(w, o, v, l);
    QuietStep(w, o, v, l, PresentFirst, v);
  }

  lemma LoopFails(s0: Phys, s: Phys, hhdm: nat, v: nat, k: nat, views: seq<seq<Frame>>, user: bool, writable: bool,
                  executable: bool)
    requires Looping(s0, s, hhdm, v, k, views) && s.own.tables[On(k, v)] < |s.m| / PAGE
    requires if Next(s, v, k).present then k == 1 else s.own.free == []
    ensures MapPage(s0.own, v, user, writable, executable) == (false, s.own)
    ensures Ok(s, hhdm) && Safe(s0, s, hhdm, v) && ROOT in s.own.tables
        && SameWalks(View(s0.m), View(s.m), s.own.tables[ROOT])
    ensures ROOT in s0.own.tables && s.own.tables[ROOT] == s0.own.tables[ROOT]
    ensures View(s.m) == MapFrames(View(s0.m), s0.own, v, user, writable, executable)
    ensures views == MapViews(View(s0.m), s0.own, v, user, writable, executable, PresentFirst)
  {
    hide Decode, FrameAt, Load, SameWalks, SameWalksBut, KeepsData, UserSpaceOk, NoHuge, Grown, GrownFrames, GrownViews;
    FailsLikeMap(s0, s, hhdm, v, k, user, writable, executable);
    if Next(s, v, k).present {
      PresentLeaf(s, hhdm, v);
      GrownFree(s0.own, v, 1);
    } else if k > 1 {
      NothingThere(s, hhdm, v, k);
      StuckViews(View(s0.m), s0.own, v, k, 1);
    }
  }

  lemma FailsLikeMap(s0: Phys, s: Phys, hhdm: nat, v: nat, k: nat, user: bool, writable: bool, executable: bool)
    requires Reached(s0, s, hhdm, v, k) && s.own.tables[On(k, v)] < |s.m| / PAGE
    requires if Next(s, v, k).present then k == 1 else s.own.free == []
    ensures MapPage(s0.own, v, user, writable, executable) == (false, s.own)
  {
    hide Safe, NoHuge, SameWalks, Grown, Decode;
    if Next(s, v, k).present {
      AlreadyMapped(s0, s, hhdm, v, user, writable, executable);
    } else {
      OutOfMemory(s0, s, hhdm, v, k, user, writable, executable);
    }
  }

  lemma LoopTable(s0: Phys, s: Phys, hhdm: nat, v: nat, k: nat, views: seq<seq<Frame>>)
    requires Looping(s0, s, hhdm, v, k, views)
    ensures Ok(s, hhdm) && On(k, v) in s.own.tables && s.own.tables[On(k, v)] < |s.m| / PAGE && v < PAGES
    ensures ROOT in s.own.tables && ROOT in s0.own.tables && s.own.tables[ROOT] == s0.own.tables[ROOT]
    ensures k >= 2 ==> !Next(s, v, k).pageSize
    ensures s.own.free != [] ==> CanLink(View(s.m), s.own, v, k)
  {
    TableThere(s0, s, hhdm, v, k);
    FreeInRange(s, hhdm);
    if s.own.free != [] {
      assert s.own.free[0] in s.own.free;
    }
  }
}
