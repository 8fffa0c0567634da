/** What table entries that are not present still name, and when that misleads the page walker during vm_map. */
module StaleEntries {
  import opened Options
  import opened Arithmetic
  import opened Words
  import opened Entry
  import opened Tables
  import opened Edits
  import opened Growth
  import opened UserSpace
  import opened Windows
  import opened MapStores

  // ---------------------------------------------------------------- harmless: what can be read off before the call

  /** Nothing in the frame reads as a present entry. */
  predicate AllAbsent(w: seq<Frame>, f: nat) {
    f < |w| ==> forall j :: 0 <= j < 512 ==> !EntryAt(w, f, j).present
  }

  lemma AbsentWalk(w: seq<Frame>, l: nat, f: nat, u: nat)
    requires AllAbsent(w, f) && 1 <= l <= 4
    ensures Walk(w, l, f, u) == None
  {
  }

  /** The frame is no page table and holds nothing that reads as a present entry. */
  ghost predicate Dead(w: seq<Frame>, o: Own, f: nat) {
    && (f in o.role ==> !o.role[f].Table?)
    && AllAbsent(w, f)
  }

  /** The places that new links may name for a moment are dead: the one named by the entry above the first
      missing table, and frame 0, which the entries of fresh tables name. */
  ghost predicate NoStale(w: seq<Frame>, o: Own, v: nat)
    requires TreeOk(w, o)
  {
    forall k :: 2 <= k <= 4 && On(k, v) in o.tables && On(k - 1, v) !in o.tables ==>
      && PlaceOk(|w|, o, On(k, v))
      && Dead(w, o, EntryAt(w, o.tables[On(k, v)], Index(k, v)).address)
      && (k >= 3 ==> Dead(w, o, 0))
  }

  /** A frame that holds no present entry, and is no table, holds none during the window. */
  lemma AbsentInWindow(w: seq<Frame>, o: Own, v: nat, k: nat, x: nat)
    requires Linkable(w, o, v, k) && k >= 2 && AllAbsent(w, Held(w, o, v, k).address)
    requires Held(w, o, v, k).address != o.tables[On(k, v)]
    ensures HeldIsDead(w, o, v, k, x)
  {
    var a, f, w' := Held(w, o, v, k).address, o.free[0], Window(w, o, v, k);
    hide Decode, TreeOk;
    EntryEdits(w, o, v, k, Held(w, o, v, k).(present := true));
    assert AllAbsent(w', a) by {
      if a < |w'| {
        forall i | 0 <= i < 512 ensures !EntryAt(w', a, i).present {
          if a == f {
            ZeroIsAbsent(i);
          } else {
            assert !EntryAt(w, a, i).present;
          }
        }
      }
    }
    forall u | 0 <= u < PAGES && u != x && Uses(On(k, v), Index(k, v), u) ensures Walk(w', k - 1, a, u) == None {
      AbsentWalk(w', k - 1, a, u);
    }
  }

  lemma ZeroAddress(j: nat)
    requires j < 512
    ensures Decode(ZeroFrame()[j]).address == 0
  {
    ZeroShifted(8);
  }

  lemma {:induction false} ZeroShifted(n: nat)
    ensures Shifted(0, n) == 0
  {
    if n > 0 { ZeroShifted(n - 1); }
  }

  /** Linking tables leaves frame 0 alone, and the table just linked is empty. */
  lemma {:induction false} GrownFresh(w: seq<Frame>, hhdm: nat, head: nat, o: Own, v: nat, k: nat)
    requires Mappable(w, hhdm, head, o, v) && 1 <= k <= 4
    ensures |w| > 0 ==> GrownFrames(w, o, v, k)[0] == w[0]
    ensures var p := Grown(o, v, k);
      On(k, v) in p.tables && On(k, v) !in o.tables && p.tables[On(k, v)] < |w| ==>
        GrownFrames(w, o, v, k)[p.tables[On(k, v)]] == ZeroFrame()
    decreases 4 - k
  {
    hide Mappable, Stands, Linkable, CanLink, On, Grown, GrownFrames, GrownViews, Harmless, LinkedFrames;
    if k >= 4 || On(k, v) in o.tables {
      GrownStart(w, o, v, k, PresentFirst, v);
      OnTop(w, hhdm, head, o, v);
    } else {
      var w1, p := GrownFrames(w, o, v, k + 1), Grown(o, v, k + 1);
      GrownStep(w, o, v, k);
      GrownFresh(w, hhdm, head, o, v, k + 1);
      if p.free == [] {
        assert On(k, v) !in p.tables by { NotGrown(o, v, k); }
      } else {
        GrownKeeps(w, hhdm, head, o, v, k + 1);
        GrownLinks(w, hhdm, head, o, v, k);
        LinkedFresh(w1, p, v, k);
      }
    }
  }

  lemma OnTop(w: seq<Frame>, hhdm: nat, head: nat, o: Own, v: nat)
    requires Mappable(w, hhdm, head, o, v)
    ensures On(4, v) in o.tables && |w| > 0
  {
    OnRoot(v);
    assert o.tables[On(4, v)] < |w|;
  }

  lemma NotGrown(o: Own, v: nat, k: nat)
    requires On(k, v) !in o.tables
    ensures On(k, v) !in Grown(o, v, k + 1).tables
  {
    GrownTables(o, v, k + 1);
  }

  lemma LinkedFresh(w: seq<Frame>, o: Own, v: nat, k: nat)
    requires 1 <= k <= 3 && Linkable(w, o, v, k + 1)
    ensures |w| > 0 && LinkedFrames(w, o, v, k + 1, true, true, false)[0] == w[0]
    ensures CanLink(w, o, v, k + 1)
    ensures WithTable(o, On(k, v)).tables[On(k, v)] == o.free[0] < |w|
    ensures LinkedFrames(w, o, v, k + 1, true, true, false)[o.free[0]] == ZeroFrame()
  {
    hide Decode;
    EntryEdits(w, o, v, k + 1, LinkEntry(Held(w, o, v, k + 1), o.free[0], true, true, false));
    assert o.free[0] in o.free;
    assert o.tables[On(k + 1, v)] in o.role;
  }

  /** When those places are dead, vm_map is harmless: a condition on memory before the call. */
  lemma {:induction false} StaleIsDead(w: seq<Frame>, hhdm: nat, head: nat, o: Own, v: nat, k: nat, x: nat)
    requires Mappable(w, hhdm, head, o, v) && 1 <= k <= 4 && TreeOk(w, o) && NoStale(w, o, v)
    ensures Harmless(w, o, v, k, x)
    decreases 4 - k
  {
    hide Mappable, Stands, HeldIsDead, Linkable, On, GrownFrames, Grown, GrownViews, Harmless, NoStale, TreeOk;
    if k >= 4 || On(k, v) in o.tables {
      GrownStart(w, o, v, k, PresentFirst, x);
    } else {
      StaleIsDead(w, hhdm, head, o, v, k + 1, x);
      QuietStep(w, o, v, k, PresentFirst, x);
      if Grown(o, v, k + 1).free != [] {
        GrownKeeps(w, hhdm, head, o, v, k + 1);
        GrownLinks(w, hhdm, head, o, v, k);
        if On(k + 1, v) in o.tables {
          GrownStart(w, o, v, k + 1, PresentFirst, v);
          HeldAtTop(w, o, v, k + 1);
        } else {
          GrownFresh(w, hhdm, head, o, v, k + 1);
          ZeroIsNamed(w, hhdm, head, o, v, k);
          HeldIsZero(w, GrownFrames(w, o, v, k + 1), Grown(o, v, k + 1), v, k + 1);
        }
        AbsentInWindow(GrownFrames(w, o, v, k + 1), Grown(o, v, k + 1), v, k + 1, x);
      }
    }
  }

  lemma HeldAtTop(w: seq<Frame>, o: Own, v: nat, l: nat)
    requires Linkable(w, o, v, l) && 2 <= l && On(l - 1, v) !in o.tables && NoStale(w, o, v)
    ensures AllAbsent(w, Held(w, o, v, l).address) && Held(w, o, v, l).address != o.tables[On(l, v)]
  {
    hide Decode, SlotOk, AllAbsent;
    assert o.role[o.tables[On(l, v)]] == Table(On(l, v));
  }

  lemma HeldIsZero(w: seq<Frame>, w1: seq<Frame>, p: Own, v: nat, l: nat)
    requires Linkable(w1, p, v, l) && 0 < |w| == |w1| && w1[0] == w[0] && AllAbsent(w, 0)
    requires w1[p.tables[On(l, v)]] == ZeroFrame()
    ensures AllAbsent(w1, Held(w1, p, v, l).address) && Held(w1, p, v, l).address != p.tables[On(l, v)]
  {
    hide Decode, TreeOk;
    ZeroAddress(Index(l, v));
    assert p.tables[On(l, v)] in p.role;
    forall j | 0 <= j < 512 ensures !EntryAt(w1, 0, j).present {
      assert !EntryAt(w, 0, j).present;
    }
  }

  /** Two missing levels in a row: the second entry is one of a fresh table. */
  lemma ZeroIsNamed(w: seq<Frame>, hhdm: nat, head: nat, o: Own, v: nat, k: nat)
    requires Mappable(w, hhdm, head, o, v) && TreeOk(w, o) && NoStale(w, o, v)
    requires 1 <= k <= 3 && On(k + 1, v) !in o.tables
    ensures AllAbsent(w, 0) && |w| > 0
  {
    hide AllAbsent, SlotOk, Decode, NoHuge;
    OnTop(w, hhdm, head, o, v);
    assert o.tables[On(4, v)] < |w|;
    if On(3, v) in o.tables {
      assert On(2, v) !in o.tables;
    }
  }

  /** While frame 0 holds nothing present, only the entry above the first missing table matters: the call is
      harmless exactly when nothing but, perhaps, page `x` is found through what that entry held. */
  lemma {:induction false} FirstWindowIff(w: seq<Frame>, hhdm: nat, head: nat, o: Own, v: nat, l: nat, k: nat, x: nat)
    requires Mappable(w, hhdm, head, o, v) && 1 <= k < l <= 4 && AllAbsent(w, 0) && o.free != []
    requires On(l, v) in o.tables && On(l - 1, v) !in o.tables
    ensures CanLink(w, o, v, l) && (Harmless(w, o, v, k, x) <==> HeldIsDead(w, o, v, l, x))
    decreases l - k
  {
    hide Mappable, Stands, HeldIsDead, Linkable, On, GrownFrames, Grown, GrownViews, Harmless, AllAbsent;
    MissingDown(w, hhdm, head, o, v, l, k);
    QuietStep(w, o, v, k, PresentFirst, x);
    if k == l - 1 {
      GrownStart(w, o, v, l, PresentFirst, x);
      GrownKeeps(w, hhdm, head, o, v, l);
      GrownLinks(w, hhdm, head, o, v, k);
    } else {
      FirstWindowIff(w, hhdm, head, o, v, l, k + 1, x);
      if Grown(o, v, k + 1).free != [] {
        GrownKeeps(w, hhdm, head, o, v, k + 1);
        GrownLinks(w, hhdm, head, o, v, k);
        GrownFresh(w, hhdm, head, o, v, k + 1);
        OnTop(w, hhdm, head, o, v);
        HeldIsZero(w, GrownFrames(w, o, v, k + 1), Grown(o, v, k + 1), v, k + 1);
        AbsentInWindow(GrownFrames(w, o, v, k + 1), Grown(o, v, k + 1), v, k + 1, x);
      }
    }
  }

  lemma MissingDown(w: seq<Frame>, hhdm: nat, head: nat, o: Own, v: nat, l: nat, k: nat)
    requires Mappable(w, hhdm, head, o, v) && 1 <= k < l <= 4 && On(l - 1, v) !in o.tables
    ensures On(k, v) !in o.tables && (k < l - 1 ==> On(k + 1, v) !in o.tables)
  {
    hide SlotOk, Decode, RolesOk, NoHuge, ChainOk;
    MissingAbove(w, o, 1, v);
    MissingAbove(w, o, 2, v);
  }

  // ---------------------------------------------------------------- harmful: a slot that names another slot's table

  /** Pages with the same three low indices are found alike from a level-3 table. */
  lemma {:induction false} WalkAlike(w: seq<Frame>, l: nat, t: nat, u: nat, v: nat)
    requires 1 <= l <= 3 && u % 0x800_0000 == v % 0x800_0000
    ensures Walk(w, l, t, u) == Walk(w, l, t, v)
    decreases l
  {
    SameIndex(u, v, l);
    assert u % 0x200 == v % 0x200 && u % 0x4_0000 == v % 0x4_0000 by { SameLowBits(u, v); }
    if l > 1 && t < |w| {
      WalkAlike(w, l - 1, EntryAt(w, t, Index(l, u)).address, u, v);
    }
  }

  lemma SameLowBits(u: nat, v: nat)
    requires u % 0x800_0000 == v % 0x800_0000
    ensures u % 0x200 == v % 0x200 && u % 0x4_0000 == v % 0x4_0000
  {
    RemainderOfRemainder(u, 0x200, 0x4_0000);
    RemainderOfRemainder(v, 0x200, 0x4_0000);
    RemainderOfRemainder(u, 0x4_0000, 0x200);
    RemainderOfRemainder(v, 0x4_0000, 0x200);
  }

  lemma SameIndex(u: nat, v: nat, l: nat)
    requires 1 <= l <= 3 && u % 0x800_0000 == v % 0x800_0000
    ensures Index(l, u) == Index(l, v)
  {
    LowIndex(u, l);
    LowIndex(v, l);
  }

  lemma LowIndex(u: nat, l: nat)
    requires 1 <= l <= 3
    ensures var r := u % 0x800_0000;
      Index(l, u) == if l == 1 then r % 512 else if l == 2 then r / 0x200 % 512 else r / 0x4_0000
  {
    UpFromTop(u);
    if l == 1 {
      RemainderOfRemainder(u, 0x200, 0x4_0000);
    } else if l == 2 {
      RemainderOfRemainder(u, 0x200, 0x4_0000);
      RemainderOfRemainder(u / 0x200, 512, 512);
    } else {
      RemainderOfRemainder(u, 0x4_0000, 0x200);
    }
  }

  /** The page in the slot of `v` that has the three low indices of `v1`. */
  function Twin(v: nat, v1: nat): (u: nat) {
    v / 0x800_0000 * 0x800_0000 + v1 % 0x800_0000
  }

  lemma TwinFacts(v: nat, v1: nat)
    requires v < LOWERPAGES && v % 0x800_0000 != v1 % 0x800_0000
    ensures var u := Twin(v, v1);
      u < PAGES && u != v && u % 0x800_0000 == v1 % 0x800_0000 && Uses(On(4, v), Index(4, v), u)
  {
    var u := Twin(v, v1);
    UpFromTop(u);
    UpFromTop(v);
    OnRoot(u);
    OnRoot(v);
    assert u / 0x800_0000 == v / 0x800_0000;
  }

  /** The absent level-4 entry on the way to `v` still names the level-3 table of another slot, in which page `v1`
      is mapped. */
  ghost predicate NamesOther(w: seq<Frame>, o: Own, v: nat, v1: nat) {
    && TreeOk(w, o) && RolesOk(|w|, o) && UserSpaceOk(w, o) && v < LOWERPAGES && v1 < LOWERPAGES && v1 in o.leaves
    && On(3, v) !in o.tables && On(3, v1) in o.tables && ROOT in o.tables && o.tables[ROOT] < |w|
    && EntryAt(w, o.tables[ROOT], Index(4, v)).address == o.tables[On(3, v1)]
    && v % 0x800_0000 != v1 % 0x800_0000
  }

  /** Then the window shows page `v1` a second time, in the slot of `v`. */
  lemma OtherIsSeen(w: seq<Frame>, o: Own, v: nat, v1: nat)
    requires NamesOther(w, o, v, v1) && Linkable(w, o, v, 4)
    ensures CanLink(w, o, v, 4) && Walk(Window(w, o, v, 4), 3, Held(w, o, v, 4).address, Twin(v, v1)).Some?
  {
    hide Decode, Window, Walk, SlotOk;
    OnRoot(v);
    TwinFacts(v, v1);
    var w', e := Window(w, o, v, 4), Held(w, o, v, 4).(present := true);
    WindowEdits(w, o, v);
    forall k | 1 <= k <= 3 && On(k, v1) in o.tables
      ensures o.tables[On(k, v1)] < |w|
           && w'[o.tables[On(k, v1)]][Index(k, v1)] == w[o.tables[On(k, v1)]][Index(k, v1)]
    {
      FreeFrameApart(w, o);
      assert On(k, v1) != ROOT;
      EditedElsewhere(w, w', o, ROOT, Index(4, v), e, {o.free[0]}, On(k, v1), Index(k, v1));
    }
    WalkSame(w, w', o, 3, v1);
    UserWalkFrom(w, o, 3, v1);
    WalkAlike(w', 3, o.tables[On(3, v1)], Twin(v, v1), v1);
  }

  lemma WindowEdits(w: seq<Frame>, o: Own, v: nat)
    requires Linkable(w, o, v, 4)
    ensures On(4, v) == ROOT
    ensures Edited(w, Window(w, o, v, 4), o.tables[ROOT], Index(4, v), Held(w, o, v, 4).(present := true), {o.free[0]})
  {
    OnRoot(v);
    EntryEdits(w, o, v, 4, Held(w, o, v, 4).(present := true));
  }

  /** So mapping `v` is not harmless. */
  lemma OtherHarms(w: seq<Frame>, hhdm: nat, head: nat, o: Own, v: nat, v1: nat)
    requires Mappable(w, hhdm, head, o, v) && NamesOther(w, o, v, v1) && o.free != []
    ensures !Harmless(w, o, v, 1, v)
  {
    hide Mappable, NamesOther, HeldIsDead, Linkable, CanLink, GrownFrames, Grown, GrownViews, Harmless, Stands;
    MissingBelow(w, hhdm, head, o, v, v1);
    GrownStart(w, o, v, 4, PresentFirst, v);
    GrownKeeps(w, hhdm, head, o, v, 4);
    GrownLinks(w, hhdm, head, o, v, 3);
    OtherIsSeen(w, o, v, v1);
    assert !HeldIsDead(w, o, v, 4, v) by { SeenIsNotDead(w, o, v, v1); }
    QuietStep(w, o, v, 3, PresentFirst, v);
    HarmStays(w, o, v, 2);
    HarmStays(w, o, v, 1);
  }

  lemma HarmStays(w: seq<Frame>, o: Own, v: nat, k: nat)
    requires 1 <= k <= 3 && On(k, v) !in o.tables && !Harmless(w, o, v, k + 1, v)
    ensures !Harmless(w, o, v, k, v)
  {
  }

  lemma SeenIsNotDead(w: seq<Frame>, o: Own, v: nat, v1: nat)
    requires CanLink(w, o, v, 4) && v < LOWERPAGES && v % 0x800_0000 != v1 % 0x800_0000
    requires Walk(Window(w, o, v, 4), 3, Held(w, o, v, 4).address, Twin(v, v1)).Some?
    ensures !HeldIsDead(w, o, v, 4, v)
  {
    TwinFacts(v, v1);
  }

  lemma MissingBelow(w: seq<Frame>, hhdm: nat, head: nat, o: Own, v: nat, v1: nat)
    requires Mappable(w, hhdm, head, o, v) && NamesOther(w, o, v, v1)
    ensures On(4, v) in o.tables && On(3, v) !in o.tables && On(2, v) !in o.tables && On(1, v) !in o.tables
    ensures v < LOWERPAGES && v % 0x800_0000 != v1 % 0x800_0000
  {
    OnRoot(v);
    MissingAbove(w, o, 1, v);
    MissingAbove(w, o, 2, v);
  }
}
