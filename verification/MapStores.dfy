/** Memory after every store of vm_map, and when the processor's cache agrees with the tables afterwards. */
module MapStores {
  import opened Options
  import opened Words
  import opened Entry
  import opened Tables
  import opened Edits
  import opened Growth
  import opened UserSpace
  import opened Windows
  import Snapshots

  // ---------------------------------------------------------------- linking one page

  /** The head of the free list can be linked into the level-`k` table on the way to `v`. */
  predicate CanLink(w: seq<Frame>, o: Own, v: nat, k: nat) {
    && 1 <= k <= 4 && On(k, v) in o.tables && o.tables[On(k, v)] < |w|
    && o.free != [] && o.free[0] < |w| && o.free[0] < MAXFRAMES
  }

  /** What the entry to be linked held before. */
  function Held(w: seq<Frame>, o: Own, v: nat, k: nat): Entry
    requires CanLink(w, o, v, k)
  {
    EntryAt(w, o.tables[On(k, v)], Index(k, v))
  }

  /** Memory with the free page zeroed and that entry set to `e`. */
  function WithEntry(w: seq<Frame>, o: Own, v: nat, k: nat, e: Entry): (r: seq<Frame>)
    requires CanLink(w, o, v, k)
    ensures |r| == |w|
  {
    PutEntry(w[o.free[0] := ZeroFrame()], o.tables[On(k, v)], Index(k, v), e)
  }

  function LinkedFrames(w: seq<Frame>, o: Own, v: nat, k: nat, user: bool, writable: bool,
      noExecute: bool): (r: seq<Frame>)
    requires CanLink(w, o, v, k)
    ensures |r| == |w|
  {
    WithEntry(w, o, v, k, LinkEntry(Held(w, o, v, k), o.free[0], user, writable, noExecute))
  }

  /** Memory after each store of linking the free page: the page zeroed, then the five assignments. */
  function StepViews(w: seq<Frame>, o: Own, v: nat, k: nat, user: bool, writable: bool, noExecute: bool, order: Order)
    : (views: seq<seq<Frame>>)
    requires CanLink(w, o, v, k)
    ensures |views| == 6
  {
    var w1, es := w[o.free[0] := ZeroFrame()], LinkEntries(Held(w, o, v, k), o.free[0], user, writable, noExecute,
        order);
    [w1] + EntryViews(w1, o.tables[On(k, v)], Index(k, v), es)
  }

  lemma StepViewAt(w: seq<Frame>, o: Own, v: nat, k: nat, user: bool, writable: bool, noExecute: bool, order: Order,
      i: nat)
    requires CanLink(w, o, v, k) && i < 6
    ensures var es := LinkEntries(Held(w, o, v, k), o.free[0], user, writable, noExecute, order);
      StepViews(w, o, v, k, user, writable, noExecute, order)[i]
      == if i == 0 then w[o.free[0] := ZeroFrame()] else WithEntry(w, o, v, k, es[i - 1])
  {
    hide PutEntry, LinkEntries;
  }

  /** A state in which vm_map links the level-`k` entry on the way to `v`. */
  ghost predicate Linkable(w: seq<Frame>, o: Own, v: nat, k: nat) {
    && TreeOk(w, o) && RolesOk(|w|, o) && v < PAGES && CanLink(w, o, v, k)
    && !Held(w, o, v, k).present && (k >= 2 ==> !Held(w, o, v, k).pageSize)
  }

  lemma FreeFrameApart(w: seq<Frame>, o: Own)
    requires RolesOk(|w|, o) && o.free != []
    ensures forall q :: q in o.tables ==> o.tables[q] != o.free[0]
  {
    assert o.free[0] in o.free;
  }

  lemma EntryEdits(w: seq<Frame>, o: Own, v: nat, k: nat, e: Entry)
    requires RolesOk(|w|, o) && CanLink(w, o, v, k)
    ensures Edited(w, WithEntry(w, o, v, k, e), o.tables[On(k, v)], Index(k, v), e, {o.free[0]})
    ensures WithEntry(w, o, v, k, e)[o.free[0]] == ZeroFrame()
  {
    FreeFrameApart(w, o);
    PutEntryEdits(w, o.tables[On(k, v)], Index(k, v), e, o.free[0], ZeroFrame());
  }

  lemma ZeroedWalks(w: seq<Frame>, o: Own, v: nat, k: nat)
    requires Linkable(w, o, v, k)
    ensures SameWalks(w, w[o.free[0] := ZeroFrame()], o.tables[ROOT])
  {
    FreeFrameApart(w, o);
    OutsideTree(w, w[o.free[0] := ZeroFrame()], o, o, o.free[0]);
  }

  lemma PresentOpens(w: seq<Frame>, o: Own, v: nat, k: nat, e: Entry)
    requires Linkable(w, o, v, k) && k >= 2 && e.present && !e.pageSize
    ensures Opened(w, WithEntry(w, o, v, k, e), o, On(k, v), Index(k, v), e, o.free[0])
  {
    FreeFrameApart(w, o);
    EntryEdits(w, o, v, k, e);
  }

  /** An entry that leads to the zeroed page translates nothing yet. */
  lemma FreshLeadsNowhere(w: seq<Frame>, o: Own, v: nat, k: nat, e: Entry)
    requires Linkable(w, o, v, k) && k >= 2 && e.present && !e.pageSize && e.address == o.free[0]
    ensures SameWalks(w, WithEntry(w, o, v, k, e), o.tables[ROOT])
  {
    var w', f := WithEntry(w, o, v, k, e), o.free[0];
    PresentOpens(w, o, v, k, e);
    EntryEdits(w, o, v, k, e);
    forall u | 0 <= u < PAGES && Uses(On(k, v), Index(k, v), u) ensures Walk(w', k - 1, f, u) == None {
      ZeroIsAbsent(Index(k - 1, u));
    }
    OpenedIff(w, w', o, On(k, v), Index(k, v), e, f);
  }

  /** An entry that stays absent translates nothing. */
  lemma AbsentLeadsNowhere(w: seq<Frame>, o: Own, v: nat, k: nat, e: Entry)
    requires Linkable(w, o, v, k) && !e.present
    ensures SameWalks(w, WithEntry(w, o, v, k, e), o.tables[ROOT])
  {
    hide Decode, WithEntry, Edited;
    EntryEdits(w, o, v, k, e);
    FreeFrameApart(w, o);
    assert ROOT in o.tables;
    hide RolesOk, TreeOk;
    forall u | 0 <= u < PAGES
      ensures Walk(WithEntry(w, o, v, k, e), 4, o.tables[ROOT], u) == Walk(w, 4, o.tables[ROOT], u)
    {
      AbsentWalkSame(w, WithEntry(w, o, v, k, e), o, On(k, v), Index(k, v), e, o.free[0], u);
    }
  }

  lemma AbsentWalkSame(w: seq<Frame>, w': seq<Frame>, o: Own, q: Path, j: nat, e: Entry, f: nat, u: nat)
    requires TreeOk(w, o) && RolesOk(|w|, o) && q in o.tables && 1 <= q.level <= 4 && u < PAGES
    requires (forall p :: p in o.tables ==> o.tables[p] != f)
    requires Edited(w, w', o.tables[q], j, e, {f}) && !EntryAt(w, o.tables[q], j).present && !e.present
    ensures ROOT in o.tables && Walk(w', 4, o.tables[ROOT], u) == Walk(w, 4, o.tables[ROOT], u)
  {
    hide RolesOk, Decode;
    OnRoot(u);
    forall k | 1 <= k <= 4 && On(k, u) in o.tables && (On(k, u) != q || Index(k, u) != j)
      ensures o.tables[On(k, u)] < |w| && w'[o.tables[On(k, u)]][Index(k, u)] == w[o.tables[On(k, u)]][Index(k, u)]
    {
      EditedElsewhere(w, w', o, q, j, e, {f}, On(k, u), Index(k, u));
    }
    if Uses(q, j, u) {
      WalkDead(w, o, q.level, 4, u);
      NothingAbove(w, w', o, q.level, 4, u);
    } else {
      WalkSame(w, w', o, 4, u);
    }
  }

  // ---------------------------------------------------------------- the window of one link

  /** Memory while `present` is set and `address` still is what the entry held. */
  function Window(w: seq<Frame>, o: Own, v: nat, k: nat): (r: seq<Frame>)
    requires CanLink(w, o, v, k)
    ensures |r| == |w|
  {
    WithEntry(w, o, v, k, Held(w, o, v, k).(present := true))
  }

  /** During the window no page but `x` is found through the address that the entry held. */
  ghost predicate HeldIsDead(w: seq<Frame>, o: Own, v: nat, k: nat, x: nat)
    requires CanLink(w, o, v, k) && k >= 2
  {
    forall u :: 0 <= u < PAGES && u != x && Uses(On(k, v), Index(k, v), u) ==>
      Walk(Window(w, o, v, k), k - 1, Held(w, o, v, k).address, u) == None
  }

  /** The window leaves the translations of all pages but `x` exactly when none is found that way. */
  lemma WindowIff(w: seq<Frame>, o: Own, v: nat, k: nat, x: nat)
    requires Linkable(w, o, v, k) && k >= 2
    ensures SameWalksBut(w, Window(w, o, v, k), o.tables[ROOT], x) <==> HeldIsDead(w, o, v, k, x)
  {
    hide Walk, Opened, Window, WithEntry, TreeOk, RolesOk, Held;
    assert ROOT in o.tables by { RootThere(w, o, v, k); }
    forall u | 0 <= u < PAGES
      ensures Walk(Window(w, o, v, k), 4, o.tables[ROOT], u) == Walk(w, 4, o.tables[ROOT], u)
         <==> (Uses(On(k, v), Index(k, v), u) ==> Walk(Window(w, o, v, k), k - 1, Held(w, o, v, k).address, u) == None)
    {
      WindowWalk(w, o, v, k, u);
    }
  }

  lemma RootThere(w: seq<Frame>, o: Own, v: nat, k: nat)
    requires Linkable(w, o, v, k)
    ensures ROOT in o.tables
  {
  }

  lemma WindowWalk(w: seq<Frame>, o: Own, v: nat, k: nat, u: nat)
    requires Linkable(w, o, v, k) && k >= 2 && u < PAGES
    ensures ROOT in o.tables
    ensures Walk(Window(w, o, v, k), 4, o.tables[ROOT], u) == Walk(w, 4, o.tables[ROOT], u)
       <==> (Uses(On(k, v), Index(k, v), u) ==> Walk(Window(w, o, v, k), k - 1, Held(w, o, v, k).address, u) == None)
  {
    hide Walk, Opened, WithEntry;
    var e := Held(w, o, v, k).(present := true);
    PresentOpens(w, o, v, k, e);
    OpenedWalk(w, Window(w, o, v, k), o, On(k, v), Index(k, v), e, o.free[0], u);
  }

  /** What is found that way is a translation that the tables never give. */
  lemma WindowStrays(w: seq<Frame>, o: Own, v: nat, k: nat, u: nat)
    requires Linkable(w, o, v, k) && k >= 2 && u < PAGES && Uses(On(k, v), Index(k, v), u)
    requires Walk(Window(w, o, v, k), k - 1, Held(w, o, v, k).address, u).Some?
    ensures ROOT in o.tables && Walk(w, 4, o.tables[ROOT], u) == None
    ensures Walk(Window(w, o, v, k), 4, o.tables[ROOT], u).Some?
  {
    hide Walk, Opened, WithEntry;
    var e := Held(w, o, v, k).(present := true);
    PresentOpens(w, o, v, k, e);
    WindowFinds(w, Window(w, o, v, k), o, On(k, v), Index(k, v), e, o.free[0], u);
  }

  /** Linking a table: of the six states between the stores only the window can show anything. */
  lemma TableViewsIff(w: seq<Frame>, o: Own, v: nat, k: nat, order: Order, x: nat)
    requires Linkable(w, o, v, k) && k >= 2
    ensures AllSameBut(w, StepViews(w, o, v, k, true, true, false, order), o.tables[ROOT], x)
       <==> (order.PresentFirst? ==> HeldIsDead(w, o, v, k, x))
  {
    var root, views := o.tables[ROOT], StepViews(w, o, v, k, true, true, false, order);
    hide WithEntry, SameWalks, SameWalksBut, HeldIsDead, Decode, TreeOk, RolesOk, LinkEntries;
    forall i | 0 <= i < 6 && i != 1 ensures SameWalksBut(w, views[i], root, x) {
      if i == 0 {
        ZeroedWalks(w, o, v, k);
      } else {
        LinkEntriesLink(Held(w, o, v, k), o.free[0], true, true, false, order);
        FreshLeadsNowhere(w, o, v, k, LinkEntries(Held(w, o, v, k), o.free[0], true, true, false, order)[i - 1]);
      }
      SameIsSameBut(w, views[i], root, x);
    }
    if order.PresentFirst? {
      WindowIff(w, o, v, k, x);
      assert views[1] == Window(w, o, v, k);
    } else {
      AbsentLeadsNowhere(w, o, v, k, Held(w, o, v, k).(address := o.free[0]));
      SameIsSameBut(w, views[1], root, x);
    }
  }

  lemma LeafView(w: seq<Frame>, o: Own, v: nat, e: Entry)
    requires Linkable(w, o, v, 1)
    ensures SameWalksBut(w, WithEntry(w, o, v, 1, e), o.tables[ROOT], v)
  {
    FreeFrameApart(w, o);
    EntryEdits(w, o, v, 1, e);
    LeafViewWalks(w, WithEntry(w, o, v, 1, e), o, v, e, {o.free[0]});
  }

  /** Linking the page itself changes the translation of that page only. */
  lemma LeafViews(w: seq<Frame>, o: Own, v: nat, user: bool, writable: bool, noExecute: bool, order: Order)
    requires Linkable(w, o, v, 1)
    ensures AllSameBut(w, StepViews(w, o, v, 1, user, writable, noExecute, order), o.tables[ROOT], v)
  {
    var root, views := o.tables[ROOT], StepViews(w, o, v, 1, user, writable, noExecute, order);
    hide WithEntry, SameWalks, SameWalksBut, Decode, TreeOk, RolesOk, LinkEntries, StepViews, Held;
    forall i | 0 <= i < 6 ensures SameWalksBut(w, views[i], root, v) {
      StepViewAt(w, o, v, 1, user, writable, noExecute, order, i);
      if i == 0 {
        ZeroedWalks(w, o, v, 1);
        SameIsSameBut(w, views[0], root, v);
      } else {
        LeafView(w, o, v, LinkEntries(Held(w, o, v, 1), o.free[0], user, writable, noExecute, order)[i - 1]);
      }
    }
  }

  // ---------------------------------------------------------------- the whole call

  /** Memory when the tables missing on the way to `v` are linked down to level `k`, or as far as there are
      free pages. */
  function GrownFrames(w: seq<Frame>, o: Own, v: nat, k: nat): (r: seq<Frame>)
    ensures |r| == |w|
    decreases 4 - k
  {
    if k >= 4 || On(k, v) in o.tables then w
    else
      var w1, p := GrownFrames(w, o, v, k + 1), Grown(o, v, k + 1);
      if CanLink(w1, p, v, k + 1) then LinkedFrames(w1, p, v, k + 1, true, true, false) else w1
  }

  /** Memory after each store on the way there. */
  function GrownViews(w: seq<Frame>, o: Own, v: nat, k: nat, order: Order): seq<seq<Frame>>
    decreases 4 - k
  {
    if k >= 4 || On(k, v) in o.tables then []
    else
      var w1, p := GrownFrames(w, o, v, k + 1), Grown(o, v, k + 1);
      GrownViews(w, o, v, k + 1, order)
      + if CanLink(w1, p, v, k + 1) then StepViews(w1, p, v, k + 1, true, true, false, order) else []
  }

  /** At each of the missing levels above `k`, no page but `x` is found through the address that the entry to be
      linked held before. */
  ghost predicate Harmless(w: seq<Frame>, o: Own, v: nat, k: nat, x: nat)
    decreases 4 - k
  {
    k >= 4 || On(k, v) in o.tables
    || (var w1, p := GrownFrames(w, o, v, k + 1), Grown(o, v, k + 1);
        && Harmless(w, o, v, k + 1, x)
        && (k >= 1 && CanLink(w1, p, v, k + 1) ==> HeldIsDead(w1, p, v, k + 1, x)))
  }

  /** vm_map links page `v` itself. */
  predicate LinksPage(w: seq<Frame>, o: Own, v: nat) {
    v !in o.leaves && CanLink(GrownFrames(w, o, v, 1), Grown(o, v, 1), v, 1)
  }

  /** Memory after vm_map. */
  function MapFrames(w: seq<Frame>, o: Own, v: nat, user: bool, writable: bool, executable: bool): (r: seq<Frame>)
    ensures |r| == |w|
  {
    var w1, p := GrownFrames(w, o, v, 1), Grown(o, v, 1);
    if LinksPage(w, o, v) then LinkedFrames(w1, p, v, 1, user, writable, !executable) else w1
  }

  /** Memory after each store of vm_map. */
  function MapViews(w: seq<Frame>, o: Own, v: nat, user: bool, writable: bool, executable: bool, order: Order)
    : seq<seq<Frame>>
  {
    var w1, p := GrownFrames(w, o, v, 1), Grown(o, v, 1);
    GrownViews(w, o, v, 1, order)
    + if LinksPage(w, o, v) then StepViews(w1, p, v, 1, user, writable, !executable, order) else []
  }

  /** Where vm_map can start. */
  ghost predicate Mappable(w: seq<Frame>, hhdm: nat, head: nat, o: Own, v: nat) {
    Inv(w, hhdm, head, o) && v < PAGES && NoHuge(w, o, v)
  }

  lemma GrownStart(w: seq<Frame>, o: Own, v: nat, k: nat, order: Order, x: nat)
    requires k >= 4 || On(k, v) in o.tables
    ensures Grown(o, v, k) == o && GrownFrames(w, o, v, k) == w && GrownViews(w, o, v, k, order) == []
    ensures Harmless(w, o, v, k, x)
  {
  }

  lemma GrownStep(w: seq<Frame>, o: Own, v: nat, k: nat)
    requires k < 4 && On(k, v) !in o.tables
    ensures Grown(o, v, k + 1).free == [] ==>
      Grown(o, v, k) == Grown(o, v, k + 1) && GrownFrames(w, o, v, k) == GrownFrames(w, o, v, k + 1)
    ensures Grown(o, v, k + 1).free != [] ==> Grown(o, v, k) == WithTable(Grown(o, v, k + 1), On(k, v))
    ensures CanLink(GrownFrames(w, o, v, k + 1), Grown(o, v, k + 1), v, k + 1) ==>
      GrownFrames(w, o, v, k) == LinkedFrames(GrownFrames(w, o, v, k + 1), Grown(o, v, k + 1), v, k + 1, true, true,
          false)
  {
  }

  lemma QuietStep(w: seq<Frame>, o: Own, v: nat, k: nat, order: Order, x: nat)
    requires 1 <= k < 4 && On(k, v) !in o.tables
    ensures Grown(o, v, k + 1).free == [] ==>
      && GrownViews(w, o, v, k, order) == GrownViews(w, o, v, k + 1, order)
      && (Harmless(w, o, v, k, x) <==> Harmless(w, o, v, k + 1, x))
    ensures CanLink(GrownFrames(w, o, v, k + 1), Grown(o, v, k + 1), v, k + 1) ==>
      && GrownViews(w, o, v, k, order)
         == GrownViews(w, o, v, k + 1, order)
            + StepViews(GrownFrames(w, o, v, k + 1), Grown(o, v, k + 1), v, k + 1, true, true, false, order)
      && (Harmless(w, o, v, k, x) <==>
            Harmless(w, o, v, k + 1, x) && HeldIsDead(GrownFrames(w, o, v, k + 1), Grown(o, v, k + 1), v, k + 1, x))
  {
  }

  /** The loop stands there with memory `w1` and ownership `p`: it could start again from here, and no translation
      has changed. */
  ghost predicate Stands(w: seq<Frame>, hhdm: nat, o: Own, v: nat, w1: seq<Frame>, p: Own) {
    && Mappable(w1, hhdm, Ptr(hhdm, p.free, 0), p, v)
    && ROOT in o.tables && ROOT in p.tables && p.tables[ROOT] == o.tables[ROOT] && SameWalks(w, w1, o.tables[ROOT])
  }

  lemma {:induction false} GrownKeeps(w: seq<Frame>, hhdm: nat, head: nat, o: Own, v: nat, k: nat)
    requires Mappable(w, hhdm, head, o, v) && 1 <= k <= 4
    ensures Stands(w, hhdm, o, v, GrownFrames(w, o, v, k), Grown(o, v, k))
    decreases 4 - k
  {
    hide Mappable, Stands, Linkable, CanLink, On, Grown, GrownFrames, GrownViews, Harmless;
    if k >= 4 || On(k, v) in o.tables {
      GrownStart(w, o, v, k, PresentFirst, v);
      StandsStart(w, hhdm, head, o, v);
    } else {
      var w1, p := GrownFrames(w, o, v, k + 1), Grown(o, v, k + 1);
      GrownStep(w, o, v, k);
      GrownKeeps(w, hhdm, head, o, v, k + 1);
      if p.free != [] {
        GrownLinks(w, hhdm, head, o, v, k);
        StandsLinked(w, hhdm, o, w1, p, v, k);
      }
    }
  }

  lemma StandsStart(w: seq<Frame>, hhdm: nat, head: nat, o: Own, v: nat)
    requires Mappable(w, hhdm, head, o, v)
    ensures Stands(w, hhdm, o, v, w, o)
  {
    MappableParts(w, hhdm, head, o, v);
  }

  lemma StandsParts(w: seq<Frame>, hhdm: nat, o: Own, v: nat, w1: seq<Frame>, p: Own)
    requires Stands(w, hhdm, o, v, w1, p)
    ensures Mappable(w1, hhdm, Ptr(hhdm, p.free, 0), p, v) && TreeOk(w1, p) && RolesOk(|w1|, p)
    ensures ROOT in o.tables && ROOT in p.tables && p.tables[ROOT] == o.tables[ROOT] && SameWalks(w, w1, o.tables[ROOT])
  {
  }

  lemma StandsLinked(w: seq<Frame>, hhdm: nat, o: Own, w1: seq<Frame>, p: Own, v: nat, k: nat)
    requires 1 <= k <= 3 && Linkable(w1, p, v, k + 1) && Stands(w, hhdm, o, v, w1, p)
    ensures Stands(w, hhdm, o, v, LinkedFrames(w1, p, v, k + 1, true, true, false), WithTable(p, On(k, v)))
  {
    hide Mappable, SameWalks, LinkedFrames, Ptr, On, TreeOk, RolesOk, NoHuge;
    LinkKeeps(w1, hhdm, p, v, k + 1);
    SameWalksChain(w, w1, LinkedFrames(w1, p, v, k + 1, true, true, false), o.tables[ROOT]);
  }

  lemma SameWalksChain(w: seq<Frame>, w1: seq<Frame>, w2: seq<Frame>, root: nat)
    requires SameWalks(w, w1, root) && SameWalks(w1, w2, root)
    ensures SameWalks(w, w2, root)
  {
  }

  /** The entry above a missing table, or of an unmapped page, is absent. */
  lemma NothingHeld(w: seq<Frame>, o: Own, v: nat, l: nat)
    requires TreeOk(w, o) && 1 <= l <= 4 && On(l, v) in o.tables && NoHuge(w, o, v)
    requires if l == 1 then v !in o.leaves else On(l - 1, v) !in o.tables
    ensures o.tables[On(l, v)] < |w|
    ensures !EntryAt(w, o.tables[On(l, v)], Index(l, v)).present
    ensures l >= 2 ==> !EntryAt(w, o.tables[On(l, v)], Index(l, v)).pageSize
  {
    ChildOn(l, v);
    assert PlaceOk(|w|, o, On(l, v));
    assert SlotOk(w, o, On(l, v), Index(l, v));
  }

  lemma MappableParts(w: seq<Frame>, hhdm: nat, head: nat, o: Own, v: nat)
    requires Mappable(w, hhdm, head, o, v)
    ensures ROOT in o.tables && TreeOk(w, o) && RolesOk(|w|, o) && NoHuge(w, o, v) && v < PAGES
    ensures head == Ptr(hhdm, o.free, 0)
    ensures forall f :: f in o.free ==> f < |w| && f < MAXFRAMES
  {
  }

  /** A missing table below a level that has free pages left can be linked there. */
  lemma GrownLinks(w: seq<Frame>, hhdm: nat, head: nat, o: Own, v: nat, k: nat)
    requires Mappable(w, hhdm, head, o, v) && 0 <= k <= 3
    requires if k == 0 then v !in o.leaves else On(k, v) !in o.tables
    requires Stands(w, hhdm, o, v, GrownFrames(w, o, v, k + 1), Grown(o, v, k + 1)) && Grown(o, v, k + 1).free != []
    ensures Linkable(GrownFrames(w, o, v, k + 1), Grown(o, v, k + 1), v, k + 1)
    ensures CanLink(GrownFrames(w, o, v, k + 1), Grown(o, v, k + 1), v, k + 1)
  {
    hide Decode, NoHuge, Grown, GrownFrames, Mappable, TreeOk, RolesOk, On, Stands;
    var w1, p := GrownFrames(w, o, v, k + 1), Grown(o, v, k + 1);
    MappableParts(w, hhdm, head, o, v);
    StandsParts(w, hhdm, o, v, w1, p);
    MappableParts(w1, hhdm, Ptr(hhdm, p.free, 0), p, v);
    GrownReaches(w, o, v, k + 1);
    GrownTables(o, v, k + 1);
    GrownFree(o, v, k + 1);
    assert p.free[0] in p.free;
    assert On(k, v).level == k by { LevelOn(k, v); }
    NothingHeld(w1, p, v, k + 1);
  }

  lemma LevelOn(l: nat, v: nat)
    ensures On(l, v).level == l
  {
  }

  /** With pages left, the table of level `k` is there. */
  lemma {:induction false} GrownReaches(w: seq<Frame>, o: Own, v: nat, k: nat)
    requires TreeOk(w, o) && v < PAGES && 1 <= k <= 4 && Grown(o, v, k).free != []
    ensures On(k, v) in Grown(o, v, k).tables
    decreases 4 - k
  {
    OnRoot(v);
    if k < 4 && On(k, v) !in o.tables {
      var p := Grown(o, v, k + 1);
      if p.free != [] {
        GrownReaches(w, o, v, k + 1);
      }
    }
  }

  /** Linking one table keeps everything. */
  lemma LinkKeeps(w: seq<Frame>, hhdm: nat, o: Own, v: nat, k: nat)
    requires Mappable(w, hhdm, Ptr(hhdm, o.free, 0), o, v) && Linkable(w, o, v, k) && k >= 2
    ensures ROOT in o.tables
    ensures var w', o' := LinkedFrames(w, o, v, k, true, true, false), WithTable(o, On(k - 1, v));
      && Mappable(w', hhdm, Ptr(hhdm, o'.free, 0), o', v)
      && ROOT in o'.tables && o'.tables[ROOT] == o.tables[ROOT] && SameWalks(w, w', o.tables[ROOT])
  {
    hide Decode, SameWalks;
    var q, j, e := On(k, v), Index(k, v), LinkEntry(Held(w, o, v, k), o.free[0], true, true, false);
    var w', o' := LinkedFrames(w, o, v, k, true, true, false), WithTable(o, On(k - 1, v));
    EntryEdits(w, o, v, k, e);
    ChildOn(k, v);
    assert PlaceOk(|w|, o, q);
    assert Linking(w, w', o, q, j, e);
    LinkTable(w, w', hhdm, Ptr(hhdm, o.free, 0), o, q, j, e);
    Snapshots.LinkNoHuge(w, w', o, v, k, e);
  }

  lemma AppendQuiet(w: seq<Frame>, w1: seq<Frame>, a: seq<seq<Frame>>, b: seq<seq<Frame>>, root: nat, x: nat)
    requires SameWalks(w, w1, root)
    ensures AllSameBut(w, a + b, root, x) <==> AllSameBut(w, a, root, x) && AllSameBut(w1, b, root, x)
  {
    hide Walk, SameWalksBut;
    forall w2 ensures SameWalksBut(w, w2, root, x) <==> SameWalksBut(w1, w2, root, x) {
      SameStart(w, w1, w2, root, x);
    }
    assert forall i :: 0 <= i < |b| ==> (a + b)[|a| + i] == b[i];
    assert forall i :: 0 <= i < |a| ==> (a + b)[i] == a[i];
  }

  lemma SameStart(w: seq<Frame>, w1: seq<Frame>, w2: seq<Frame>, root: nat, x: nat)
    requires SameWalks(w, w1, root)
    ensures SameWalksBut(w, w2, root, x) <==> SameWalksBut(w1, w2, root, x)
  {
    hide Walk;
  }

  /** The tables that vm_map links down to level `k` show nothing but, perhaps, page `x`, exactly when the held
      addresses are harmless; with `address` first they never show more. */
  ghost predicate GrownQuiet(w: seq<Frame>, o: Own, v: nat, k: nat, order: Order, x: nat) {
    && ROOT in o.tables
    && (AllSameBut(w, GrownViews(w, o, v, k, order), o.tables[ROOT], x)
        <==> (order.PresentFirst? ==> Harmless(w, o, v, k, x)))
  }

  lemma {:induction false} GrownQuietIff(w: seq<Frame>, hhdm: nat, head: nat, o: Own, v: nat, k: nat, order: Order,
      x: nat)
    requires Mappable(w, hhdm, head, o, v) && 1 <= k <= 4
    ensures GrownQuiet(w, o, v, k, order, x)
    decreases 4 - k
  {
    hide Mappable, On, GrownFrames, Grown, GrownQuiet;
    if k >= 4 || On(k, v) in o.tables {
      QuietStart(w, hhdm, head, o, v, k, order, x);
    } else {
      GrownQuietIff(w, hhdm, head, o, v, k + 1, order, x);
      QuietMore(w, hhdm, head, o, v, k, order, x);
    }
  }

  lemma QuietStart(w: seq<Frame>, hhdm: nat, head: nat, o: Own, v: nat, k: nat, order: Order, x: nat)
    requires Mappable(w, hhdm, head, o, v) && (k >= 4 || On(k, v) in o.tables)
    ensures GrownQuiet(w, o, v, k, order, x)
  {
    hide TreeOk, RolesOk, NoHuge, Harmless, GrownViews, GrownFrames, Grown, On;
    MappableParts(w, hhdm, head, o, v);
    GrownStart(w, o, v, k, order, x);
  }

  lemma QuietMore(w: seq<Frame>, hhdm: nat, head: nat, o: Own, v: nat, k: nat, order: Order, x: nat)
    requires Mappable(w, hhdm, head, o, v) && 1 <= k <= 3 && On(k, v) !in o.tables
    requires GrownQuiet(w, o, v, k + 1, order, x)
    ensures GrownQuiet(w, o, v, k, order, x)
  {
    hide Mappable, Stands, HeldIsDead, StepViews, Linkable, CanLink, On, AllSameBut, GrownFrames, Grown, GrownViews,
         Harmless;
    var w1, p := GrownFrames(w, o, v, k + 1), Grown(o, v, k + 1);
    QuietStep(w, o, v, k, order, x);
    if p.free != [] {
      GrownKeeps(w, hhdm, head, o, v, k + 1);
      GrownLinks(w, hhdm, head, o, v, k);
      QuietLinked(w, hhdm, o, w1, p, v, k, order, x, GrownViews(w, o, v, k + 1, order));
    }
  }

  lemma QuietLinked(w: seq<Frame>, hhdm: nat, o: Own, w1: seq<Frame>, p: Own, v: nat, k: nat, order: Order, x: nat,
                    views: seq<seq<Frame>>)
    requires 1 <= k <= 3 && Linkable(w1, p, v, k + 1) && Stands(w, hhdm, o, v, w1, p)
    ensures AllSameBut(w, views + StepViews(w1, p, v, k + 1, true, true, false, order), o.tables[ROOT], x)
       <==> AllSameBut(w, views, o.tables[ROOT], x) && (order.PresentFirst? ==> HeldIsDead(w1, p, v, k + 1, x))
  {
    hide Mappable, SameWalks, HeldIsDead, StepViews, AllSameBut;
    TableViewsIff(w1, p, v, k + 1, order, x);
    AppendQuiet(w, w1, views, StepViews(w1, p, v, k + 1, true, true, false, order), o.tables[ROOT], x);
  }

  /** A harmful address shows some other page a translation that the tables do not give. */
  lemma {:induction false} HarmIsSeen(w: seq<Frame>, hhdm: nat, head: nat, o: Own, v: nat, k: nat, x: nat)
    returns (i: nat, u: nat)
    requires Mappable(w, hhdm, head, o, v) && 1 <= k <= 4 && !Harmless(w, o, v, k, x)
    ensures ROOT in o.tables
    ensures Strays(GrownViews(w, o, v, k, PresentFirst), o.tables[ROOT], x, w, i, u)
    decreases 4 - k
  {
    MappableParts(w, hhdm, head, o, v);
    hide Mappable, Stands, Linkable, CanLink, On, TreeOk, RolesOk, NoHuge, GrownFrames, Grown, GrownViews, Harmless,
         Strays, StepViews, HeldIsDead;
    if k >= 4 || On(k, v) in o.tables {
      GrownStart(w, o, v, k, PresentFirst, x);
    } else {
      var w1, p, before := GrownFrames(w, o, v, k + 1), Grown(o, v, k + 1), GrownViews(w, o, v, k + 1, PresentFirst);
      QuietStep(w, o, v, k, PresentFirst, x);
      GrownKeeps(w, hhdm, head, o, v, k + 1);
      if p.free != [] {
        GrownLinks(w, hhdm, head, o, v, k);
      }
      if !Harmless(w, o, v, k + 1, x) {
        i, u := HarmIsSeen(w, hhdm, head, o, v, k + 1, x);
        if p.free != [] {
          StraysInPart(before, StepViews(w1, p, v, k + 1, true, true, false, PresentFirst), o.tables[ROOT], x, w, i, u);
        }
      } else {
        u := HarmInWindow(w, hhdm, o, w1, p, v, k, x);
        i := |before| + 1;
        StraysInRest(before, StepViews(w1, p, v, k + 1, true, true, false, PresentFirst), o.tables[ROOT], x, w, 1, u);
      }
    }
  }

  lemma StraysInPart(a: seq<seq<Frame>>, b: seq<seq<Frame>>, root: nat, x: nat, w: seq<Frame>, i: nat, u: nat)
    requires Strays(a, root, x, w, i, u)
    ensures Strays(a + b, root, x, w, i, u)
  {
  }

  lemma StraysInRest(a: seq<seq<Frame>>, b: seq<seq<Frame>>, root: nat, x: nat, w: seq<Frame>, i: nat, u: nat)
    requires Strays(b, root, x, w, i, u)
    ensures Strays(a + b, root, x, w, |a| + i, u)
  {
    assert i < |b| ==> (a + b)[|a| + i] == b[i];
  }

  lemma HarmInWindow(w: seq<Frame>, hhdm: nat, o: Own, w1: seq<Frame>, p: Own, v: nat, k: nat, x: nat) returns (u: nat)
    requires 1 <= k <= 3 && Linkable(w1, p, v, k + 1) && Stands(w, hhdm, o, v, w1, p) && !HeldIsDead(w1, p, v, k + 1, x)
    ensures ROOT in o.tables
    ensures Strays(StepViews(w1, p, v, k + 1, true, true, false, PresentFirst), o.tables[ROOT], x, w, 1, u)
  {
    hide Mappable, StepViews, TreeOk, RolesOk, Walk, Window, Held;
    u :| u < PAGES && u != x && Uses(On(k + 1, v), Index(k + 1, v), u)
      && Walk(Window(w1, p, v, k + 1), k, Held(w1, p, v, k + 1).address, u) != None;
    WindowStrays(w1, p, v, k + 1, u);
    WindowIsSecond(w1, p, v, k + 1);
  }

  lemma WindowIsSecond(w: seq<Frame>, o: Own, v: nat, k: nat)
    requires CanLink(w, o, v, k)
    ensures StepViews(w, o, v, k, true, true, false, PresentFirst)[1] == Window(w, o, v, k)
  {
    hide PutEntry, Decode;
  }

  /** The page that a call flushes: `v`, or none when it fails, since no page number is PAGES. */
  function Flushed(o: Own, v: nat): nat {
    if MapPage(o, v, true, true, true).0 then v else PAGES
  }

  lemma LinksWhenOk(w: seq<Frame>, hhdm: nat, head: nat, o: Own, v: nat)
    requires Mappable(w, hhdm, head, o, v)
    ensures LinksPage(w, o, v) <==> Flushed(o, v) == v
    ensures LinksPage(w, o, v) ==> Linkable(GrownFrames(w, o, v, 1), Grown(o, v, 1), v, 1)
  {
    hide Inv, NoHuge;
    GrownKeeps(w, hhdm, head, o, v, 1);
    GrownFree(o, v, 1);
    if v !in o.leaves && Grown(o, v, 1).free != [] {
      GrownLinks(w, hhdm, head, o, v, 0);
    }
  }

  /** The stores of the whole call, for both orders. */
  lemma MapQuietIff(w: seq<Frame>, hhdm: nat, head: nat, o: Own, v: nat, user: bool, writable: bool, executable: bool,
                    order: Order)
    requires Mappable(w, hhdm, head, o, v)
    ensures ROOT in o.tables
    ensures AllSameBut(w, MapViews(w, o, v, user, writable, executable, order), o.tables[ROOT], Flushed(o, v))
       <==> (order.PresentFirst? ==> Harmless(w, o, v, 1, Flushed(o, v)))
  {
    hide Mappable, Stands, HeldIsDead, StepViews, Linkable, CanLink, AllSameBut, TreeOk, RolesOk, NoHuge, GrownFrames,
         Grown, GrownViews, Harmless, Flushed, LinksPage;
    var w1, p, x := GrownFrames(w, o, v, 1), Grown(o, v, 1), Flushed(o, v);
    GrownKeeps(w, hhdm, head, o, v, 1);
    GrownQuietIff(w, hhdm, head, o, v, 1, order, x);
    LinksWhenOk(w, hhdm, head, o, v);
    if LinksPage(w, o, v) {
      QuietLeaf(w, hhdm, o, w1, p, v, user, writable, !executable, order, GrownViews(w, o, v, 1, order));
    } else {
      assert MapViews(w, o, v, user, writable, executable, order) == GrownViews(w, o, v, 1, order);
    }
  }

  lemma QuietLeaf(w: seq<Frame>, hhdm: nat, o: Own, w1: seq<Frame>, p: Own, v: nat, user: bool, writable: bool,
                  noExecute: bool, order: Order, views: seq<seq<Frame>>)
    requires Linkable(w1, p, v, 1) && Stands(w, hhdm, o, v, w1, p)
    ensures AllSameBut(w, views + StepViews(w1, p, v, 1, user, writable, noExecute, order), o.tables[ROOT], v)
       <==> AllSameBut(w, views, o.tables[ROOT], v)
  {
    hide Mappable, SameWalks, StepViews, AllSameBut;
    LeafViews(w1, p, v, user, writable, noExecute, order);
    AppendQuiet(w, w1, views, StepViews(w1, p, v, 1, user, writable, noExecute, order), o.tables[ROOT], v);
  }

  /** The call changes the translation of its page only, and only when it succeeds. */
  lemma MapFramesWalks(w: seq<Frame>, hhdm: nat, head: nat, o: Own, v: nat, user: bool, writable: bool,
      executable: bool)
    requires Mappable(w, hhdm, head, o, v)
    ensures ROOT in o.tables
    ensures SameWalksBut(w, MapFrames(w, o, v, user, writable, executable), o.tables[ROOT], Flushed(o, v))
  {
    hide Inv, NoHuge, WithEntry, GrownFrames, TreeOk, RolesOk, Walk, Held;
    var w1, p := GrownFrames(w, o, v, 1), Grown(o, v, 1);
    GrownKeeps(w, hhdm, head, o, v, 1);
    LinksWhenOk(w, hhdm, head, o, v);
    if LinksPage(w, o, v) {
      LeafView(w1, p, v, LinkEntry(Held(w1, p, v, 1), p.free[0], user, writable, !executable));
      SameStart(w, w1, MapFrames(w, o, v, user, writable, executable), o.tables[ROOT], v);
    }
  }

  /** When vm_map has returned, every possible cache agrees with the tables if and only if at each level at which
      it linked a table no page, other than the one it flushed, was found through the address that the entry
      held before. */
  lemma MapCoherentIff(w: seq<Frame>, hhdm: nat, head: nat, o: Own, v: nat, user: bool, writable: bool,
                       executable: bool)
    requires Mappable(w, hhdm, head, o, v)
    ensures ROOT in o.tables
    ensures Agrees(w, MapViews(w, o, v, user, writable, executable, PresentFirst), o.tables[ROOT], Flushed(o, v),
                   MapFrames(w, o, v, user, writable, executable))
       <==> Harmless(w, o, v, 1, Flushed(o, v))
  {
    hide Inv, NoHuge, Harmless, StepViews, Flushed, GrownViews, MapFrames, Agrees, Walk, AllSameBut, MapPage;
    var x, w' := Flushed(o, v), MapFrames(w, o, v, user, writable, executable);
    var views := MapViews(w, o, v, user, writable, executable, PresentFirst);
    MapFramesWalks(w, hhdm, head, o, v, user, writable, executable);
    MapQuietIff(w, hhdm, head, o, v, user, writable, executable, PresentFirst);
    if Harmless(w, o, v, 1, x) {
      QuietAgrees(w, views, o.tables[ROOT], x, w');
    } else {
      var i, u := HarmIsSeen(w, hhdm, head, o, v, 1, x);
      assert views[i] == GrownViews(w, o, v, 1, PresentFirst)[i];
      assert Strays(views, o.tables[ROOT], x, w', i, u);
      StrayDisagrees(w, views, o.tables[ROOT], x, w', i, u);
    }
  }

  /** With `address` set before `present`, every possible cache agrees, from every state. */
  lemma AddressFirstCoherent(w: seq<Frame>, hhdm: nat, head: nat, o: Own, v: nat, user: bool, writable: bool,
                             executable: bool)
    requires Mappable(w, hhdm, head, o, v)
    ensures ROOT in o.tables
    ensures var views := MapViews(w, o, v, user, writable, executable, AddressFirst);
      && AllSameBut(w, views, o.tables[ROOT], Flushed(o, v))
      && Agrees(w, views, o.tables[ROOT], Flushed(o, v), MapFrames(w, o, v, user, writable, executable))
  {
    hide *;
    MapFramesWalks(w, hhdm, head, o, v, user, writable, executable);
    MapQuietIff(w, hhdm, head, o, v, user, writable, executable, AddressFirst);
    QuietAgrees(w, MapViews(w, o, v, user, writable, executable, AddressFirst), o.tables[ROOT], Flushed(o, v),
                MapFrames(w, o, v, user, writable, executable));
  }
}
