/** What the page walker could see between two stores, and what the translation cache may then hold
    (Intel SDM volume 3A, section 4.10). */
module Windows {
  import opened Options
  import opened Words
  import opened Entry
  import opened Tables
  import opened Edits
  import opened Growth
  import opened Snapshots
  import Teardown

  // ---------------------------------------------------------------- one store into a table

  /** A store into the level-1 entry of page `v` can change the translation of `v` only. */
  lemma LeafViewWalks(w: seq<Frame>, w': seq<Frame>, o: Own, v: nat, e: Entry, zs: set<nat>)
    requires TreeOk(w, o) && RolesOk(|w|, o) && v < PAGES && On(1, v) in o.tables
    requires Edited(w, w', o.tables[On(1, v)], Index(1, v), e, zs)
    requires forall q :: q in o.tables ==> o.tables[q] !in zs
    ensures SameWalksBut(w, w', o.tables[ROOT], v)
  {
    hide RolesOk, Edited, Decode;
    assert ROOT in o.tables;
    hide TreeOk;
    forall u | 0 <= u < PAGES && u != v
      ensures Walk(w', 4, o.tables[ROOT], u) == Walk(w, 4, o.tables[ROOT], u)
    {
      LeafViewWalk(w, w', o, v, e, zs, u);
    }
  }

  lemma LeafViewWalk(w: seq<Frame>, w': seq<Frame>, o: Own, v: nat, e: Entry, zs: set<nat>, u: nat)
    requires TreeOk(w, o) && RolesOk(|w|, o) && v < PAGES && On(1, v) in o.tables
    requires Edited(w, w', o.tables[On(1, v)], Index(1, v), e, zs)
    requires forall q :: q in o.tables ==> o.tables[q] !in zs
    requires u < PAGES && u != v
    ensures ROOT in o.tables && Walk(w', 4, o.tables[ROOT], u) == Walk(w, 4, o.tables[ROOT], u)
  {
    OnRoot(u);
    forall k | 1 <= k <= 4 && On(k, u) in o.tables
      ensures o.tables[On(k, u)] < |w| && w'[o.tables[On(k, u)]][Index(k, u)] == w[o.tables[On(k, u)]][Index(k, u)]
    {
      ChildOn(1, v);
      ChildOn(k, u);
      EditedElsewhere(w, w', o, On(1, v), Index(1, v), e, zs, On(k, u), Index(k, u));
    }
    WalkSame(w, w', o, 4, u);
  }

  /** Nothing is found above a table in which nothing is found. */
  lemma {:induction false} NothingAbove(w: seq<Frame>, w': seq<Frame>, o: Own, k: nat, l: nat, u: nat)
    requires TreeOk(w, o) && |w'| == |w| && 1 <= k <= l <= 4 && On(k, u) in o.tables
    requires Walk(w', k, o.tables[On(k, u)], u) == None
    requires forall m :: k < m <= l && On(m, u) in o.tables ==>
               w'[o.tables[On(m, u)]][Index(m, u)] == w[o.tables[On(m, u)]][Index(m, u)]
    ensures On(l, u) in o.tables && Walk(w', l, o.tables[On(l, u)], u) == None
    decreases l
  {
    if k < l {
      NothingAbove(w, w', o, k, l - 1, u);
      ChildOn(l, u);
      assert PlaceOk(|w|, o, On(l - 1, u));
      assert PlaceOk(|w|, o, On(l, u)) && SlotOk(w, o, On(l, u), Index(l, u));
    }
  }

  /** Something found in a table is found from above it. */
  lemma {:induction false} SomethingAbove(w: seq<Frame>, w': seq<Frame>, o: Own, k: nat, l: nat, u: nat)
    requires TreeOk(w, o) && |w'| == |w| && 1 <= k <= l <= 4 && On(k, u) in o.tables
    requires Walk(w', k, o.tables[On(k, u)], u).Some?
    requires forall m :: k < m <= l && On(m, u) in o.tables ==>
               w'[o.tables[On(m, u)]][Index(m, u)] == w[o.tables[On(m, u)]][Index(m, u)]
    ensures On(l, u) in o.tables && Walk(w', l, o.tables[On(l, u)], u).Some?
    decreases l
  {
    if k < l {
      SomethingAbove(w, w', o, k, l - 1, u);
      ChildOn(l, u);
      assert PlaceOk(|w|, o, On(l - 1, u));
      assert PlaceOk(|w|, o, On(l, u)) && SlotOk(w, o, On(l, u), Index(l, u));
    }
  }

  /** The absent entry `j` of table `q` was set to a present `e`. */
  ghost predicate Opened(w: seq<Frame>, w': seq<Frame>, o: Own, q: Path, j: nat, e: Entry, f: nat) {
    && TreeOk(w, o) && RolesOk(|w|, o) && q in o.tables && 2 <= q.level <= 4 && j < 512
    && o.tables[q] < |w| && !EntryAt(w, o.tables[q], j).present
    && Edited(w, w', o.tables[q], j, e, {f}) && e.present && !e.pageSize
    && (forall p :: p in o.tables ==> o.tables[p] != f)
  }

  /** The walk for page `u` reads entry `j` of table `q`. */
  predicate Uses(q: Path, j: nat, u: nat) {
    On(q.level, u) == q && q.level >= 1 && Index(q.level, u) == j
  }

  /** No page whose walk goes through entry `j` of `q` is found in the table in frame `f`. */
  ghost predicate LeadsNowhere(w: seq<Frame>, q: Path, j: nat, f: nat)
    requires 2 <= q.level <= 4
  {
    forall u :: 0 <= u < PAGES && Uses(q, j, u) ==> Walk(w, q.level - 1, f, u) == None
  }

  /** Translations stay as they were exactly when nothing is found through the new entry. */
  lemma OpenedIff(w: seq<Frame>, w': seq<Frame>, o: Own, q: Path, j: nat, e: Entry, f: nat)
    requires Opened(w, w', o, q, j, e, f)
    ensures ROOT in o.tables && (SameWalks(w, w', o.tables[ROOT]) <==> LeadsNowhere(w', q, j, e.address))
  {
    hide RolesOk, Edited, Decode;
    assert ROOT in o.tables;
    hide TreeOk;
    forall u | 0 <= u < PAGES
      ensures Walk(w', 4, o.tables[ROOT], u) == Walk(w, 4, o.tables[ROOT], u)
         <==> (Uses(q, j, u) ==> Walk(w', q.level - 1, e.address, u) == None)
    {
      OpenedWalk(w, w', o, q, j, e, f, u);
    }
  }

  lemma OpenedWalk(w: seq<Frame>, w': seq<Frame>, o: Own, q: Path, j: nat, e: Entry, f: nat, u: nat)
    requires Opened(w, w', o, q, j, e, f) && u < PAGES
    ensures ROOT in o.tables
    ensures Walk(w', 4, o.tables[ROOT], u) == Walk(w, 4, o.tables[ROOT], u)
       <==> (Uses(q, j, u) ==> Walk(w', q.level - 1, e.address, u) == None)
  {
    hide RolesOk;
    OnRoot(u);
    forall k | 1 <= k <= 4 && On(k, u) in o.tables && (On(k, u) != q || Index(k, u) != j)
      ensures o.tables[On(k, u)] < |w| && w'[o.tables[On(k, u)]][Index(k, u)] == w[o.tables[On(k, u)]][Index(k, u)]
    {
      EditedElsewhere(w, w', o, q, j, e, {f}, On(k, u), Index(k, u));
    }
    if Uses(q, j, u) {
      WalkDead(w, o, q.level, 4, u);
      if Walk(w', q.level - 1, e.address, u) == None {
        NothingAbove(w, w', o, q.level, 4, u);
      } else {
        SomethingAbove(w, w', o, q.level, 4, u);
      }
    } else {
      WalkSame(w, w', o, 4, u);
    }
  }

  /** No view changes the translation of a page other than `v`. */
  ghost predicate AllSameBut(w: seq<Frame>, views: seq<seq<Frame>>, root: nat, v: nat) {
    forall i :: 0 <= i < |views| ==> SameWalksBut(w, views[i], root, v)
  }

  // ---------------------------------------------------------------- the translation cache

  /** After stores with the given views, starting from cache `c0`, and a flush of page `v` at the end, when
      memory is `w`: any translation that could have been read before the flush may still be there, unless it
      is for `v`, and any that can be read now. */
  ghost predicate CacheAfter(c0: set<(nat, Mapping)>, views: seq<seq<Frame>>, root: nat, v: nat, w: seq<Frame>,
        c: set<(nat, Mapping)>) {
    forall x :: x in c ==>
      && x.0 < PAGES
      && (|| Walk(w, 4, root, x.0) == Some(x.1)
          || (x.0 != v && (x in c0 || exists i :: 0 <= i < |views| && Walk(views[i], 4, root, x.0) == Some(x.1))))
  }

  ghost predicate Coherent(c: set<(nat, Mapping)>, w: seq<Frame>, root: nat) {
    forall x :: x in c ==> x.0 < PAGES && Walk(w, 4, root, x.0) == Some(x.1)
  }

  /** When every store leaves the other pages alone, the flush of `v` is enough: however the processor filled
      its cache in between, it agrees with the tables. */
  lemma FlushIsEnough(c0: set<(nat, Mapping)>, w0: seq<Frame>, views: seq<seq<Frame>>, root: nat, v: nat,
                      w: seq<Frame>, c: set<(nat, Mapping)>)
    requires Coherent(c0, w0, root) && AllSameBut(w0, views, root, v) && SameWalksBut(w0, w, root, v)
    requires CacheAfter(c0, views, root, v, w, c)
    ensures Coherent(c, w, root)
  {
    forall x | x in c ensures x.0 < PAGES && Walk(w, 4, root, x.0) == Some(x.1) {
      CachedAgrees(c0, w0, views, root, v, w, x);
    }
  }

  lemma CachedAgrees(c0: set<(nat, Mapping)>, w0: seq<Frame>, views: seq<seq<Frame>>, root: nat, v: nat,
                     w: seq<Frame>, x: (nat, Mapping))
    requires Coherent(c0, w0, root) && AllSameBut(w0, views, root, v) && SameWalksBut(w0, w, root, v) && x.0 < PAGES
    requires || Walk(w, 4, root, x.0) == Some(x.1)
             || (x.0 != v && (x in c0 || exists i :: 0 <= i < |views| && Walk(views[i], 4, root, x.0) == Some(x.1)))
    ensures Walk(w, 4, root, x.0) == Some(x.1)
  {
    hide Walk;
    if x.0 != v {
      assert Walk(w, 4, root, x.0) == Walk(w0, 4, root, x.0);
    }
  }

  /** Some view showed page `u`, other than `v`, a translation that `w` does not give. */
  ghost predicate Strays(views: seq<seq<Frame>>, root: nat, v: nat, w: seq<Frame>, i: nat, u: nat) {
    i < |views| && u < PAGES && u != v && Walk(views[i], 4, root, u).Some? &&
          Walk(w, 4, root, u) != Walk(views[i], 4, root, u)
  }

  /** The flush is enough for every possible cache exactly when no view showed another page a translation that
      the final tables do not give. */
  lemma FlushIsEnoughIff(views: seq<seq<Frame>>, root: nat, v: nat, w: seq<Frame>)
    ensures (forall c :: CacheAfter({}, views, root, v, w, c) ==> Coherent(c, w, root))
       <==> forall i, u :: !Strays(views, root, v, w, i, u)
  {
    hide Walk;
    if forall c :: CacheAfter({}, views, root, v, w, c) ==> Coherent(c, w, root) {
      forall i, u ensures !Strays(views, root, v, w, i, u) {
        if Strays(views, root, v, w, i, u) {
          StrayStays(views, root, v, w, i, u);
        }
      }
    } else {
      var c: set<(nat, Mapping)> :| CacheAfter({}, views, root, v, w, c) && !Coherent(c, w, root);
      var x: (nat, Mapping) :| x in c && !(x.0 < PAGES && Walk(w, 4, root, x.0) == Some(x.1));
      var i :| 0 <= i < |views| && Walk(views[i], 4, root, x.0) == Some(x.1);
      assert Strays(views, root, v, w, i, x.0);
    }
  }

  /** A stray translation can survive the flush. */
  lemma StrayStays(views: seq<seq<Frame>>, root: nat, v: nat, w: seq<Frame>, i: nat, u: nat)
    requires Strays(views, root, v, w, i, u)
    ensures exists c :: CacheAfter({}, views, root, v, w, c) && !Coherent(c, w, root)
  {
    hide Walk;
    var x := (u, Walk(views[i], 4, root, u).value);
    assert Walk(views[i], 4, root, x.0) == Some(x.1);
    assert CacheAfter({}, views, root, v, w, {x});
    assert x in {x};
  }

  /** However the processor filled its cache, before the stores from the tables in `w0` and then between the
      stores, it agrees with the tables in `w` once page `v` is flushed. */
  ghost predicate Agrees(w0: seq<Frame>, views: seq<seq<Frame>>, root: nat, v: nat, w: seq<Frame>) {
    forall c0, c :: Coherent(c0, w0, root) && CacheAfter(c0, views, root, v, w, c) ==> Coherent(c, w, root)
  }

  lemma QuietAgrees(w0: seq<Frame>, views: seq<seq<Frame>>, root: nat, v: nat, w: seq<Frame>)
    requires AllSameBut(w0, views, root, v) && SameWalksBut(w0, w, root, v)
    ensures Agrees(w0, views, root, v, w)
  {
    forall c0, c | Coherent(c0, w0, root) && CacheAfter(c0, views, root, v, w, c) ensures Coherent(c, w, root) {
      FlushIsEnough(c0, w0, views, root, v, w, c);
    }
  }

  lemma StrayDisagrees(w0: seq<Frame>, views: seq<seq<Frame>>, root: nat, v: nat, w: seq<Frame>, i: nat, u: nat)
    requires Strays(views, root, v, w, i, u)
    ensures !Agrees(w0, views, root, v, w)
  {
    StrayStays(views, root, v, w, i, u);
    var c :| CacheAfter({}, views, root, v, w, c) && !Coherent(c, w, root);
    assert Coherent({}, w0, root);
  }

  /** unmap_lower_half flushes no single page (again, no page number is PAGES). What was cached before it agrees
      with the tables after it, for every possible cache, exactly when nothing was mapped in the lower half: in
      every other case the reload of CR3 at its end is needed. */
  lemma ReloadNeededIff(w0: seq<Frame>, w: seq<Frame>, root: nat)
    requires Teardown.LowerGone(w0, w, root)
    ensures (forall c :: CacheAfter({}, [w0], root, PAGES, w, c) ==> Coherent(c, w, root))
       <==> forall u :: 0 <= u < LOWERPAGES ==> Walk(w0, 4, root, u) == None
  {
    hide CacheAfter, Coherent, Walk, Strays, Teardown.LowerGone;
    FlushIsEnoughIff([w0], root, PAGES, w);
    if u: nat :| u < LOWERPAGES && Walk(w0, 4, root, u) != None {
      LostIsStray(w0, w, root, 0, u);
      assert Strays([w0], root, PAGES, w, 0, u);
    }
    if i: nat, u: nat :| Strays([w0], root, PAGES, w, i, u) {
      LostIsStray(w0, w, root, i, u);
      assert u < LOWERPAGES && Walk(w0, 4, root, u) != None;
    }
  }

  lemma LostIsStray(w0: seq<Frame>, w: seq<Frame>, root: nat, i: nat, u: nat)
    requires Teardown.LowerGone(w0, w, root)
    ensures Strays([w0], root, PAGES, w, i, u) <==> i == 0 && u < LOWERPAGES && Walk(w0, 4, root, u) != None
  {
    hide Walk;
    if u < PAGES {
      assert Walk(w, 4, root, u) == if u < LOWERPAGES then None else Walk(w0, 4, root, u);
    }
  }
  // ---------------------------------------------------------------- editing a mapped page

  /** Any rewriting of the level-1 entry of `v` leaves the other translations alone. */
  lemma RightsView(s: Phys, hhdm: nat, v: nat, e: Entry)
    requires Ok(s, hhdm) && v < PAGES && On(1, v) in s.own.tables && s.own.tables[On(1, v)] < |s.m| / PAGE
    ensures ROOT in s.own.tables
    ensures SameWalksBut(View(s.m), PutEntry(View(s.m), s.own.tables[On(1, v)], Index(1, v), e), s.own.tables[ROOT], v)
  {
    var w, t, j := View(s.m), s.own.tables[On(1, v)], Index(1, v);
    PutEntryAt(w, t, j, e);
    LeafViewWalks(w, PutEntry(w, t, j, e), s.own, v, e, {});
  }

  lemma ThreeQuiet(w: seq<Frame>, v1: seq<Frame>, v2: seq<Frame>, v3: seq<Frame>, seen0: seq<seq<Frame>>,
        seen1: seq<seq<Frame>>, root: nat, v: nat)
    requires seen1 == seen0 + [v1] + [v2] + [v3]
    requires SameWalksBut(w, v1, root, v) && SameWalksBut(w, v2, root, v) && SameWalksBut(w, v3, root, v)
    ensures seen0 <= seen1 && AllSameBut(w, seen1[|seen0|..], root, v)
  {
    hide SameWalksBut;
    assert seen1[|seen0|..] == [v1, v2, v3];
  }

  lemma TwoQuiet(w: seq<Frame>, v1: seq<Frame>, v2: seq<Frame>, seen0: seq<seq<Frame>>, seen1: seq<seq<Frame>>,
        root: nat, v: nat)
    requires seen1 == seen0 + [v1] + [v2]
    requires SameWalksBut(w, v1, root, v) && SameWalksBut(w, v2, root, v)
    ensures seen0 <= seen1 && AllSameBut(w, seen1[|seen0|..], root, v)
  {
    hide SameWalksBut;
    assert seen1[|seen0|..] == [v1, v2];
  }

  /** A store into an owned data page changes no translation. */
  lemma DataStoreWalks(s: Phys, hhdm: nat, f: nat, x: word)
    requires Ok(s, hhdm) && f < |s.m| / PAGE && forall q :: q in s.own.tables ==> s.own.tables[q] != f
    ensures ROOT in s.own.tables && SameWalks(View(s.m), View(Store(s.m, PAGE * f, x)), s.own.tables[ROOT])
  {
    hide Load, FrameAt, Store, RolesOk, ChainOk, SlotOk, PlaceOk, Walk;
    var w, w' := View(s.m), View(Store(s.m, PAGE * f, x));
    ViewOfStore(s.m, f, 0, x);
    OutsideTree(w, w', s.own, s.own, f);
  }

  lemma NothingSeen(w: seq<Frame>, seen: seq<seq<Frame>>, root: nat, v: nat)
    ensures AllSameBut(w, seen[|seen|..], root, v)
  {
  }

  lemma LeafApart(s: Phys, hhdm: nat, v: nat)
    requires Ok(s, hhdm) && v in s.own.leaves && s.own.leaves[v].frame in s.own.role
    requires s.own.role[s.own.leaves[v].frame] == Leaf(v)
    ensures forall q :: q in s.own.tables ==> s.own.tables[q] != s.own.leaves[v].frame
  {
  }

  lemma SameIsSameBut(w: seq<Frame>, w': seq<Frame>, root: nat, v: nat)
    requires SameWalks(w, w', root)
    ensures SameWalksBut(w, w', root, v)
  {
  }

  lemma WindowFinds(w: seq<Frame>, w': seq<Frame>, o: Own, q: Path, j: nat, e: Entry, f: nat, u: nat)
    requires Opened(w, w', o, q, j, e, f) && u < PAGES && Uses(q, j, u) && Walk(w', q.level - 1, e.address, u).Some?
    ensures ROOT in o.tables && Walk(w, 4, o.tables[ROOT], u) == None && Walk(w', 4, o.tables[ROOT], u).Some?
  {
    OpenedWalk(w, w', o, q, j, e, f, u);
    OnRoot(u);
    WalkDead(w, o, q.level, 4, u);
  }
}
