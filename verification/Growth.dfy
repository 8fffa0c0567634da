/** What vm_map does to the ownership state, and what it costs. */
module Growth {
  import opened Words
  import opened Entry
  import opened Tables
  import opened Edits

  /** No 2 MiB or 1 GiB page lies on the way to page `v`; the mapping routines never test for one. */
  ghost predicate NoHuge(w: seq<Frame>, o: Own, v: nat)
    requires TreeOk(w, o)
  {
    forall l :: 2 <= l <= 4 && On(l, v) in o.tables ==>
      PlaceOk(|w|, o, On(l, v)) && !EntryAt(w, o.tables[On(l, v)], Index(l, v)).pageSize
  }

  /** The missing tables on the way to page `v` down to level `k`, taken from the free list one by one
      until it runs out. */
  function Grown(o: Own, v: nat, k: nat): (r: Own)
    decreases 4 - k
  {
    if k >= 4 || On(k, v) in o.tables then o
    else
      var p := Grown(o, v, k + 1);
      if p.free == [] then p else WithTable(p, On(k, v))
  }

  /** The outcome of vm_map for page `v`. */
  function MapPage(o: Own, v: nat, user: bool, writable: bool, executable: bool): (r: (bool, Own))
  {
    if v in o.leaves then (false, o)
    else
      var p := Grown(o, v, 1);
      if p.free == [] then (false, p)
      else (true, WithLeaf(p, v, Mapping(p.free[0], user, writable, executable)))
  }

  /** Frames that vm_map needs for page `v`: the missing tables and the page itself. */
  function Needed(o: Own, v: nat): nat {
    if On(1, v) in o.tables then 1
    else if On(2, v) in o.tables then 2
    else if On(3, v) in o.tables then 3
    else 4
  }

  function Min(a: int, b: int): int {
    if a < b then a else b
  }

  /** How many tables `Grown` would add down to level `k`, were memory unlimited. */
  function Wanted(o: Own, v: nat, k: nat): nat
    decreases 4 - k
  {
    if k >= 4 || On(k, v) in o.tables then 0 else 1 + Wanted(o, v, k + 1)
  }

  /** The growth takes frames from the front of the list and touches no mapping. */
  lemma {:induction false} GrownFree(o: Own, v: nat, k: nat)
    ensures Grown(o, v, k).free == o.free[Min(Wanted(o, v, k), |o.free|)..]
    ensures Grown(o, v, k).leaves == o.leaves
    decreases 4 - k
  {
    if k < 4 && On(k, v) !in o.tables {
      GrownFree(o, v, k + 1);
      var c := Min(Wanted(o, v, k + 1), |o.free|);
      if c < |o.free| {
        assert o.free[c..][1..] == o.free[c + 1..];
      }
    }
  }

  /** It keeps every table there was and adds tables only on the way to `v`. */
  lemma {:induction false} GrownTables(o: Own, v: nat, k: nat)
    ensures var p := Grown(o, v, k);
      && (forall q :: q in o.tables ==> q in p.tables && p.tables[q] == o.tables[q])
      && (forall q :: q in p.tables && q !in o.tables ==> k <= q.level < 4 && q == On(q.level, v))
    decreases 4 - k
  {
    if k < 4 && On(k, v) !in o.tables {
      GrownTables(o, v, k + 1);
    }
  }

  /** Only frames taken from the free list change their role, and they become tables. */
  lemma {:induction false} GrownRoles(o: Own, v: nat, k: nat)
    ensures var p := Grown(o, v, k);
      && (forall f :: f in o.role && f !in o.free ==> f in p.role && p.role[f] == o.role[f])
      && (forall f :: f in p.role && f !in o.role ==> f in o.free)
      && (forall f :: f in o.role ==> f in p.role)
    decreases 4 - k
  {
    if k >= 4 || On(k, v) in o.tables {
    } else {
      GrownRoles(o, v, k + 1);
      GrownFree(o, v, k + 1);
    }
  }

  lemma WantedIsNeeded(w: seq<Frame>, o: Own, v: nat)
    requires TreeOk(w, o) && v < PAGES
    ensures Wanted(o, v, 1) + 1 == Needed(o, v)
    ensures forall k :: 1 <= k <= 4 && On(k, v) in o.tables ==> Wanted(o, v, k) == 0
  {
    OnRoot(v);
    ChildOn(2, v);
    ChildOn(3, v);
    ChildOn(4, v);
    assert On(1, v) in o.tables ==> On(2, v) in o.tables;
    assert On(2, v) in o.tables ==> On(3, v) in o.tables;
    assert Wanted(o, v, 4) == 0;
    assert Wanted(o, v, 3) == if On(3, v) in o.tables then 0 else 1;
    assert Wanted(o, v, 2) == if On(2, v) in o.tables then 0 else 1 + Wanted(o, v, 3);
  }

  /** The exact cost: vm_map succeeds exactly when the page is unmapped and as many frames are free as
      levels are missing, and then takes exactly those frames, from the front of the list. A shortage
      leaves the list empty and the map as it was; a mapped page changes nothing. */
  lemma MapCost(w: seq<Frame>, hhdm: nat, head: nat, o: Own, v: nat, user: bool, writable: bool, executable: bool)
    requires Inv(w, hhdm, head, o) && v < PAGES
    ensures var (ok, p) := MapPage(o, v, user, writable, executable);
      && (ok <==> v !in o.leaves && Needed(o, v) <= |o.free|)
      && (ok ==>
            && p.free == o.free[Needed(o, v)..]
            && p.leaves == o.leaves[v := Mapping(o.free[Needed(o, v) - 1], user, writable, executable)])
      && (!ok ==> p.leaves == o.leaves)
      && (!ok && v in o.leaves ==> p == o)
      && (!ok && v !in o.leaves ==> p.free == [])
      && (forall q :: q in o.tables ==> q in p.tables && p.tables[q] == o.tables[q])
      && (forall q :: q in p.tables && q !in o.tables ==> q == On(q.level, v))
  {
    WantedIsNeeded(w, o, v);
    GrownFree(o, v, 1);
    GrownTables(o, v, 1);
  }

  /** The outcome of vm_protect for page `v`. */
  function ProtectPage(o: Own, v: nat, user: bool, writable: bool, executable: bool): (r: (bool, Own)) {
    if v in o.leaves then (true, WithRights(o, v, Mapping(o.leaves[v].frame, user, writable, executable)))
    else (false, o)
  }
}
