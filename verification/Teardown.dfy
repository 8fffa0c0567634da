/** unmap_lower_half, step by step, on snapshots. */
module Teardown {
  import opened Options
  import opened Words
  import opened Memory
  import opened Entry
  import opened Tables
  import opened Edits
  import opened UserSpace
  import opened Snapshots

  /** How far the three nested loops have come: how many places of levels 3, 2 and 1 are behind them. */
  datatype Cursor = Cursor(l3: nat, l2: nat, l1: nat)

  /** The table at `q` has been given back. */
  predicate Done(q: Path, c: Cursor) {
    if q.level == 3 then q.prefix < c.l3
    else if q.level == 2 then q.prefix < c.l2
    else q.level == 1 && q.prefix < c.l1
  }

  /** `present = false` on a present entry. */
  function Cleared(x: word): word {
    if Decode(x).present then Encode(Decode(x).(present := false)) else x
  }

  predicate GivenBack(o: Own, f: nat, c: Cursor) {
    f in o.role && o.role[f].Table? && Done(o.role[f].path, c)
  }

  /** Up to `c`, the lower-half tables `freed` went to the free list, last one first; `r` entries of the
      level-4 table are cleared, and every other page is as it was. */
  ghost predicate Tearing(s0: Phys, s: Phys, hhdm: nat, r: nat, c: Cursor, freed: seq<nat>) {
    && Ok(s0, hhdm) && ROOT in s0.own.tables && s.own == s0.own && s.head < TWO64 && |s.m| == |s0.m|
    && s.count == s0.count + |freed|
    && ChainOk(View(s.m), hhdm, s.head, freed + s0.own.free)
    && NoRepeat(freed)
    && (forall f :: f in freed ==> GivenBack(s0.own, f, c))
    && (forall q :: q in s0.own.tables && Done(q, c) ==> s0.own.tables[q] in freed)
    && (forall f :: 0 <= f < |s.m| / PAGE && f != s0.own.tables[ROOT] && !GivenBack(s0.own, f, c) ==>
          PageBytes(s.m, f) == PageBytes(s0.m, f))
    && RootCleared(View(s0.m), View(s.m), s0.own.tables[ROOT], r)
  }

  ghost predicate RootCleared(w0: seq<Frame>, w: seq<Frame>, root: nat, r: nat) {
    && root < |w0| == |w|
    && forall j :: 0 <= j < 512 ==> w[root][j] == if j < r then Cleared(w0[root][j]) else w0[root][j]
  }

  lemma TearingStart(s: Phys, hhdm: nat)
    requires Ok(s, hhdm)
    ensures Tearing(s, s, hhdm, 0, Cursor(0, 0, 0), []) && s.own.tables[ROOT] < |s.m| / PAGE
  {
    assert [] + s.own.free == s.own.free;
    assert PlaceOk(|s.m| / PAGE, s.own, ROOT);
  }

  /** Moving the cursor over places that hold no table changes nothing. */
  lemma Skip(s0: Phys, s: Phys, hhdm: nat, r: nat, c: Cursor, c': Cursor, freed: seq<nat>)
    requires Tearing(s0, s, hhdm, r, c, freed)
    requires forall q :: q in s0.own.tables ==> (Done(q, c') <==> Done(q, c))
    ensures Tearing(s0, s, hhdm, r, c', freed)
  {
    forall f | 0 <= f < |s.m| / PAGE ensures GivenBack(s0.own, f, c') <==> GivenBack(s0.own, f, c) {
      assert f in s0.own.role ==> RoleOk(s0.own, f);
    }
    forall f | f in freed ensures GivenBack(s0.own, f, c') {
      assert RoleOk(s0.own, f);
    }
  }

  /** A table that was not given back yet reads as at the start. */
  lemma StillThere(s0: Phys, s: Phys, hhdm: nat, r: nat, c: Cursor, freed: seq<nat>, q: Path)
    requires Tearing(s0, s, hhdm, r, c, freed) && q in s0.own.tables && !Done(q, c)
    ensures s0.own.tables[q] < |s.m| / PAGE && s0.own.tables[q] !in freed
    ensures q != ROOT ==> View(s.m)[s0.own.tables[q]] == View(s0.m)[s0.own.tables[q]]
  {
    var f := s0.own.tables[q];
    assert PlaceOk(|s0.m| / PAGE, s0.own, q);
    assert s0.own.role[f] == Table(q) && s0.own.role[s0.own.tables[ROOT]] == Table(ROOT);
    if q != ROOT {
      SameBytesSameFrame(s.m, s0.m, f);
    }
  }

  /** Giving back the table at `q`, the only one between the cursors. */
  lemma GiveBack(s0: Phys, s: Phys, s': Phys, hhdm: nat, r: nat, c: Cursor, c': Cursor, freed: seq<nat>, q: Path)
    requires Tearing(s0, s, hhdm, r, c, freed) && q in s0.own.tables && !Done(q, c) && q != ROOT
    requires forall p :: p in s0.own.tables ==> (Done(p, c') <==> Done(p, c) || p == q)
    requires s0.own.tables[q] < |s.m| / PAGE
    requires s'.m == Store(s.m, PAGE * s0.own.tables[q], s.head)
    requires s'.head == PAGE * s0.own.tables[q] + hhdm && s'.count == s.count + 1 && s'.own == s.own
    ensures Tearing(s0, s', hhdm, r, c', [s0.own.tables[q]] + freed)
  {
    hide TreeOk, ChainOk, RootCleared, Load, FrameAt;
    var f, freed' := s0.own.tables[q], [s0.own.tables[q]] + freed;
    assert s0.own.role[f] == Table(q) && s0.own.role[s0.own.tables[ROOT]] == Table(ROOT);
    StoreInPage(s.m, f, 0, s.head);
    ViewOfStore(s.m, f, 0, s.head);
    FreeKeepsRoot(View(s0.m), View(s.m), View(s'.m), s0.own.tables[ROOT], r, f);
    FreeChain(s0, s, s', hhdm, r, c, freed, q);
    FreeGivesBack(s0, s, hhdm, r, c, c', freed, q);
    forall g | 0 <= g < |s.m| / PAGE && g != s0.own.tables[ROOT] && !GivenBack(s0.own, g, c')
      ensures PageBytes(s'.m, g) == PageBytes(s0.m, g)
    {
      if GivenBack(s0.own, g, c) { assert RoleOk(s0.own, g); }
      assert g != f;
    }
  }

  lemma FreeKeepsRoot(w0: seq<Frame>, w: seq<Frame>, w': seq<Frame>, root: nat, r: nat, f: nat)
    requires RootCleared(w0, w, root, r) && f != root && |w'| == |w| && w'[root] == w[root]
    ensures RootCleared(w0, w', root, r)
  {
  }

  /** The list holds no table that was not given back. */
  lemma ListApart(s0: Phys, s: Phys, hhdm: nat, r: nat, c: Cursor, freed: seq<nat>, q: Path, i: nat)
    requires Tearing(s0, s, hhdm, r, c, freed) && q in s0.own.tables && !Done(q, c) && i < |freed + s0.own.free|
    ensures (freed + s0.own.free)[i] != s0.own.tables[q]
  {
    hide TreeOk, ChainOk, RootCleared;
    var f := (freed + s0.own.free)[i];
    assert s0.own.role[s0.own.tables[q]] == Table(q);
    if i < |freed| {
      assert f in freed;
    } else {
      assert f == s0.own.free[i - |freed|];
    }
  }

  lemma FreeChain(s0: Phys, s: Phys, s': Phys, hhdm: nat, r: nat, c: Cursor, freed: seq<nat>, q: Path)
    requires Tearing(s0, s, hhdm, r, c, freed) && q in s0.own.tables && !Done(q, c) && q != ROOT
    requires s0.own.tables[q] < |s.m| / PAGE
    requires s'.m == Store(s.m, PAGE * s0.own.tables[q], s.head) && s'.head == PAGE * s0.own.tables[q] + hhdm
    ensures ChainOk(View(s'.m), hhdm, s'.head, [s0.own.tables[q]] + freed + s0.own.free) && s'.head < TWO64
  {
    hide TreeOk, RolesOk, RootCleared, Load, FrameAt, GivenBack, NoRepeat, Done, PageBytes, View, Store, ChainOk;
    var f, free := s0.own.tables[q], freed + s0.own.free;
    ViewOfStore(s.m, f, 0, s.head);
    forall i | 0 <= i < |free| ensures free[i] != f {
      ListApart(s0, s, hhdm, r, c, freed, q, i);
    }
    PushOnto(View(s.m), hhdm, s.head, free, f);
    assert [f] + freed + s0.own.free == [f] + free;
  }

  lemma PushOnto(w: seq<Frame>, hhdm: nat, head: word, free: seq<nat>, f: nat)
    requires ChainOk(w, hhdm, head, free) && f < |w| && forall i :: 0 <= i < |free| ==> free[i] != f
    ensures ChainOk(w[f := w[f][0 := head]], hhdm, PAGE * f + hhdm, [f] + free)
  {
    ChainPushed(w, w[f := w[f][0 := head]], hhdm, head, free, f);
  }

  lemma FreeGivesBack(s0: Phys, s: Phys, hhdm: nat, r: nat, c: Cursor, c': Cursor, freed: seq<nat>, q: Path)
    requires Tearing(s0, s, hhdm, r, c, freed) && q in s0.own.tables && !Done(q, c)
    requires forall p :: p in s0.own.tables ==> (Done(p, c') <==> Done(p, c) || p == q)
    ensures var freed' := [s0.own.tables[q]] + freed;
      && NoRepeat(freed')
      && (forall f :: f in freed' ==> GivenBack(s0.own, f, c'))
      && (forall p :: p in s0.own.tables && Done(p, c') ==> s0.own.tables[p] in freed')
  {
    hide TreeOk, ChainOk, RootCleared, Load, FrameAt, View, PageBytes;
    var freed' := [s0.own.tables[q]] + freed;
    assert s0.own.role[s0.own.tables[q]] == Table(q);
    forall f | f in freed' ensures GivenBack(s0.own, f, c') {
      if f != s0.own.tables[q] {
        assert f in freed && RoleOk(s0.own, f);
      }
    }
    forall i, k | 0 <= i < k < |freed'| ensures freed'[i] != freed'[k] {
      assert freed'[k] in freed;
    }
  }

  /** Clearing the present bit of level-4 entry `r`. */
  lemma ClearRoot(s0: Phys, s: Phys, s': Phys, hhdm: nat, r: nat, c: Cursor, freed: seq<nat>)
    requires Tearing(s0, s, hhdm, r, c, freed) && r < 512
    requires SameBut(s.m, s'.m, {s0.own.tables[ROOT]})
    requires s0.own.tables[ROOT] < |s.m| / PAGE
    requires View(s'.m) == View(s.m)[s0.own.tables[ROOT] :=
               View(s.m)[s0.own.tables[ROOT]][r := Cleared(View(s0.m)[s0.own.tables[ROOT]][r])]]
    requires s'.head == s.head && s'.count == s.count && s'.own == s.own
    ensures Tearing(s0, s', hhdm, r + 1, c, freed)
  {
    hide TreeOk, RolesOk, Load, FrameAt, Cleared, GivenBack, NoRepeat, Decode, Encode, PageBytes, SlotOk, ChainOk,
         RootCleared;
    ClearRootChain(s0, s, s', hhdm, r, c, freed);
    ClearRootEntries(View(s0.m), View(s.m), View(s'.m), s0.own.tables[ROOT], r);
  }

  lemma ClearRootEntries(w0: seq<Frame>, w: seq<Frame>, w': seq<Frame>, root: nat, r: nat)
    requires RootCleared(w0, w, root, r) && r < 512
    requires w' == w[root := w[root][r := Cleared(w0[root][r])]]
    ensures RootCleared(w0, w', root, r + 1)
  {
  }

  lemma ClearRootChain(s0: Phys, s: Phys, s': Phys, hhdm: nat, r: nat, c: Cursor, freed: seq<nat>)
    requires Tearing(s0, s, hhdm, r, c, freed) && s0.own.tables[ROOT] < |s.m| / PAGE && |s'.m| == |s.m|
    requires forall f :: 0 <= f < |s.m| / PAGE && f != s0.own.tables[ROOT] ==> View(s'.m)[f] == View(s.m)[f]
    ensures ChainOk(View(s'.m), hhdm, s.head, freed + s0.own.free)
  {
    hide TreeOk, RolesOk, Load, FrameAt, RootCleared, GivenBack, NoRepeat, Decode, Encode, PageBytes, SlotOk;
    var free := freed + s0.own.free;
    forall i | 0 <= i < |free|
      ensures free[i] < |s'.m| / PAGE && View(s'.m)[free[i]][0] == Ptr(hhdm, free, i + 1)
    {
      ListApart(s0, s, hhdm, r, c, freed, ROOT, i);
    }
  }

  /** Where the loops stand: `l4` entries of the level-4 table, `l2` of level 3 and `l1` of level 2 behind. */
  function At4(l4: nat): Cursor {
    Cursor(l4, 512 * l4, 0x4_0000 * l4)
  }

  function At3(l4: nat, l3: nat): Cursor {
    Cursor(l4, 512 * l4 + l3, 512 * (512 * l4 + l3))
  }

  function At2(l4: nat, l3: nat, l2: nat): Cursor {
    Cursor(l4, 512 * l4 + l3, 512 * (512 * l4 + l3) + l2)
  }

  /** The loop heads, and which place each step passes. */
  lemma CursorSteps(l4: nat, l3: nat, l2: nat)
    ensures At4(0) == Cursor(0, 0, 0) && At4(l4) == At3(l4, 0) && At3(l4, l3) == At2(l4, l3, 0)
    ensures forall q :: Done(q, At2(l4, l3, l2 + 1)) <==> Done(q, At2(l4, l3, l2)) || q == Child(Path(2,
          512 * l4 + l3), l2)
    ensures forall q :: Done(q, At3(l4, l3 + 1)) <==> Done(q, At2(l4, l3, 512)) || q == Child(Path(3, l4), l3)
    ensures forall q :: Done(q, At4(l4 + 1)) <==> Done(q, At3(l4, 512)) || q == Child(ROOT, l4)
    ensures !Done(ROOT, At4(l4)) && !Done(ROOT, At3(l4, l3))
    ensures !Done(Path(3, l4), At3(l4, l3)) && !Done(Path(3, l4), At2(l4, l3, l2))
    ensures !Done(Path(2, 512 * l4 + l3), At2(l4, l3, l2))
    ensures !Done(Child(Path(2, 512 * l4 + l3), l2), At2(l4, l3, l2))
    ensures !Done(Child(Path(3, l4), l3), At2(l4, l3, 512)) && !Done(Child(ROOT, l4), At3(l4, 512))
  {
    assert At4(l4 + 1) == Cursor(l4 + 1, At3(l4, 512).l2, At3(l4, 512).l1);
    assert Child(ROOT, l4) == Path(3, l4);
  }

  /** An absent level-4 entry counts as cleared. */
  lemma SkipRoot(s0: Phys, s: Phys, hhdm: nat, r: nat, c: Cursor, freed: seq<nat>)
    requires Tearing(s0, s, hhdm, r, c, freed) && r < 512 && s0.own.tables[ROOT] < |s.m| / PAGE
    requires !EntryAt(View(s.m), s0.own.tables[ROOT], r).present
    ensures Tearing(s0, s, hhdm, r + 1, c, freed)
  {
  }

  /** A cleared level-4 entry still names the table below it. */
  lemma RootEntryStill(s0: Phys, s: Phys, hhdm: nat, r: nat, c: Cursor, freed: seq<nat>, j: nat)
    requires Tearing(s0, s, hhdm, r, c, freed) && j < r && j < 512 && Child(ROOT, j) in s0.own.tables
    ensures s0.own.tables[ROOT] < |s.m| / PAGE
    ensures EntryAt(View(s.m), s0.own.tables[ROOT], j).address == s0.own.tables[Child(ROOT, j)] < |s.m| / PAGE
  {
    assert SlotOk(View(s0.m), s0.own, ROOT, j);
    assert PlaceOk(|s0.m| / PAGE, s0.own, Child(ROOT, j));
    DecodeEncode(Decode(View(s0.m)[s0.own.tables[ROOT]][j]).(present := false));
  }

  /** Nothing hangs below a missing level-2 table. */
  lemma NoneBelow2(w: seq<Frame>, o: Own, l4: nat, l3: nat)
    requires TreeOk(w, o) && l3 < 512 && Path(2, 512 * l4 + l3) !in o.tables
    ensures forall q :: q in o.tables ==> (Done(q, At3(l4, l3 + 1)) <==> Done(q, At3(l4, l3)))
  {
    forall q | q in o.tables ensures Done(q, At3(l4, l3 + 1)) <==> Done(q, At3(l4, l3)) {
      assert PlaceOk(|w|, o, q);
      assert Parent(q) != Path(2, 512 * l4 + l3) || q.level == 4;
    }
  }

  /** Nothing hangs below a missing level-3 table. */
  lemma NoneBelow3(w: seq<Frame>, o: Own, l4: nat)
    requires TreeOk(w, o) && Path(3, l4) !in o.tables
    ensures forall q :: q in o.tables ==> (Done(q, At4(l4 + 1)) <==> Done(q, At4(l4)))
  {
    forall q | q in o.tables ensures Done(q, At4(l4 + 1)) <==> Done(q, At4(l4)) {
      assert PlaceOk(|w|, o, q);
      if q.level == 1 {
        assert PlaceOk(|w|, o, Parent(q));
        assert Parent(Parent(q)) != Path(3, l4);
      } else if q.level == 2 {
        assert Parent(q) != Path(3, l4);
      }
    }
  }

  /** What entry `j` of a table that is still there says about the table below it. */
  lemma EntryStill(s0: Phys, s: Phys, hhdm: nat, r: nat, c: Cursor, freed: seq<nat>, q: Path, j: nat)
    requires Tearing(s0, s, hhdm, r, c, freed) && q in s0.own.tables && !Done(q, c) && j < 512
    requires q.level >= 2 && (q == ROOT ==> r <= j)
    ensures s0.own.tables[q] < |s.m| / PAGE
    ensures q == ROOT ==> View(s.m)[s0.own.tables[q]][j] == View(s0.m)[s0.own.tables[q]][j]
    ensures var e := EntryAt(View(s.m), s0.own.tables[q], j);
      && (Child(q, j) in s0.own.tables <==> e.present && !e.pageSize)
      && (Child(q, j) in s0.own.tables ==> e.address == s0.own.tables[Child(q, j)] < |s.m| / PAGE)
      && (q == ROOT ==> !e.pageSize)
  {
    StillThere(s0, s, hhdm, r, c, freed, q);
    assert SlotOk(View(s0.m), s0.own, q, j);
    assert PlaceOk(|s0.m| / PAGE, s0.own, q);
    if Child(q, j) in s0.own.tables {
      assert PlaceOk(|s0.m| / PAGE, s0.own, Child(q, j));
    }
  }

  lemma StartIsOk(s0: Phys, s: Phys, hhdm: nat, r: nat, c: Cursor, freed: seq<nat>)
    requires Tearing(s0, s, hhdm, r, c, freed)
    ensures Ok(s0, hhdm) && TreeOk(View(s0.m), s0.own) && ROOT in s0.own.tables && s.own == s0.own
    ensures RootCleared(View(s0.m), View(s.m), s0.own.tables[ROOT], r)
  {
  }

  // ---------------------------------------------------------------- the state at the end

  /** The lower half taken out: its tables are free, its frames leaked. */
  function TornDown(o: Own, freed: seq<nat>): Own {
    Own(freed + o.free,
        map q | q in o.tables && !IsLower(q) :: o.tables[q],
        map v | v in o.leaves && v >= LOWERPAGES :: o.leaves[v],
        map f | f in o.role :: match o.role[f] {
          case Table(q) => if IsLower(q) then Free else o.role[f]
          case Leaf(v) => if v < LOWERPAGES then Leaked else o.role[f]
          case _ => o.role[f]
        })
  }

  /** `freed` lists the lower-half tables, each once. */
  ghost predicate ListsLowerTables(o: Own, freed: seq<nat>) {
    && NoRepeat(freed)
    && (forall f :: f in freed <==> f in o.role && o.role[f].Table? && IsLower(o.role[f].path))
  }

  lemma DoneIsLower(w: seq<Frame>, o: Own, q: Path)
    requires TreeOk(w, o) && q in o.tables
    ensures Done(q, At4(256)) <==> IsLower(q)
  {
    assert PlaceOk(|w|, o, q);
  }

  lemma FreedLists(s0: Phys, s: Phys, hhdm: nat, freed: seq<nat>)
    requires Tearing(s0, s, hhdm, 256, At4(256), freed)
    ensures ListsLowerTables(s0.own, freed)
  {
    hide ChainOk, RootCleared;
    forall f ensures f in freed <==> f in s0.own.role && s0.own.role[f].Table? && IsLower(s0.own.role[f].path) {
      if f in s0.own.role && s0.own.role[f].Table? {
        assert RoleOk(s0.own, f);
        DoneIsLower(View(s0.m), s0.own, s0.own.role[f].path);
      }
    }
  }

  lemma TornDownRoles(n: nat, o: Own, freed: seq<nat>)
    requires RolesOk(n, o) && ListsLowerTables(o, freed)
    ensures RolesOk(n, TornDown(o, freed))
  {
    var o' := TornDown(o, freed);
    forall i, k | 0 <= i < k < |o'.free| ensures o'.free[i] != o'.free[k] {
      if k < |freed| {
      } else {
        assert o'.free[k] in o.free;
        if i < |freed| { assert o'.free[i] in freed; }
      }
    }
    forall f | f in o'.free ensures f in o'.role && o'.role[f] == Free {
      assert f in freed || f in o.free;
    }
    forall f | f in o'.role ensures 0 < f < n && RoleOk(o', f) {
      assert RoleOk(o, f);
    }
  }

  /** A table outside the lower half, other than the level-4 table, reads as at the start. */
  lemma UpperSame(s0: Phys, s: Phys, hhdm: nat, freed: seq<nat>, q: Path)
    requires Tearing(s0, s, hhdm, 256, At4(256), freed) && q in s0.own.tables && !IsLower(q)
    ensures s0.own.tables[q] < |s.m| / PAGE
    ensures q != ROOT ==> View(s.m)[s0.own.tables[q]] == View(s0.m)[s0.own.tables[q]]
  {
    DoneIsLower(View(s0.m), s0.own, q);
    StillThere(s0, s, hhdm, 256, At4(256), freed, q);
  }

  lemma ClearedEntry(x: word)
    ensures !Decode(Cleared(x)).present && Decode(Cleared(x)).pageSize == Decode(x).pageSize
  {
    DecodeEncode(Decode(x).(present := false));
  }

  lemma TornDownTree(s0: Phys, s: Phys, hhdm: nat, freed: seq<nat>)
    requires Tearing(s0, s, hhdm, 256, At4(256), freed)
    ensures TreeOk(View(s.m), TornDown(s0.own, freed))
  {
    hide ChainOk, Cleared, GivenBack, NoRepeat, RolesOk, Decode, FrameAt, Load, RootCleared, Walk, PageBytes;
    var w0, w, o, o' := View(s0.m), View(s.m), s0.own, TornDown(s0.own, freed);
    assert !IsLower(ROOT);
    forall q | q in o'.tables ensures PlaceOk(|w|, o', q) {
      assert PlaceOk(|w0|, o, q);
      if q.level < 3 { ChildIsLower(Parent(q), q.prefix % 512); }
      assert Child(Parent(q), q.prefix % 512) == q;
    }
    forall v | v in o'.leaves ensures v < PAGES && On(1, v) in o'.tables {
      OnIsLower(1, v);
    }
    forall q, j | q in o'.tables && 0 <= j < 512 ensures SlotOk(w, o', q, j) {
      TornDownSlot(s0, s, hhdm, freed, q, j);
    }
  }

  lemma TornDownSlot(s0: Phys, s: Phys, hhdm: nat, freed: seq<nat>, q: Path, j: nat)
    requires Tearing(s0, s, hhdm, 256, At4(256), freed) && q in s0.own.tables && !IsLower(q) && j < 512
    ensures var o' := TornDown(s0.own, freed);
      && o'.tables[q] < |s.m| / PAGE && q.level >= 1
      && SlotOk(View(s.m), o', q, j)
  {
    hide ChainOk, RolesOk, Cleared, GivenBack, NoRepeat, Decode;
    UpperSame(s0, s, hhdm, freed, q);
    assert SlotOk(View(s0.m), s0.own, q, j) && PlaceOk(|s0.m| / PAGE, s0.own, q);
    if q == ROOT {
      ClearedEntry(View(s0.m)[s0.own.tables[ROOT]][j]);
      assert IsLower(Child(ROOT, j)) <==> j < 256;
    } else {
      ChildIsLower(q, j);
    }
  }

  lemma TornDownOk(s0: Phys, s: Phys, hhdm: nat, freed: seq<nat>)
    requires Tearing(s0, s, hhdm, 256, At4(256), freed)
    ensures Ok(s.(own := TornDown(s0.own, freed)), hhdm)
    ensures s.count - |TornDown(s0.own, freed).free| == s0.count - |s0.own.free|
    ensures KeepsData(s0.m, s.m, s0.own)
  {
    hide Cleared, ChainOk, TreeOk, RootCleared, NoRepeat;
    FreedLists(s0, s, hhdm, freed);
    TornDownTree(s0, s, hhdm, freed);
    TornDownRoles(|s.m| / PAGE, s0.own, freed);
    assert s0.own.role[s0.own.tables[ROOT]] == Table(ROOT);
  }

  /** No lower-half page is left translatable, and no upper-half translation changed. */
  lemma TornDownWalks(s0: Phys, s: Phys, hhdm: nat, freed: seq<nat>, v: nat)
    requires Tearing(s0, s, hhdm, 256, At4(256), freed) && v < PAGES
    ensures var root := s0.own.tables[ROOT];
      Walk(View(s.m), 4, root, v) == if v < LOWERPAGES then None else Walk(View(s0.m), 4, root, v)
  {
    hide ChainOk, Cleared, GivenBack, NoRepeat, Decode;
    OnRoot(v);
    OnIsLower(3, v);
    ChildOn(4, v);
    UpperSame(s0, s, hhdm, freed, ROOT);
    ClearedEntry(View(s0.m)[s0.own.tables[ROOT]][Index(4, v)]);
    if v >= LOWERPAGES {
      forall k | 1 <= k <= 4 && On(k, v) in s0.own.tables
        ensures s0.own.tables[On(k, v)] < |s.m| / PAGE
        ensures View(s.m)[s0.own.tables[On(k, v)]][Index(k, v)] == View(s0.m)[s0.own.tables[On(k, v)]][Index(k, v)]
      {
        if k < 4 { OnIsLower(k, v); }
        UpperSame(s0, s, hhdm, freed, On(k, v));
      }
      WalkSame(View(s0.m), View(s.m), s0.own, 4, v);
    }
  }

  /** The emptied lower half is one that only the mapping routines will have built. */
  lemma TornDownUser(s0: Phys, s: Phys, hhdm: nat, freed: seq<nat>)
    requires Tearing(s0, s, hhdm, 256, At4(256), freed)
    requires TreeOk(View(s.m), TornDown(s0.own, freed))
    ensures UserSpaceOk(View(s.m), TornDown(s0.own, freed))
  {
    hide ChainOk, Cleared, GivenBack, NoRepeat, Decode;
    var w, o' := View(s.m), TornDown(s0.own, freed);
    forall q, j | q in o'.tables && q.level >= 2 && 0 <= j < 512 && IsLower(Child(q, j))
      ensures PlaceOk(|w|, o', q) && OpenSlot(w, o', q, j)
    {
      assert PlaceOk(|s0.m| / PAGE, s0.own, q) && SlotOk(View(s0.m), s0.own, q, j);
      if q.level < 4 { ChildIsLower(q, j); }
      UpperSame(s0, s, hhdm, freed, ROOT);
      ClearedEntry(View(s0.m)[s0.own.tables[ROOT]][j]);
    }
  }

  /** Slot `h` is the last of the first `n` slots of the level-4 table that has a table below it. */
  ghost predicate LastSlot(o: Own, h: nat, n: nat) {
    h < n && Child(ROOT, h) in o.tables && forall j :: h < j < n ==> Child(ROOT, j) !in o.tables
  }

  /** The level-3 table of the last slot is the head of the list. */
  ghost predicate LastFirst(o: Own, n: nat, freed: seq<nat>) {
    forall h :: LastSlot(o, h, n) ==> freed != [] && freed[0] == o.tables[Child(ROOT, h)]
  }

  lemma NoSlots(o: Own, freed: seq<nat>)
    ensures LastFirst(o, 0, freed)
  {
  }

  lemma LastFirstStep(o: Own, n: nat, freed: seq<nat>)
    ensures Child(ROOT, n) in o.tables && freed != [] && freed[0] == o.tables[Child(ROOT, n)] ==>
              LastFirst(o, n + 1, freed)
    ensures Child(ROOT, n) !in o.tables && LastFirst(o, n, freed) ==> LastFirst(o, n + 1, freed)
  {
    forall h | LastSlot(o, h, n + 1) ensures h == n || (Child(ROOT, n) !in o.tables && LastSlot(o, h, n)) {
    }
  }

  ghost predicate LowerGone(w: seq<Frame>, w': seq<Frame>, root: nat) {
    forall v :: 0 <= v < PAGES ==> Walk(w', 4, root, v) == if v < LOWERPAGES then None else Walk(w, 4, root, v)
  }

  lemma TornDownAll(s0: Phys, s: Phys, hhdm: nat, freed: seq<nat>)
    requires Tearing(s0, s, hhdm, 256, At4(256), freed)
    ensures Ok(s.(own := TornDown(s0.own, freed)), hhdm) && ListsLowerTables(s0.own, freed)
    ensures s.count - |TornDown(s0.own, freed).free| == s0.count - |s0.own.free|
    ensures KeepsData(s0.m, s.m, s0.own)
    ensures UserSpaceOk(View(s.m), TornDown(s0.own, freed))
    ensures ROOT in TornDown(s0.own, freed).tables && TornDown(s0.own, freed).tables[ROOT] == s0.own.tables[ROOT]
    ensures LowerGone(View(s0.m), View(s.m), s0.own.tables[ROOT])
    ensures RootCleared(View(s0.m), View(s.m), s0.own.tables[ROOT], 256)
  {
    hide Tearing, TreeOk, RolesOk, ChainOk, KeepsData, UserSpaceOk, ListsLowerTables, RootCleared;
    StartIsOk(s0, s, hhdm, 256, At4(256), freed);
    FreedLists(s0, s, hhdm, freed);
    TornDownOk(s0, s, hhdm, freed);
    TornDownUser(s0, s, hhdm, freed);
    forall v | 0 <= v < PAGES
      ensures Walk(View(s.m), 4, s0.own.tables[ROOT], v)
           == if v < LOWERPAGES then None else Walk(View(s0.m), 4, s0.own.tables[ROOT], v)
    {
      TornDownWalks(s0, s, hhdm, freed, v);
    }
  }
}
