/** The lower half of an address space that only the kernel's own mapping routines have built: there the
    hardware walk is exactly the abstract map from page to frame and rights. */
module UserSpace {
  import opened Options
  import opened Arithmetic
  import opened Words
  import opened Entry
  import opened Tables
  import opened Edits

  /** How many places of each level lie below address 2^47. */
  function LowerCount(l: nat): nat {
    if l == 0 then LOWERPAGES else if l == 1 then 0x400_0000 else if l == 2 then 0x2_0000 else if l == 3 then 256 else 0
  }

  predicate IsLower(q: Path) {
    q.prefix < LowerCount(q.level)
  }

  lemma ChildIsLower(q: Path, j: nat)
    requires 1 <= q.level <= 3 && j < 512
    ensures IsLower(Child(q, j)) <==> IsLower(q)
  {
  }

  lemma {:induction false} OnIsLower(l: nat, v: nat)
    requires l <= 3
    ensures IsLower(On(l, v)) <==> v < LOWERPAGES
  {
    if l > 0 {
      OnIsLower(l - 1, v);
      ChildOn(l, v);
      ChildIsLower(On(l, v), Index(l, v));
    }
  }

  /** Above level 1 an entry on the way to a lower page is no huge page and restricts nothing. */
  predicate OpenEntry(e: Entry) {
    !e.pageSize && (e.present ==> e.user && e.writable && !e.noExecute)
  }

  predicate OpenSlot(w: seq<Frame>, o: Own, q: Path, j: nat)
    requires q in o.tables && o.tables[q] < |w| && j < 512
  {
    OpenEntry(EntryAt(w, o.tables[q], j))
  }

  /** The frame of page `v` came from the allocator. */
  predicate OwnFrame(o: Own, v: nat)
    requires v in o.leaves
  {
    o.leaves[v].frame in o.role && o.role[o.leaves[v].frame] == Leaf(v)
  }

  /** No huge page in the lower half, nothing restricted above level 1, and every frame owned. */
  ghost predicate UserSpaceOk(w: seq<Frame>, o: Own)
    requires TreeOk(w, o)
  {
    && (forall q, j :: q in o.tables && q.level >= 2 && 0 <= j < 512 && IsLower(Child(q, j)) ==>
          PlaceOk(|w|, o, q) && OpenSlot(w, o, q, j))
    && (forall v :: v in o.leaves && v < LOWERPAGES ==> OwnFrame(o, v))
  }

  function Lookup(leaves: map<nat, Mapping>, v: nat): Option<Mapping> {
    if v in leaves then Some(leaves[v]) else None
  }

  /** The tables refine the abstract map: the hardware walk of a lower-half page, with the rights of all
      four levels combined, finds what the map holds and nothing else. */
  lemma UserWalk(w: seq<Frame>, o: Own, v: nat)
    requires TreeOk(w, o) && UserSpaceOk(w, o) && v < LOWERPAGES
    ensures Walk(w, 4, o.tables[ROOT], v) == Lookup(o.leaves, v)
  {
    OnRoot(v);
    UserWalkFrom(w, o, 4, v);
  }

  lemma {:induction false} UserWalkFrom(w: seq<Frame>, o: Own, l: nat, v: nat)
    requires TreeOk(w, o) && UserSpaceOk(w, o) && v < LOWERPAGES && 1 <= l <= 4 && On(l, v) in o.tables
    ensures Walk(w, l, o.tables[On(l, v)], v) == Lookup(o.leaves, v)
  {
    hide Decode, OwnFrame;
    var q, j := On(l, v), Index(l, v);
    ChildOn(l, v);
    assert PlaceOk(|w|, o, q) && SlotOk(w, o, q, j);
    if l == 1 {
    } else {
      OnIsLower(l - 1, v);
      assert OpenSlot(w, o, q, j);
      if On(l - 1, v) in o.tables {
        UserWalkFrom(w, o, l - 1, v);
      } else {
        NotMappedBelow(w, o, l - 1, v);
      }
    }
  }

  /** A page whose walk meets a missing table is not in the map. */
  lemma {:induction false} NotMappedBelow(w: seq<Frame>, o: Own, l: nat, v: nat)
    requires TreeOk(w, o) && 1 <= l <= 3 && On(l, v) !in o.tables
    ensures v !in o.leaves
  {
    if l > 1 {
      ChildOn(l, v);
      assert On(l - 1, v) !in o.tables;
      NotMappedBelow(w, o, l - 1, v);
    }
  }

  lemma LinkTableUser(w: seq<Frame>, w': seq<Frame>, o: Own, q: Path, j: nat, e: Entry)
    requires Linking(w, w', o, q, j, e) && OpenEntry(e) && UserSpaceOk(w, o)
    requires TreeOk(w', WithTable(o, Child(q, j)))
    ensures UserSpaceOk(w', WithTable(o, Child(q, j)))
  {
    var c, o' := Child(q, j), WithTable(o, Child(q, j));
    forall p, i | p in o'.tables && p.level >= 2 && 0 <= i < 512 && IsLower(Child(p, i))
      ensures PlaceOk(|w'|, o', p) && OpenSlot(w', o', p, i)
    {
      if p == c {
        ZeroIsAbsent(i);
      } else {
        assert PlaceOk(|w|, o, p) && OpenSlot(w, o, p, i);
        if p != q || i != j {
          EditedElsewhere(w, w', o, q, j, e, {o.free[0]}, p, i);
        }
      }
    }
    forall v | v in o'.leaves && v < LOWERPAGES ensures OwnFrame(o', v) {
      assert OwnFrame(o, v);
    }
  }

  /** Editing a level-1 entry leaves the higher levels open. */
  lemma LeafEditUser(w: seq<Frame>, w': seq<Frame>, o: Own, o': Own, v: nat, e: Entry, zs: set<nat>)
    requires LeafEdit(w, w', o, o', v, e, zs) && UserSpaceOk(w, o) && TreeOk(w', o')
    requires forall u :: u in o'.leaves && u < LOWERPAGES ==> OwnFrame(o', u)
    ensures UserSpaceOk(w', o')
  {
    forall p, i | p in o'.tables && p.level >= 2 && 0 <= i < 512 && IsLower(Child(p, i))
      ensures PlaceOk(|w'|, o', p) && OpenSlot(w', o', p, i)
    {
      assert PlaceOk(|w|, o, p) && OpenSlot(w, o, p, i);
      EditedElsewhere(w, w', o, On(1, v), Index(1, v), e, zs, p, i);
    }
  }
}
