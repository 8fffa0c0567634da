/** What one edit of one table entry does to the ownership invariant and to every walk. */
module Edits {
  import opened Words
  import opened Entry
  import opened Tables

  /** `w` with entry `j` of the table in frame `t` replaced. */
  function PutEntry(w: seq<Frame>, t: nat, j: nat, e: Entry): (r: seq<Frame>)
    requires t < |w| && j < 512
    ensures |r| == |w|
  {
    w[t := w[t][j := Encode(e)]]
  }

  lemma PutEntryAt(w: seq<Frame>, t: nat, j: nat, e: Entry)
    requires t < |w| && j < 512
    ensures EntryAt(PutEntry(w, t, j, e), t, j) == e
    ensures forall j' :: 0 <= j' < 512 && j' != j ==> PutEntry(w, t, j, e)[t][j'] == w[t][j']
  {
    DecodeEncode(e);
  }

  lemma PutEntryTwice(w: seq<Frame>, t: nat, j: nat, e: Entry, e': Entry)
    requires t < |w| && j < 512
    ensures PutEntry(PutEntry(w, t, j, e), t, j, e') == PutEntry(w, t, j, e')
  {
    assert w[t][j := Encode(e)][j := Encode(e')] == w[t][j := Encode(e')];
  }

  /** An entry after `present` and `address` were set. */
  function Pointed(e: Entry, f: frameno): (r: Entry)
    ensures r.present && r.address == f && r.pageSize == e.pageSize
  {
    e.(present := true, address := f)
  }

  /** An entry after the assignments by which vm_map links the page in frame `f`. */
  function LinkEntry(e: Entry, f: frameno, user: bool, writable: bool, noExecute: bool): (r: Entry)
    ensures r.present && r.address == f && r.pageSize == e.pageSize
    ensures r.user == user && r.writable == writable && r.noExecute == noExecute
  {
    Pointed(e, f).(noExecute := noExecute, user := user, writable := writable)
  }

  /** The order of the first two assignments to the entry: the code sets `present` first. */
  datatype Order = PresentFirst | AddressFirst

  /** The entry after each of the five assignments by which vm_map links the page in frame `f`. */
  function LinkEntries(e: Entry, f: frameno, user: bool, writable: bool, noExecute: bool, order: Order)
    : (es: seq<Entry>)
    ensures |es| == 5
  {
    var e2 := Pointed(e, f);
    [if order.PresentFirst? then e.(present := true) else e.(address := f), e2, e2.(noExecute := noExecute),
     e2.(noExecute := noExecute, user := user), LinkEntry(e, f, user, writable, noExecute)]
  }

  lemma LinkEntriesLink(e: Entry, f: frameno, user: bool, writable: bool, noExecute: bool, order: Order)
    ensures var es := LinkEntries(e, f, user, writable, noExecute, order);
      forall i :: 1 <= i < 5 ==> es[i].present && es[i].address == f && es[i].pageSize == e.pageSize
  {
    hide LinkEntry, Pointed;
    var es := LinkEntries(e, f, user, writable, noExecute, order);
    assert es[1].present && es[2].present && es[3].present && es[4].present;
  }

  lemma RightsAssign(e: Entry, user: bool, writable: bool, noExecute: bool)
    ensures e.(noExecute := noExecute).(user := user) == e.(noExecute := noExecute, user := user)
    ensures e.(noExecute := noExecute, user := user).(writable := writable)
         == e.(noExecute := noExecute, user := user, writable := writable)
  {
  }

  /** Each of them assigns one field. */
  lemma LinkEntriesAssign(e: Entry, f: frameno, user: bool, writable: bool, noExecute: bool)
    ensures var es := LinkEntries(e, f, user, writable, noExecute, PresentFirst);
      && es[0] == e.(present := true)
      && es[1] == es[0].(address := f)
      && es[2] == es[1].(noExecute := noExecute)
      && es[3] == es[2].(user := user)
      && es[4] == es[3].(writable := writable) == LinkEntry(e, f, user, writable, noExecute)
  {
    assert e.(present := true).(address := f) == Pointed(e, f);
    RightsAssign(Pointed(e, f), user, writable, noExecute);
    assert LinkEntry(e, f, user, writable, noExecute)
        == Pointed(e, f).(noExecute := noExecute, user := user, writable := writable);
    hide LinkEntry, Pointed;
  }

  /** Memory after each of the assignments that set entry `j` of the table in frame `t` to `es[0]`, `es[1]`, ... */
  function EntryViews(w: seq<Frame>, t: nat, j: nat, es: seq<Entry>): (views: seq<seq<Frame>>)
    requires t < |w| && j < 512
    ensures |views| == |es|
  {
    seq(|es|, i requires 0 <= i < |es| => PutEntry(w, t, j, es[i]))
  }

  lemma FiveViews(w: seq<Frame>, t: nat, j: nat, es: seq<Entry>)
    requires t < |w| && j < 512 && |es| == 5
    ensures EntryViews(w, t, j, es) == [PutEntry(w, t, j, es[0]), PutEntry(w, t, j, es[1]), PutEntry(w, t, j, es[2]),
                                        PutEntry(w, t, j, es[3]), PutEntry(w, t, j, es[4])]
  {
    hide PutEntry;
  }

  /** The head of the free list becomes the table at `c`. */
  function WithTable(o: Own, c: Path): Own
    requires o.free != []
  {
    Own(o.free[1..], o.tables[c := o.free[0]], o.leaves, o.role[o.free[0] := Table(c)])
  }

  /** The head of the free list becomes the frame of page `v`. */
  function WithLeaf(o: Own, v: nat, m: Mapping): Own
    requires o.free != []
  {
    Own(o.free[1..], o.tables, o.leaves[v := m], o.role[o.free[0] := Leaf(v)])
  }

  /** Popping the head keeps the roles right once the frame has its new place. */
  lemma RolesPopped(n: nat, o: Own, o': Own, r: Role)
    requires RolesOk(n, o) && o.free != []
    requires o'.free == o.free[1..] && o'.role == o.role[o.free[0] := r] && r != Free
    requires forall q :: q in o'.tables <==> q in o.tables || r == Table(q)
    requires forall q :: q in o'.tables ==> o'.tables[q] == if r == Table(q) then o.free[0] else o.tables[q]
    requires forall f :: f in o.role && o.role[f].Leaf? ==>
               o.role[f].page in o'.leaves && o'.leaves[o.role[f].page] == o.leaves[o.role[f].page]
    requires r.Leaf? ==> r.page in o'.leaves && o'.leaves[r.page].frame == o.free[0]
    requires r.Table? ==> r.path !in o.tables
    ensures RolesOk(n, o')
  {
    var f0 := o.free[0];
    assert o.free == [f0] + o'.free;
    forall f | f in o'.free ensures f in o'.role && o'.role[f] == Free {
      assert f in o.free;
    }
    forall f | f in o'.role ensures 0 < f < n && RoleOk(o', f) {
      assert RoleOk(o, f);
    }
  }

  /** `w'` is `w` with entry `j` of frame `t` set to `e`, up to the contents of the frames `zs`. */
  ghost predicate Edited(w: seq<Frame>, w': seq<Frame>, t: nat, j: nat, e: Entry, zs: set<nat>) {
    && |w'| == |w| && t < |w| && j < 512 && t !in zs
    && EntryAt(w', t, j) == e
    && (forall i :: 0 <= i < 512 && i != j ==> w'[t][i] == w[t][i])
    && (forall f :: 0 <= f < |w| && f != t && f !in zs ==> w'[f] == w[f])
  }

  lemma PutEntryEdits(w: seq<Frame>, t: nat, j: nat, e: Entry, z: nat, content: Frame)
    requires t < |w| && z < |w| && j < 512 && t != z
    ensures var w' := PutEntry(w[z := content], t, j, e);
            Edited(w, w', t, j, e, {z}) && w'[z] == content
  {
    PutEntryAt(w[z := content], t, j, e);
  }

  /** An edit of entry `j` of table `q` leaves the entries of the tables otherwise as they were. */
  lemma EditedElsewhere(w: seq<Frame>, w': seq<Frame>, o: Own, q: Path, j: nat, e: Entry, zs: set<nat>, p: Path, i: nat)
    requires RolesOk(|w|, o) && q in o.tables && p in o.tables && i < 512
    requires Edited(w, w', o.tables[q], j, e, zs) && (p != q || i != j) && o.tables[p] !in zs
    ensures o.tables[p] < |w| && w'[o.tables[p]][i] == w[o.tables[p]][i]
  {
    assert o.role[o.tables[p]] == Table(p) && o.role[o.tables[q]] == Table(q);
  }

  lemma ChildInjective(p: Path, i: nat, q: Path, j: nat)
    requires p.level >= 1 && q.level >= 1 && i < 512 && j < 512
    ensures Child(p, i) == Child(q, j) ==> p == q && i == j
  {
  }

  lemma ZeroIsAbsent(j: nat)
    requires j < 512
    ensures !Decode(ZeroFrame()[j]).present && !Decode(ZeroFrame()[j]).pageSize
  {
    assert !Flag(0, 0);
    ZeroFlag(7);
  }

  lemma {:induction false} ZeroFlag(n: nat)
    ensures !Flag(0, n)
  {
    if n > 0 { ZeroFlag(n - 1); }
  }

  // ---------------------------------------------------------------- linking a new, empty table

  /** The free frame at the head is to become the table below the absent entry `j` of `q`. */
  ghost predicate Linking(w: seq<Frame>, w': seq<Frame>, o: Own, q: Path, j: nat, e: Entry) {
    && TreeOk(w, o) && RolesOk(|w|, o) && o.free != []
    && q in o.tables && 2 <= q.level && j < 512
    && PlaceOk(|w|, o, q)
    && !EntryAt(w, o.tables[q], j).present
    && Edited(w, w', o.tables[q], j, e, {o.free[0]})
    && o.free[0] < |w'| && w'[o.free[0]] == ZeroFrame()
    && e.present && e.address == o.free[0] && e.pageSize == EntryAt(w, o.tables[q], j).pageSize
  }

  lemma LinkTable(w: seq<Frame>, w': seq<Frame>, hhdm: nat, head: nat, o: Own, q: Path, j: nat, e: Entry)
    requires Inv(w, hhdm, head, o) && Linking(w, w', o, q, j, e)
    ensures Inv(w', hhdm, Ptr(hhdm, o.free, 1), WithTable(o, Child(q, j)))
    ensures SameWalks(w, w', o.tables[ROOT])
  {
    var c := Child(q, j);
    assert SlotOk(w, o, q, j);
    RolesPopped(|w|, o, WithTable(o, c), Table(c));
    LinkedTreeOk(w, w', o, q, j, e);
    forall i | 1 <= i < |o.free| ensures w'[o.free[i]] == w[o.free[i]] {
      assert o.free[i] in o.free;
    }
    ChainPopped(w, w', hhdm, head, o.free);
    forall u | 0 <= u < PAGES
      ensures Walk(w', 4, o.tables[ROOT], u) == Walk(w, 4, o.tables[ROOT], u)
    {
      LinkedWalk(w, w', o, q, j, e, u);
    }
  }

  lemma LinkedTreeOk(w: seq<Frame>, w': seq<Frame>, o: Own, q: Path, j: nat, e: Entry)
    requires Linking(w, w', o, q, j, e)
    ensures TreeOk(w', WithTable(o, Child(q, j)))
  {
    var c := Child(q, j);
    var o' := WithTable(o, c);
    assert SlotOk(w, o, q, j);
    forall p | p in o'.tables ensures PlaceOk(|w'|, o', p) {
      if p == c {
        assert Parent(c) == q;
      } else {
        assert PlaceOk(|w|, o, p);
      }
    }
    forall p, i | p in o'.tables && 0 <= i < 512 ensures SlotOk(w', o', p, i) {
      if p == c {
        NewTableSlot(w, w', o, q, j, e, i);
      } else {
        OldTableSlot(w, w', o, q, j, e, p, i);
      }
    }
  }

  lemma NewTableSlot(w: seq<Frame>, w': seq<Frame>, o: Own, q: Path, j: nat, e: Entry, i: nat)
    requires Linking(w, w', o, q, j, e) && i < 512
    ensures SlotOk(w', WithTable(o, Child(q, j)), Child(q, j), i)
  {
    var c := Child(q, j);
    var d := Child(c, i);
    assert SlotOk(w, o, q, j);
    assert Parent(d) == c;
    ZeroIsAbsent(i);
    assert Up(1, d.prefix) == Up(0, d.prefix) / 512;
  }

  lemma OldTableSlot(w: seq<Frame>, w': seq<Frame>, o: Own, q: Path, j: nat, e: Entry, p: Path, i: nat)
    requires Linking(w, w', o, q, j, e) && p in o.tables && i < 512
    ensures p != Child(q, j)
    ensures var o' := WithTable(o, Child(q, j)); PlaceOk(|w|, o, p) && SlotOk(w', o', p, i)
  {
    assert SlotOk(w, o, q, j);
    assert SlotOk(w, o, p, i) && PlaceOk(|w|, o, p);
    if p != q || i != j {
      EditedElsewhere(w, w', o, q, j, e, {o.free[0]}, p, i);
      ChildInjective(p, i, q, j);
    }
  }

  /** Linking an empty table where nothing was present changes no translation. */
  lemma LinkedWalk(w: seq<Frame>, w': seq<Frame>, o: Own, q: Path, j: nat, e: Entry, u: nat)
    requires Linking(w, w', o, q, j, e) && u < PAGES
    ensures Walk(w', 4, o.tables[ROOT], u) == Walk(w, 4, o.tables[ROOT], u)
  {
    hide Walk, RolesOk, Edited, SlotOk, PlaceOk;
    if On(q.level, u) == q && Index(q.level, u) == j {
      LinkedWalkIn(w, w', o, q, j, e, u);
    } else {
      LinkedWalkOut(w, w', o, q, j, e, u);
    }
  }

  lemma LinkedWalkIn(w: seq<Frame>, w': seq<Frame>, o: Own, q: Path, j: nat, e: Entry, u: nat)
    requires Linking(w, w', o, q, j, e) && u < PAGES && On(q.level, u) == q && Index(q.level, u) == j
    ensures Walk(w', 4, o.tables[ROOT], u) == Walk(w, 4, o.tables[ROOT], u)
  {
    hide Decode, Encode, Walk;
    var c, o' := Child(q, j), WithTable(o, Child(q, j));
    OnRoot(u);
    assert SlotOk(w, o, q, j);
    LinkedTreeOk(w, w', o, q, j, e);
    WalkDead(w, o, q.level, 4, u);
    ChildOn(q.level, u);
    ZeroIsAbsent(Index(c.level, u));
    WalkDead(w', o', c.level, 4, u);
  }

  lemma LinkedWalkOut(w: seq<Frame>, w': seq<Frame>, o: Own, q: Path, j: nat, e: Entry, u: nat)
    requires Linking(w, w', o, q, j, e) && u < PAGES && (On(q.level, u) != q || Index(q.level, u) != j)
    ensures Walk(w', 4, o.tables[ROOT], u) == Walk(w, 4, o.tables[ROOT], u)
  {
    hide Decode, Encode, Walk, SlotOk;
    OnRoot(u);
    forall k | 1 <= k <= 4 && On(k, u) in o.tables
      ensures o.tables[On(k, u)] < |w| && w'[o.tables[On(k, u)]][Index(k, u)] == w[o.tables[On(k, u)]][Index(k, u)]
    {
      EditedElsewhere(w, w', o, q, j, e, {o.free[0]}, On(k, u), Index(k, u));
    }
    WalkSame(w, w', o, 4, u);
  }

  // ---------------------------------------------------------------- editing a level-1 entry

  /** Entry `Index(1, v)` of the level-1 table of page `v` becomes `e`; `o'` records it. The frames
      `zs`, which are no tables, may change as well. */
  ghost predicate LeafEdit(w: seq<Frame>, w': seq<Frame>, o: Own, o': Own, v: nat, e: Entry, zs: set<nat>) {
    && TreeOk(w, o) && RolesOk(|w|, o) && v < PAGES
    && On(1, v) in o.tables
    && Edited(w, w', o.tables[On(1, v)], Index(1, v), e, zs)
    && (forall q :: q in o.tables ==> o.tables[q] !in zs)
    && o'.tables == o.tables
    && (forall u :: u != v ==> (u in o'.leaves <==> u in o.leaves))
    && (forall u :: u != v && u in o.leaves ==> o'.leaves[u] == o.leaves[u])
    && (v in o'.leaves <==> e.present)
    && (e.present ==> o'.leaves[v] == LeafOf(e))
  }

  lemma LeafEditTree(w: seq<Frame>, w': seq<Frame>, o: Own, o': Own, v: nat, e: Entry, zs: set<nat>)
    requires LeafEdit(w, w', o, o', v, e, zs)
    ensures TreeOk(w', o')
    ensures SameWalksBut(w, w', o.tables[ROOT], v)
  {
    var q, j := On(1, v), Index(1, v);
    ChildOn(1, v);
    forall p | p in o'.tables ensures PlaceOk(|w'|, o', p) {
      assert PlaceOk(|w|, o, p);
    }
    forall p, i | p in o'.tables && 0 <= i < 512 ensures SlotOk(w', o', p, i) {
      assert SlotOk(w, o, p, i) && PlaceOk(|w|, o, p);
      if p != q || i != j {
        EditedElsewhere(w, w', o, q, j, e, zs, p, i);
        ChildInjective(p, i, q, j);
      }
    }
    forall u | 0 <= u < PAGES && u != v
      ensures Walk(w', 4, o.tables[ROOT], u) == Walk(w, 4, o.tables[ROOT], u)
    {
      LeafEditWalk(w, w', o, o', v, e, zs, u);
    }
  }

  lemma LeafEditWalk(w: seq<Frame>, w': seq<Frame>, o: Own, o': Own, v: nat, e: Entry, zs: set<nat>, u: nat)
    requires LeafEdit(w, w', o, o', v, e, zs) && u < PAGES && u != v
    ensures Walk(w', 4, o.tables[ROOT], u) == Walk(w, 4, o.tables[ROOT], u)
  {
    OnRoot(u);
    forall k | 1 <= k <= 4 && On(k, u) in o.tables
      ensures o.tables[On(k, u)] < |w| && w'[o.tables[On(k, u)]][Index(k, u)] == w[o.tables[On(k, u)]][Index(k, u)]
    {
      ChildOn(1, v);
      ChildOn(k, u);
      EditedElsewhere(w, w', o, On(1, v), Index(1, v), e, zs, On(k, u), Index(k, u));
    }
    WalkSame(w, w', o, 4, u);
  }

  /** The head of the free list becomes the frame of the unmapped page `v`. */
  lemma LinkLeaf(w: seq<Frame>, w': seq<Frame>, hhdm: nat, head: nat, o: Own, v: nat, e: Entry)
    requires Inv(w, hhdm, head, o) && o.free != [] && e.present && e.address == o.free[0] && v !in o.leaves
    requires LeafEdit(w, w', o, WithLeaf(o, v, LeafOf(e)), v, e, {o.free[0]})
    ensures Inv(w', hhdm, Ptr(hhdm, o.free, 1), WithLeaf(o, v, LeafOf(e)))
    ensures SameWalksBut(w, w', o.tables[ROOT], v)
  {
    var o' := WithLeaf(o, v, LeafOf(e));
    LeafEditTree(w, w', o, o', v, e, {o.free[0]});
    assert forall f :: f in o.role ==> RoleOk(o, f);
    RolesPopped(|w|, o, o', Leaf(v));
    forall i | 1 <= i < |o.free| ensures w'[o.free[i]] == w[o.free[i]] {
      assert o.free[i] in o.free;
    }
    ChainPopped(w, w', hhdm, head, o.free);
  }

  function WithRights(o: Own, v: nat, m: Mapping): Own {
    o.(leaves := o.leaves[v := m])
  }

  /** New rights on a mapped page. */
  lemma ChangeRights(w: seq<Frame>, w': seq<Frame>, hhdm: nat, head: nat, o: Own, v: nat, e: Entry)
    requires Inv(w, hhdm, head, o) && v in o.leaves && e.present && e.address == o.leaves[v].frame
    requires LeafEdit(w, w', o, WithRights(o, v, LeafOf(e)), v, e, {})
    ensures Inv(w', hhdm, head, WithRights(o, v, LeafOf(e)))
    ensures SameWalksBut(w, w', o.tables[ROOT], v)
  {
    var o' := WithRights(o, v, LeafOf(e));
    LeafEditTree(w, w', o, o', v, e, {});
    forall f | f in o'.role ensures 0 < f < |w| && RoleOk(o', f) {
      assert RoleOk(o, f);
    }
    forall i | 0 <= i < |o.free| ensures w'[o.free[i]] == w[o.free[i]] {
      assert o.free[i] in o.free;
    }
  }

  /** Page `v` is unmapped and its frame goes back to the head of the free list. */
  function WithoutLeaf(o: Own, v: nat): Own
    requires v in o.leaves
  {
    var f := o.leaves[v].frame;
    Own([f] + o.free, o.tables, o.leaves - {v}, o.role[f := Free])
  }

  lemma ReleaseLeaf(w: seq<Frame>, w': seq<Frame>, hhdm: nat, head: nat, o: Own, v: nat, e: Entry)
    requires Inv(w, hhdm, head, o) && v in o.leaves && !e.present
    requires var f := o.leaves[v].frame;
             && f in o.role && o.role[f] == Leaf(v)
             && f < |w'| && w'[f][0] == head
             && LeafEdit(w, w', o, WithoutLeaf(o, v), v, e, {f})
    ensures Inv(w', hhdm, PAGE * o.leaves[v].frame + hhdm, WithoutLeaf(o, v))
    ensures SameWalksBut(w, w', o.tables[ROOT], v)
  {
    var f, o' := o.leaves[v].frame, WithoutLeaf(o, v);
    LeafEditTree(w, w', o, o', v, e, {f});
    forall g | g in o'.role ensures 0 < g < |w| && RoleOk(o', g) {
      assert RoleOk(o, g);
    }
    forall i | 0 <= i < |o.free| ensures w'[o.free[i]] == w[o.free[i]] {
      assert o.free[i] in o.free;
    }
    ChainPushed(w, w', hhdm, head, o.free, f);
  }

  // ---------------------------------------------------------------- changing a frame that is no table

  lemma OutsideTree(w: seq<Frame>, w': seq<Frame>, o: Own, o': Own, f: nat)
    requires TreeOk(w, o) && f < |w| == |w'| && w' == w[f := w'[f]]
    requires forall q :: q in o.tables ==> o.tables[q] != f
    requires o'.tables == o.tables && o'.leaves == o.leaves
    ensures TreeOk(w', o') && SameWalks(w, w', o.tables[ROOT])
  {
    hide Decode, Walk;
    forall q | q in o'.tables ensures PlaceOk(|w'|, o', q) && w'[o.tables[q]] == w[o.tables[q]] {
      assert PlaceOk(|w|, o, q);
    }
    forall q, j | q in o'.tables && 0 <= j < 512 ensures SlotOk(w', o', q, j) {
      assert SlotOk(w, o, q, j);
    }
    forall u | 0 <= u < PAGES ensures Walk(w', 4, o.tables[ROOT], u) == Walk(w, 4, o.tables[ROOT], u) {
      OnRoot(u);
      WalkSame(w, w', o, 4, u);
    }
  }
}
