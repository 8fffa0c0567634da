/** Four-level page tables in memory, the hardware walk over them, and the ownership invariant that ties
    memory to the abstract address space (Intel SDM volume 3A, sections 4.5 and 4.6). */
module Tables {
  import opened Arithmetic
  import opened Options
  import opened Words
  import opened Entry

  /** What a page translates to: the frame and the rights. */
  datatype Mapping = Mapping(frame: nat, user: bool, writable: bool, executable: bool)

  // ---------------------------------------------------------------- the hardware walk

  function EntryAt(w: seq<Frame>, t: nat, j: nat): Entry
    requires t < |w| && j < 512
  {
    Decode(w[t][j])
  }

  function LeafOf(e: Entry): Mapping {
    Mapping(e.address, e.user, e.writable, !e.noExecute)
  }

  /** A 2 MiB (level 2) or 1 GiB (level 3) page gives the low page-number bits from the address. */
  function HugeOf(l: nat, e: Entry, v: nat): Mapping
    requires 2 <= l <= 3
  {
    var span := if l == 2 then 0x200 else 0x4_0000;
    Mapping(e.address - e.address % span + v % span, e.user, e.writable, !e.noExecute)
  }

  /** Rights found below an entry, restricted by the entry itself. */
  function Through(e: Entry, m: Mapping): Mapping {
    Mapping(m.frame, e.user && m.user, e.writable && m.writable, !e.noExecute && m.executable)
  }

  /** The translation of page `v` from the level-`l` table in frame `t`. */
  function Walk(w: seq<Frame>, l: nat, t: nat, v: nat): Option<Mapping>
    requires 1 <= l <= 4
    decreases l
  {
    if t >= |w| then None
    else
      var e := EntryAt(w, t, Index(l, v));
      if !e.present then None
      else if l == 1 then Some(LeafOf(e))
      else if e.pageSize then if l == 4 then None else Some(HugeOf(l, e, v))
      else
        var below := Walk(w, l - 1, e.address, v);
        if below.None? then None else Some(Through(e, below.value))
  }

  // ---------------------------------------------------------------- positions in the tree

  /** A table's place: its level and the page-number bits that lead to it. */
  datatype Path = Path(level: nat, prefix: nat)

  const ROOT := Path(4, 0)

  function Child(q: Path, j: nat): Path
    requires q.level >= 1
  {
    Path(q.level - 1, 512 * q.prefix + j)
  }

  function Parent(q: Path): Path {
    Path(q.level + 1, q.prefix / 512)
  }

  /** The table of level `l` that the walk for page `v` goes through. */
  function On(l: nat, v: nat): Path {
    Path(l, Up(l, v))
  }

  lemma ChildOn(l: nat, v: nat)
    requires l >= 1
    ensures Child(On(l, v), Index(l, v)) == On(l - 1, v)
    ensures Parent(On(l - 1, v)) == On(l, v)
  {
  }

  lemma OnRoot(v: nat)
    requires v < PAGES
    ensures On(4, v) == ROOT
  {
    UpFromTop(v);
  }

  // ---------------------------------------------------------------- ownership

  datatype Role = Free | Table(path: Path) | Leaf(page: nat) | Leaked

  /** Who owns which frame: the free list from its head, the tables by place, the level-1 mappings by
      page, and the one role of every frame the allocator manages. */
  datatype Own = Own(free: seq<nat>, tables: map<Path, nat>, leaves: map<nat, Mapping>, role: map<nat, Role>)

  /** Entry `j` of table `q` says what the abstract state says. */
  predicate SlotOk(w: seq<Frame>, o: Own, q: Path, j: nat)
    requires q in o.tables && o.tables[q] < |w| && j < 512 && q.level >= 1
  {
    var e := EntryAt(w, o.tables[q], j);
    var c := Child(q, j);
    if q.level == 1 then
      && (c.prefix in o.leaves <==> e.present)
      && (e.present ==> o.leaves[c.prefix] == LeafOf(e))
    else
      && (e.pageSize ==> e.present && q.level < 4)
      && (c in o.tables <==> e.present && !e.pageSize)
      && (c in o.tables ==> o.tables[c] == e.address)
  }

  predicate PlaceOk(n: nat, o: Own, q: Path)
    requires q in o.tables
  {
    && 1 <= q.level <= 4
    && o.tables[q] < n
    && (if q.level == 4 then q == ROOT else Parent(q) in o.tables)
  }

  ghost predicate TreeOk(w: seq<Frame>, o: Own) {
    && ROOT in o.tables
    && (forall q :: q in o.tables ==> PlaceOk(|w|, o, q))
    && (forall v :: v in o.leaves ==> v < PAGES && On(1, v) in o.tables)
    && (forall q, j :: q in o.tables && 0 <= j < 512 ==> SlotOk(w, o, q, j))
  }

  /** The frame plays the role recorded for it. */
  predicate RoleOk(o: Own, f: nat)
    requires f in o.role
  {
    match o.role[f]
    case Free => f in o.free
    case Table(q) => q in o.tables && o.tables[q] == f
    case Leaf(v) => v in o.leaves && o.leaves[v].frame == f
    case Leaked => true
  }

  ghost predicate NoRepeat(s: seq<nat>) {
    forall i, k :: 0 <= i < k < |s| ==> s[i] != s[k]
  }

  /** Every managed frame is exactly one of free, one table, one mapped leaf, leaked. */
  ghost predicate RolesOk(n: nat, o: Own) {
    && NoRepeat(o.free)
    && (forall f :: f in o.free ==> f in o.role && o.role[f] == Free)
    && (forall q :: q in o.tables ==> o.tables[q] in o.role && o.role[o.tables[q]] == Table(q))
    && (forall f :: f in o.role ==> 0 < f < n && RoleOk(o, f))
  }

  /** The direct-map pointer to element `i` of the free list, or NULL past its end. */
  function Ptr(hhdm: nat, free: seq<nat>, i: nat): nat {
    if i < |free| then PAGE * free[i] + hhdm else 0
  }

  /** Following the next pointers from `head` spells `free`. */
  ghost predicate ChainOk(w: seq<Frame>, hhdm: nat, head: nat, free: seq<nat>) {
    && head == Ptr(hhdm, free, 0)
    && forall i :: 0 <= i < |free| ==> free[i] < |w| && w[free[i]][0] == Ptr(hhdm, free, i + 1)
  }

  ghost predicate Inv(w: seq<Frame>, hhdm: nat, head: nat, o: Own) {
    && |w| <= MAXFRAMES
    && 0 < hhdm && hhdm + PAGE * |w| <= TWO64
    && TreeOk(w, o)
    && RolesOk(|w|, o)
    && ChainOk(w, hhdm, head, o.free)
  }

  // ---------------------------------------------------------------- walks and frames

  /** Below a missing table nothing is there. */
  lemma MissingAbove(w: seq<Frame>, o: Own, l: nat, v: nat)
    requires TreeOk(w, o) && 1 <= l <= 3
    ensures On(l, v) in o.tables ==> On(l + 1, v) in o.tables
  {
    ChildOn(l + 1, v);
  }

  /** A walk reads only the entries on its path. */
  lemma {:induction false} WalkSame(w: seq<Frame>, w': seq<Frame>, o: Own, l: nat, v: nat)
    requires |w| == |w'| && TreeOk(w, o) && 1 <= l <= 4 && On(l, v) in o.tables
    requires forall k :: 1 <= k <= l && On(k, v) in o.tables ==>
               w'[o.tables[On(k, v)]][Index(k, v)] == w[o.tables[On(k, v)]][Index(k, v)]
    ensures Walk(w', l, o.tables[On(l, v)], v) == Walk(w, l, o.tables[On(l, v)], v)
  {
    var q := On(l, v);
    assert PlaceOk(|w|, o, q) && SlotOk(w, o, q, Index(l, v));
    if l > 1 {
      ChildOn(l, v);
      if On(l - 1, v) in o.tables {
        WalkSame(w, w', o, l - 1, v);
      }
    }
  }

  /** Nothing is translated below an entry that is not present. */
  lemma {:induction false} WalkDead(w: seq<Frame>, o: Own, k: nat, l: nat, v: nat)
    requires TreeOk(w, o) && 1 <= k <= l <= 4 && On(k, v) in o.tables
    requires !EntryAt(w, o.tables[On(k, v)], Index(k, v)).present
    ensures On(l, v) in o.tables && Walk(w, l, o.tables[On(l, v)], v) == None
    decreases l
  {
    if k < l {
      WalkDead(w, o, k, l - 1, v);
      ChildOn(l, v);
      assert PlaceOk(|w|, o, On(l - 1, v));
      assert PlaceOk(|w|, o, On(l, v));
      assert SlotOk(w, o, On(l, v), Index(l, v));
    }
  }

  ghost predicate SameWalks(w: seq<Frame>, w': seq<Frame>, root: nat) {
    forall u :: 0 <= u < PAGES ==> Walk(w', 4, root, u) == Walk(w, 4, root, u)
  }

  ghost predicate SameWalksBut(w: seq<Frame>, w': seq<Frame>, root: nat, v: nat) {
    forall u :: 0 <= u < PAGES && u != v ==> Walk(w', 4, root, u) == Walk(w, 4, root, u)
  }

  lemma ChainPopped(w: seq<Frame>, w': seq<Frame>, hhdm: nat, head: nat, free: seq<nat>)
    requires ChainOk(w, hhdm, head, free) && free != [] && |w'| == |w|
    requires forall i :: 1 <= i < |free| ==> w'[free[i]] == w[free[i]]
    ensures ChainOk(w', hhdm, Ptr(hhdm, free, 1), free[1..])
  {
    var rest := free[1..];
    forall i | 0 <= i < |rest|
      ensures rest[i] < |w'| && w'[rest[i]][0] == Ptr(hhdm, rest, i + 1)
    {
      assert rest[i] == free[i + 1];
    }
  }

  lemma ChainPushed(w: seq<Frame>, w': seq<Frame>, hhdm: nat, head: nat, free: seq<nat>, f: nat)
    requires ChainOk(w, hhdm, head, free) && |w'| == |w| && f < |w|
    requires forall i :: 0 <= i < |free| ==> w'[free[i]] == w[free[i]]
    requires w'[f][0] == head
    ensures ChainOk(w', hhdm, PAGE * f + hhdm, [f] + free)
  {
    var s := [f] + free;
    forall i | 0 <= i < |s|
      ensures s[i] < |w'| && w'[s[i]][0] == Ptr(hhdm, s, i + 1)
    {
      if i > 0 { assert s[i] == free[i - 1]; }
    }
  }
}
