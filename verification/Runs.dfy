/** Whole runs of the address-space operations. The methods of Paging.Kernel prove that each call moves the
    ownership state by `Step`; what holds of every run follows here. */
module Runs {
  import opened Options
  import opened Words
  import opened Entry
  import opened Tables
  import opened Edits
  import opened UserSpace
  import opened Growth
  import opened Unmapping
  import opened Snapshots
  import opened Teardown

  /** A call: vm_map, vm_protect, vm_unmap with the shift, or unmap_lower_half giving back `freed`. */
  datatype Op =
    | Map(page: nat, user: bool, writable: bool, executable: bool)
    | Protect(page: nat, user: bool, writable: bool, executable: bool)
    | Unmap(page: nat)
    | DropLower(freed: seq<nat>)

  function Step(o: Own, op: Op): (bool, Own) {
    match op
    case Map(v, u, w, x) => MapPage(o, v, u, w, x)
    case Protect(v, u, w, x) => ProtectPage(o, v, u, w, x)
    case Unmap(v) => UnmapPage(o, v)
    case DropLower(freed) => (true, TornDown(o, freed))
  }

  ghost predicate Legal(o: Own, op: Op) {
    match op
    case Unmap(v) => v in o.leaves ==> OwnFrame(o, v)
    case DropLower(freed) => ListsLowerTables(o, freed)
    case _ => true
  }

  ghost predicate LegalRun(o: Own, ops: seq<Op>)
    decreases |ops|
  {
    ops == [] || (Legal(o, ops[0]) && LegalRun(Step(o, ops[0]).1, ops[1..]))
  }

  function Final(o: Own, ops: seq<Op>): Own
    decreases |ops|
  {
    if ops == [] then o else Final(Step(o, ops[0]).1, ops[1..])
  }

  function Results(o: Own, ops: seq<Op>): (r: seq<bool>)
    ensures |r| == |ops|
    decreases |ops|
  {
    if ops == [] then [] else [Step(o, ops[0]).0] + Results(Step(o, ops[0]).1, ops[1..])
  }

  // ---------------------------------------------------------------- ownership over a run

  lemma TableKeepsRoles(n: nat, p: Own, c: Path)
    requires RolesOk(n, p) && p.free != [] && c !in p.tables
    ensures RolesOk(n, WithTable(p, c)) && WithTable(p, c).role.Keys == p.role.Keys
  {
    assert p.free[0] in p.free;
    assert forall f :: f in p.role ==> RoleOk(p, f);
    RolesPopped(n, p, WithTable(p, c), Table(c));
  }

  lemma {:induction false} GrownKeepsRoles(n: nat, o: Own, v: nat, k: nat)
    requires RolesOk(n, o)
    ensures RolesOk(n, Grown(o, v, k)) && Grown(o, v, k).role.Keys == o.role.Keys
    decreases 4 - k
  {
    hide RolesOk;
    if k < 4 && On(k, v) !in o.tables {
      GrownKeepsRoles(n, o, v, k + 1);
      GrownTables(o, v, k + 1);
      var p := Grown(o, v, k + 1);
      if p.free != [] {
        TableKeepsRoles(n, p, On(k, v));
      }
    }
  }

  lemma LeafKeepsRoles(n: nat, p: Own, v: nat, m: Mapping)
    requires RolesOk(n, p) && p.free != [] && v !in p.leaves && m.frame == p.free[0]
    ensures RolesOk(n, WithLeaf(p, v, m)) && WithLeaf(p, v, m).role.Keys == p.role.Keys
  {
    assert p.free[0] in p.free;
    assert forall f :: f in p.role ==> RoleOk(p, f);
    RolesPopped(n, p, WithLeaf(p, v, m), Leaf(v));
  }

  lemma MapKeepsRoles(n: nat, o: Own, v: nat, u: bool, w: bool, x: bool)
    requires RolesOk(n, o)
    ensures var p := MapPage(o, v, u, w, x).1; RolesOk(n, p) && p.role.Keys == o.role.Keys
  {
    hide Grown;
    GrownKeepsRoles(n, o, v, 1);
    GrownFree(o, v, 1);
    var p := Grown(o, v, 1);
    if v !in o.leaves && p.free != [] {
      LeafKeepsRoles(n, p, v, Mapping(p.free[0], u, w, x));
    }
  }

  lemma StepKeepsRoles(n: nat, o: Own, op: Op)
    requires RolesOk(n, o) && Legal(o, op)
    ensures RolesOk(n, Step(o, op).1) && Step(o, op).1.role.Keys == o.role.Keys
  {
    var p := Step(o, op).1;
    match op
    case Map(v, u, w, x) => MapKeepsRoles(n, o, v, u, w, x);
    case DropLower(freed) => TornDownRoles(n, o, freed);
    case _ =>
      forall f | f in p.role ensures 0 < f < n && RoleOk(p, f) {
        assert RoleOk(o, f);
      }
  }

  /** Conservation: over every run each managed frame keeps exactly one of the four roles, no frame enters or
      leaves the allocator's care, and every frame is where its role says. */
  lemma {:induction false} RunConserves(n: nat, o: Own, ops: seq<Op>)
    requires RolesOk(n, o) && LegalRun(o, ops)
    ensures RolesOk(n, Final(o, ops)) && Final(o, ops).role.Keys == o.role.Keys
    decreases |ops|
  {
    if ops != [] {
      StepKeepsRoles(n, o, ops[0]);
      RunConserves(n, Step(o, ops[0]).1, ops[1..]);
    }
  }

  function Leaks(o: Own): set<nat> {
    set f | f in o.role && o.role[f] == Leaked
  }

  /** The frames mapped in the lower half. */
  function LowerFrames(o: Own): set<nat> {
    set f | f in o.role && o.role[f].Leaf? && o.role[f].page < LOWERPAGES
  }

  /** The frames that the teardowns of a run lose. */
  function Lost(o: Own, ops: seq<Op>): set<nat>
    decreases |ops|
  {
    if ops == [] then {}
    else (if ops[0].DropLower? then LowerFrames(o) else {}) + Lost(Step(o, ops[0]).1, ops[1..])
  }

  lemma StepLeaks(n: nat, o: Own, op: Op)
    requires RolesOk(n, o) && Legal(o, op)
    ensures Leaks(Step(o, op).1) == Leaks(o) + if op.DropLower? then LowerFrames(o) else {}
  {
    hide RolesOk, RoleOk, IsLower;
    match op
    case Map(v, u, w, x) => MapLeaks(n, o, v, u, w, x);
    case _ =>
  }

  /** Giving the next free frame a role other than leaked leaks nothing. */
  lemma PopLeaks(n: nat, p: Own, p': Own, r: Role)
    requires RolesOk(n, p) && p.free != [] && r != Leaked && p'.role == p.role[p.free[0] := r]
    ensures Leaks(p') == Leaks(p)
  {
    hide RoleOk;
    assert p.free[0] in p.free;
  }

  lemma MapLeaks(n: nat, o: Own, v: nat, u: bool, w: bool, x: bool)
    requires RolesOk(n, o)
    ensures Leaks(MapPage(o, v, u, w, x).1) == Leaks(o)
  {
    hide RolesOk, Grown, Leaks;
    GrownLeaks(n, o, v, 1);
    GrownKeepsRoles(n, o, v, 1);
    var p := Grown(o, v, 1);
    if v !in o.leaves && p.free != [] {
      PopLeaks(n, p, WithLeaf(p, v, Mapping(p.free[0], u, w, x)), Leaf(v));
    }
  }

  lemma {:induction false} GrownLeaks(n: nat, o: Own, v: nat, k: nat)
    requires RolesOk(n, o)
    ensures Leaks(Grown(o, v, k)) == Leaks(o)
    decreases 4 - k
  {
    hide RolesOk, Leaks;
    if k < 4 && On(k, v) !in o.tables {
      GrownLeaks(n, o, v, k + 1);
      GrownKeepsRoles(n, o, v, k + 1);
      var p := Grown(o, v, k + 1);
      if p.free != [] {
        PopLeaks(n, p, WithTable(p, On(k, v)), Table(On(k, v)));
      }
    }
  }

  /** Only unmap_lower_half loses frames, and exactly those mapped in the lower half when it runs. */
  lemma {:induction false} RunLeaks(n: nat, o: Own, ops: seq<Op>)
    requires RolesOk(n, o) && LegalRun(o, ops)
    ensures Leaks(Final(o, ops)) == Leaks(o) + Lost(o, ops)
    decreases |ops|
  {
    if ops != [] {
      StepLeaks(n, o, ops[0]);
      StepKeepsRoles(n, o, ops[0]);
      RunLeaks(n, Step(o, ops[0]).1, ops[1..]);
    }
  }

  // ---------------------------------------------------------------- the abstract address space over a run

  datatype Rights = Rights(user: bool, writable: bool, executable: bool)

  function RightsOf(o: Own): map<nat, Rights> {
    map v | v in o.leaves :: Rights(o.leaves[v].user, o.leaves[v].writable, o.leaves[v].executable)
  }

  /** The address space as a plain map: a call that reports success sets or removes its one page. */
  function Effect(m: map<nat, Rights>, op: Op, ok: bool): map<nat, Rights> {
    if !ok then m
    else match op
      case Map(v, u, w, x) => m[v := Rights(u, w, x)]
      case Protect(v, u, w, x) => m[v := Rights(u, w, x)]
      case Unmap(v) => m - {v}
      case DropLower(freed) => map v | v in m && v >= LOWERPAGES :: m[v]
  }

  function Replay(m: map<nat, Rights>, ops: seq<Op>, results: seq<bool>): map<nat, Rights>
    requires |results| == |ops|
    decreases |ops|
  {
    if ops == [] then m else Replay(Effect(m, ops[0], results[0]), ops[1..], results[1..])
  }

  lemma StepIsEffect(o: Own, op: Op)
    ensures RightsOf(Step(o, op).1) == Effect(RightsOf(o), op, Step(o, op).0)
    ensures op.Protect? || op.Unmap? ==> (Step(o, op).0 <==> op.page in RightsOf(o))
    ensures op.Map? && Step(o, op).0 ==> op.page !in RightsOf(o)
  {
    match op
    case Map(v, u, w, x) => MapIsEffect(o, v, u, w, x);
    case Protect(v, u, w, x) => ProtectIsEffect(o, v, u, w, x);
    case Unmap(v) => UnmapIsEffect(o, v);
    case DropLower(freed) => DropIsEffect(o, freed);
  }

  lemma ProtectIsEffect(o: Own, v: nat, u: bool, w: bool, x: bool)
    ensures var (ok, p) := ProtectPage(o, v, u, w, x);
      (ok <==> v in o.leaves) && RightsOf(p) == if ok then RightsOf(o)[v := Rights(u, w, x)] else RightsOf(o)
  {
  }

  lemma UnmapIsEffect(o: Own, v: nat)
    ensures var (ok, p) := UnmapPage(o, v);
      (ok <==> v in o.leaves) && RightsOf(p) == if ok then RightsOf(o) - {v} else RightsOf(o)
  {
  }

  lemma DropIsEffect(o: Own, freed: seq<nat>)
    ensures RightsOf(TornDown(o, freed)) == map v | v in RightsOf(o) && v >= LOWERPAGES :: RightsOf(o)[v]
  {
    hide IsLower;
  }

  lemma MapIsEffect(o: Own, v: nat, u: bool, w: bool, x: bool)
    ensures var (ok, p) := MapPage(o, v, u, w, x);
      && (ok ==> v !in o.leaves && RightsOf(p) == RightsOf(o)[v := Rights(u, w, x)])
      && (!ok ==> RightsOf(p) == RightsOf(o))
  {
    hide Grown;
    GrownFree(o, v, 1);
  }

  /** Over every run the tables hold what replaying the successful calls on a plain map gives: each page's
      rights are those of the last call that succeeded on it. */
  lemma {:induction false} RunReplays(o: Own, ops: seq<Op>)
    ensures RightsOf(Final(o, ops)) == Replay(RightsOf(o), ops, Results(o, ops))
    decreases |ops|
  {
    if ops != [] {
      StepIsEffect(o, ops[0]);
      RunReplays(Step(o, ops[0]).1, ops[1..]);
      assert Results(o, ops)[1..] == Results(Step(o, ops[0]).1, ops[1..]);
    }
  }

  /** What the hardware finds after any run, for any lower-half page of a state that refines the ownership
      state: presence and effective rights come from the replay alone. */
  lemma RunWalk(w: seq<Frame>, o: Own, ops: seq<Op>, v: nat)
    requires TreeOk(w, Final(o, ops)) && UserSpaceOk(w, Final(o, ops)) && v < LOWERPAGES
    ensures var found := Walk(w, 4, Final(o, ops).tables[ROOT], v);
      var m := Replay(RightsOf(o), ops, Results(o, ops));
      && (found.Some? <==> v in m)
      && (found.Some? ==> Rights(found.value.user, found.value.writable, found.value.executable) == m[v])
  {
    RunReplays(o, ops);
    UserWalk(w, Final(o, ops), v);
  }
}
