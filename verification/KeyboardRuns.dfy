/** What the keyboard buffer does over every interleaving of key presses with the statements of the reader. */
module KeyboardRuns {
  import opened Options
  import opened Arithmetic
  import opened Memory
  import opened Keyboard

  /** What happened so far: the characters written, how many the reader has stepped past, the backspaces, how
      many of those fell between the wrap test and the reset, and the stream position of every fetch. */
  datatype History = History(written: seq<byte>, taken: nat, erased: nat, slips: nat, fetched: seq<Option<nat>>)

  datatype World = World(s: State, h: History)

  /** Of `n` characters written round the ring, the position of the last one in `slot`. */
  function Position(n: nat, slot: nat): (p: Option<nat>)
    requires slot < SIZE
    ensures p == None <==> n <= slot
    ensures p.Some? ==> p.value < n <= p.value + SIZE && p.value % SIZE == slot
  {
    if n <= slot then None else Some(slot + SIZE * ((n - 1 - slot) / SIZE))
  }

  function CharAt(written: seq<byte>, p: Option<nat>): byte
    requires p.Some? ==> p.value < |written|
  {
    if p == None then 0 else written[p.value]
  }

  function Recorded(s: State, h: History, e: Event): History
    requires IsState(s)
  {
    match e
    case Key(c) => if c == 0 then h else h.(written := h.written + [c])
    case Erase => h.(erased := h.erased + 1, slips := if s.pc == Resetting then h.slips + 1 else h.slips)
    case Run =>
      if s.pc == Fetching then h.(fetched := h.fetched + [Position(|h.written|, s.reading)])
      else if s.pc == Advancing then h.(taken := h.taken + 1)
      else h
  }

  function NextWorld(w: World, e: Event): (r: World)
    requires IsState(w.s)
    ensures IsState(r.s)
  {
    World(Step(w.s, e), Recorded(w.s, w.h, e))
  }

  function After(w: World, events: seq<Event>): (r: World)
    requires IsState(w.s)
    ensures IsState(r.s)
    decreases |events|
  {
    if events == [] then w else After(NextWorld(w, events[0]), events[1..])
  }

  function BootWorld(): World {
    World(Boot(), History([], 0, 0, 0, []))
  }

  // ---------------------------------------------------------------- the invariant

  /** The ring index that the reader should be at. */
  function Index(h: History): nat {
    RingIndex(h.taken - h.erased + h.slips)
  }

  function RingIndex(x: int): (i: nat)
    ensures i < SIZE
  {
    x % SIZE
  }

  /** Decrements of the length by the reader. */
  function Shrunk(w: World): int {
    w.h.taken - if w.s.pc == Shrinking then 1 else 0
  }

  predicate Ahead(pc: Pc) {
    pc in {Shrinking, Testing, Resetting, Returning}
  }

  predicate IndicesOk(w: World) {
    && IsState(w.s)
    && w.s.writing == |w.h.written| % SIZE
    && (if w.s.pc == Resetting then Index(w.h) == 0 else w.s.reading % SIZE == Index(w.h))
    && w.s.length == Int8(|w.h.written| - Shrunk(w) - w.h.erased)
  }

  predicate Fetched(w: World, i: nat, c: byte)
    requires i < |w.h.fetched|
  {
    var p := w.h.fetched[i];
    (p.Some? ==> p.value < |w.h.written|) && c == CharAt(w.h.written, p)
  }

  predicate ContentsOk(w: World) {
    && IsState(w.s)
    && (forall i :: 0 <= i < SIZE ==> w.s.buffer[i] == CharAt(w.h.written, Position(|w.h.written|, i)))
    && |w.h.fetched| == w.h.taken + (if w.s.pc == Advancing then 1 else 0)
    && |w.s.delivered| == w.h.taken - (if Ahead(w.s.pc) then 1 else 0)
    && (forall i :: 0 <= i < |w.s.delivered| ==> Fetched(w, i, w.s.delivered[i]))
    && (w.s.pc == Advancing || Ahead(w.s.pc) ==> |w.h.fetched| > 0 && Fetched(w, |w.h.fetched| - 1, w.s.returned))
  }

  lemma SlotAfterWrite(written: seq<byte>, c: byte, i: nat)
    requires i < SIZE
    ensures var more := written + [c];
      CharAt(more, Position(|more|, i)) == if i == |written| % SIZE then c else CharAt(written, Position(|written|, i))
  {
    var n := |written|;
    if i == n % SIZE {
      assert (n - i) / SIZE * SIZE == n - i;
    } else {
      assert n % SIZE != i;
    }
  }

  lemma Int8Step(x: int, d: int)
    requires -1 <= d <= 1
    ensures Int8(Int8(x) + d) == Int8(x + d)
  {
  }

  lemma IndexSteps(x: int)
    ensures RingIndex(x + 1) == if RingIndex(x) == 99 then 0 else RingIndex(x) + 1
    ensures RingIndex(x - 1) == if RingIndex(x) == 0 then 99 else RingIndex(x) - 1
  {
    RemainderStep(x);
    RemainderStep(x - 1);
  }

  lemma RemainderStep(i: int)
    ensures (i + 1) % SIZE == if i % SIZE == 99 then 0 else i % SIZE + 1
  {
  }

  lemma StepKeepsIndices(w: World, e: Event)
    requires IndicesOk(w)
    ensures IndicesOk(NextWorld(w, e))
  {
    hide Int8, RingIndex;
    Int8Step(|w.h.written| - Shrunk(w) - w.h.erased, 1);
    Int8Step(|w.h.written| - Shrunk(w) - w.h.erased, -1);
    IndexSteps(w.h.taken - w.h.erased + w.h.slips);
    RemainderStep(|w.h.written|);
    match e
    case Key(c) =>
    case Erase =>
    case Run => RunKeepsIndices(w);
  }

  lemma RunKeepsIndices(w: World)
    requires IndicesOk(w)
    ensures IndicesOk(NextWorld(w, Run))
  {
    hide Int8, RingIndex;
    Int8Step(|w.h.written| - Shrunk(w) - w.h.erased, -1);
    IndexSteps(w.h.taken - w.h.erased + w.h.slips);
  }

  lemma StepKeepsContents(w: World, e: Event)
    requires IndicesOk(w) && ContentsOk(w)
    ensures ContentsOk(NextWorld(w, e))
  {
    var w' := NextWorld(w, e);
    match e
    case Key(c) =>
      if c != 0 {
        forall i | 0 <= i < SIZE
          ensures w'.s.buffer[i] == CharAt(w'.h.written, Position(|w'.h.written|, i))
        {
          SlotAfterWrite(w.h.written, c, i);
        }
      }
    case _ =>
  }

  /** In every interleaving, at every step: the indices stay in the buffer, the length and both indices are
      what the history says, each slot holds the last character written to it, and every character handed to
      the reader is the one at the position it was fetched from. */
  lemma {:induction false} EveryRun(w: World, events: seq<Event>)
    requires IndicesOk(w) && ContentsOk(w)
    ensures IndicesOk(After(w, events)) && ContentsOk(After(w, events))
    decreases |events|
  {
    if events != [] {
      StepKeepsIndices(w, events[0]);
      StepKeepsContents(w, events[0]);
      EveryRun(NextWorld(w, events[0]), events[1..]);
    }
  }

  lemma BootOk()
    ensures IndicesOk(BootWorld()) && ContentsOk(BootWorld())
  {
  }

  // ---------------------------------------------------------------- consequences

  /** The reading index as the reader is about to leave it: the pending reset counts as done. */
  function ReadingIndex(s: State): int {
    if s.pc == Resetting then 0 else s.reading
  }

  /** While the length does not wrap, the writing index is the reading index plus the length plus twice the
      backspaces, modulo the size, corrected for a reader between its two updates or before its reset, and for
      backspaces that came between the wrap test and the reset. */
  lemma RingRelation(w: World)
    requires IndicesOk(w) && -128 <= |w.h.written| - Shrunk(w) - w.h.erased < 128
    ensures w.s.writing == (ReadingIndex(w.s) + w.s.length + 2 * w.h.erased - w.h.slips
                            - if w.s.pc == Shrinking then 1 else 0) % 100
  {
    var i := w.h.taken - w.h.erased + w.h.slips;
    var rest := |w.h.written| - i;
    assert w.s.length == |w.h.written| - Shrunk(w) - w.h.erased;
    assert ReadingIndex(w.s) % SIZE == i % SIZE by { ReadingRemainder(w); }
    SameRemainder(ReadingIndex(w.s), i);
    SameRemainder(ReadingIndex(w.s) + rest, |w.h.written|);
  }

  lemma ReadingRemainder(w: World)
    requires IndicesOk(w)
    ensures ReadingIndex(w.s) % SIZE == (w.h.taken - w.h.erased + w.h.slips) % SIZE
  {
  }

  /** When the next fetch takes the next character of the stream, in any run: no backspace was pressed, up to
      full turns of the ring and those that hit the reset, and at most 100 characters are outstanding. */
  lemma FetchInOrderIff(w: World)
    requires IndicesOk(w) && w.s.pc == Fetching
    ensures Position(|w.h.written|, w.s.reading) == Some(w.h.taken)
       <==> (w.h.erased - w.h.slips) % 100 == 0 && w.h.taken < |w.h.written| <= w.h.taken + 100
  {
    var n, t, d, r := |w.h.written|, w.h.taken, w.h.erased - w.h.slips, w.s.reading;
    SameRemainder(t, t - d);
    assert r == (t - d) % SIZE;
    if d % SIZE == 0 && t < n <= t + SIZE {
      SameSlotNear(n, t, r);
    } else {
      hide Position;
      PositionFacts(n, r);
    }
  }

  lemma SameRemainder(a: int, b: int)
    ensures a % SIZE == b % SIZE <==> (a - b) % SIZE == 0
  {
  }

  lemma PositionFacts(n: nat, slot: nat)
    requires slot < SIZE
    ensures Position(n, slot).Some? ==>
      && Position(n, slot).value < n <= Position(n, slot).value + SIZE
      && Position(n, slot).value % SIZE == slot
  {
  }

  lemma SameSlotNear(n: nat, t: nat, r: nat)
    requires t < n <= t + SIZE && r < SIZE && t % SIZE == r
    ensures Position(n, r) == Some(t)
  {
    assert t >= r;
    SameRemainder(Position(n, r).value, t);
  }

  /** What was typed: the characters of the key presses, in order. A key without a character counts for none. */
  function Typed(events: seq<Event>): seq<byte>
    decreases |events|
  {
    if events == [] then []
    else (if events[0].Key? && events[0].c != 0 then [events[0].c] else []) + Typed(events[1..])
  }

  /** How often the backspace key was pressed. */
  function Backspaces(events: seq<Event>): nat
    decreases |events|
  {
    if events == [] then 0 else (if events[0] == Erase then 1 else 0) + Backspaces(events[1..])
  }

  /** Every typed character was written, in order, and every backspace counted, whatever else happened. */
  lemma {:induction false} WrittenIsTyped(w: World, events: seq<Event>)
    requires IsState(w.s)
    ensures After(w, events).h.written == w.h.written + Typed(events)
    ensures After(w, events).h.erased == w.h.erased + Backspaces(events)
    decreases |events|
  {
    if events != [] {
      var w1 := NextWorld(w, events[0]);
      WrittenIsTyped(w1, events[1..]);
      assert w1.h.written == w.h.written + if events[0].Key? && events[0].c != 0 then [events[0].c] else [];
    }
  }

  predicate NoErase(events: seq<Event>) {
    forall i :: 0 <= i < |events| ==> events[i] != Erase
  }

  /** Whenever the reader fetches, at most 100 characters are outstanding. */
  predicate NeverOverrun(w: World, events: seq<Event>)
    requires IsState(w.s)
    decreases |events|
  {
    events != [] ==>
      && (events[0] == Run && w.s.pc == Fetching ==> |w.h.written| <= w.h.taken + 100)
      && NeverOverrun(NextWorld(w, events[0]), events[1..])
  }

  predicate InOrder(h: History) {
    forall i :: 0 <= i < |h.fetched| ==> h.fetched[i] == Some(i)
  }

  /** A run without backspaces: the reader is never ahead of the stream. */
  predicate Behind(w: World) {
    && IndicesOk(w) && ContentsOk(w) && w.h.erased == 0 && w.h.slips == 0
    && Shrunk(w) <= |w.h.written|
    && w.h.taken <= |w.h.written|
    && (w.s.pc == Fetching || w.s.pc == Advancing ==> w.h.taken < |w.h.written|)
  }

  lemma StepStaysBehind(w: World, e: Event)
    requires Behind(w) && e != Erase
    ensures Behind(NextWorld(w, e))
  {
    hide ContentsOk;
    StepKeepsIndices(w, e);
    StepKeepsContents(w, e);
  }

  lemma {:induction false} FetchedGrows(w: World, events: seq<Event>)
    requires IsState(w.s)
    ensures w.h.fetched <= After(w, events).h.fetched
    decreases |events|
  {
    if events != [] {
      FetchedGrows(NextWorld(w, events[0]), events[1..]);
    }
  }

  /** The reader gets the positions 0, 1, 2, ... of the stream exactly when it never falls more than 100
      characters behind. */
  lemma {:induction false} FifoIff(w: World, events: seq<Event>)
    requires Behind(w) && NoErase(events) && InOrder(w.h)
    ensures Behind(After(w, events))
    ensures InOrder(After(w, events).h) <==> NeverOverrun(w, events)
    decreases |events|
  {
    hide IndicesOk, ContentsOk;
    BehindIsState(w);
    hide Behind;
    if events != [] {
      var e, w' := events[0], NextWorld(w, events[0]);
      StepStaysBehind(w, e);
      assert NoErase(events[1..]);
      FetchOrder(w, e);
      if InOrder(w'.h) {
        FifoIff(w', events[1..]);
      } else {
        RunStaysBehind(w', events[1..]);
        FetchedGrows(w', events[1..]);
        StaysOutOfOrder(w'.h, After(w, events).h);
      }
    }
  }

  lemma BehindIsState(w: World)
    requires Behind(w)
    ensures IsState(w.s)
  {
  }

  lemma StaysOutOfOrder(h: History, h': History)
    requires !InOrder(h) && h.fetched <= h'.fetched
    ensures !InOrder(h')
  {
    var i :| 0 <= i < |h.fetched| && h.fetched[i] != Some(i);
    assert h'.fetched[i] == h.fetched[i];
  }

  lemma {:induction false} RunStaysBehind(w: World, events: seq<Event>)
    requires Behind(w) && NoErase(events)
    ensures Behind(After(w, events))
    decreases |events|
  {
    BehindIsState(w);
    if events != [] {
      StepStaysBehind(w, events[0]);
      assert NoErase(events[1..]);
      RunStaysBehind(NextWorld(w, events[0]), events[1..]);
    }
  }

  lemma FetchOrder(w: World, e: Event)
    requires Behind(w) && InOrder(w.h) && e != Erase
    ensures InOrder(NextWorld(w, e).h) <==> (e == Run && w.s.pc == Fetching ==> |w.h.written| <= w.h.taken + SIZE)
  {
    if e == Run && w.s.pc == Fetching {
      FetchInOrderIff(w);
      var f := NextWorld(w, e).h.fetched;
      assert f[|w.h.fetched|] == Position(|w.h.written|, w.s.reading);
    }
  }

  /** First in, first out: without backspaces and never more than 100 behind, kgetc and kread hand out exactly
      the characters typed, in order, none lost and none twice. */
  lemma Fifo(events: seq<Event>)
    requires NoErase(events) && NeverOverrun(BootWorld(), events)
    ensures var delivered := After(BootWorld(), events).s.delivered;
      |delivered| <= |Typed(events)| && delivered == Typed(events)[..|delivered|]
  {
    WrittenIsTyped(BootWorld(), events);
    hide IndicesOk;
    BootOk();
    BootBehind();
    FifoIff(BootWorld(), events);
    var w := After(BootWorld(), events);
    forall i | 0 <= i < |w.s.delivered| ensures i < |w.h.written| && w.s.delivered[i] == w.h.written[i] {
      assert Fetched(w, i, w.s.delivered[i]);
      assert w.h.fetched[i] == Some(i);
    }
  }

  /** How many calls of kgetc return during `events`. */
  function Returned(w: World, events: seq<Event>): nat
    requires IsState(w.s)
    decreases |events|
  {
    if events == [] then 0
    else (if events[0] == Run && w.s.pc == Returning then 1 else 0) + Returned(NextWorld(w, events[0]), events[1..])
  }

  /** Each of them hands out one character. */
  lemma {:induction false} DeliveredGrows(w: World, events: seq<Event>)
    requires IsState(w.s)
    ensures w.s.delivered <= After(w, events).s.delivered
    ensures |After(w, events).s.delivered| == |w.s.delivered| + Returned(w, events)
    decreases |events|
  {
    if events != [] {
      DeliveredGrows(NextWorld(w, events[0]), events[1..]);
    }
  }

  /** kread: the `n` calls of kgetc that return during some events hand out exactly the next `n` characters of
      the stream, starting where the reader had come to. */
  lemma Kread(before: seq<Event>, during: seq<Event>)
    requires NoErase(before + during) && NeverOverrun(BootWorld(), before + during)
    ensures var w0, w := After(BootWorld(), before), After(BootWorld(), before + during);
      var d, n := |w0.s.delivered|, Returned(w0, during);
      && d + n <= |Typed(before + during)|
      && w.s.delivered == w0.s.delivered + Typed(before + during)[d..d + n]
  {
    BootOk();
    Fifo(before + during);
    AfterSteps(BootWorld(), before, during);
    DeliveredGrows(After(BootWorld(), before), during);
  }

  lemma BootBehind()
    ensures Behind(BootWorld()) && InOrder(BootWorld().h)
  {
    BootOk();
  }

  /** Backspace moves the wrong index: after typing a, b and backspace the reader gets neither, but the
      NUL that slot 99 has held since boot. */
  lemma EraseExample()
    ensures After(BootWorld(), [Key(97), Key(98), Erase, Run, Run, Run, Run, Run, Run, Run]).s.delivered == [0]
  {
    hide Position, Step, Recorded;
    BootOk();
    hide BootWorld, IsState;
    var typed, read := [Key(97), Key(98), Erase], [Run, Run, Run, Run, Run, Run, Run];
    AfterSteps(BootWorld(), typed, read);
    assert typed + read == [Key(97), Key(98), Erase, Run, Run, Run, Run, Run, Run, Run];
    var w := After(BootWorld(), typed);
    TypedAndErased();
    KgetcReads(w);
  }

  lemma TypedAndErased()
    ensures var s := After(BootWorld(), [Key(97), Key(98), Erase]).s;
      s.pc == Waiting && s.length == 1 && s.reading == 99 && s.buffer[99] == 0 && s.delivered == []
  {
    hide Recorded, Position, Step;
    ThreeSteps(BootWorld(), Key(97), Key(98), Erase);
    TypedStates();
  }

  lemma TypedStates()
    ensures var s := Step(Step(Step(Boot(), Key(97)), Key(98)), Erase);
      s.pc == Waiting && s.length == 1 && s.reading == 99 && s.buffer[99] == 0 && s.delivered == []
  {
    var s1 := Step(Boot(), Key(97));
    var s2 := Step(s1, Key(98));
    assert s1.length == 1 && s1.writing == 1 && s1.buffer[99] == 0;
    assert s2.length == 2 && s2.buffer[99] == 0;
  }

  lemma ThreeSteps(w: World, a: Event, b: Event, c: Event)
    requires IsState(w.s)
    ensures After(w, [a, b, c]) == NextWorld(NextWorld(NextWorld(w, a), b), c)
  {
    hide NextWorld, IsState, After;
    var w1 := NextWorld(w, a);
    var w2 := NextWorld(w1, b);
    AfterCons(w, a, [b, c]);
    AfterCons(w1, b, [c]);
    AfterCons(w2, c, []);
    AfterNone(NextWorld(w2, c));
    assert [a] + [b, c] == [a, b, c] && [b] + [c] == [b, c] && [c] + [] == [c];
  }

  lemma AfterNone(w: World)
    requires IsState(w.s)
    ensures After(w, []) == w
  {
  }

  lemma AfterCons(w: World, e: Event, rest: seq<Event>)
    requires IsState(w.s)
    ensures After(w, [e] + rest) == After(NextWorld(w, e), rest)
  {
    hide NextWorld, IsState;
    assert ([e] + rest)[1..] == rest;
  }

  /** kgetc undisturbed: from its wait loop, seven statements hand out exactly the character at the reading index if
      the length is not zero, and nothing otherwise. */
  lemma KgetcReads(w: World)
    requires IsState(w.s) && w.s.pc == Waiting
    ensures After(w, [Run, Run, Run, Run, Run, Run, Run]).s.delivered
         == if w.s.length == 0 then w.s.delivered else w.s.delivered + [w.s.buffer[w.s.reading]]
  {
    hide Recorded, Position, Step, IsState;
    assert [Run, Run, Run, Run, Run, Run, Run] == [Run, Run, Run] + ([Run, Run, Run] + [Run]);
    AfterSteps(w, [Run, Run, Run], [Run, Run, Run] + [Run]);
    ThreeSteps(w, Run, Run, Run);
    var w3 := After(w, [Run, Run, Run]);
    AfterSteps(w3, [Run, Run, Run], [Run]);
    ThreeSteps(w3, Run, Run, Run);
    var w6 := After(w3, [Run, Run, Run]);
    OneStep(w6, Run);
    ReadStates(w.s);
  }

  lemma OneStep(w: World, e: Event)
    requires IsState(w.s)
    ensures After(w, [e]) == NextWorld(w, e)
  {
    hide NextWorld, IsState;
    assert [e][1..] == [];
  }

  lemma ReadStates(s: State)
    requires IsState(s) && s.pc == Waiting
    ensures var s3 := Step(Step(Step(s, Run), Run), Run);
      Step(Step(Step(Step(s3, Run), Run), Run), Run).delivered
      == if s.length == 0 then s.delivered else s.delivered + [s.buffer[s.reading]]
  {
    if s.length != 0 {
      var s3 := Step(Step(Step(s, Run), Run), Run);
      assert s3.pc == Shrinking && s3.reading == s.reading + 1 && s3.delivered == s.delivered;
      assert s3.returned == s.buffer[s.reading];
      var s5 := Step(Step(s3, Run), Run);
      assert s5.returned == s3.returned && s5.delivered == s.delivered;
      assert s5.pc == if s3.reading == 100 then Resetting else Returning;
      var s6 := Step(s5, Run);
      assert if s3.reading == 100 then s6.pc == Returning else s6.pc == Waiting;
    }
  }

  lemma {:induction false} AfterSteps(w: World, a: seq<Event>, b: seq<Event>)
    requires IsState(w.s)
    ensures After(w, a + b) == After(After(w, a), b)
    decreases |a|
  {
    if a == [] {
      assert a + b == b;
    } else {
      assert (a + b)[1..] == a[1..] + b;
      AfterSteps(NextWorld(w, a[0]), a[1..], b);
    }
  }
}
