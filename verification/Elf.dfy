/** The program image of kernel/executables.c and the user address space that loading it should give,
    as values. */
module Elf {
  import opened Options
  import opened Memory
  import opened Words
  import opened Entry
  import opened Tables

  const LOAD := 1
  const STACKPAGE: nat := 0x7000_0000 // page number of 0x70000000000
  const STACKPAGES: nat := 8

  /** A boot module: its name, and the bytes of kernel memory from its first one on. */
  datatype Module = Module(name: string, image: seq<byte>)

  /** The fields of a program header that the loader uses. */
  datatype Phdr = Phdr(kind: nat, flags: nat, offset: nat, vaddr: nat, filesz: nat, memsz: nat)

  function Field(image: seq<byte>, at: nat, n: nat): nat
    requires at + n <= |image|
  {
    FromBytes(image[at..at + n])
  }

  predicate HasHeader(image: seq<byte>) {
    |image| >= 64
  }

  function EntryPoint(image: seq<byte>): nat
    requires HasHeader(image)
  {
    Field(image, 24, 8)
  }

  function PhOff(image: seq<byte>): nat
    requires HasHeader(image)
  {
    Field(image, 32, 8)
  }

  function PhNum(image: seq<byte>): nat
    requires HasHeader(image)
  {
    Field(image, 56, 2)
  }

  /** The table that `ph_entry++` steps through, 56 bytes at a time, is there. */
  predicate HasTable(image: seq<byte>) {
    HasHeader(image) && PhOff(image) + 56 * PhNum(image) <= |image|
  }

  function PhdrAt(image: seq<byte>, i: nat): Phdr
    requires HasTable(image) && i < PhNum(image)
  {
    var at := PhOff(image) + 56 * i;
    Phdr(Field(image, at, 4), Field(image, at + 4, 4), Field(image, at + 8, 8), Field(image, at + 16, 8),
         Field(image, at + 32, 8), Field(image, at + 40, 8))
  }

  predicate IsLoaded(ph: Phdr) {
    ph.kind == LOAD && ph.filesz > 0
  }

  /** Every byte that the loader copies can be read, and lands below 2^47. */
  predicate Readable(image: seq<byte>) {
    && HasTable(image)
    && forall i :: 0 <= i < PhNum(image) && IsLoaded(PhdrAt(image, i)) ==>
         && PhdrAt(image, i).offset + PhdrAt(image, i).memsz <= |image|
         && PhdrAt(image, i).vaddr + PhdrAt(image, i).memsz <= PAGE * LOWERPAGES
         && PhdrAt(image, i).vaddr < PAGE * LOWERPAGES
  }

  // ---------------------------------------------------------------- user pages

  /** One user page: rights and contents. */
  datatype Page = Page(user: bool, writable: bool, executable: bool, bytes: seq<byte>)

  type Space = map<nat, Page>

  predicate WellSized(space: Space) {
    forall v :: v in space ==> |space[v].bytes| == PAGE
  }

  function Mapped(space: Space, v: nat): Space {
    if v in space then space else space[v := Page(true, true, false, seq(PAGE, _ => 0))]
  }

  function Protected(space: Space, v: nat, writable: bool, executable: bool): Space {
    if v in space then space[v := Page(true, writable, executable, space[v].bytes)] else space
  }

  /** A store to address `a`; None is a page fault. `wp` is the write-protect bit of CR0. */
  function Stored(space: Space, a: nat, b: byte, wp: bool): (r: Option<Space>)
    requires WellSized(space)
    ensures r.Some? ==> WellSized(r.value)
  {
    var v := a / PAGE;
    if v in space && (space[v].writable || !wp) then
      Some(space[v := space[v].(bytes := space[v].bytes[a % PAGE := b])])
    else None
  }

  /** memcpy of `data` to address `dst` through the page tables. */
  function Copied(space: Space, dst: nat, data: seq<byte>, wp: bool): (r: Option<Space>)
    requires WellSized(space)
    ensures r.Some? ==> WellSized(r.value)
  {
    if data == [] then Some(space)
    else
      var last := |data| - 1;
      var before := Copied(space, dst, data[..last], wp);
      if before.None? then None else Stored(before.value, dst + last, data[last], wp)
  }

  function HasFlag(flags: nat, bit: nat): bool
    requires bit > 0
  {
    flags / bit % 2 == 1
  }

  /** One iteration of the program-header loop. */
  function Loaded(space: Space, image: seq<byte>, ph: Phdr, wp: bool): (r: Option<Space>)
    requires WellSized(space) && (IsLoaded(ph) ==> ph.offset + ph.memsz <= |image|)
    ensures r.Some? ==> WellSized(r.value)
  {
    if !IsLoaded(ph) then Some(space)
    else
      var v := ph.vaddr / PAGE;
      var copied := Copied(Mapped(space, v), ph.vaddr, image[ph.offset..ph.offset + ph.memsz], wp);
      if copied.None? then None
      else Some(Protected(copied.value, v, HasFlag(ph.flags, 2), HasFlag(ph.flags, 1)))
  }

  /** The first `n` program headers, into an empty lower half. */
  function LoadedUpTo(image: seq<byte>, n: nat, wp: bool): (r: Option<Space>)
    requires Readable(image) && n <= PhNum(image)
    ensures r.Some? ==> WellSized(r.value)
  {
    if n == 0 then Some(map[])
    else
      var before := LoadedUpTo(image, n - 1, wp);
      if before.None? then None else Loaded(before.value, image, PhdrAt(image, n - 1), wp)
  }

  function WithStack(space: Space, n: nat): Space {
    if n == 0 then space else Mapped(WithStack(space, n - 1), STACKPAGE + n - 1)
  }

  /** The whole address space of the program, or a page fault on the way. */
  function Program(image: seq<byte>, wp: bool): Option<Space>
    requires Readable(image)
  {
    var segments := LoadedUpTo(image, PhNum(image), wp);
    if segments.None? then None else Some(WithStack(segments.value, STACKPAGES))
  }

  /** How many of the first `n` headers are loaded. */
  function LoadCount(image: seq<byte>, n: nat): nat
    requires HasTable(image) && n <= PhNum(image)
  {
    if n == 0 then 0 else LoadCount(image, n - 1) + if IsLoaded(PhdrAt(image, n - 1)) then 1 else 0
  }
}
