/** The keyboard ring buffer of kernel/systemcalls.c: the interrupt handler runs to completion between any
    two statements of the reader. Each `++` and `--` of the reader counts as one statement. */
module Keyboard {
  import opened Memory

  const SIZE := 100

  /** Where the reader is in kgetc: the next statement to run. */
  datatype Pc =
    | Waiting   // while (buffer_length == 0)
    | Fetching  // returned = buffer[reading_index]
    | Advancing // reading_index++
    | Shrinking // buffer_length--
    | Testing   // if (reading_index >= 100)
    | Resetting // reading_index = 0
    | Returning // return returned

  datatype State = State(
    buffer: seq<byte>, length: int, reading: int, writing: int,
    pc: Pc, returned: byte, delivered: seq<byte>)

  /** A key that produced a character (0 for none), the backspace key, or one statement of the reader. */
  datatype Event = Key(c: byte) | Erase | Run

  /** Conversion to int8_t. */
  function Int8(x: int): (r: int)
    ensures -128 <= r < 128 && (r - x) % 256 == 0
  {
    (x + 128) % 256 - 128
  }

  predicate IsState(s: State) {
    && |s.buffer| == SIZE && -128 <= s.length < 128
    && 0 <= s.writing < SIZE && 0 <= s.reading <= SIZE
    && (s.pc in {Waiting, Fetching, Advancing, Returning} ==> s.reading < SIZE)
  }

  function CharWritten(s: State, c: byte): (r: State)
    requires IsState(s)
    ensures IsState(r)
  {
    if c == 0 then s
    else s.(buffer := s.buffer[s.writing := c], length := Int8(s.length + 1),
            writing := if s.writing + 1 >= SIZE then 0 else s.writing + 1)
  }

  function Erased(s: State): (r: State)
    requires IsState(s)
    ensures IsState(r)
  {
    s.(length := Int8(s.length - 1), reading := if s.reading - 1 < 0 then 99 else s.reading - 1)
  }

  function Ran(s: State): (r: State)
    requires IsState(s)
    ensures IsState(r)
  {
    match s.pc
    case Waiting => if s.length == 0 then s else s.(pc := Fetching)
    case Fetching => s.(returned := s.buffer[s.reading], pc := Advancing)
    case Advancing => s.(reading := s.reading + 1, pc := Shrinking)
    case Shrinking => s.(length := Int8(s.length - 1), pc := Testing)
    case Testing => s.(pc := if s.reading >= SIZE then Resetting else Returning)
    case Resetting => s.(reading := 0, pc := Returning)
    case Returning => s.(delivered := s.delivered + [s.returned], pc := Waiting)
  }

  function Step(s: State, e: Event): (r: State)
    requires IsState(s)
    ensures IsState(r)
  {
    match e
    case Key(c) => CharWritten(s, c)
    case Erase => Erased(s)
    case Run => Ran(s)
  }

  function Boot(): State {
    State(seq(SIZE, _ => 0), 0, 0, 0, Waiting, 0, [])
  }
}
