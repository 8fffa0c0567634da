/** The keyboard buffer as kernel/systemcalls.c and kernel/boot.c keep it, in every step of every interleaving. */
module KeyboardRing {
  import opened Memory
  import opened Terminal
  import opened Kprint
  import opened Kprintf
  import opened Keyboard
  import opened KeyboardRuns

  /** What char_write echoes. */
  function Echo(key: byte): seq<byte> {
    if key == 0 then [] else [key]
  }

  lemma EchoExpands(key: byte)
    ensures var fmt, args := [PERCENT, CONV_C], [CharArg(key)];
      WellFormed(fmt, args) && Expand(fmt, args) == [key]
  {
    var fmt, args := [PERCENT, CONV_C], [CharArg(key)];
    assert fmt[2..] == [] && args[1..] == [];
  }

  method EchoKey(key: byte, t: Vga, ghost before: Page, ghost text: seq<byte>)
    requires key != 0 && Showed(t, before, text)
    modifies t, t.term
    ensures Showed(t, before, text + Echo(key))
  {
    EchoExpands(key);
    Kprintf.Kprintf(t, [PERCENT, CONV_C], [CharArg(key)], before, text);
  }

  class Ring {
    const buffer: array<byte>
    var bufferLength: int
    var readingIndex: int
    var writingIndex: int
    var pc: Pc
    var returned: byte
    ghost var delivered: seq<byte>
    ghost var history: History

    ghost function Now(): State
      reads this, buffer
    {
      State(buffer[..], bufferLength, readingIndex, writingIndex, pc, returned, delivered)
    }

    ghost function Here(): World
      reads this, buffer
    {
      World(Now(), history)
    }

    ghost predicate Valid()
      reads this, buffer
    {
      IndicesOk(Here()) && ContentsOk(Here())
    }

    constructor ()
      ensures Valid() && Here() == BootWorld() && fresh(buffer)
    {
      buffer := new byte[SIZE](_ => 0);
      bufferLength, readingIndex, writingIndex := 0, 0, 0;
      pc, returned, delivered := Waiting, 0, [];
      history := BootWorld().h;
      new;
      assert buffer[..] == seq(SIZE, _ => 0);
      BootOk();
    }

    method Backspace()
      requires Valid()
      modifies this`bufferLength, this`readingIndex, this`history
      ensures Valid() && Here() == NextWorld(old(Here()), Erase)
    {
      ghost var w := Here();
      Kept(w, Erase);
      hide IndicesOk, ContentsOk;
      bufferLength := Int8(bufferLength - 1);
      readingIndex := readingIndex - 1;
      if readingIndex < 0 {
        readingIndex := 99;
      }
      history := Recorded(w.s, w.h, Erase);
    }

    /** Echo a character on the terminal `t` and put it in the buffer; NUL is dropped. */
    method CharWrite(key: byte, t: Vga, ghost before: Page, ghost text: seq<byte>)
      requires Valid() && Showed(t, before, text) && t.term != buffer
      modifies this`bufferLength, this`writingIndex, this`history, buffer, t, t.term
      ensures Valid() && Here() == NextWorld(old(Here()), Key(key))
      ensures Showed(t, before, text + Echo(key))
    {
      ghost var w := Here();
      Kept(w, Key(key));
      hide IndicesOk, ContentsOk, Showed, Position;
      assert text + [] == text;
      if key == 0 {
        return;
      }
      EchoKey(key, t, before, text);
      buffer[writingIndex] := key;
      writingIndex := writingIndex + 1;
      bufferLength := Int8(bufferLength + 1);
      if writingIndex >= SIZE {
        writingIndex := 0;
      }
      history := Recorded(w.s, w.h, Key(key));
    }

    /** keyboard_interrupt, for the key that was pressed. */
    method KeyboardInterrupt(e: Event, t: Vga, ghost before: Page, ghost text: seq<byte>)
      requires Valid() && e != Run && Showed(t, before, text) && t.term != buffer
      modifies this`bufferLength, this`readingIndex, this`writingIndex, this`history, buffer, t, t.term
      ensures Valid() && Here() == NextWorld(old(Here()), e)
      ensures Showed(t, before, text + if e == Erase then [] else Echo(e.c))
    {
      var key: byte := 0;
      if e == Erase {
        Backspace();
      } else {
        key := e.c;
      }
      CharWrite(key, t, before, text);
    }

    /** The next statement of kgetc. */
    method RunStatement()
      requires Valid()
      modifies this`bufferLength, this`readingIndex, this`pc, this`returned, this`delivered, this`history
      ensures Valid() && Here() == NextWorld(old(Here()), Run)
    {
      ghost var w := Here();
      Kept(w, Run);
      hide IndicesOk, ContentsOk, Position;
      match pc {
        case Waiting =>
          if bufferLength != 0 {
            pc := Fetching;
          }
        case Fetching =>
          returned := buffer[readingIndex];
          pc := Advancing;
        case Advancing =>
          readingIndex := readingIndex + 1;
          pc := Shrinking;
        case Shrinking =>
          bufferLength := Int8(bufferLength - 1);
          pc := Testing;
        case Testing =>
          pc := if readingIndex >= SIZE then Resetting else Returning;
        case Resetting =>
          readingIndex := 0;
          pc := Returning;
        case Returning =>
          delivered := delivered + [returned];
          pc := Waiting;
      }
      history := Recorded(w.s, w.h, Run);
    }
  }

  lemma Kept(w: World, e: Event)
    requires IndicesOk(w) && ContentsOk(w)
    ensures IsState(w.s) && IndicesOk(NextWorld(w, e)) && ContentsOk(NextWorld(w, e))
  {
    StepKeepsIndices(w, e);
    StepKeepsContents(w, e);
  }
}
