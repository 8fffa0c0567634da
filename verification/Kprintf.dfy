/** kprintf of kernel/kprint.c: the format string and what it makes of the arguments. */
module Kprintf {
  import opened Options
  import opened Memory
  import opened Words
  import opened Terminal
  import opened Kprint

  const PERCENT: byte := 37
  const CONV_C: byte := 99
  const CONV_D: byte := 100
  const CONV_P: byte := 112
  const CONV_S: byte := 115
  const CONV_X: byte := 120

  /** One variadic argument. */
  datatype Arg = CharArg(c: byte) | StrArg(s: seq<byte>) | NumArg(n: word)

  /** "<not supported>" */
  function NotSupported(): seq<byte> {
    [60, 110, 111, 116, 32, 115, 117, 112, 112, 111, 114, 116, 101, 100, 62]
  }

  predicate TakesArg(conversion: byte) {
    conversion in [CONV_C, CONV_D, CONV_P, CONV_S, CONV_X]
  }

  predicate ArgFits(conversion: byte, arg: Arg) {
    if conversion == CONV_C then arg.CharArg?
    else if conversion == CONV_S then arg.StrArg?
    else arg.NumArg?
  }

  /** The caller's side: an argument of the right kind for every conversion, and no lone `%` at the end, after
      which the loop would run past the terminator. */
  predicate WellFormed(fmt: seq<byte>, args: seq<Arg>) {
    if fmt == [] then true
    else if fmt[0] != PERCENT then WellFormed(fmt[1..], args)
    else
      && |fmt| >= 2
      && if TakesArg(fmt[1]) then args != [] && ArgFits(fmt[1], args[0]) && WellFormed(fmt[2..], args[1..])
         else WellFormed(fmt[2..], args)
  }

  /** What one conversion prints. */
  function Converted(conversion: byte, arg: Arg): seq<byte>
    requires ArgFits(conversion, arg)
  {
    if conversion == CONV_C then [arg.c]
    else if conversion == CONV_S then arg.s
    else if conversion == CONV_D then Digits(arg.n, 10)
    else if conversion == CONV_X then HexShown(arg.n)
    else [48, 120] + HexShown(arg.n)
  }

  /** All that kprintf prints. */
  function Expand(fmt: seq<byte>, args: seq<Arg>): seq<byte>
    requires WellFormed(fmt, args)
  {
    if fmt == [] then []
    else if fmt[0] != PERCENT then [fmt[0]] + Expand(fmt[1..], args)
    else if TakesArg(fmt[1]) then Converted(fmt[1], args[0]) + Expand(fmt[2..], args[1..])
    else (if fmt[1] == PERCENT then [PERCENT] else NotSupported()) + Expand(fmt[2..], args)
  }

  /** What the `switch` on the character after a `%` prints. */
  function Switched(conversion: byte, args: seq<Arg>, used: nat): seq<byte>
    requires TakesArg(conversion) ==> used < |args| && ArgFits(conversion, args[used])
  {
    if TakesArg(conversion) then Converted(conversion, args[used])
    else if conversion == PERCENT then [PERCENT]
    else NotSupported()
  }

  method Switch(t: Vga, conversion: byte, args: seq<Arg>, used: nat, ghost before: Page, ghost text: seq<byte>)
    returns (usedNow: nat)
    requires Showed(t, before, text)
    requires TakesArg(conversion) ==> used < |args| && ArgFits(conversion, args[used])
    modifies t, t.term
    ensures usedNow == used + if TakesArg(conversion) then 1 else 0
    ensures Showed(t, before, text + Switched(conversion, args, used))
  {
    hide Showed, Digits, HexShown, NotSupported;
    usedNow := used;
    if conversion == PERCENT {
      KprintC(t, PERCENT, before, text);
    } else if conversion == CONV_C {
      KprintC(t, args[used].c, before, text);
      usedNow := used + 1;
    } else if conversion == CONV_S {
      KprintS(t, args[used].s, before, text);
      usedNow := used + 1;
    } else if conversion == CONV_D {
      KprintD(t, args[used].n, before, text);
      usedNow := used + 1;
    } else if conversion == CONV_X {
      KprintX(t, args[used].n, before, text);
      usedNow := used + 1;
    } else if conversion == CONV_P {
      KprintP(t, args[used].n, before, text);
      usedNow := used + 1;
    } else {
      KprintS(t, NotSupported(), before, text);
    }
  }

  /** One step of the loop over the format. */
  lemma ExpandStep(fmt: seq<byte>, args: seq<Arg>, i: nat, u: nat)
    requires i < |fmt| && u <= |args| && WellFormed(fmt[i..], args[u..])
    ensures fmt[i] != PERCENT ==>
      WellFormed(fmt[i + 1..], args[u..]) && Expand(fmt[i..], args[u..]) == [fmt[i]] + Expand(fmt[i + 1..], args[u..])
    ensures fmt[i] == PERCENT ==>
      && i + 1 < |fmt|
      && (TakesArg(fmt[i + 1]) ==> u < |args| && ArgFits(fmt[i + 1], args[u]))
      && var u' := if TakesArg(fmt[i + 1]) then u + 1 else u;
         && WellFormed(fmt[i + 2..], args[u'..])
         && Expand(fmt[i..], args[u..]) == Switched(fmt[i + 1], args, u) + Expand(fmt[i + 2..], args[u'..])
  {
    hide Digits, HexShown, NotSupported, Converted;
    assert fmt[i..][1..] == fmt[i + 1..];
    if fmt[i] == PERCENT {
      assert fmt[i..][2..] == fmt[i + 2..];
      if u < |args| {
        assert args[u..][1..] == args[u + 1..];
      }
    }
  }

  method Kprintf(t: Vga, fmt: seq<byte>, args: seq<Arg>, ghost before: Page, ghost text: seq<byte>)
    requires Showed(t, before, text) && WellFormed(fmt, args)
    modifies t, t.term
    ensures Showed(t, before, text + Expand(fmt, args))
  {
    hide Showed, Switched, WellFormed, Expand;
    var index, used: nat := 0, 0;
    ghost var shown: seq<byte> := [];
    assert text + shown == text && fmt[0..] == fmt && args[0..] == args;
    while index < |fmt|
      invariant index <= |fmt| && used <= |args| && WellFormed(fmt[index..], args[used..])
      invariant Expand(fmt, args) == shown + Expand(fmt[index..], args[used..])
      invariant Showed(t, before, text + shown)
    {
      ExpandStep(fmt, args, index, used);
      ghost var more := [fmt[index]];
      if fmt[index] == PERCENT {
        index := index + 1;
        more := Switched(fmt[index], args, used);
        used := Switch(t, fmt[index], args, used, before, text + shown);
      } else {
        KprintC(t, fmt[index], before, text + shown);
      }
      assert text + shown + more == text + (shown + more);
      shown := shown + more;
      index := index + 1;
    }
    NothingLeft(args[used..]);
    assert fmt[index..] == [] && shown + [] == shown;
  }

  lemma NothingLeft(args: seq<Arg>)
    ensures WellFormed([], args) && Expand([], args) == []
  {
  }

  // ---------------------------------------------------------------- the conversions, byte by byte

  /** "%c", "%s", "%d", "%x", "%p" and "%%". */
  lemma Conversions(c: byte, str: seq<byte>, n: word)
    ensures WellFormed([37, 99], [CharArg(c)]) && Expand([37, 99], [CharArg(c)]) == [c]
    ensures WellFormed([37, 115], [StrArg(str)]) && Expand([37, 115], [StrArg(str)]) == str
    ensures WellFormed([37, 100], [NumArg(n)]) && Expand([37, 100], [NumArg(n)]) == Digits(n, 10)
    ensures WellFormed([37, 120], [NumArg(n)]) && (n != 16 ==> Expand([37, 120], [NumArg(n)]) == Digits(n, 16))
    ensures Parse(Expand([37, 100], [NumArg(n)]), 10) == Some(n)
    ensures WellFormed([37, 112], [NumArg(n)])
    ensures n != 16 ==> Parse(Expand([37, 120], [NumArg(n)]), 16) == Some(n)
    ensures n == 16 ==> Expand([37, 120], [NumArg(n)]) == [103]
    ensures Expand([37, 112], [NumArg(n)]) == [48, 120] + Expand([37, 120], [NumArg(n)])
    ensures WellFormed([37, 37], []) && Expand([37, 37], []) == [37]
  {
    OneConversion(99, CharArg(c));
    OneConversion(115, StrArg(str));
    OneConversion(100, NumArg(n));
    OneConversion(120, NumArg(n));
    OneConversion(112, NumArg(n));
    PlainConversion(37);
    DecimalRoundTrip(n);
    HexRoundTripIff(n);
  }

  lemma OneConversion(letter: byte, arg: Arg)
    requires TakesArg(letter) && ArgFits(letter, arg)
    ensures WellFormed([37, letter], [arg]) && Expand([37, letter], [arg]) == Converted(letter, arg)
  {
    var fmt, args := [37, letter], [arg];
    assert fmt[2..] == [] && args[1..] == [];
    assert Converted(letter, arg) + [] == Converted(letter, arg);
  }

  lemma PlainConversion(letter: byte)
    requires !TakesArg(letter)
    ensures WellFormed([37, letter], [])
    ensures Expand([37, letter], []) == if letter == 37 then [37] else NotSupported()
  {
    var fmt := [37, letter];
    assert fmt[2..] == [];
    assert NotSupported() + [] == NotSupported() && [37] + [] == [37];
  }

  /** Any other letter prints "<not supported>" and uses no argument. */
  lemma OtherConversions(letter: byte, i: nat)
    requires letter != 37 && letter != 99 && letter != 100 && letter != 112 && letter != 115 && letter != 120
    ensures WellFormed([37, letter], []) && |Expand([37, letter], [])| == 15
    ensures i < 15 ==> Expand([37, letter], [])[i] as int == "<not supported>"[i] as int
  {
    PlainConversion(letter);
  }

  // ---------------------------------------------------------------- formats by their pieces

  /** What a format is written for. */
  datatype Piece =
    | Text(s: seq<byte>)
    | Char(c: byte)
    | Str(str: seq<byte>)
    | Dec(d: word)
    | Hex(x: word)
    | Pointer(p: word)
    | Other(letter: byte) // a letter that kprintf does not know

  predicate IsPiece(p: Piece) {
    p.Other? ==> p.letter !in [37, 99, 100, 112, 115, 120]
  }

  /** Literal text in a format has its percent signs doubled. */
  function Escape(s: seq<byte>): seq<byte> {
    if s == [] then [] else EscapeChar(s[0]) + Escape(s[1..])
  }

  function EscapeChar(c: byte): seq<byte> {
    if c == 37 then [37, 37] else [c]
  }

  function FormatOf(p: Piece): seq<byte> {
    match p
    case Text(s) => Escape(s)
    case Char(_) => [37, 99]
    case Str(_) => [37, 115]
    case Dec(_) => [37, 100]
    case Hex(_) => [37, 120]
    case Pointer(_) => [37, 112]
    case Other(letter) => [37, letter]
  }

  function ArgsOf(p: Piece): seq<Arg> {
    match p
    case Text(_) => []
    case Char(c) => [CharArg(c)]
    case Str(s) => [StrArg(s)]
    case Dec(n) => [NumArg(n)]
    case Hex(n) => [NumArg(n)]
    case Pointer(n) => [NumArg(n)]
    case Other(_) => []
  }

  function ShownOf(p: Piece): seq<byte> {
    match p
    case Text(s) => s
    case Char(c) => [c]
    case Str(s) => s
    case Dec(n) => Digits(n, 10)
    case Hex(n) => HexShown(n)
    case Pointer(n) => [48, 120] + HexShown(n)
    case Other(_) => NotSupported()
  }

  function Format(ps: seq<Piece>): seq<byte> {
    if ps == [] then [] else FormatOf(ps[0]) + Format(ps[1..])
  }

  function Args(ps: seq<Piece>): seq<Arg> {
    if ps == [] then [] else ArgsOf(ps[0]) + Args(ps[1..])
  }

  function Shown(ps: seq<Piece>): seq<byte> {
    if ps == [] then [] else ShownOf(ps[0]) + Shown(ps[1..])
  }

  lemma CharExpands(c: byte, fmt: seq<byte>, args: seq<Arg>)
    requires WellFormed(fmt, args)
    ensures WellFormed(EscapeChar(c) + fmt, args) && Expand(EscapeChar(c) + fmt, args) == [c] + Expand(fmt, args)
  {
    hide NotSupported, Converted;
    assert (EscapeChar(c) + fmt)[|EscapeChar(c)|..] == fmt;
  }

  lemma {:induction false} TextExpands(s: seq<byte>, fmt: seq<byte>, args: seq<Arg>)
    requires WellFormed(fmt, args)
    ensures WellFormed(Escape(s) + fmt, args) && Expand(Escape(s) + fmt, args) == s + Expand(fmt, args)
  {
    hide WellFormed, Expand, EscapeChar;
    if s == [] {
      assert Escape(s) + fmt == fmt;
      assert s + Expand(fmt, args) == Expand(fmt, args);
    } else {
      TextExpands(s[1..], fmt, args);
      CharExpands(s[0], Escape(s[1..]) + fmt, args);
      assert Escape(s) + fmt == EscapeChar(s[0]) + (Escape(s[1..]) + fmt);
      assert [s[0]] + (s[1..] + Expand(fmt, args)) == s + Expand(fmt, args);
    }
  }

  lemma PieceExpands(p: Piece, fmt: seq<byte>, args: seq<Arg>)
    requires WellFormed(fmt, args) && IsPiece(p)
    ensures WellFormed(FormatOf(p) + fmt, ArgsOf(p) + args)
    ensures Expand(FormatOf(p) + fmt, ArgsOf(p) + args) == ShownOf(p) + Expand(fmt, args)
  {
    hide Digits, HexShown;
    if p.Text? {
      TextExpands(p.s, fmt, args);
      assert [] + args == args;
    } else if p.Other? {
      var all := FormatOf(p) + fmt;
      assert all[0] == PERCENT && all[2..] == fmt && [] + args == args;
      assert !TakesArg(all[1]);
    } else {
      var all, given := FormatOf(p) + fmt, ArgsOf(p) + args;
      assert all[0] == PERCENT && all[2..] == fmt && given[1..] == args;
      assert TakesArg(all[1]);
    }
  }

  /** kprintf prints exactly what its format was put together for: for every list of literal texts,
      characters, strings and numbers, the concatenation of what each of them prints as. */
  lemma {:induction false} FormatExpands(ps: seq<Piece>)
    requires forall i :: 0 <= i < |ps| ==> IsPiece(ps[i])
    ensures WellFormed(Format(ps), Args(ps)) && Expand(Format(ps), Args(ps)) == Shown(ps)
  {
    if ps != [] {
      FormatExpands(ps[1..]);
      PieceExpands(ps[0], Format(ps[1..]), Args(ps[1..]));
    }
  }
}
