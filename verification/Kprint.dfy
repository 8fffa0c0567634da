/** The printers of kernel/kprint.c, on the terminal. */
module Kprint {
  import Arithmetic
  import opened Options
  import opened Memory
  import opened Words
  import opened Terminal

  // ---------------------------------------------------------------- numerals

  function Digit(d: nat): byte
    requires d < 16
  {
    if d < 10 then 48 + d else 97 + d - 10
  }

  predicate IsBase(base: nat) {
    base == 10 || base == 16
  }

  /** The numeral of `v`, most significant digit first. */
  function Digits(v: nat, base: nat): (s: seq<byte>)
    requires IsBase(base)
    ensures s != []
  {
    if v < base then [Digit(v)] else Digits(v / base, base) + [Digit(v % base)]
  }

  function Value(c: byte): Option<nat> {
    if 48 <= c < 58 then Some(c - 48)
    else if 97 <= c < 103 then Some(c - 97 + 10)
    else None
  }

  predicate IsNumeral(s: seq<byte>, base: nat) {
    s != [] && forall i :: 0 <= i < |s| ==> Value(s[i]).Some? && Value(s[i]).value < base
  }

  function Number(s: seq<byte>, base: nat): nat
    requires forall i :: 0 <= i < |s| ==> Value(s[i]).Some?
  {
    if s == [] then 0 else Number(s[..|s| - 1], base) * base + Value(s[|s| - 1]).value
  }

  /** Reading a numeral back. */
  function Parse(s: seq<byte>, base: nat): Option<nat> {
    if IsNumeral(s, base) then Some(Number(s, base)) else None
  }

  lemma Split(v: nat, base: nat)
    requires IsBase(base) && v >= base
    ensures 0 < v / base < v && v / base * base + v % base == v && v % base < base
  {
    if base == 10 {
      assert v / 10 * 10 + v % 10 == v;
    } else {
      assert v / 16 * 16 + v % 16 == v;
    }
  }

  lemma OneDigit(c: byte, base: nat)
    requires Value(c).Some?
    ensures Number([c], base) == Value(c).value
  {
    assert Number([c][..0], base) == 0;
  }

  lemma AddDigit(s: seq<byte>, d: nat, base: nat)
    requires IsBase(base) && d < base && IsNumeral(s, base)
    ensures IsNumeral(s + [Digit(d)], base) && Number(s + [Digit(d)], base) == Number(s, base) * base + d
  {
    assert (s + [Digit(d)])[..|s|] == s;
  }

  lemma {:induction false} DigitsParse(v: nat, base: nat)
    requires IsBase(base)
    ensures Parse(Digits(v, base), base) == Some(v)
    ensures Digits(v, base)[0] == 48 ==> v == 0
  {
    hide Number;
    if v < base {
      OneDigit(Digit(v), base);
    } else {
      var q, d := v / base, v % base;
      Split(v, base);
      DigitsParse(q, base);
      AddDigit(Digits(q, base), d, base);
    }
  }

  /** The other direction: a numeral without a leading zero is the one that is printed for its value. */
  lemma {:induction false} ParseDigits(s: seq<byte>, base: nat)
    requires IsBase(base) && IsNumeral(s, base) && (|s| > 1 ==> s[0] != 48)
    ensures Digits(Number(s, base), base) == s
    ensures |s| > 1 ==> Number(s, base) >= base
    ensures s[0] != 48 ==> Number(s, base) > 0
  {
    hide Number;
    var n := |s| - 1;
    var d := Value(s[n]).value;
    assert Digit(d) == s[n];
    if n == 0 {
      OneDigit(s[0], base);
      assert s == [s[0]];
    } else {
      ParseDigits(s[..n], base);
      AddDigit(s[..n], d, base);
      assert s == s[..n] + [s[n]];
      DigitsOf(Number(s[..n], base), d, base);
    }
  }

  lemma DigitsOf(q: nat, d: nat, base: nat)
    requires IsBase(base) && q > 0 && d < base
    ensures q * base + d >= base && Digits(q * base + d, base) == Digits(q, base) + [Digit(d)]
  {
    QuotientAndRest(q, base, d);
    Arithmetic.MulAtLeast(q, base);
  }

  lemma QuotientAndRest(q: nat, base: nat, d: nat)
    requires d < base
    ensures (q * base + d) / base == q && (q * base + d) % base == d
  {
    Arithmetic.QuotientUnique(q * base + d, base, q, d);
  }

  function Power(base: nat, n: nat): nat {
    if n == 0 then 1 else base * Power(base, n - 1)
  }

  /** `n` digits suffice below `base` to the power `n`. */
  lemma {:induction false} DigitsLength(v: nat, base: nat, n: nat)
    requires IsBase(base) && n > 0 && v < Power(base, n)
    ensures |Digits(v, base)| <= n
  {
    if v >= base {
      assert Power(base, n) == base * Power(base, n - 1);
      assert n > 1;
      BelowPower(v, base, Power(base, n - 1));
      DigitsLength(v / base, base, n - 1);
    }
  }

  lemma BelowPower(v: nat, base: nat, p: nat)
    requires base > 0 && v < base * p
    ensures v / base < p
  {
    assert v == v / base * base + v % base;
    if v / base >= p {
      Arithmetic.MulAtMost(p, v / base, base);
    }
  }

  lemma Power64()
    ensures Power(10, 20) >= TWO64 && Power(16, 16) == TWO64
  {
    assert Power(10, 5) == 100_000;
    assert Power(10, 10) == 100_000 * Power(10, 5);
    assert Power(10, 15) == 100_000 * Power(10, 10);
    assert Power(10, 20) == 100_000 * Power(10, 15);
    assert Power(16, 4) == 0x1_0000;
    assert Power(16, 8) == 0x1_0000 * Power(16, 4);
    assert Power(16, 12) == 0x1_0000 * Power(16, 8);
    assert Power(16, 16) == 0x1_0000 * Power(16, 12);
  }

  lemma DigitIsChar(d: nat)
    requires d < 16
    ensures Digit(d) as int == "0123456789abcdef"[d] as int
  {
  }

  /** The digit `k` places from the right is the character of that digit of the value. */
  lemma {:induction false} DigitAt(v: nat, base: nat, k: nat)
    requires IsBase(base) && k < |Digits(v, base)|
    ensures Power(base, k) > 0 && v / Power(base, k) % base < 16
    ensures var s := Digits(v, base);
      s[|s| - 1 - k] as int == "0123456789abcdef"[v / Power(base, k) % base] as int
    decreases k
  {
    hide Digit;
    PowerPositive(base, k);
    if k == 0 {
      LastDigit(v, base);
      DigitIsChar(v % base);
    } else {
      DigitAt(v / base, base, k - 1);
      PowerPositive(base, k - 1);
      Arithmetic.QuotientOfQuotient(v, base, Power(base, k - 1));
      hide Power;
      assert Digits(v, base) == Digits(v / base, base) + [Digit(v % base)];
    }
  }

  lemma LastDigit(v: nat, base: nat)
    requires IsBase(base)
    ensures var s := Digits(v, base); s[|s| - 1] == Digit(v % base)
    ensures Power(base, 0) == 1
  {
    hide Digit;
    if base == 10 {
      assert Digits(v, 10) == if v < 10 then [Digit(v % 10)] else Digits(v / 10, 10) + [Digit(v % 10)];
    } else {
      assert Digits(v, 16) == if v < 16 then [Digit(v % 16)] else Digits(v / 16, 16) + [Digit(v % 16)];
    }
  }

  lemma {:induction false} PowerPositive(base: nat, n: nat)
    requires base > 0
    ensures Power(base, n) > 0
  {
    if n > 0 {
      PowerPositive(base, n - 1);
    }
  }

  // ---------------------------------------------------------------- printing on the terminal

  /** The terminal shows `text` after what it showed before. */
  ghost predicate Showed(t: Vga, before: Page, text: seq<byte>)
    reads t, t.term
  {
    t.Valid() && IsPage(before) && t.page == PutAll(before, text)
  }

  lemma ShowMore(before: Page, text: seq<byte>, c: byte)
    requires IsPage(before)
    ensures PutAll(before, text + [c]) == Put(PutAll(before, text), c)
  {
    PutAllAppend(before, text, [c]);
    var p := PutAll(before, text);
    assert PutAll(Put(p, c), []) == Put(p, c);
    assert PutAll(p, [c]) == Put(p, c);
  }

  /** One more character. */
  method KprintC(t: Vga, c: byte, ghost before: Page, ghost text: seq<byte>)
    requires Showed(t, before, text)
    modifies t, t.term
    ensures Showed(t, before, text + [c])
  {
    ShowMore(before, text, c);
    t.TermPutchar(c);
  }

  method KprintS(t: Vga, str: seq<byte>, ghost before: Page, ghost text: seq<byte>)
    requires Showed(t, before, text)
    modifies t, t.term
    ensures Showed(t, before, text + str)
  {
    assert text + str[..0] == text;
    for i := 0 to |str|
      invariant Showed(t, before, text + str[..i])
    {
      KprintC(t, str[i], before, text + str[..i]);
      assert text + str[..i] + [str[i]] == text + str[..i + 1];
    }
    assert str[..|str|] == str;
  }

  /** The characters of stored digits, from position `from` on. */
  function StoredDigits(digits: seq<nat>, from: nat): (s: seq<byte>)
    requires from <= |digits| && forall i :: from <= i < |digits| ==> digits[i] < 16
    ensures |s| == |digits| - from
    decreases |digits| - from
  {
    if from == |digits| then [] else [Digit(digits[from])] + StoredDigits(digits, from + 1)
  }

  /** Storing below `from` changes nothing above. */
  lemma {:induction false} StoredAbove(digits: seq<nat>, at: nat, d: nat, from: nat)
    requires at < from <= |digits| && forall i :: from <= i < |digits| ==> digits[i] < 16
    ensures StoredDigits(digits[at := d], from) == StoredDigits(digits, from)
    decreases |digits| - from
  {
    if from < |digits| {
      StoredAbove(digits, at, d, from + 1);
    }
  }

  /** How far the digits of `n` have been taken apart: `value` is left, the digits from `place + 1` on are
      stored; or the leading digit is printed and the rest is stored from `place` on. */
  ghost predicate Taken(n: nat, base: nat, value: nat, digits: seq<nat>, place: nat, printed: seq<byte>)
    requires IsBase(base)
  {
    && place < |digits|
    && (forall i :: place < i < |digits| ==> digits[i] < base)
    && (value < base ==> digits[place] < base)
    && value < Power(base, place + 1)
    && (value >= base ==> printed == [] && Digits(n, base) == Digits(value, base) + StoredDigits(digits, place + 1))
    && (value < base ==> printed == [Digit(value)] && Digits(n, base) == printed + StoredDigits(digits, place))
  }

  lemma TakeStart(n: word, base: nat, digits: seq<nat>)
    requires IsBase(base) && n >= base && |digits| == (if base == 10 then 20 else 16)
    ensures Taken(n, base, n, digits, |digits| - 1, [])
  {
    Power64();
  }

  /** Storing the last digit of `value` at `place`; when one digit is left it is printed. */
  lemma TakeDigit(n: nat, base: nat, value: nat, digits: seq<nat>, place: nat)
    requires IsBase(base) && Taken(n, base, value, digits, place, []) && value >= base
    ensures place > 0
    ensures var q, ds := value / base, digits[place := value % base];
      value % base < base && Taken(n, base, q, ds, if q < base then place else place - 1,
            if q < base then [Digit(q)] else [])
  {
    hide Number;
    var q, d := value / base, value % base;
    var ds := digits[place := d];
    Split(value, base);
    assert Power(base, place + 1) == base * Power(base, place);
    BelowPower(value, base, Power(base, place));
    assert Power(base, 0) == 1;
    assert place > 0;
    StoredAbove(digits, place, d, place + 1);
    assert StoredDigits(ds, place) == [Digit(d)] + StoredDigits(digits, place + 1);
    assert Digits(value, base) == Digits(q, base) + [Digit(d)];
    assert Digits(n, base) == Digits(q, base) + StoredDigits(ds, place);
  }

  lemma TakeEnd(n: nat, base: nat, value: nat, digits: seq<nat>, place: nat, printed: seq<byte>)
    requires IsBase(base) && Taken(n, base, value, digits, place, printed) && value < base
    ensures forall i :: place <= i < |digits| ==> digits[i] < base
    ensures Digits(n, base) == printed + StoredDigits(digits, place)
  {
  }

  method KprintD(t: Vga, n: word, ghost before: Page, ghost text: seq<byte>)
    requires Showed(t, before, text)
    modifies t, t.term
    ensures Showed(t, before, text + Digits(n, 10))
  {
    hide Taken, Showed;
    var value: nat := n;
    if value < 10 {
      KprintC(t, value + 48, before, text);
      return;
    }
    var digits := new nat[20];
    var place: nat := 19;
    ghost var printed: seq<byte> := [];
    TakeStart(n, 10, digits[..]);
    assert text + printed == text;
    while value / 10 != 0
      invariant place < 20 && Taken(n, 10, value, digits[..], place, printed)
      invariant value >= 10 ==> printed == []
      invariant Showed(t, before, text + printed)
    {
      TakeDigit(n, 10, value, digits[..], place);
      digits[place] := value % 10;
      value := value / 10;
      if value < 10 {
        KprintC(t, value + 48, before, text + printed);
        printed := [Digit(value)];
        assert text + [] + [Digit(value)] == text + printed;
        place := place + 1;
      }
      place := place - 1;
    }
    TakeEnd(n, 10, value, digits[..], place, printed);
    while place < 20
      invariant place <= 20 && forall i :: place <= i < 20 ==> digits[i] < 10
      invariant Digits(n, 10) == printed + StoredDigits(digits[..], place)
      invariant Showed(t, before, text + printed)
    {
      KprintC(t, digits[place] + 48, before, text + printed);
      assert text + printed + [Digit(digits[place])] == text + (printed + [Digit(digits[place])]);
      printed := printed + [Digit(digits[place])];
      place := place + 1;
    }
    assert printed + [] == printed;
  }

  /** What kprint_x prints: the guard at kprint.c:60 takes 16 for a single digit. */
  function HexShown(n: nat): (s: seq<byte>) {
    if n == 16 then [103] else Digits(n, 16)
  }

  method KprintX(t: Vga, n: word, ghost before: Page, ghost text: seq<byte>)
    requires Showed(t, before, text)
    modifies t, t.term
    ensures Showed(t, before, text + HexShown(n))
  {
    hide Taken, Showed;
    var value: nat := n;
    if value < 17 {
      if value < 10 {
        KprintC(t, value + 48, before, text);
      } else {
        KprintC(t, value + 97 - 10, before, text);
      }
      return;
    }
    var digits := new nat[16];
    var place: nat := 15;
    ghost var printed: seq<byte> := [];
    TakeStart(n, 16, digits[..]);
    assert text + printed == text;
    while value / 16 != 0
      invariant place < 16 && Taken(n, 16, value, digits[..], place, printed)
      invariant value >= 16 ==> printed == []
      invariant Showed(t, before, text + printed)
    {
      TakeDigit(n, 16, value, digits[..], place);
      digits[place] := value % 16;
      value := value / 16;
      if value < 16 {
        if value < 10 {
          KprintC(t, value + 48, before, text + printed);
        } else {
          KprintC(t, value + 97 - 10, before, text + printed);
        }
        printed := [Digit(value)];
        assert text + [] + [Digit(value)] == text + printed;
        place := place + 1;
      }
      place := place - 1;
    }
    TakeEnd(n, 16, value, digits[..], place, printed);
    while place < 16
      invariant place <= 16 && forall i :: place <= i < 16 ==> digits[i] < 16
      invariant Digits(n, 16) == printed + StoredDigits(digits[..], place)
      invariant Showed(t, before, text + printed)
    {
      if digits[place] < 10 {
        KprintC(t, digits[place] + 48, before, text + printed);
      } else {
        KprintC(t, digits[place] + 97 - 10, before, text + printed);
      }
      assert text + printed + [Digit(digits[place])] == text + (printed + [Digit(digits[place])]);
      printed := printed + [Digit(digits[place])];
      place := place + 1;
    }
    assert printed + [] == printed;
  }

  method KprintP(t: Vga, n: word, ghost before: Page, ghost text: seq<byte>)
    requires Showed(t, before, text)
    modifies t, t.term
    ensures Showed(t, before, text + ([48, 120] + HexShown(n)))
  {
    KprintC(t, 48, before, text);
    KprintC(t, 120, before, text + [48]);
    KprintX(t, n, before, text + [48] + [120]);
    assert text + [48] + [120] + HexShown(n) == text + ([48, 120] + HexShown(n));
  }

  /** Decimal printing can be read back: the numeral parses to the value, fits the 20 digit slots with the
      leading digit, and has no leading zero. */
  lemma DecimalRoundTrip(n: word)
    ensures Parse(Digits(n, 10), 10) == Some(n)
    ensures |Digits(n, 10)| <= 20 && (Digits(n, 10)[0] == 48 ==> n == 0)
  {
    Power64();
    DigitsParse(n, 10);
    DigitsLength(n, 10, 20);
  }

  /** Hexadecimal printing can be read back for every value but 16, which prints as the letter g. */
  lemma HexRoundTripIff(n: word)
    ensures Parse(HexShown(n), 16) == Some(n) <==> n != 16
    ensures n == 16 ==> Parse(HexShown(n), 16) == None
    ensures |HexShown(n)| <= 16 && (HexShown(n)[0] == 48 ==> n == 0)
  {
    Power64();
    DigitsParse(n, 16);
    DigitsLength(n, 16, 16);
    if n == 16 {
      assert Value(HexShown(n)[0]) == None;
    }
  }
}
