/** Physical memory as bytes, and the same memory as page frames of 512 little-endian 64-bit words.
    The page-table theory is stated on the frames; the kernel stores bytes. */
module Words {
  import opened Arithmetic
  import opened Memory

  const PAGE := 4096
  const TWO64: nat := 0x1_0000_0000_0000_0000

  type word = x: int | 0 <= x < TWO64

  /** One page frame. */
  type Frame = s: seq<word> | |s| == 512 witness seq(512, _ => 0)

  function ZeroFrame(): (f: Frame)
    ensures forall i :: 0 <= i < 512 ==> f[i] == 0
  {
    seq(512, _ => 0)
  }

  function Pow256(n: nat): (p: nat)
    ensures p > 0
  {
    if n == 0 then 1 else 256 * Pow256(n - 1)
  }

  lemma Pow256Of8()
    ensures Pow256(8) == TWO64
  {
    assert Pow256(4) == 0x1_0000_0000;
  }

  /** The number that a little-endian byte string denotes. */
  function FromBytes(s: seq<byte>): (v: nat)
    ensures v < Pow256(|s|)
  {
    if s == [] then 0 else s[0] + 256 * FromBytes(s[1..])
  }

  /** The `n` low bytes of `v`, lowest first. */
  function ToBytes(v: nat, n: nat): (s: seq<byte>)
    ensures |s| == n
  {
    if n == 0 then [] else [v % 256] + ToBytes(v / 256, n - 1)
  }

  lemma {:induction false} BytesRoundTrip(v: nat, n: nat)
    requires v < Pow256(n)
    ensures FromBytes(ToBytes(v, n)) == v
  {
    if n > 0 {
      BytesRoundTrip(v / 256, n - 1);
      assert ToBytes(v, n)[1..] == ToBytes(v / 256, n - 1);
    }
  }

  lemma {:induction false} NumberRoundTrip(s: seq<byte>)
    ensures ToBytes(FromBytes(s), |s|) == s
  {
    if s != [] {
      NumberRoundTrip(s[1..]);
      assert s == [s[0]] + s[1..];
    }
  }

  /** A byte string is the number of its front plus that of its back, shifted. */
  lemma {:induction false} FromBytesConcat(s: seq<byte>, t: seq<byte>)
    ensures FromBytes(s + t) == FromBytes(s) + Pow256(|s|) * FromBytes(t)
  {
    if s == [] {
      assert s + t == t;
    } else {
      assert (s + t)[1..] == s[1..] + t;
      FromBytesConcat(s[1..], t);
      MulAssociates(256, Pow256(|s| - 1), FromBytes(t));
      assert 256 * (Pow256(|s| - 1) * FromBytes(t)) == Pow256(|s|) * FromBytes(t);
    }
  }

  /** The 64-bit load and store of the machine, at any byte address. */
  function Load(m: seq<byte>, p: nat): word
    requires p + 8 <= |m|
  {
    Pow256Of8();
    FromBytes(m[p..p + 8])
  }

  function Store(m: seq<byte>, p: nat, v: word): (r: seq<byte>)
    requires p + 8 <= |m|
    ensures |r| == |m|
  {
    m[..p] + ToBytes(v, 8) + m[p + 8..]
  }

  /** The lowest byte comes first. */
  lemma LoadLittleEndian(m: seq<byte>, p: nat)
    requires p + 8 <= |m|
    ensures Load(m, p)
         == m[p] as int + 0x100 * m[p + 1] as int + 0x1_0000 * m[p + 2] as int + 0x100_0000 * m[p + 3] as int
            + 0x1_0000_0000 * m[p + 4] as int + 0x100_0000_0000 * m[p + 5] as int
            + 0x1_0000_0000_0000 * m[p + 6] as int + 0x100_0000_0000_0000 * m[p + 7] as int
  {
    var s := m[p..p + 8];
    assert FromBytes(s[8..]) == 0;
    FirstByte(s[7..], s[8..]);
    FirstByte(s[6..], s[7..]);
    FirstByte(s[5..], s[6..]);
    FirstByte(s[4..], s[5..]);
    FirstByte(s[3..], s[4..]);
    FirstByte(s[2..], s[3..]);
    FirstByte(s[1..], s[2..]);
    FirstByte(s, s[1..]);
  }

  lemma FirstByte(s: seq<byte>, rest: seq<byte>)
    requires s != [] && s[1..] == rest
    ensures FromBytes(s) == s[0] + 256 * FromBytes(rest)
  {
  }

  lemma LoadStored(m: seq<byte>, p: nat, v: word)
    requires p + 8 <= |m|
    ensures Load(Store(m, p, v), p) == v
  {
    Pow256Of8();
    BytesRoundTrip(v, 8);
    assert Store(m, p, v)[p..p + 8] == ToBytes(v, 8);
  }

  lemma LoadElsewhere(m: seq<byte>, p: nat, v: word, q: nat)
    requires p + 8 <= |m| && q + 8 <= |m| && (p + 8 <= q || q + 8 <= p)
    ensures Load(Store(m, p, v), q) == Load(m, q)
  {
    assert Store(m, p, v)[q..q + 8] == m[q..q + 8];
  }

  /** The word in slot `i` of page frame `f`. */
  function Slot(f: nat, i: nat): nat {
    PAGE * f + 8 * i
  }

  function FrameAt(m: seq<byte>, f: nat): (r: Frame)
    requires f < |m| / PAGE
  {
    seq(512, i requires 0 <= i < 512 => Load(m, Slot(f, i)))
  }

  /** Memory read as page frames. */
  function View(m: seq<byte>): (w: seq<Frame>)
    ensures |w| == |m| / PAGE
    ensures forall f :: 0 <= f < |w| ==> w[f] == FrameAt(m, f)
  {
    seq(|m| / PAGE, f requires 0 <= f < |m| / PAGE => FrameAt(m, f))
  }

  function PageBytes(m: seq<byte>, f: nat): (r: seq<byte>)
    requires f < |m| / PAGE
    ensures |r| == PAGE
  {
    m[PAGE * f..PAGE * f + PAGE]
  }

  lemma SlotInPage(m: seq<byte>, f: nat, i: nat)
    requires f < |m| / PAGE && i < 512
    ensures m[Slot(f, i)..Slot(f, i) + 8] == PageBytes(m, f)[8 * i..8 * i + 8]
  {
  }

  lemma SameBytesSameFrame(m: seq<byte>, m': seq<byte>, f: nat)
    requires |m| == |m'| && f < |m| / PAGE && PageBytes(m, f) == PageBytes(m', f)
    ensures FrameAt(m, f) == FrameAt(m', f)
  {
    forall i | 0 <= i < 512
      ensures Load(m, Slot(f, i)) == Load(m', Slot(f, i))
    {
      SlotInPage(m, f, i);
      SlotInPage(m', f, i);
    }
  }

  /** A store into a slot changes that word of the view and no other. */
  lemma ViewOfStore(m: seq<byte>, f: nat, i: nat, v: word)
    requires f < |m| / PAGE && i < 512
    ensures View(Store(m, Slot(f, i), v)) == View(m)[f := View(m)[f][i := v]]
  {
    var p := Slot(f, i);
    var m' := Store(m, p, v);
    var w, w' := View(m), View(m');
    forall g, j | 0 <= g < |w| && 0 <= j < 512
      ensures w'[g][j] == w[f := w[f][i := v]][g][j]
    {
      assert w'[g][j] == Load(m', Slot(g, j)) && w[g][j] == Load(m, Slot(g, j));
      if g == f && j == i {
        LoadStored(m, p, v);
      } else {
        SlotsApart(f, i, g, j);
        LoadElsewhere(m, p, v, Slot(g, j));
      }
    }
    forall g | 0 <= g < |w| ensures w'[g] == w[f := w[f][i := v]][g] {
    }
  }

  lemma SlotsApart(f: nat, i: nat, g: nat, j: nat)
    requires i < 512 && j < 512 && (f != g || i != j)
    ensures Slot(f, i) + 8 <= Slot(g, j) || Slot(g, j) + 8 <= Slot(f, i)
  {
    if f < g {
      assert PAGE * f + PAGE <= PAGE * g;
    } else if g < f {
      assert PAGE * g + PAGE <= PAGE * f;
    }
  }

  /** Two memories that differ only in the bytes of page `f` have the same other frames. */
  predicate SameOutside(m: seq<byte>, m': seq<byte>, f: nat)
  {
    && |m'| == |m|
    && f < |m| / PAGE
    && forall x :: 0 <= x < |m| && !(PAGE * f <= x < PAGE * f + PAGE) ==> m'[x] == m[x]
  }

  lemma OtherFramesSame(m: seq<byte>, m': seq<byte>, f: nat)
    requires SameOutside(m, m', f)
    ensures forall g :: 0 <= g < |m| / PAGE && g != f ==> PageBytes(m', g) == PageBytes(m, g)
    ensures View(m') == View(m)[f := View(m')[f]]
  {
    forall g | 0 <= g < |m| / PAGE && g != f
      ensures PageBytes(m', g) == PageBytes(m, g) && View(m')[g] == View(m)[g]
    {
      assert PageBytes(m', g) == PageBytes(m, g);
      SameBytesSameFrame(m, m', g);
    }
  }

  /** memset of a whole page makes it the zero frame. */
  lemma ViewOfZeroed(m: seq<byte>, f: nat)
    requires f < |m| / PAGE
    ensures View(Fill(m, PAGE * f, 0, PAGE)) == View(m)[f := ZeroFrame()]
    ensures PageBytes(Fill(m, PAGE * f, 0, PAGE), f) == seq(PAGE, _ => 0)
    ensures SameOutside(m, Fill(m, PAGE * f, 0, PAGE), f)
  {
    var m' := Fill(m, PAGE * f, 0, PAGE);
    OtherFramesSame(m, m', f);
    forall i | 0 <= i < 512 ensures View(m')[f][i] == 0 {
      assert m'[Slot(f, i)..Slot(f, i) + 8] == seq(8, _ => 0);
      ZeroBytes(8);
    }
    assert View(m')[f] == ZeroFrame();
  }

  lemma {:induction false} ZeroBytes(n: nat)
    ensures FromBytes(seq(n, _ => 0)) == 0
  {
    if n > 0 {
      assert seq(n, _ => 0)[1..] == seq(n - 1, _ => 0);
      ZeroBytes(n - 1);
    }
  }

  /** Memory with the given page frames. */
  function Flatten(w: seq<Frame>): (m: seq<byte>)
    ensures |m| == PAGE * |w|
  {
    seq(PAGE * |w|, x requires 0 <= x < PAGE * |w| => ToBytes(w[x / PAGE][x % PAGE / 8], 8)[x % 8])
  }

  /** Every sequence of page frames is the view of some memory. */
  lemma ViewOfFlatten(w: seq<Frame>)
    ensures View(Flatten(w)) == w
  {
    var m := Flatten(w);
    forall f | 0 <= f < |w| ensures View(m)[f] == w[f] {
      forall i | 0 <= i < 512 ensures View(m)[f][i] == w[f][i] {
        SlotOfFlatten(w, f, i);
      }
    }
  }

  lemma SlotOfFlatten(w: seq<Frame>, f: nat, i: nat)
    requires f < |w| && i < 512
    ensures Slot(f, i) + 8 <= |Flatten(w)| && Load(Flatten(w), Slot(f, i)) == w[f][i]
  {
    var m := Flatten(w);
    assert PAGE * f + PAGE <= PAGE * |w|;
    forall b | 0 <= b < 8 ensures m[Slot(f, i) + b] == ToBytes(w[f][i], 8)[b] {
      var x := Slot(f, i) + b;
      QuotientUnique(x, PAGE, f, 8 * i + b);
      QuotientUnique(8 * i + b, 8, i, b);
      QuotientUnique(x, 8, 512 * f + i, b);
    }
    assert m[Slot(f, i)..Slot(f, i) + 8] == ToBytes(w[f][i], 8);
    Pow256Of8();
    BytesRoundTrip(w[f][i], 8);
  }
}
