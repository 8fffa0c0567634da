/** The scrolling text terminal of kernel/boot.c, on the bytes of the VGA buffer, against a terminal whose
    page grows without end. */
module Terminal {
  import opened Memory

  const WIDTH := 80
  const HEIGHT := 25
  const CELLS := 2000
  const BLANK: byte := 32
  const WHITEONBLACK: byte := 15 // low nibble white foreground, high nibble black background

  const BACKSPACE: byte := 8
  const NEWLINE: byte := 10
  const RETURN: byte := 13

  // ---------------------------------------------------------------- the unbounded terminal

  type Line = s: seq<byte> | |s| == WIDTH witness seq(WIDTH, _ => 32)

  /** All lines so far, the cursor on the last one; column WIDTH is a wrap that has not happened yet. */
  datatype Page = Page(lines: seq<Line>, col: nat)

  function BlankLine(): (l: Line)
    ensures forall i :: 0 <= i < WIDTH ==> l[i] == BLANK
  {
    seq(WIDTH, _ => BLANK)
  }

  function FreshPage(): Page {
    Page([BlankLine()], 0)
  }

  predicate IsPage(p: Page) {
    p.lines != [] && p.col <= WIDTH
  }

  function NewLine(p: Page): Page {
    Page(p.lines + [BlankLine()], 0)
  }

  function SetChar(p: Page, col: nat, c: byte): Page
    requires p.lines != [] && col < WIDTH
  {
    var last := |p.lines| - 1;
    p.(lines := p.lines[last := p.lines[last][col := c]])
  }

  function Put(p: Page, c: byte): (r: Page)
    requires IsPage(p)
    ensures IsPage(r)
  {
    if c == RETURN then p.(col := 0)
    else if c == BACKSPACE then
      if p.col > 0 then SetChar(p, p.col - 1, BLANK).(col := p.col - 1) else p
    else if c == NEWLINE then NewLine(p)
    else
      var q := if p.col == WIDTH then NewLine(p) else p;
      SetChar(q, q.col, c).(col := q.col + 1)
  }

  function PutAll(p: Page, text: seq<byte>): (r: Page)
    requires IsPage(p)
    ensures IsPage(r)
    decreases |text|
  {
    if text == [] then p else PutAll(Put(p, text[0]), text[1..])
  }

  // ---------------------------------------------------------------- what the screen shows of it

  /** The number of the page line that screen row 0 shows. */
  function Top(p: Page): nat {
    if |p.lines| <= HEIGHT then 0 else |p.lines| - HEIGHT
  }

  /** Screen row `r`: a line of the page, blank below its end. */
  function Row(p: Page, r: nat): Line {
    if Top(p) + r < |p.lines| then p.lines[Top(p) + r] else BlankLine()
  }

  /** The VGA bytes that show page `p`: character and attribute of each cell. */
  function Screen(p: Page): (s: seq<byte>)
    ensures |s| == 2 * CELLS
  {
    seq(2 * CELLS, i requires 0 <= i < 2 * CELLS =>
      if i % 2 == 1 then WHITEONBLACK else Row(p, i / 2 / WIDTH)[i / 2 % WIDTH])
  }

  function CursorRow(p: Page): nat
    requires IsPage(p)
  {
    |p.lines| - 1 - Top(p)
  }

  /** Byte `i` of a blank cell. */
  function BlankByte(i: nat): byte {
    if i % 2 == 1 then WHITEONBLACK else BLANK
  }

  lemma FreshScreen()
    ensures forall i :: 0 <= i < 2 * CELLS ==> Screen(FreshPage())[i] == BlankByte(i)
    ensures CursorRow(FreshPage()) == 0
  {
  }

  /** A new line on a page that does not fill the screen shows nothing new. */
  lemma NewLineShows(p: Page)
    requires IsPage(p) && |p.lines| < HEIGHT
    ensures Screen(NewLine(p)) == Screen(p) && CursorRow(NewLine(p)) == CursorRow(p) + 1
  {
    assert forall r :: 0 <= r < HEIGHT ==> Row(NewLine(p), r) == Row(p, r);
  }

  /** On a full screen it moves every row up by one and blanks the last. */
  lemma ScrollShows(p: Page, i: nat)
    requires IsPage(p) && |p.lines| >= HEIGHT && i < 2 * CELLS
    ensures Screen(NewLine(p))[i] == if i < 2 * (CELLS - WIDTH) then Screen(p)[i + 2 * WIDTH] else BlankByte(i)
    ensures CursorRow(NewLine(p)) == CursorRow(p) == HEIGHT - 1
  {
    var q, r := NewLine(p), i / 2 / WIDTH;
    if i < 2 * (CELLS - WIDTH) {
      assert (i + 2 * WIDTH) / 2 / WIDTH == r + 1 && (i + 2 * WIDTH) / 2 % WIDTH == i / 2 % WIDTH;
      assert Row(q, r) == Row(p, r + 1);
    } else {
      assert r == HEIGHT - 1;
    }
  }

  /** Setting a character of the cursor line sets that cell. */
  lemma SetCharShows(p: Page, col: nat, c: byte)
    requires IsPage(p) && col < WIDTH
    ensures var at := 2 * (WIDTH * CursorRow(p) + col);
      && at < 2 * CELLS
      && Screen(SetChar(p, col, c)) == Screen(p)[at := c] && Screen(p)[at + 1] == WHITEONBLACK
  {
    var q, at := SetChar(p, col, c), 2 * (WIDTH * CursorRow(p) + col);
    forall i | 0 <= i < 2 * CELLS ensures Screen(q)[i] == Screen(p)[at := c][i] {
      var r := i / 2 / WIDTH;
      if r == CursorRow(p) {
        assert Row(q, r) == Row(p, r)[col := c];
        assert i / 2 == WIDTH * r + i / 2 % WIDTH;
      } else {
        assert Row(q, r) == Row(p, r);
      }
    }
  }

  class Vga {
    const term: array<byte>
    var termRow: nat
    var termCol: nat
    ghost var page: Page

    ghost predicate Valid()
      reads this, term
    {
      && term.Length == 2 * CELLS && IsPage(page)
      && termCol == page.col && termRow == CursorRow(page)
      && term[..] == Screen(page)
    }

    constructor (buffer: array<byte>)
      requires buffer.Length == 2 * CELLS
      ensures term == buffer
    {
      term := buffer;
      termRow, termCol := 0, 0;
    }

    method PutCell(index: nat, c: byte)
      requires index < CELLS && term.Length == 2 * CELLS
      modifies term
      ensures term[..] == old(term[..])[2 * index := c][2 * index + 1 := WHITEONBLACK]
    {
      term[2 * index] := c;
      term[2 * index + 1] := WHITEONBLACK;
    }

    /** The cleared screen shows the empty page. */
    method TermClear()
      requires term.Length == 2 * CELLS
      modifies this, term
      ensures Valid() && page == FreshPage()
    {
      for i := 0 to CELLS
        invariant forall j :: 0 <= j < 2 * i ==> term[j] == BlankByte(j)
      {
        PutCell(i, BLANK);
      }
      termCol := 0;
      termRow := 0;
      page := FreshPage();
      FreshScreen();
    }

    /** Blank screen row `row`. */
    method ClearRow(row: nat)
      requires row == HEIGHT - 1 && term.Length == 2 * CELLS
      modifies term
      ensures forall j :: 0 <= j < 2 * CELLS ==>
                term[j] == if j < 2 * (CELLS - WIDTH) then old(term[j]) else BlankByte(j)
    {
      for i := 0 to WIDTH
        invariant forall j :: 0 <= j < 2 * CELLS ==>
          term[j] == if 2 * (CELLS - WIDTH) <= j < 2 * (CELLS - WIDTH) + 2 * i then BlankByte(j) else old(term[j])
      {
        PutCell(i + row * WIDTH, BLANK);
      }
    }

    /** Move all rows up by one: the page `page` has just got a line that does not fit. */
    method Scroll(ghost p: Page)
      requires term.Length == 2 * CELLS && IsPage(p) && |p.lines| >= HEIGHT && termRow == HEIGHT
      requires term[..] == Screen(p) && page == NewLine(p) && termCol == 0
      modifies this`termRow, term
      ensures Valid()
    {
      hide Screen;
      ghost var before := term[..];
      MemCpy(term, 0, 2 * WIDTH, 2 * WIDTH * (HEIGHT - 1));
      CopyIsMoveIff(before, 0, 2 * WIDTH, 2 * WIDTH * (HEIGHT - 1));
      termRow := termRow - 1;
      ClearRow(termRow);
      forall i | 0 <= i < 2 * CELLS ensures term[i] == Screen(page)[i] {
        ScrollShows(p, i);
      }
      ScrollShows(p, 0);
    }

    /** Show character `c` at the cursor of the unbounded page. */
    method TermPutchar(c: byte)
      requires Valid()
      modifies this, term
      ensures Valid() && page == Put(old(page), c)
    {
      hide Screen, Row;
      ghost var p := page;
      if c == RETURN {
        termCol := 0;
        page := p.(col := 0);
        SameLinesShow(p, page);
        return;
      } else if c == BACKSPACE {
        if termCol > 0 {
          SetCharShows(p, termCol - 1, BLANK);
          termCol := termCol - 1;
          term[2 * (termRow * WIDTH + termCol)] := BLANK;
          page := SetChar(p, termCol, BLANK).(col := termCol);
          SameLinesShow(SetChar(p, termCol, BLANK), page);
        }
        return;
      }
      if c == NEWLINE {
        termCol := 0;
        termRow := termRow + 1;
        page := NewLine(p);
      }
      if termCol == WIDTH {
        termCol := 0;
        termRow := termRow + 1;
        page := NewLine(p);
      }
      if termRow == HEIGHT {
        Scroll(p);
      } else if page != p {
        NewLineShows(p);
      }
      if c != NEWLINE {
        ghost var q := page;
        SetCharShows(q, termCol, c);
        var index := termCol + termRow * WIDTH;
        PutCell(index, c);
        termCol := termCol + 1;
        page := SetChar(q, q.col, c).(col := q.col + 1);
        SameLinesShow(SetChar(q, q.col, c), page);
      }
    }
  }

  /** The screen depends on the lines only. */
  lemma SameLinesShow(p: Page, q: Page)
    requires p.lines == q.lines && IsPage(p) && IsPage(q)
    ensures Screen(p) == Screen(q) && CursorRow(p) == CursorRow(q)
  {
    assert forall r :: 0 <= r < HEIGHT ==> Row(p, r) == Row(q, r);
  }

  /** On every page the cursor is on the screen, at most one column past the edge, and the rows below it
      are blank. */
  lemma ScreenBounds(p: Page, i: nat)
    requires IsPage(p) && i < 2 * CELLS
    ensures CursorRow(p) < 25 && p.col <= 80
    ensures i >= 160 * (CursorRow(p) + 1) ==> Screen(p)[i] == if i % 2 == 0 then 32 else 15
  {
    if i >= 2 * WIDTH * (CursorRow(p) + 1) {
      assert i / 2 / WIDTH > CursorRow(p);
    }
  }

  lemma {:induction false} PutAllAppend(p: Page, a: seq<byte>, b: seq<byte>)
    requires IsPage(p)
    ensures PutAll(p, a + b) == PutAll(PutAll(p, a), b)
    decreases |a|
  {
    if a == [] {
      assert a + b == b;
    } else {
      assert (a + b)[1..] == a[1..] + b;
      PutAllAppend(Put(p, a[0]), a[1..], b);
    }
  }

  predicate IsPlain(text: seq<byte>) {
    forall i :: 0 <= i < |text| ==> text[i] != RETURN && text[i] != BACKSPACE && text[i] != NEWLINE
  }

  /** Plain text fills the lines from left to right, 80 characters each, nothing lost or out of place,
      and the screen shows its last 25 lines. */
  lemma {:induction false} PlainTextFillsLines(text: seq<byte>)
    requires IsPlain(text) && text != []
    ensures var p := PutAll(FreshPage(), text); var n := |text|;
      && |p.lines| == (n - 1) / 80 + 1 && p.col == (n - 1) % 80 + 1
      && forall k :: 0 <= k < n ==> p.lines[k / 80][k % 80] == text[k]
    decreases |text|
  {
    var n := |text| - 1;
    var before, c := PutAll(FreshPage(), text[..n]), text[n];
    assert text == text[..n] + [c];
    PutAllAppend(FreshPage(), text[..n], [c]);
    hide PutAll, Padded;
    if n == 0 {
      assert before == FreshPage() by { PutNothing(); }
      OneShown(before, c);
    } else {
      PlainTextFillsLines(text[..n]);
      if before.col == 80 { OneWraps(before, c); } else { OneShown(before, c); }
      assert forall k :: 0 <= k < n ==> text[..n][k] == text[k];
      PaddedStart(c);
    }
  }

  lemma PutNothing()
    ensures PutAll(FreshPage(), []) == FreshPage()
  {
  }

  lemma PaddedStart(c: byte)
    ensures Padded([c])[0] == c
  {
  }

  // ---------------------------------------------------------------- control characters

  /** A character that is shown as itself: no newline, return or backspace. */
  predicate IsShown(c: byte) {
    c != 10 && c != 13 && c != 8
  }

  /** A text of one line: at most 80 characters, all shown as themselves. */
  predicate IsLineText(s: seq<byte>) {
    |s| <= 80 && forall i :: 0 <= i < |s| ==> IsShown(s[i])
  }

  /** The text, then blanks up to 80 characters. */
  function Padded(s: seq<byte>): (l: Line)
    requires |s| <= 80
  {
    s + seq(80 - |s|, _ => 32)
  }

  /** The lines with a newline between any two. */
  function Joined(lines: seq<seq<byte>>): seq<byte>
    requires lines != []
  {
    if |lines| == 1 then lines[0]
    else Joined(lines[..|lines| - 1]) + [10] + lines[|lines| - 1]
  }

  function LastLine(lines: seq<Line>): Line
    requires lines != []
  {
    lines[|lines| - 1]
  }

  /** The page with line `l` in place of the last of `lines` and the cursor in column `col`. */
  function WithLast(lines: seq<Line>, l: Line, col: nat): Page
    requires lines != []
  {
    Page(lines[|lines| - 1 := l], col)
  }

  /** Characters that fit on the cursor line replace those from the cursor on. */
  lemma {:induction false} TextOverwrites(p: Page, s: seq<byte>)
    requires IsPage(p) && IsLineText(s) && p.col + |s| <= 80
    ensures PutAll(p, s)
         == WithLast(p.lines, LastLine(p.lines)[..p.col] + s + LastLine(p.lines)[p.col + |s|..], p.col + |s|)
    decreases |s|
  {
    var l := LastLine(p.lines);
    if s == [] {
      assert l[..p.col] + [] + l[p.col..] == l;
    } else {
      var n := |s| - 1;
      var t, c := s[..n], s[n];
      assert s == t + [c];
      PutAllAppend(p, t, [c]);
      TextOverwrites(p, t);
      var q := PutAll(p, t);
      OneShown(q, c);
      var l' := l[..p.col] + t + l[p.col + n..];
      assert l'[p.col + n := c] == l[..p.col] + s + l[p.col + |s|..];
    }
  }

  lemma OneShown(p: Page, c: byte)
    requires IsPage(p) && IsShown(c) && p.col < 80
    ensures PutAll(p, [c]) == WithLast(p.lines, LastLine(p.lines)[p.col := c], p.col + 1)
  {
    PutOne(p, c);
    hide PutAll;
  }

  /** Behind the last column it starts a line of its own. */
  lemma OneWraps(p: Page, c: byte)
    requires IsPage(p) && IsShown(c) && p.col == 80
    ensures PutAll(p, [c]) == Page(p.lines + [Padded([c])], 1)
  {
    PutOne(p, c);
    hide PutAll;
    assert BlankLine()[0 := c] == Padded([c]);
  }

  lemma PutOne(p: Page, c: byte)
    requires IsPage(p)
    ensures PutAll(p, [c]) == Put(p, c)
  {
    hide Put;
    assert [c][1..] == [];
  }

  /** A newline starts a blank line. */
  lemma NewlineStarts(p: Page)
    requires IsPage(p)
    ensures PutAll(p, [10]) == Page(p.lines + [Padded([])], 0)
  {
    PutOne(p, 10);
    assert BlankLine() == Padded([]);
  }

  lemma ReturnStarts(p: Page)
    requires IsPage(p)
    ensures PutAll(p, [13]) == Page(p.lines, 0)
  {
    PutOne(p, 13);
  }

  lemma NothingBefore(l: seq<byte>, s: seq<byte>)
    requires |s| <= |l|
    ensures l[..0] + s + l[0 + |s|..] == s + l[|s|..]
  {
  }

  /** After a return the next characters overwrite the line from its start. */
  lemma ReturnOverwrites(p: Page, s: seq<byte>)
    requires IsPage(p) && IsLineText(s)
    ensures PutAll(p, [13] + s) == WithLast(p.lines, s + LastLine(p.lines)[|s|..], |s|)
  {
    hide PutAll, LastLine, WithLast, Put;
    PutAllAppend(p, [13], s);
    ReturnStarts(p);
    TextOverwrites(Page(p.lines, 0), s);
    NothingBefore(LastLine(p.lines), s);
  }

  /** A backspace blanks the cell before the cursor and goes there; at the start of a line it does nothing. */
  lemma BackspaceBlanks(p: Page)
    requires IsPage(p)
    ensures p.col > 0 ==> PutAll(p, [8]) == WithLast(p.lines, LastLine(p.lines)[p.col - 1 := 32], p.col - 1)
    ensures p.col == 0 ==> PutAll(p, [8]) == p
  {
    PutOne(p, 8);
    hide PutAll;
  }

  /** A character and a backspace leave its cell blank and the cursor where it was. */
  lemma BackspaceErases(p: Page, c: byte)
    requires IsPage(p) && IsShown(c) && p.col < 80
    ensures PutAll(p, [c, 8]) == WithLast(p.lines, LastLine(p.lines)[p.col := 32], p.col)
  {
    hide PutAll;
    assert [c, 8] == [c] + [8];
    PutAllAppend(p, [c], [8]);
    OneShown(p, c);
    BackspaceBlanks(WithLast(p.lines, LastLine(p.lines)[p.col := c], p.col + 1));
    assert LastLine(p.lines)[p.col := c][p.col := 32] == LastLine(p.lines)[p.col := 32];
  }

  /** Lines of text, joined by newlines, become the lines of the page. */
  lemma {:induction false} JoinedLines(lines: seq<seq<byte>>)
    requires lines != [] && forall k :: 0 <= k < |lines| ==> IsLineText(lines[k])
    ensures var p := PutAll(FreshPage(), Joined(lines));
      && |p.lines| == |lines| && p.col == |lines[|lines| - 1]|
      && forall k :: 0 <= k < |lines| ==> IsLineText(lines[k]) && p.lines[k] == Padded(lines[k])
    decreases |lines|
  {
    hide PutAll, Put, Padded, LastLine, WithLast;
    var n := |lines| - 1;
    if n == 0 {
      FreshLine();
      LineAdded(FreshPage(), lines[0]);
      LastSet(FreshPage().lines, Padded(lines[0]), |lines[0]|);
    } else {
      var text, s := Joined(lines[..n]), lines[n];
      PutAllAppend(FreshPage(), text + [10], s);
      PutAllAppend(FreshPage(), text, [10]);
      JoinedLines(lines[..n]);
      var p := PutAll(FreshPage(), text);
      NewlineStarts(p);
      var q := Page(p.lines + [Padded([])], 0);
      LastSet(q.lines, Padded(s), |s|);
      LineAdded(q, s);
      assert forall k :: 0 <= k < n ==> lines[..n][k] == lines[k];
    }
  }

  /** Text on a blank line. */
  lemma LineAdded(p: Page, s: seq<byte>)
    requires IsPage(p) && IsLineText(s) && LastLine(p.lines) == Padded([]) && p.col == 0
    ensures PutAll(p, s) == WithLast(p.lines, Padded(s), |s|)
  {
    TextOverwrites(p, s);
    NothingBefore(LastLine(p.lines), s);
    hide WithLast, PutAll;
    assert s + Padded([])[|s|..] == Padded(s);
  }

  lemma FreshLine()
    ensures IsPage(FreshPage()) && FreshPage().col == 0 && |FreshPage().lines| == 1
    ensures LastLine(FreshPage().lines) == Padded([])
  {
  }

  lemma LastSet(lines: seq<Line>, l: Line, col: nat)
    requires lines != []
    ensures LastLine(lines) == lines[|lines| - 1]
    ensures var p := WithLast(lines, l, col);
      && p.col == col && |p.lines| == |lines| && p.lines[|lines| - 1] == l
      && forall k :: 0 <= k < |lines| - 1 ==> p.lines[k] == lines[k]
  {
  }

  /** What the screen then shows: of the text's lines the last 25, each from column 0 on and blank behind its
      end, white on black, with the cursor behind the last character. */
  lemma JoinedLinesShow(lines: seq<seq<byte>>, r: nat, c: nat)
    requires lines != [] && forall k :: 0 <= k < |lines| ==> IsLineText(lines[k])
    requires r < 25 && c < 80
    ensures var p, n := PutAll(FreshPage(), Joined(lines)), |lines|;
      var k := if n <= 25 then r else n - 25 + r;
      && Screen(p)[160 * r + 2 * c] == (if k < n && c < |lines[k]| then lines[k][c] else 32)
      && Screen(p)[160 * r + 2 * c + 1] == 15
      && CursorRow(p) == (if n <= 25 then n - 1 else 24) && p.col == |lines[n - 1]|
  {
    hide Screen, PutAll, Joined, Row, CursorRow, Padded, Put;
    JoinedLines(lines);
    var p := PutAll(FreshPage(), Joined(lines));
    ScreenAt(p, r, c);
    RowOfLines(p, lines, r, c);
  }

  lemma RowOfLines(p: Page, lines: seq<seq<byte>>, r: nat, c: nat)
    requires lines != [] && IsPage(p) && |p.lines| == |lines| && r < 25 && c < 80
    requires forall k :: 0 <= k < |lines| ==> IsLineText(lines[k]) && p.lines[k] == Padded(lines[k])
    ensures var n := |lines|; var k := if n <= 25 then r else n - 25 + r;
      && Row(p, r)[c] == (if k < n && c < |lines[k]| then lines[k][c] else 32)
      && CursorRow(p) == if n <= 25 then n - 1 else 24
  {
  }

  lemma ScreenAt(p: Page, r: nat, c: nat)
    requires r < 25 && c < 80
    ensures Screen(p)[160 * r + 2 * c] == Row(p, r)[c] && Screen(p)[160 * r + 2 * c + 1] == 15
  {
    hide Row;
    var at := 160 * r + 2 * c;
    assert at / 2 / 80 == r && at / 2 % 80 == c && at % 2 == 0 && (at + 1) % 2 == 1;
  }
}
