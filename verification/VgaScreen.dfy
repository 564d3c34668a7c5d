/** vga.c: a 25 x 80 screen as a window on a terminal of unbounded height. */
module VgaScreen {

  import opened MachineWords

  const WIDTH := 80
  const HEIGHT := 25
  const CELLS := 2000

  // VGA_COLOR_MASK: a cell without character, light grey on black.
  const BLANK: u16 := 0x700

  // ---- The terminal ------------------------------------------------------------

  /** Sheet of paper without bottom; cells never written are blank. */
  datatype Paper = Paper(cells: map<(int, int), u16>, x: int, y: int)

  function Cell(p: Paper, row: int, col: int): u16 {
    if (row, col) in p.cells then p.cells[(row, col)] else BLANK
  }

  /** First row that the screen shows. */
  function Top(p: Paper): int {
    if p.y < HEIGHT then 0 else p.y - HEIGHT + 1
  }

  /** The last 25 rows that the cursor has reached. */
  ghost function Window(p: Paper): (w: seq<u16>)
    ensures |w| == CELLS
  {
    seq(CELLS, i => Cell(p, Top(p) + i / 80, i % 80))
  }

  ghost predicate Sane(p: Paper) {
    && 0 <= p.x < WIDTH && 0 <= p.y
    && forall k :: k in p.cells ==> 0 <= k.0 <= p.y && 0 <= k.1 < WIDTH
  }

  function NewPaper(): Paper {
    Paper(map[], 0, 0)
  }

  /** `c | VGA_COLOR_MASK` for a signed char: codes from 128 up are negative and set
      every bit of the colour byte. */
  function Glyph(ch: char): u16
    requires ch < 256 as char
  {
    if ch < 128 as char then 0x700 + ch as int else 0xFF00 + ch as int
  }

  /** A character typed on the terminal.  A carriage return goes down a row and keeps
      the column; a full row wraps. */
  function Type(p: Paper, ch: char): Paper
    requires ch < 256 as char
  {
    if ch == '\n' then p.(x := 0, y := p.y + 1)
    else if ch == '\r' then p.(y := p.y + 1)
    else
      var q := p.(cells := p.cells[(p.y, p.x) := Glyph(ch)]);
      if p.x + 1 == WIDTH then q.(x := 0, y := p.y + 1) else q.(x := p.x + 1)
  }

  /** Backspace works within a row. */
  function Erase(p: Paper): Paper {
    if p.x == 0 then p else Paper(p.cells[(p.y, p.x - 1) := BLANK], p.x - 1, p.y)
  }

  function TypeAll(p: Paper, s: string): Paper
    requires forall i :: 0 <= i < |s| ==> s[i] < 256 as char
    decreases |s|
  {
    if s == [] then p else TypeAll(Type(p, s[0]), s[1..])
  }

  lemma TypeSane(p: Paper, ch: char)
    requires Sane(p) && ch < 256 as char
    ensures Sane(Type(p, ch)) && Sane(Erase(p))
    ensures p.y <= Type(p, ch).y <= p.y + 1
  {
  }

  lemma Bounds(p: Paper)
    requires Sane(p)
    ensures 0 <= p.x < 80 && 0 <= p.y
  {
  }

  predicate Plain(s: string) {
    forall i :: 0 <= i < |s| ==> s[i] < 256 as char && s[i] != '\n' && s[i] != '\r'
  }

  /** Plain text fills cell after cell, left to right and row by row, from wherever
      the cursor stands, and leaves all other cells alone. */
  lemma {:induction false} TextRunsOn(p: Paper, s: string, pos: int)
    requires Sane(p) && Plain(s) && 0 <= pos
    ensures var q, start := TypeAll(p, s), 80 * p.y + p.x;
            && Sane(q)
            && 80 * q.y + q.x == start + |s|
            && Cell(q, pos / 80, pos % 80) ==
                 if start <= pos < start + |s| then Glyph(s[pos - start]) else Cell(p, pos / 80, pos % 80)
    decreases |s|
  {
    hide Type, Cell, Glyph;
    if s != [] {
      TypeSane(p, s[0]);
      PlainStep(p, s[0], pos);
      TextRunsOn(Type(p, s[0]), s[1..], pos);
    }
  }

  lemma PlainStep(p: Paper, ch: char, pos: int)
    requires Sane(p) && ch < 256 as char && ch != '\n' && ch != '\r' && 0 <= pos
    ensures var q := Type(p, ch);
            && 80 * q.y + q.x == 80 * p.y + p.x + 1
            && Cell(q, pos / 80, pos % 80) == if pos == 80 * p.y + p.x then Glyph(ch) else Cell(p, pos / 80, pos % 80)
  {
    CellIndex(p.x, p.y, pos);
    hide Glyph;
  }

  /** Erasing the character just typed, unless it wrapped, restores a blank there and
      the cursor. */
  lemma EraseUndoesType(p: Paper, ch: char)
    requires Sane(p) && ch < 256 as char && ch != '\n' && ch != '\r' && p.x + 1 < WIDTH
    ensures Erase(Type(p, ch)) == p.(cells := p.cells[(p.y, p.x) := BLANK])
  {
    assert p.cells[(p.y, p.x) := Glyph(ch)][(p.y, p.x) := BLANK] == p.cells[(p.y, p.x) := BLANK];
  }

  /** What one character does to the cursor: a newline starts the next row, a carriage
      return goes down and keeps the column, anything else advances and wraps. */
  lemma TypeMoves(p: Paper, ch: char)
    requires Sane(p) && ch < 256 as char
    ensures ch == '\n' ==> Type(p, ch) == Paper(p.cells, 0, p.y + 1)
    ensures ch == '\r' ==> Type(p, ch) == Paper(p.cells, p.x, p.y + 1)
    ensures ch != '\n' && ch != '\r' ==> 80 * Type(p, ch).y + Type(p, ch).x == 80 * p.y + p.x + 1
  {
  }

  lemma {:induction false} TypeAppend(p: Paper, s: string, t: string)
    requires forall i :: 0 <= i < |s| ==> s[i] < 256 as char
    requires forall i :: 0 <= i < |t| ==> t[i] < 256 as char
    ensures forall i :: 0 <= i < |s + t| ==> (s + t)[i] < 256 as char
    ensures TypeAll(p, s + t) == TypeAll(TypeAll(p, s), t)
    decreases |s|
  {
    if s == [] {
      assert s + t == t;
    } else {
      assert (s + t)[1..] == s[1..] + t;
      TypeAppend(Type(p, s[0]), s[1..], t);
    }
    hide Type;
  }

  lemma PlainBytes(s: string)
    requires Plain(s)
    ensures forall i :: 0 <= i < |s| ==> s[i] < 256 as char
  {
  }

  /** Text, a newline, more text: the second text starts at the left edge of the row
      below the one in which the first text ended, and the cursor is behind it. */
  lemma NewlineBreaks(p: Paper, s: string, t: string, pos: int)
    requires Sane(p) && Plain(s) && Plain(t) && 0 <= pos
    ensures forall i :: 0 <= i < |s + "\n" + t| ==> (s + "\n" + t)[i] < 256 as char
    ensures var start := 80 * p.y + p.x;
            var line := 80 * ((start + |s|) / 80 + 1);
            var q := TypeAll(p, s + "\n" + t);
            && 80 * q.y + q.x == line + |t|
            && Cell(q, pos / 80, pos % 80) ==
                 if line <= pos < line + |t| then Glyph(t[pos - line])
                 else if start <= pos < start + |s| then Glyph(s[pos - start])
                 else Cell(p, pos / 80, pos % 80)
  {
    hide *;
    PlainBytes(s);
    PlainBytes(t);
    TypeAppend(p, s + "\n", t);
    TypeAppend(p, s, "\n");
    TextRunsOn(p, s, pos);
    var q := TypeAll(p, s);
    OneChar(q, '\n');
    TypeSane(q, '\n');
    TypeMoves(q, '\n');
    TextRunsOn(Type(q, '\n'), t, pos);
    Bounds(q);
    SameCells(q, Type(q, '\n'), pos / 80, pos % 80);
    CellIndex(q.x, q.y, pos);
  }

  /** With a carriage return instead, the second text starts one row down in the column
      that the first text had reached. */
  lemma ReturnGoesDown(p: Paper, s: string, t: string, pos: int)
    requires Sane(p) && Plain(s) && Plain(t) && 0 <= pos
    ensures forall i :: 0 <= i < |s + "\r" + t| ==> (s + "\r" + t)[i] < 256 as char
    ensures var start := 80 * p.y + p.x;
            var line := start + |s| + 80;
            var q := TypeAll(p, s + "\r" + t);
            && 80 * q.y + q.x == line + |t|
            && Cell(q, pos / 80, pos % 80) ==
                 if line <= pos < line + |t| then Glyph(t[pos - line])
                 else if start <= pos < start + |s| then Glyph(s[pos - start])
                 else Cell(p, pos / 80, pos % 80)
  {
    hide *;
    PlainBytes(s);
    PlainBytes(t);
    TypeAppend(p, s + "\r", t);
    TypeAppend(p, s, "\r");
    TextRunsOn(p, s, pos);
    var q := TypeAll(p, s);
    OneChar(q, '\r');
    TypeSane(q, '\r');
    TypeMoves(q, '\r');
    TextRunsOn(Type(q, '\r'), t, pos);
    Bounds(q);
    SameCells(q, Type(q, '\r'), pos / 80, pos % 80);
  }

  lemma SameCells(p: Paper, q: Paper, row: int, col: int)
    requires q.cells == p.cells
    ensures Cell(q, row, col) == Cell(p, row, col)
  {
  }

  lemma OneChar(p: Paper, ch: char)
    requires ch < 256 as char
    ensures TypeAll(p, [ch]) == Type(p, ch)
  {
    assert [ch][1..] == [];
    hide Type;
  }

  /** Backspace: nothing in column 0, else the cursor goes back one cell and blanks it. */
  lemma EraseMoves(p: Paper, row: int, col: int)
    requires Sane(p)
    ensures p.x == 0 ==> Erase(p) == p
    ensures p.x > 0 ==>
              && Erase(p).x == p.x - 1 && Erase(p).y == p.y
              && Cell(Erase(p), row, col) == if row == p.y && col == p.x - 1 then 0x700 else Cell(p, row, col)
  {
  }

  /** A 7-bit character is shown as its own code, light grey on black; the high half of
      the character set sets every colour bit. */
  lemma GlyphColours(ch: char)
    requires ch < 256 as char
    ensures ch < 128 as char ==> Glyph(ch) % 0x100 == ch as int && Glyph(ch) / 0x100 == 0x07
    ensures ch >= 128 as char ==> Glyph(ch) % 0x100 == ch as int && Glyph(ch) / 0x100 == 0xFF
  {
  }

  /** The screen shows row r of the terminal in its row r while the cursor is in the
      first 25 rows, and the last 25 rows from then on; a cell never written is blank. */
  lemma ScreenShows(p: Paper, row: int, col: int)
    requires 0 <= p.y && 0 <= col < 80
    ensures var top := if p.y < 25 then 0 else p.y - 24;
            top <= row < top + 25 ==>
              Window(p)[80 * (row - top) + col] == if (row, col) in p.cells then p.cells[(row, col)] else 0x700
  {
    var top := if p.y < 25 then 0 else p.y - 24;
    if top <= row { CellIndex(col, row - top, 0); }
  }

  // A character displayed or a backspace.
  datatype Key = Char(ch: char) | Backspace

  predicate Bytes(keys: seq<Key>) {
    forall i :: 0 <= i < |keys| && keys[i].Char? ==> keys[i].ch < 256 as char
  }

  function Press(p: Paper, k: Key): Paper
    requires k.Char? ==> k.ch < 256 as char
  {
    if k.Char? then Type(p, k.ch) else Erase(p)
  }

  /** The terminal after a run of keys. */
  function PressAll(p: Paper, keys: seq<Key>): Paper
    requires Bytes(keys)
    decreases |keys|
  {
    if keys == [] then p else PressAll(Press(p, keys[0]), keys[1..])
  }

  /** The keys of a text, and a number of backspaces. */
  function Keys(s: string): seq<Key> {
    seq(|s|, i requires 0 <= i < |s| => Char(s[i]))
  }

  function Backspaces(n: nat): seq<Key> {
    seq(n, _ => Backspace)
  }

  lemma {:induction false} PressAppend(p: Paper, first: seq<Key>, rest: seq<Key>)
    requires Bytes(first) && Bytes(rest)
    ensures Bytes(first + rest)
    ensures PressAll(p, first + rest) == PressAll(PressAll(p, first), rest)
    decreases |first|
  {
    if first == [] {
      assert first + rest == rest;
    } else {
      assert (first + rest)[1..] == first[1..] + rest;
      PressAppend(Press(p, first[0]), first[1..], rest);
    }
    hide Press;
  }

  lemma {:induction false} KeysType(p: Paper, s: string)
    requires forall i :: 0 <= i < |s| ==> s[i] < 256 as char
    ensures Bytes(Keys(s)) && PressAll(p, Keys(s)) == TypeAll(p, s)
    decreases |s|
  {
    if s != [] {
      assert Keys(s)[1..] == Keys(s[1..]);
      KeysType(Type(p, s[0]), s[1..]);
    }
    hide Type;
  }

  /** n backspaces within a row go back n cells and blank them; no other cell changes. */
  lemma {:induction false} BackspacesBlank(p: Paper, n: nat, row: int, col: int)
    requires Sane(p) && n <= p.x
    ensures Bytes(Backspaces(n))
    ensures var q := PressAll(p, Backspaces(n));
            && q.x == p.x - n && q.y == p.y
            && Cell(q, row, col) == if row == p.y && p.x - n <= col < p.x then 0x700 else Cell(p, row, col)
    decreases n
  {
    if n > 0 {
      assert Backspaces(n)[1..] == Backspaces(n - 1);
      EraseMoves(p, row, col);
      TypeSane(p, ' ');
      BackspacesBlank(Erase(p), n - 1, row, col);
    }
    hide Cell, Erase;
  }

  /** Text typed within a row and backspaced again: the cursor is where it was, and the
      cells of the text are blank. */
  lemma BackspacesUndo(p: Paper, s: string, row: int, col: int)
    requires Sane(p) && Plain(s) && p.x + |s| < 80 && 0 <= row && 0 <= col < 80
    ensures Bytes(Keys(s) + Backspaces(|s|))
    ensures var q := PressAll(p, Keys(s) + Backspaces(|s|));
            && q.x == p.x && q.y == p.y
            && Cell(q, row, col) == if row == p.y && p.x <= col < p.x + |s| then 0x700 else Cell(p, row, col)
  {
    var t := TypeAll(p, s);
    PlainBytes(s);
    KeysType(p, s);
    TextRunsOn(p, s, 80 * row + col);
    Bounds(t);
    CellIndex(col, row, 0);
    BackspacesBlank(t, |s|, row, col);
    PressAppend(p, Keys(s), Backspaces(|s|));
    hide Cell, TypeAll, PressAll, Keys, Backspaces, Plain, Glyph;
  }

  /** Rows above the cursor are never written again: what has scrolled out of the
      window no run of keys changes. */
  lemma {:induction false} PastRowsStay(p: Paper, keys: seq<Key>, row: int, col: int)
    requires Sane(p) && Bytes(keys) && row < p.y
    ensures Sane(PressAll(p, keys)) && p.y <= PressAll(p, keys).y
    ensures Cell(PressAll(p, keys), row, col) == Cell(p, row, col)
    decreases |keys|
  {
    if keys != [] {
      if keys[0].Char? { TypeSane(p, keys[0].ch); } else { TypeSane(p, ' '); }
      PastRowsStay(Press(p, keys[0]), keys[1..], row, col);
    }
  }

  // ---- Window arithmetic -------------------------------------------------------

  lemma CellIndex(x: int, y: int, i: int)
    requires 0 <= x < 80 && 0 <= y
    ensures (80 * y + x) / 80 == y && (80 * y + x) % 80 == x
    ensures i == 80 * y + x <==> i / 80 == y && i % 80 == x
  {
  }

  /** Writing one cell of a visible row changes one cell of the screen. */
  lemma WriteShows(p: Paper, row: int, col: int, v: u16)
    requires Sane(p) && Top(p) <= row <= p.y && 0 <= col < WIDTH
    ensures 0 <= 80 * (row - Top(p)) + col < CELLS
    ensures Window(p.(cells := p.cells[(row, col) := v])) == Window(p)[80 * (row - Top(p)) + col := v]
  {
    var q := p.(cells := p.cells[(row, col) := v]);
    var at := 80 * (row - Top(p)) + col;
    forall i | 0 <= i < CELLS ensures Window(q)[i] == Window(p)[at := v][i] {
      CellIndex(col, row - Top(p), i);
    }
  }

  /** Going below the last visible row shifts the screen up by one blank row. */
  lemma ScrollShows(p: Paper, x: int)
    requires Sane(p) && p.y >= HEIGHT - 1
    ensures Window(p.(x := x, y := p.y + 1)) == Window(p)[80..] + seq(80, _ => BLANK)
  {
    var q := p.(x := x, y := p.y + 1);
    forall i | 0 <= i < CELLS ensures Window(q)[i] == (Window(p)[80..] + seq(80, _ => BLANK))[i] {
      if i < CELLS - 80 {
        assert (i + 80) / 80 == i / 80 + 1 && (i + 80) % 80 == i % 80;
      } else {
        assert i / 80 == 24;
      }
    }
  }

  /** Moving down within the screen shows nothing new. */
  lemma DownShows(p: Paper, x: int)
    requires Sane(p) && p.y < HEIGHT - 1
    ensures Window(p.(x := x, y := p.y + 1)) == Window(p)
  {
  }

  predicate Control(ch: char) {
    ch == '\n' || ch == '\r'
  }

  /** The paper once a printable character is on it and before the cursor moves. */
  function Written(p: Paper, ch: char): Paper
    requires ch < 256 as char
  {
    if Control(ch) then p else p.(cells := p.cells[(p.y, p.x) := Glyph(ch)])
  }

  /** What typing does to the screen: one cell changes, and a cursor leaving the last
      row takes the window down by one. */
  lemma TypeShows(p: Paper, ch: char)
    requires Sane(p) && ch < 256 as char
    ensures 0 <= 80 * (p.y - Top(p)) + p.x < CELLS
    ensures Window(Written(p, ch)) ==
              if Control(ch) then Window(p) else Window(p)[80 * (p.y - Top(p)) + p.x := Glyph(ch)]
    ensures var q := Type(p, ch);
            if q.y == p.y || p.y < HEIGHT - 1 then Top(q) == Top(p) && Window(q) == Window(Written(p, ch))
            else Top(q) == Top(p) + 1 && Window(q) == Window(Written(p, ch))[80..] + seq(80, _ => BLANK)
  {
    var w, q := Written(p, ch), Type(p, ch);
    if !Control(ch) { WriteShows(p, p.y, p.x, Glyph(ch)); }
    assert Sane(w);
    if q.y == p.y {
      MoveShows(w, q.x);
    } else if p.y < HEIGHT - 1 {
      DownShows(w, q.x);
    } else {
      ScrollShows(w, q.x);
    }
    hide Window;
  }

  lemma MoveShows(p: Paper, x: int)
    ensures Window(p.(x := x)) == Window(p)
  {
  }

  // ---- The driver --------------------------------------------------------------

  class Screen {
    const vgaBuff: array<u16>
    var xPos: u16
    var yPos: u16
    var cursor: u16
    ghost var paper: Paper

    ghost predicate Valid()
      reads this, vgaBuff
    {
      && vgaBuff.Length == CELLS
      && Sane(paper)
      && xPos == paper.x && yPos == paper.y - Top(paper)
      && cursor == xPos + 80 * yPos
      && vgaBuff[..] == Window(paper)
    }

    /** The state at boot followed by VGA_clear. */
    constructor (vgaBuff: array<u16>)
      requires vgaBuff.Length == CELLS
      modifies vgaBuff
      ensures Valid() && paper == NewPaper() && this.vgaBuff == vgaBuff
    {
      this.vgaBuff := vgaBuff;
      xPos, yPos, cursor := 0, 0, 0;
      paper := NewPaper();
      new;
      ClearFrom(0);
      assert vgaBuff[..] == Window(paper);
    }

    /** VGA_clear for `from` 0, clear_bottom_row for the last row. */
    method ClearFrom(from: nat)
      requires vgaBuff.Length == CELLS && from <= CELLS
      modifies vgaBuff
      ensures forall i :: from <= i < CELLS ==> vgaBuff[i] == BLANK
      ensures vgaBuff[..from] == old(vgaBuff[..from])
    {
      var offset := from;
      while offset < 2000
        invariant from <= offset <= CELLS
        invariant forall i :: from <= i < offset ==> vgaBuff[i] == BLANK
        invariant vgaBuff[..from] == old(vgaBuff[..from])
      {
        vgaBuff[offset] := BLANK;
        offset := offset + 1;
      }
    }

    /** VGA_display_char */
    method DisplayChar(ch: char)
      requires Valid() && ch < 256 as char
      modifies this, vgaBuff
      ensures Valid() && paper == Type(old(paper), ch)
    {
      hide Window, Sane;
      ghost var p := paper;
      TypeSane(p, ch);
      Bounds(p);
      Bounds(Type(p, ch));
      TypeShows(p, ch);
      assert xPos < 80 && yPos < 25 && cursor < 2000;
      if ch == '\n' {
        yPos := yPos + 1;
        xPos := 0;
      } else if ch == '\r' {
        yPos := yPos + 1;
      } else {
        vgaBuff[cursor] := Glyph(ch);
        xPos := xPos + 1;
      }
      assert vgaBuff[..] == Window(Written(p, ch));
      assert xPos <= 80 && yPos <= 25;
      if xPos == 80 {
        yPos := yPos + 1;
        xPos := 0;
      }
      if yPos == 25 {
        Scroll();
        yPos := yPos - 1;
      }
      SetCursor();
      paper := Type(p, ch);
      assert xPos < 80 && yPos < 25 && cursor < 2000;
    }

    /** VGA_display_str for a string of fewer than 2^16 characters: the index is 16 bits wide. */
    method DisplayStr(s: string)
      requires Valid() && |s| < 0x1_0000
      requires forall i :: 0 <= i < |s| ==> s[i] < 256 as char && s[i] != '\0'
      modifies this, vgaBuff
      ensures Valid() && paper == TypeAll(old(paper), s)
    {
      ghost var p := paper;
      var index := 0;
      while index < |s|
        invariant 0 <= index <= |s| && Valid()
        invariant TypeAll(paper, s[index..]) == TypeAll(p, s)
      {
        assert s[index..][1..] == s[index + 1..];
        DisplayChar(s[index]);
        index := index + 1;
      }
    }

    /** VGA_backspace_char */
    method BackspaceChar()
      requires Valid()
      modifies this, vgaBuff
      ensures Valid() && paper == Erase(old(paper))
    {
      if xPos != 0 {
        ghost var p := paper;
        WriteShows(p, p.y, p.x - 1, BLANK);
        xPos := xPos - 1;
        SetCursor();
        vgaBuff[cursor] := BLANK;
        paper := Erase(p);
        assert Window(paper) == Window(p.(cells := paper.cells));
      }
    }

    /** Any run of characters and backspaces: no assert fails, and the screen shows the
        last 25 rows of the terminal after the same run, with the cursor in place. */
    method PressKeys(keys: seq<Key>)
      requires Valid() && Bytes(keys)
      modifies this, vgaBuff
      ensures Valid() && paper == PressAll(old(paper), keys)
      ensures vgaBuff[..] == Window(PressAll(old(paper), keys))
      ensures xPos < WIDTH && yPos < HEIGHT && cursor == xPos + 80 * yPos
      ensures xPos == PressAll(old(paper), keys).x
              && yPos == PressAll(old(paper), keys).y - Top(PressAll(old(paper), keys))
    {
      ghost var p := paper;
      var i := 0;
      while i < |keys|
        invariant 0 <= i <= |keys| && Valid()
        invariant PressAll(paper, keys[i..]) == PressAll(p, keys)
      {
        assert keys[i..][1..] == keys[i + 1..];
        match keys[i] {
          case Char(ch) => DisplayChar(ch);
          case Backspace => BackspaceChar();
        }
        i := i + 1;
      }
    }

    /** set_cursor */
    method SetCursor()
      requires cursor < CELLS && xPos < WIDTH && yPos < HEIGHT
      modifies `cursor
      ensures cursor == xPos + 80 * yPos
    {
      cursor := xPos + yPos * 80;
    }

    /** scroll */
    method Scroll()
      requires vgaBuff.Length == CELLS
      modifies vgaBuff
      ensures vgaBuff[..] == old(vgaBuff[..])[80..] + seq(80, _ => BLANK)
    {
      ghost var before := vgaBuff[..];
      var temp := new u16[2000];
      var i := 0;
      while i < 2000
        invariant 0 <= i <= 2000 && vgaBuff[..] == before
        invariant forall j :: 0 <= j < i ==> temp[j] == before[j]
      {
        temp[i] := vgaBuff[i];
        i := i + 1;
      }
      i := 0;
      while i < 1920
        invariant 0 <= i <= 1920
        invariant forall j :: 0 <= j < i ==> vgaBuff[j] == before[j + 80]
        invariant forall j :: 0 <= j < 2000 ==> temp[j] == before[j]
      {
        vgaBuff[i] := temp[i + 80];
        i := i + 1;
      }
      assert vgaBuff[..1920] == before[80..];
      ClearFrom(1920);
      assert vgaBuff[..] == vgaBuff[..1920] + vgaBuff[1920..];
      assert vgaBuff[1920..] == seq(80, _ => BLANK);
    }
  }
}
