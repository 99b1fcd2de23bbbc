/** One 80x25 text screen: printing, scrolling and backspace (src/lib.c). A screen is a 4 KB
    page of character and attribute bytes together with its cursor. */
module Screens {
  import opened Layout

  const NUM_COLS := 80
  const NUM_ROWS := 25
  const ROW_BYTES := 160
  const SCREEN_BYTES := 4000
  const CR: byte := 0x0D

  type Page = p: seq<byte> | |p| == KB4 witness seq(KB4, _ => 0)

  type Row = r: seq<byte> | |r| == ROW_BYTES witness seq(ROW_BYTES, _ => 0)

  datatype Screen = Screen(page: Page, x: nat, y: nat) {
    predicate Ok() { x < NUM_COLS && y < NUM_ROWS }
  }

  /** Offset of the character byte of a cell; its attribute byte follows. */
  function CellOffset(x: nat, y: nat): nat { 2 * (NUM_COLS * y + x) }

  function BlankRow(attrib: byte): Row { seq(ROW_BYTES, i => if i % 2 == 0 then SPACE else attrib) }

  function RowAt(p: Page, y: nat): Row
    requires y < NUM_ROWS
  {
    p[ROW_BYTES * y..ROW_BYTES * y + ROW_BYTES]
  }

  function ShiftDisplay(p: Page, attrib: byte): Page {
    p[ROW_BYTES..SCREEN_BYTES] + BlankRow(attrib) + p[SCREEN_BYTES..]
  }

  function WriteCell(p: Page, x: nat, y: nat, attrib: byte, c: byte): Page
    requires x < NUM_COLS && y < NUM_ROWS
  {
    p[CellOffset(x, y) := c][CellOffset(x, y) + 1 := attrib]
  }

  function NewLine(s: Screen, attrib: byte): Screen
    requires s.Ok()
  {
    if s.y == NUM_ROWS - 1 then Screen(ShiftDisplay(s.page, attrib), 0, s.y)
    else Screen(s.page, 0, s.y + 1)
  }

  predicate IsNewLine(c: byte) { c == NL || c == CR }

  /** What `putc` and `putc_buffer` do to the screen they address. */
  function Putc(s: Screen, attrib: byte, c: byte): (r: Screen)
    requires s.Ok()
    ensures r.Ok()
  {
    if IsNewLine(c) then NewLine(s, attrib)
    else
      var written := s.(page := WriteCell(s.page, s.x, s.y, attrib, c));
      if s.x + 1 >= NUM_COLS then NewLine(written, attrib) else written.(x := s.x + 1)
  }

  function PutAll(s: Screen, attrib: byte, text: seq<byte>): (r: Screen)
    requires s.Ok()
    ensures r.Ok()
    decreases |text|
  {
    if text == [] then s else PutAll(Putc(s, attrib, text[0]), attrib, text[1..])
  }

  function CursorBack(s: Screen): (r: Screen)
    requires s.Ok() && (s.x, s.y) != (0, 0)
    ensures r.Ok()
  {
    if s.x != 0 then s.(x := s.x - 1) else s.(x := NUM_COLS - 1, y := s.y - 1)
  }

  function DoBackspace(s: Screen, attrib: byte): (r: Screen)
    requires s.Ok()
    ensures r.Ok()
  {
    if (s.x, s.y) == (0, 0) then s else CursorBack(Putc(CursorBack(s), attrib, SPACE))
  }

  function ClearPage(p: Page, attrib: byte): Page {
    seq(SCREEN_BYTES, i => if i % 2 == 0 then SPACE else attrib) + p[SCREEN_BYTES..]
  }

  function Clear(s: Screen, attrib: byte): Screen { Screen(ClearPage(s.page, attrib), 0, 0) }

  /** Rubbing out a character just printed: the cursor stands on the cell the character took
      and the cell is blank. Nothing else differs from the screen before, or from its scrolled
      image when the character filled the very last cell. */
  lemma BackspaceUndoesPutc(s: Screen, attrib: byte, c: byte)
    requires s.Ok() && !IsNewLine(c)
    ensures
      var after := DoBackspace(Putc(s, attrib, c), attrib);
      if (s.x, s.y) == (NUM_COLS - 1, NUM_ROWS - 1) then
        after == Screen(WriteCell(ShiftDisplay(s.page, attrib), s.x, s.y - 1, attrib, SPACE), s.x, s.y - 1)
      else
        after == Screen(WriteCell(s.page, s.x, s.y, attrib, SPACE), s.x, s.y)
  {
  }
}
