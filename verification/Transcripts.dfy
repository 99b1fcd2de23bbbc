/** The unbounded transcript a screen is a window on: rows are only ever appended, and the
    screen is the last 25 of them. */
module Transcripts {
  import opened Layout
  import opened Screens

  /** `row` counts from the first row ever shown. */
  datatype Transcript = Transcript(rows: seq<Row>, x: nat, row: nat) {
    /** Number of rows that have left the top of the screen. */
    function Scrolled(): int { |rows| - NUM_ROWS }

    predicate Ok() { Scrolled() >= 0 && x < NUM_COLS && Scrolled() <= row < |rows| }
  }

  function SetCell(r: Row, x: nat, attrib: byte, c: byte): Row
    requires x < NUM_COLS
  {
    r[2 * x := c][2 * x + 1 := attrib]
  }

  function NextRow(d: Transcript, attrib: byte): Transcript
    requires d.Ok()
  {
    Transcript(if d.row + 1 == |d.rows| then d.rows + [BlankRow(attrib)] else d.rows, 0, d.row + 1)
  }

  /** Typing on an endless sheet: a new line ends the row, and so does its 80th character. */
  function Type(d: Transcript, attrib: byte, c: byte): (r: Transcript)
    requires d.Ok()
    ensures r.Ok()
  {
    if IsNewLine(c) then NextRow(d, attrib)
    else
      var written := d.(rows := d.rows[d.row := SetCell(d.rows[d.row], d.x, attrib, c)]);
      if d.x + 1 == NUM_COLS then NextRow(written, attrib) else written.(x := d.x + 1)
  }

  function TypeAll(d: Transcript, attrib: byte, text: seq<byte>): (r: Transcript)
    requires d.Ok()
    ensures r.Ok()
    decreases |text|
  {
    if text == [] then d else TypeAll(Type(d, attrib, text[0]), attrib, text[1..])
  }

  /** `s` is the window on the last 25 rows of `d`; the cursor is the transcript position less
      the rows scrolled away. */
  ghost predicate Shows(s: Screen, d: Transcript) {
    && s.Ok() && d.Ok()
    && s.x == d.x && s.y == d.row - d.Scrolled()
    && forall y :: 0 <= y < NUM_ROWS ==> RowAt(s.page, y) == d.rows[d.Scrolled() + y]
  }

  lemma SliceOfSlice(s: seq<byte>, lo: nat, hi: nat, from: nat, to: nat)
    requires lo <= hi <= |s| && from <= to <= hi - lo
    ensures s[lo..hi][from..to] == s[lo + from..lo + to]
  {
    var a, b := s[lo..hi][from..to], s[lo + from..lo + to];
    assert |a| == |b|;
    forall j | 0 <= j < |a|
      ensures a[j] == b[j]
    {
      assert s[lo..hi][from + j] == s[lo + from + j];
    }
  }

  lemma ShiftRows(p: Page, attrib: byte, y: nat)
    requires y < NUM_ROWS
    ensures RowAt(ShiftDisplay(p, attrib), y)
         == if y + 1 < NUM_ROWS then RowAt(p, y + 1) else BlankRow(attrib)
  {
    var q := ShiftDisplay(p, attrib);
    var kept := p[ROW_BYTES..SCREEN_BYTES];
    assert q[..|kept|] == kept && q[|kept|..SCREEN_BYTES] == BlankRow(attrib);
    if y + 1 < NUM_ROWS {
      var from := ROW_BYTES * y;
      assert RowAt(q, y) == q[..|kept|][from..from + ROW_BYTES];
      SliceOfSlice(p, ROW_BYTES, SCREEN_BYTES, from, from + ROW_BYTES);
    }
  }

  lemma WriteRows(p: Page, x: nat, y: nat, attrib: byte, c: byte, z: nat)
    requires x < NUM_COLS && y < NUM_ROWS && z < NUM_ROWS
    ensures RowAt(WriteCell(p, x, y, attrib, c), z)
         == if z == y then SetCell(RowAt(p, y), x, attrib, c) else RowAt(p, z)
  {
  }

  lemma NewLineShows(s: Screen, d: Transcript, attrib: byte)
    requires Shows(s, d)
    ensures Shows(NewLine(s, attrib), NextRow(d, attrib))
  {
    var s', d' := NewLine(s, attrib), NextRow(d, attrib);
    forall y | 0 <= y < NUM_ROWS
      ensures RowAt(s'.page, y) == d'.rows[d'.Scrolled() + y]
    {
      ShiftRows(s.page, attrib, y);
    }
  }

  lemma PutcShows(s: Screen, d: Transcript, attrib: byte, c: byte)
    requires Shows(s, d)
    ensures Shows(Putc(s, attrib, c), Type(d, attrib, c))
  {
    if IsNewLine(c) {
      NewLineShows(s, d, attrib);
    } else {
      var s' := s.(page := WriteCell(s.page, s.x, s.y, attrib, c));
      var d' := d.(rows := d.rows[d.row := SetCell(d.rows[d.row], d.x, attrib, c)]);
      forall y | 0 <= y < NUM_ROWS
        ensures RowAt(s'.page, y) == d'.rows[d'.Scrolled() + y]
      {
        WriteRows(s.page, s.x, s.y, attrib, c, y);
      }
      if s.x + 1 == NUM_COLS {
        NewLineShows(s', d', attrib);
      }
    }
  }

  /** Scrolling refinement: whatever is printed, the screen stays the window on the last 25
      rows of the transcript. */
  lemma {:induction false} PrintingRefinesTranscript(s: Screen, d: Transcript, attrib: byte, text: seq<byte>)
    requires Shows(s, d)
    ensures Shows(PutAll(s, attrib, text), TypeAll(d, attrib, text))
    decreases |text|
  {
    if text != [] {
      PutcShows(s, d, attrib, text[0]);
      PrintingRefinesTranscript(Putc(s, attrib, text[0]), Type(d, attrib, text[0]), attrib, text[1..]);
    }
  }

  /** Printing never disturbs the bytes of the page behind the 25 rows. */
  lemma {:induction false} PrintingKeepsSpareBytes(s: Screen, attrib: byte, text: seq<byte>)
    requires s.Ok()
    ensures PutAll(s, attrib, text).page[SCREEN_BYTES..] == s.page[SCREEN_BYTES..]
    decreases |text|
  {
    if text != [] {
      PrintingKeepsSpareBytes(Putc(s, attrib, text[0]), attrib, text[1..]);
    }
  }

  // ---- What the transcript of a text is: greedy wrapping at 80 columns ----

  /** A line feed or a carriage return. */
  predicate EndsRow(c: byte) { c in {0x0A, 0x0D} }

  /** Length of the first row of a text: up to a new line, or 80 characters, or all of it. */
  function RowLength(text: seq<byte>, n: nat): (k: nat)
    requires n <= |text| && n <= NUM_COLS
    requires forall i :: 0 <= i < n ==> !EndsRow(text[i])
    ensures n <= k <= |text| && k <= NUM_COLS
    ensures forall i :: 0 <= i < k ==> !EndsRow(text[i])
    ensures k == |text| || k == NUM_COLS || EndsRow(text[k])
    decreases |text| - n
  {
    if n == |text| || n == NUM_COLS || EndsRow(text[n]) then n else RowLength(text, n + 1)
  }

  /** The rows of a text, wrapped from the front. The last row is where the cursor stands. */
  function Lines(text: seq<byte>): (rows: seq<seq<byte>>)
    ensures rows != [] && |rows[|rows| - 1]| < NUM_COLS
    ensures forall r :: 0 <= r < |rows| ==> |rows[r]| <= NUM_COLS
    decreases |text|
  {
    var k := RowLength(text, 0);
    if k == NUM_COLS then [text[..k]] + Lines(text[k..])
    else if k == |text| then [text]
    else [text[..k]] + Lines(text[k + 1..])
  }

  /** A row of characters in one colour, padded with blanks. */
  function CellRow(text: seq<byte>, attrib: byte): Row
    requires |text| <= NUM_COLS
  {
    seq(ROW_BYTES, (i: nat) => if i % 2 == 1 then attrib else if i / 2 < |text| then text[i / 2] else SPACE)
  }

  /** Everything below the row the cursor is on is blank, and the cursor is at its start. */
  ghost predicate FreshFrom(d: Transcript, attrib: byte) {
    d.Ok() && d.x == 0 && forall r :: d.row <= r < |d.rows| ==> d.rows[r] == BlankRow(attrib)
  }

  /** `d` is `d0` with the given rows written from its cursor row on. */
  ghost predicate Extends(d: Transcript, d0: Transcript, attrib: byte, rows: seq<seq<byte>>)
    requires rows != [] && forall r :: 0 <= r < |rows| ==> |rows[r]| <= NUM_COLS
  {
    && d.row == d0.row + |rows| - 1
    && d.x == |rows[|rows| - 1]|
    && |d.rows| == Max(|d0.rows|, d.row + 1)
    && d0.row <= |d0.rows|
    && d.rows[..d0.row] == d0.rows[..d0.row]
    && (forall r :: 0 <= r < |rows| ==> d.rows[d0.row + r] == CellRow(rows[r], attrib))
    && (forall r :: d.row < r < |d.rows| ==> d.rows[r] == BlankRow(attrib))
  }

  lemma {:induction false} TypeAllAppend(d: Transcript, attrib: byte, a: seq<byte>, b: seq<byte>)
    requires d.Ok()
    ensures TypeAll(d, attrib, a + b) == TypeAll(TypeAll(d, attrib, a), attrib, b)
    decreases |a|
  {
    if a == [] {
      assert a + b == b;
    } else {
      assert (a + b)[1..] == a[1..] + b;
      TypeAllAppend(Type(d, attrib, a[0]), attrib, a[1..], b);
    }
  }

  /** Typing fewer than 80 ordinary characters at a fresh row fills that row only. */
  lemma {:induction false} TypeShortRow(d: Transcript, attrib: byte, text: seq<byte>)
    requires FreshFrom(d, attrib) && |text| < NUM_COLS
    requires forall i :: 0 <= i < |text| ==> !IsNewLine(text[i])
    ensures TypeAll(d, attrib, text)
         == Transcript(d.rows[d.row := CellRow(text, attrib)], |text|, d.row)
    decreases |text|
  {
    if text == [] {
      assert CellRow([], attrib) == BlankRow(attrib);
      assert d.rows[d.row := CellRow([], attrib)] == d.rows;
    } else {
      var n := |text| - 1;
      var shorter, c := text[..n], text[n];
      assert shorter + [c] == text;
      TypeShortRow(d, attrib, shorter);
      TypeAllAppend(d, attrib, shorter, [c]);
      var mid := TypeAll(d, attrib, shorter);
      assert TypeAll(mid, attrib, [c]) == Type(mid, attrib, c);
      assert SetCell(CellRow(shorter, attrib), n, attrib, c) == CellRow(text, attrib);
    }
  }

  /** One complete row, ended by a new line or by its 80th character. */
  lemma TypeFullRow(d: Transcript, attrib: byte, text: seq<byte>, k: nat) returns (d': Transcript)
    requires FreshFrom(d, attrib) && k == RowLength(text, 0) && (k == NUM_COLS || k < |text|)
    ensures d' == TypeAll(d, attrib, text[..if k == NUM_COLS then k else k + 1])
    ensures FreshFrom(d', attrib) && d'.row == d.row + 1
    ensures d'.rows[..d.row + 1] == d.rows[..d.row] + [CellRow(text[..k], attrib)]
    ensures |d'.rows| == Max(|d.rows|, d.row + 2)
  {
    var n := if k == NUM_COLS then k - 1 else k;
    TypeShortRow(d, attrib, text[..n]);
    var mid := TypeAll(d, attrib, text[..n]);
    assert text[..n + 1] == text[..n] + [text[n]];
    TypeAllAppend(d, attrib, text[..n], [text[n]]);
    d' := Type(mid, attrib, text[n]);
    assert TypeAll(mid, attrib, [text[n]]) == d';
    if k == NUM_COLS {
      assert SetCell(CellRow(text[..n], attrib), n, attrib, text[n]) == CellRow(text[..k], attrib);
    }
  }

  /** The transcript of a text is its greedy wrapping. */
  lemma {:induction false} TranscriptIsWrappedText(d: Transcript, attrib: byte, text: seq<byte>)
    requires FreshFrom(d, attrib)
    ensures Extends(TypeAll(d, attrib, text), d, attrib, Lines(text))
    decreases |text|
  {
    var k := RowLength(text, 0);
    if k < NUM_COLS && k == |text| {
      LastRowExtends(d, attrib, text);
    } else {
      var n := if k == NUM_COLS then k else k + 1;
      var d' := TypeFullRow(d, attrib, text, k);
      var first, rest := text[..n], text[n..];
      assert text == first + rest;
      TypeAllAppend(d, attrib, first, rest);
      TranscriptIsWrappedText(d', attrib, rest);
      RowsCompose(TypeAll(d', attrib, rest), d', d, attrib, text[..k], Lines(rest));
    }
  }

  lemma LastRowExtends(d: Transcript, attrib: byte, text: seq<byte>)
    requires FreshFrom(d, attrib) && |text| < NUM_COLS
    requires forall i :: 0 <= i < |text| ==> !IsNewLine(text[i])
    ensures Extends(TypeAll(d, attrib, text), d, attrib, [text])
  {
    TypeShortRow(d, attrib, text);
  }

  lemma RowsCompose(d: Transcript, d': Transcript, d0: Transcript, attrib: byte, row: seq<byte>, rest: seq<seq<byte>>)
    requires |row| <= NUM_COLS && d0.row < |d0.rows|
    requires rest != [] && forall r :: 0 <= r < |rest| ==> |rest[r]| <= NUM_COLS
    requires Extends(d, d', attrib, rest)
    requires d'.row == d0.row + 1 && |d'.rows| == Max(|d0.rows|, d0.row + 2)
    requires d'.rows[..d0.row + 1] == d0.rows[..d0.row] + [CellRow(row, attrib)]
    ensures Extends(d, d0, attrib, [row] + rest)
  {
  }

  function BlankTranscript(attrib: byte): Transcript {
    Transcript(seq(NUM_ROWS, _ => BlankRow(attrib)), 0, 0)
  }

  /** After a clear, a screen on which `text` is printed shows row `y` of the last 25 rows of
      the wrapped text (blank below its end), with the cursor after the last character. */
  lemma PrintedTextOnScreen(s: Screen, attrib: byte, text: seq<byte>, y: nat)
    requires y < NUM_ROWS
    ensures
      var shown := PutAll(Clear(s, attrib), attrib, text);
      var rows := Lines(text);
      var scrolled := Max(0, |rows| - NUM_ROWS);
      && shown.x == |rows[|rows| - 1]| && shown.y == |rows| - 1 - scrolled
      && RowAt(shown.page, y)
         == CellRow(if scrolled + y < |rows| then rows[scrolled + y] else [], attrib)
  {
    var d0 := BlankTranscript(attrib);
    var cleared := Clear(s, attrib);
    assert Shows(cleared, d0);
    PrintingRefinesTranscript(cleared, d0, attrib, text);
    TranscriptIsWrappedText(d0, attrib, text);
    assert CellRow([], attrib) == BlankRow(attrib);
  }
}
