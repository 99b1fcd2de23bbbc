/** Screen memory in place: the video page and the terminals' own frames, one behind the other in
    one array, and the printing functions of src/lib.c over it. */
module ScreenMemory {
  import opened Layout
  import opened Paging
  import opened Screens
  import opened Terminals

  /** Position of a screen frame in the array. */
  function Base(frame: nat): nat
    requires IsScreenFrame(frame, TERM_LIMIT)
  {
    if frame == VIDEO_MEM_INDEX then 0 else (frame - PhysBackup(0) / KB4 + 1) * KB4
  }

  /** Different frames occupy different stretches. */
  lemma BasesApart(f: nat, g: nat)
    requires IsScreenFrame(f, TERM_LIMIT) && IsScreenFrame(g, TERM_LIMIT) && f != g
    ensures Base(f) + KB4 <= Base(g) || Base(g) + KB4 <= Base(f)
  {
  }

  function PageAt(b: seq<byte>, base: nat): Page
    requires base + KB4 <= |b|
  {
    b[base..base + KB4]
  }

  /** `b'` is `b` with the page at `base` replaced by `p`. */
  ghost predicate PageReplaced(b: seq<byte>, b': seq<byte>, base: nat, p: Page)
    requires base + KB4 <= |b|
  {
    && |b'| == |b| && PageAt(b', base) == p
    && forall i :: 0 <= i < |b| && !(base <= i < base + KB4) ==> b'[i] == b[i]
  }

  lemma ReplacedBytewise(b: seq<byte>, b': seq<byte>, base: nat, p: Page)
    requires base + KB4 <= |b| == |b'|
    requires forall i :: 0 <= i < |b| ==> b'[i] == if base <= i < base + KB4 then p[i - base] else b[i]
    ensures PageReplaced(b, b', base, p)
  {
  }

  lemma PageBytes(b: seq<byte>, base: nat)
    requires base + KB4 <= |b|
    ensures forall i :: base <= i < base + KB4 ==> PageAt(b, base)[i - base] == b[i]
  {
  }

  lemma ReplacedTwice(b: seq<byte>, b1: seq<byte>, b2: seq<byte>, base: nat, p: Page, q: Page)
    requires base + KB4 <= |b| && PageReplaced(b, b1, base, p) && PageReplaced(b1, b2, base, q)
    ensures PageReplaced(b, b2, base, q)
  {
  }

  /** The pages of `terms` terminals, by frame. */
  ghost function PagesOf(b: seq<byte>, terms: nat): (p: map<nat, Page>)
    requires terms <= TERM_LIMIT && |b| == (terms + 1) * KB4
    ensures FramesPresent(p, terms)
    ensures forall f: nat :: f in p <==> IsScreenFrame(f, terms)
  {
    map f: nat | f < 0x5000 && IsScreenFrame(f, terms) :: PageAt(b, Base(f))
  }

  /** A page apart from the replaced one is unchanged. */
  lemma PageApart(b: seq<byte>, b': seq<byte>, base: nat, p: Page, other: nat)
    requires base + KB4 <= |b| && PageReplaced(b, b', base, p) && other + KB4 <= |b|
    requires other + KB4 <= base || base + KB4 <= other
    ensures PageAt(b', other) == PageAt(b, other)
  {
  }

  /** Replacing the page of one frame leaves the others. */
  lemma PagesReplaced(b: seq<byte>, b': seq<byte>, terms: nat, frame: nat, p: Page)
    requires terms <= TERM_LIMIT && |b| == (terms + 1) * KB4 && IsScreenFrame(frame, terms)
    requires PageReplaced(b, b', Base(frame), p)
    ensures PagesOf(b', terms) == PagesOf(b, terms)[frame := p]
  {
    forall f | IsScreenFrame(f, terms) && f != frame
      ensures PageAt(b', Base(f)) == PageAt(b, Base(f))
    {
      BasesApart(f, frame);
      PageApart(b, b', Base(frame), p, Base(f));
    }
  }

  /** `memcpy` of a whole page. */
  method CopyPageBytes(bytes: array<byte>, dst: nat, src: nat)
    requires dst + KB4 <= bytes.Length && src + KB4 <= bytes.Length
    requires dst == src || dst + KB4 <= src || src + KB4 <= dst
    modifies bytes
    ensures PageReplaced(old(bytes[..]), bytes[..], dst, PageAt(old(bytes[..]), src))
  {
    for i := 0 to KB4
      invariant forall j :: 0 <= j < bytes.Length ==>
                  bytes[j] == if dst <= j < dst + i then old(bytes[src + (j - dst)]) else old(bytes[j])
    {
      bytes[dst + i] := bytes[src + i];
    }
    ghost var page := PageAt(old(bytes[..]), src);
    ReplacedBytewise(old(bytes[..]), bytes[..], dst, page);
  }

  /** One screen page copied to another. */
  method CopyFrame(bytes: array<byte>, terms: nat, to: nat, from: nat)
    requires terms <= TERM_LIMIT && bytes.Length == (terms + 1) * KB4
    requires IsScreenFrame(to, terms) && IsScreenFrame(from, terms)
    modifies bytes
    ensures PagesOf(bytes[..], terms) == old(PagesOf(bytes[..], terms))[to := old(PagesOf(bytes[..], terms))[from]]
  {
    CopyPageBytes(bytes, Base(to), Base(from));
    PagesReplaced(old(bytes[..]), bytes[..], terms, to, old(PagesOf(bytes[..], terms))[from]);
  }

  /** `shift_display`: every row moves to the row above, and the last one is blanked. */
  method ScrollPage(bytes: array<byte>, base: nat, attrib: byte)
    requires base + KB4 <= bytes.Length
    modifies bytes
    ensures PageReplaced(old(bytes[..]), bytes[..], base, ShiftDisplay(PageAt(old(bytes[..]), base), attrib))
  {
    MoveRowsUp(bytes, base);
    BlankLastRow(bytes, base + SCREEN_BYTES - ROW_BYTES, attrib);
    ScrolledBytes(old(bytes[..]), bytes[..], base, attrib);
  }

  method MoveRowsUp(bytes: array<byte>, base: nat)
    requires base + SCREEN_BYTES <= bytes.Length
    modifies bytes
    ensures forall i :: 0 <= i < bytes.Length ==>
              bytes[i]
              == if base <= i < base + SCREEN_BYTES - ROW_BYTES then old(bytes[i + ROW_BYTES]) else old(bytes[i])
  {
    for j := 1 to NUM_ROWS
      invariant forall i :: 0 <= i < bytes.Length ==>
                  bytes[i]
                  == if base <= i < base + ROW_BYTES * (j - 1) then old(bytes[i + ROW_BYTES]) else old(bytes[i])
    {
      CopyRow(bytes, base + ROW_BYTES * (j - 1), base + ROW_BYTES * j);
    }
  }

  /** `memcpy` of one row to the row above. */
  method CopyRow(bytes: array<byte>, dest: nat, src: nat)
    requires src == dest + ROW_BYTES && src + ROW_BYTES <= bytes.Length
    modifies bytes
    ensures forall i :: 0 <= i < bytes.Length ==>
              bytes[i] == if dest <= i < src then old(bytes[i + ROW_BYTES]) else old(bytes[i])
  {
    forall i | dest <= i < src {
      bytes[i] := bytes[i + ROW_BYTES];
    }
  }

  method BlankLastRow(bytes: array<byte>, last: nat, attrib: byte)
    requires last + ROW_BYTES <= bytes.Length
    modifies bytes
    ensures forall i :: 0 <= i < bytes.Length ==>
              bytes[i]
              == if last <= i < last + ROW_BYTES then (if (i - last) % 2 == 0 then SPACE else attrib) else old(bytes[i])
  {
    for j := 0 to NUM_COLS
      invariant forall i :: 0 <= i < bytes.Length ==>
                  bytes[i]
                  == if last <= i < last + 2 * j then (if (i - last) % 2 == 0 then SPACE else attrib) else old(bytes[i])
    {
      bytes[last + 2 * j] := SPACE;
      bytes[last + 2 * j + 1] := attrib;
    }
  }

  lemma ScrolledBytes(b: seq<byte>, b': seq<byte>, base: nat, attrib: byte)
    requires base + KB4 <= |b| == |b'|
    requires
      var last := base + ROW_BYTES * (NUM_ROWS - 1);
      forall i {:trigger b'[i]} :: 0 <= i < |b| ==>
        b'[i] == if base <= i < last then b[i + ROW_BYTES]
                 else if last <= i < last + ROW_BYTES then (if (i - last) % 2 == 0 then SPACE else attrib)
                 else b[i]
    ensures PageReplaced(b, b', base, ShiftDisplay(PageAt(b, base), attrib))
  {
  }

  // ---- Printing on a page ----

  /** The terminal printed on: its place in memory, its cursor and its colour. */
  class Terminal {
    const bytes: array<byte>
    var x: nat
    var y: nat
    const attrib: byte

    constructor (bytes: array<byte>, attrib: byte)
      ensures this.bytes == bytes && this.attrib == attrib && x == 0 && y == 0
    {
      this.bytes := bytes;
      this.attrib := attrib;
      x, y := 0, 0;
    }

    ghost predicate Valid(base: nat)
      reads this
    {
      base + KB4 <= bytes.Length && x < NUM_COLS && y < NUM_ROWS
    }

    /** The page at `base` with this terminal's cursor. */
    ghost function View(base: nat): (s: Screen)
      requires Valid(base)
      reads this, bytes
      ensures s.Ok()
    {
      Screen(PageAt(bytes[..], base), x, y)
    }

    /** Only the page and the cursor changed, and they now show `s`. */
    twostate predicate Shows(base: nat, s: Screen)
      reads this, bytes
    {
      && base + KB4 <= bytes.Length
      && PageReplaced(old(bytes[..]), bytes[..], base, s.page) && x == s.x && y == s.y
    }

    method NextLine(base: nat)
      requires Valid(base)
      modifies this, bytes
      ensures Valid(base) && Shows(base, NewLine(old(View(base)), attrib))
    {
      if y == NUM_ROWS - 1 {
        ScrollPage(bytes, base, attrib);
      } else {
        y := y + 1;
      }
      x := 0;
    }

    /** `putc` and `putc_buffer`: they differ in the terminal and the address they use. */
    method Put(base: nat, c: byte)
      requires Valid(base)
      modifies this, bytes
      ensures Valid(base) && Shows(base, Putc(old(View(base)), attrib, c))
    {
      if c == NL || c == CR {
        NextLine(base);
      } else {
        ghost var b := bytes[..];
        var at := base + 2 * (NUM_COLS * y + x);
        bytes[at] := c;
        bytes[at + 1] := attrib;
        assert PageReplaced(b, bytes[..], base, WriteCell(PageAt(b, base), x, y, attrib, c));
        if x + 1 >= NUM_COLS {
          ghost var b1 := bytes[..];
          NextLine(base);
          ReplacedTwice(b, b1, bytes[..], base, PageAt(b1, base), PageAt(bytes[..], base));
        } else {
          x := x + 1;
        }
      }
    }

    /** The loops of `terminal_write` and `puts`. */
    method Write(base: nat, text: seq<byte>)
      requires Valid(base)
      modifies this, bytes
      ensures Valid(base) && Shows(base, PutAll(old(View(base)), attrib, text))
    {
      ghost var b, s := bytes[..], View(base);
      for i := 0 to |text|
        invariant Valid(base) && PutAll(View(base), attrib, text[i..]) == PutAll(s, attrib, text)
        invariant PageReplaced(b, bytes[..], base, PageAt(bytes[..], base))
      {
        ghost var b1 := bytes[..];
        Put(base, text[i]);
        ReplacedTwice(b, b1, bytes[..], base, PageAt(b1, base), PageAt(bytes[..], base));
        assert text[i..][0] == text[i] && text[i..][1..] == text[i + 1..];
      }
      assert text[|text|..] == [];
    }

    method StepBack()
      requires x < NUM_COLS && y < NUM_ROWS && (x, y) != (0, 0)
      modifies this
      ensures if old(x) != 0 then x == old(x) - 1 && y == old(y) else x == NUM_COLS - 1 && y == old(y) - 1
    {
      if x != 0 {
        x := x - 1;
      } else {
        y := y - 1;
        x := NUM_COLS - 1;
      }
    }

    method Backspace(base: nat)
      requires Valid(base)
      modifies this, bytes
      ensures Valid(base) && Shows(base, DoBackspace(old(View(base)), attrib))
    {
      if x == 0 && y == 0 {
        return;
      }
      StepBack();
      Put(base, SPACE);
      StepBack();
    }

    /** `clear_setpos(0, 0)`. */
    method ClearScreen(base: nat)
      requires Valid(base)
      modifies this, bytes
      ensures Valid(base) && Shows(base, Clear(old(View(base)), attrib))
    {
      ghost var b := bytes[..];
      for i := 0 to NUM_ROWS * NUM_COLS
        invariant forall j :: 0 <= j < bytes.Length ==>
                    bytes[j]
                    == if base <= j < base + 2 * i then (if (j - base) % 2 == 0 then SPACE else attrib) else b[j]
      {
        bytes[base + 2 * i] := SPACE;
        bytes[base + 2 * i + 1] := attrib;
      }
      PageBytes(b, base);
      ReplacedBytewise(b, bytes[..], base, ClearPage(PageAt(b, base), attrib));
      x, y := 0, 0;
    }

    /** Any output to this terminal. */
    method Emit(base: nat, o: Output)
      requires Valid(base) && !o.Nothing?
      modifies this, bytes
      ensures Valid(base) && Shows(base, Apply(old(View(base)), attrib, o))
    {
      match o {
        case Print(_, text) => Write(base, text);
        case Rub(_) => Backspace(base);
        case Wipe(_) => ClearScreen(base);
      }
    }
  }
}
