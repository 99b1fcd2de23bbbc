/** The keyboard driver with its static flags and the terminals' input lines
    (src/drivers/keyboard.c). */
module KeyboardDriver {
  import opened Layout
  import opened Keyboard

  class Driver {
    var lShift: bool
    var rShift: bool
    var caps: bool
    var lCtrl: bool
    var rCtrl: bool
    var lAlt: bool
    var rAlt: bool
    const lines: array<Line>

    constructor (terms: nat)
      ensures fresh(lines) && lines.Length == terms
      ensures View() == Kb(Flags(false, false, false, false, false, false, false),
                           seq(terms, _ => Line(EmptyBuffer(), 0, false, false)))
    {
      lines := new Line[terms](_ => Line(EmptyBuffer(), 0, false, false));
      lShift, rShift, caps, lCtrl, rCtrl, lAlt, rAlt := false, false, false, false, false, false, false;
    }

    function CurrentFlags(): Flags
      reads this
    {
      Flags(lShift, rShift, caps, lCtrl, rCtrl, lAlt, rAlt)
    }

    function View(): Kb
      reads this, lines
    {
      Kb(CurrentFlags(), lines[..])
    }

    /** The driver also tests for the extended Ctrl and Alt codes, after the plain ones with the
        same first byte; those branches are never reached. */
    method CheckModifiers(scan1: byte, scan2: byte) returns (changed: bool)
      modifies this
      ensures (CurrentFlags(), changed) == CheckModifierKeys(old(CurrentFlags()), scan1, scan2)
    {
      changed := true;
      if scan1 == CTRL_PRESSED {
        lCtrl := true;
      } else if scan1 == CTRL_RELEASED {
        lCtrl := false;
      } else if scan1 == ALT_PRESSED {
        lAlt := true;
      } else if scan1 == ALT_RELEASED {
        lAlt := false;
      } else if scan1 == L_SHIFT_PRESSED {
        lShift := true;
      } else if scan1 == R_SHIFT_PRESSED {
        rShift := true;
      } else if scan1 == L_SHIFT_RELEASED {
        lShift := false;
      } else if scan1 == R_SHIFT_RELEASED {
        rShift := false;
      } else if scan1 == CAPS_PRESSED {
        caps := !caps;
      } else {
        changed := false;
      }
    }

    /** With Ctrl held the key is taken here; three of them replace the line. */
    method CheckControl(active: nat, scan: byte) returns (taken: bool)
      requires active < lines.Length
      modifies lines
      ensures taken == CurrentFlags().Ctrl()
      ensures
        var line := old(lines[active]);
        lines[..] == old(lines[..])[active := if taken then CheckControlCodes(line, scan) else line]
    {
      if lCtrl || rCtrl {
        if scan == SCAN_L {
          lines[active] := ControlCode(lines[active], CTRL_L);
        } else if scan == SCAN_A {
          lines[active] := ControlCode(lines[active], CTRL_A);
        } else if scan == SCAN_C {
          lines[active] := ControlCode(lines[active], CTRL_C);
        }
        return true;
      }
      return false;
    }

    method Print(active: nat, scan: nat) returns (echo: seq<Effect>)
      requires active < lines.Length && scan < SUPPORTED_KEYS && lines[active].Ok()
      requires lines[active].readAck ==> lines[active].size < MAX_BUFFER_SIZE
      modifies lines
      ensures
        var (line, out) := PrintCharacter(CurrentFlags(), old(lines[active]), scan);
        echo == out && lines[..] == old(lines[..])[active := line]
    {
      var output := ScanCode(false, scan);
      if caps != (lShift || rShift) {
        if IsLower(output) {
          output := output - 32;
        }
      }
      if lShift || rShift {
        if !IsUpper(output) && !IsLower(output) {
          output := ScanCode(true, scan);
        }
      }
      echo := [];
      if scan == SCAN_TAB {
        if lines[active].size + 4 < MAX_BUFFER_SIZE - 2 {
          echo := PrintTab(active);
        }
      } else if output == 0 || IsCursorKey(scan) {
      } else {
        if lines[active].readAck {
          lines[active] := lines[active].Append(output);
        }
        echo := [Putc(output)];
      }
    }

    method PrintTab(active: nat) returns (echo: seq<Effect>)
      requires active < lines.Length && lines[active].Ok() && lines[active].size + 4 < MAX_BUFFER_SIZE - 2
      modifies lines
      ensures echo == [Putc(SPACE), Putc(SPACE), Putc(SPACE), Putc(SPACE)]
      ensures
        var line := old(lines[active]);
        lines[..] == old(lines[..])[active := Store(Store(Store(Store(line, SPACE), SPACE), SPACE), SPACE)]
    {
      echo := [];
      ghost var l0 := lines[active];
      ghost var l1 := Store(l0, SPACE);
      ghost var l2 := Store(l1, SPACE);
      ghost var l3 := Store(l2, SPACE);
      ghost var l4 := Store(l3, SPACE);
      for i := 0 to 4
        invariant echo == seq(i, _ => Putc(SPACE))
        invariant lines[..] == old(lines[..])[active := [l0, l1, l2, l3, l4][i]]
      {
        if lines[active].readAck {
          lines[active] := lines[active].Append(SPACE);
        }
        echo := echo + [Putc(SPACE)];
      }
    }

    /** The interrupt handler for the code pair read from the keyboard port. */
    method Interrupt(active: nat, c: byte, c2: byte) returns (effects: seq<Effect>)
      requires Typable(View(), active, c)
      modifies this, lines
      ensures (View(), effects) == Handle(old(View()), active, c, c2)
    {
      var modifier := CheckModifiers(c, c2);
      if modifier {
        return [];
      }
      if (lAlt || rAlt) && FUNCTION_1 <= c <= FUNCTION_3 {
        return [SwitchTo(c - FUNCTION_1)];
      }
      if lines[active].readAck {
        var taken := CheckControl(active, c);
        if taken {
          return [];
        }
      }
      assert lines[..] == old(lines[..]);
      if c >= RELEASED_MASK {
        return [];
      }
      effects := Press(active, c);
    }

    method Press(active: nat, c: byte) returns (effects: seq<Effect>)
      requires c < SUPPORTED_KEYS && active < lines.Length
      requires lines[active].Ok() && lines[active].size < MAX_BUFFER_SIZE - 1
      modifies lines
      ensures
        var (line, out) := PressKey(CurrentFlags(), old(lines[active]), c);
        effects == out && lines[..] == old(lines[..])[active := line]
    {
      if c == BACKSPACE {
        if lines[active].size == 0 {
          return [];
        }
        if lines[active].readAck {
          var line := lines[active].(size := lines[active].size - 1);
          lines[active] := line.(buffer := line.buffer[line.size := NUL]);
          return [DoBackspace];
        }
        return [];
      }
      if c == ENTER_KEYCODE {
        if lines[active].readAck {
          lines[active] := lines[active].Append(NL);
        }
        lines[active] := lines[active].(ack := true);
        return [Putc(NL)];
      }
      effects := Print(active, c);
      if lines[active].size >= MAX_BUFFER_SIZE - 2 {
        lines[active] := lines[active].Append(NL);
        lines[active] := lines[active].(ack := true);
        effects := effects + [Putc(NL)];
      }
    }

    /** `keyboard_read` up to its wait. */
    method StartReading(t: nat)
      requires t < lines.Length
      modifies lines
      ensures lines[..] == old(lines[..])[t := BeginRead(old(lines[t]))]
    {
      lines[t] := lines[t].(readAck := true);
      lines[t] := lines[t].(ack := false);
    }

    /** `keyboard_read` behind its wait. */
    method FinishReading(t: nat, buf: array<byte>, nbytes: int32) returns (size: nat)
      requires t < lines.Length && lines[t].Ok() && lines[t].ack && lines[t].size <= buf.Length
      modifies lines, buf
      ensures
        var (bytes, line) := FinishRead(old(lines[t]), nbytes);
        && size == |bytes| <= buf.Length && buf[..size] == bytes
        && lines[..] == old(lines[..])[t := line]
    {
      lines[t] := lines[t].(ack := false);
      lines[t] := lines[t].(readAck := false);
      var line := lines[t];
      if line.size < Wrap32(nbytes) {
        size := line.size;
      } else {
        size := nbytes;
      }
      forall i | 0 <= i < size { buf[i] := line.buffer[i]; }
      lines[t] := line.(buffer := EmptyBuffer(), size := 0);
    }
  }
}
