/** The sound driver's event bytecode (pgm2xm.c:128-202): the command variants
    its opcode ranges stand for, the bytes each takes, and the packed XM cell
    `readcommand` writes for it. */
module Commands {
  import opened Bytes

  /** One decoded command; `effect` is the opcode's low nibble. */
  datatype Command =
    | Delay(rows: byte)                                          // 0x00-0x3F
    | Effect(effect: byte, param: byte)                          // 0x40-0x4F
    | Note(note: byte, ins: byte)                                // 0x80-0xBF
    | EffectNoteIns(effect: byte, param: byte, note: byte, ins: byte) // 0xC0-0xCF
    | EffectNote(effect: byte, param: byte, note: byte)          // 0xD0-0xDF
    | EffectIns(effect: byte, param: byte, ins: byte)            // 0xE0-0xEF
    | Unknown(op: byte)                                          // 0x50-0x7F, 0xF0-0xFF

  /** Bytes a command takes, opcode included; the opcode byte is consumed even
      when it is not recognised. */
  function Width(op: byte): (w: nat)
    ensures 1 <= w <= 4
  {
    if op < 0x40 then 1
    else if op < 0x50 then 2
    else if 0x80 <= op < 0xC0 then 2
    else if 0xC0 <= op < 0xD0 then 4
    else if 0xD0 <= op < 0xE0 then 3
    else if 0xE0 <= op < 0xF0 then 3
    else 1
  }

  /** A whole command starts at `pos`. */
  predicate Fits(code: seq<byte>, pos: nat) {
    pos < |code| && pos + Width(code[pos]) <= |code|
  }

  /** The values a command can carry when it comes out of the bytecode. */
  predicate WellFormed(c: Command) {
    match c
    case Delay(d) => d < 0x40
    case Effect(e, _) => e < 0x10
    case Note(n, _) => n < 0x40
    case EffectNoteIns(e, _, _, _) => e < 0x10
    case EffectNote(e, _, _) => e < 0x10
    case EffectIns(e, _, _) => e < 0x10
    case Unknown(op) => 0x50 <= op < 0x80 || 0xF0 <= op
  }

  /** The bytecode of a command: the inverse of `Decode`. */
  function Bytecode(c: Command): (b: seq<byte>)
    requires WellFormed(c)
  {
    match c
    case Delay(d) => [d]
    case Effect(e, p) => [0x40 + e, p]
    case Note(n, i) => [0x80 + n, i]
    case EffectNoteIns(e, p, n, i) => [0xC0 + e, p, n, i]
    case EffectNote(e, p, n) => [0xD0 + e, p, n]
    case EffectIns(e, p, i) => [0xE0 + e, p, i]
    case Unknown(op) => [op]
  }

  /** The command at `pos`, classified by opcode range as `readcommand` does. */
  function Decode(code: seq<byte>, pos: nat): (c: Command)
    requires Fits(code, pos)
    ensures WellFormed(c)
    ensures Bytecode(c) == code[pos .. pos + Width(code[pos])]
  {
    var op := code[pos];
    if op < 0x40 then
      Delay(op)
    else if op < 0x50 then
      Effect(op % 0x10, code[pos + 1])
    else if 0x80 <= op < 0xC0 then
      Note(op % 0x80, code[pos + 1])
    else if 0xC0 <= op < 0xD0 then
      EffectNoteIns(op % 0x10, code[pos + 1], code[pos + 2], code[pos + 3])
    else if 0xD0 <= op < 0xE0 then
      EffectNote(op % 0x10, code[pos + 1], code[pos + 2])
    else if 0xE0 <= op < 0xF0 then
      EffectIns(op % 0x10, code[pos + 1], code[pos + 2])
    else
      Unknown(op)
  }

  /** Decoding the bytecode of a command gives the command back, whatever
      follows it. */
  lemma DecodeBytecode(c: Command, rest: seq<byte>)
    requires WellFormed(c)
    ensures Fits(Bytecode(c) + rest, 0) && Decode(Bytecode(c) + rest, 0) == c
  {
  }

  /** Rows the channel then waits before its next command. */
  function DelayOf(c: Command): nat {
    if c.Delay? then c.rows else 0
  }

  /** The XM packing flag `readcommand` builds: 0x80 OR'd with one bit per
      field that follows. */
  function Flag(c: Command): (f: byte)
    ensures 0x80 <= f < 0xA0 && f / 4 % 2 == 0
    ensures NoteBit(f) <==> c.Note? || c.EffectNoteIns? || c.EffectNote?
    ensures InstrumentBit(f) <==> HasInstrument(c)
    ensures EffectBits(f) <==> c.Effect? || c.EffectNoteIns? || c.EffectNote? || c.EffectIns?
    ensures EffectBits(f) ==> f / 8 % 4 == 3
  {
    match c
    case Delay(_) => 0x80
    case Effect(_, _) => 0x80 + 0x18
    case Note(_, _) => 0x80 + 0x03
    case EffectNoteIns(_, _, _, _) => 0x80 + 0x1b
    case EffectNote(_, _, _) => 0x80 + 0x19
    case EffectIns(_, _, _) => 0x80 + 0x1a
    case Unknown(_) => 0x80
  }

  /** `flag & 0x01`: a note byte follows. */
  predicate NoteBit(f: byte) { f % 2 == 1 }
  /** `flag & 0x02`: an instrument byte follows. */
  predicate InstrumentBit(f: byte) { f / 2 % 2 == 1 }
  /** `flag & 0x18`: an effect byte and a parameter byte follow. */
  predicate EffectBits(f: byte) { f / 8 % 4 != 0 }

  /** The fine-tune correction of pgm2xm.c:192-195: for effect E5x the low
      nibble of the parameter is moved down by 8, modulo 16. */
  function FineTune(effect: byte, param: byte, ftFix: bool): (p: byte)
    ensures p / 0x10 == param / 0x10
    ensures ftFix && effect == 0x0E && param / 0x10 == 5 ==> (p % 0x10 + 8) % 0x10 == param % 0x10
    ensures !(ftFix && effect == 0x0E && param / 0x10 == 5) ==> p == param
  {
    if ftFix && effect == 0x0E && param / 0x10 == 5 then
      0x50 + (param % 0x10 - 8) % 0x10
    else
      param
  }

  /** The packed cell `readcommand` writes: the flag, then `note + 24` (kept to
      a byte), the instrument number and the effect pair, each when its flag
      bit is set. */
  function CellBytes(c: Command, ins: byte, ftFix: bool): (cell: seq<byte>)
    ensures 1 <= |cell| <= 5 && cell[0] == Flag(c)
    ensures NoteBit(Flag(c)) ==> |cell| >= 2 && cell[1] == (c.note + 24) % 0x100
    ensures InstrumentBit(Flag(c)) ==> var k := if NoteBit(Flag(c)) then 2 else 1; |cell| > k && cell[k] == ins
    ensures EffectBits(Flag(c)) ==>
              |cell| >= 3 && cell[|cell| - 2] == c.effect && cell[|cell| - 1] == FineTune(c.effect, c.param, ftFix)
  {
    var f := Flag(c);
    [f]
    + (if NoteBit(f) then [(c.note + 24) % 0x100] else [])
    + (if InstrumentBit(f) then [ins] else [])
    + (if EffectBits(f) then [c.effect, FineTune(c.effect, c.param, ftFix)] else [])
  }

  /** The command names a sample id, which goes through the registry. */
  predicate HasInstrument(c: Command) {
    c.Note? || c.EffectNoteIns? || c.EffectIns?
  }

  /** Opcode ranges, their widths, flags and delays (pgm2xm.c:130-182): the
      cursor moves 1, 2, 4, 3, 3 or 1 bytes; the flag is 0x80 OR'd with 0,
      0x18, 0x03, 0x1b, 0x19 or 0x1a; only a delay opcode yields a delay,
      the opcode itself. */
  lemma OpcodeTable(code: seq<byte>, pos: nat)
    requires Fits(code, pos)
    ensures var op := code[pos];
            var c := Decode(code, pos);
            && (op < 0x40 ==> Width(op) == 1 && Flag(c) == 0x80 && DelayOf(c) == op)
            && (0x40 <= op < 0x50 ==> Width(op) == 2 && Flag(c) == 0x98 && DelayOf(c) == 0)
            && (0x80 <= op < 0xC0 ==> Width(op) == 2 && Flag(c) == 0x83 && DelayOf(c) == 0)
            && (0xC0 <= op < 0xD0 ==> Width(op) == 4 && Flag(c) == 0x9B && DelayOf(c) == 0)
            && (0xD0 <= op < 0xE0 ==> Width(op) == 3 && Flag(c) == 0x99 && DelayOf(c) == 0)
            && (0xE0 <= op < 0xF0 ==> Width(op) == 3 && Flag(c) == 0x9A && DelayOf(c) == 0)
            && ((0x50 <= op < 0x80 || 0xF0 <= op) ==> Width(op) == 1 && Flag(c) == 0x80 && DelayOf(c) == 0)
  {
  }

  /** The cell grows the output by 1 + [bit 0] + [bit 1] + 2 * [bits 0x18],
      at most 5 bytes, and begins with the flag. */
  lemma CellLength(c: Command, ins: byte, ftFix: bool)
    ensures var f := Flag(c);
            var cell := CellBytes(c, ins, ftFix);
            && |cell| == 1 + (if NoteBit(f) then 1 else 0) + (if InstrumentBit(f) then 1 else 0)
                           + (if EffectBits(f) then 2 else 0)
            && 1 <= |cell| <= 5 && cell[0] == f && f >= 0x80
  {
  }

  // ---------------------------------------------------------------------
  // How an XM reader unpacks a cell: the partner of `CellBytes`.

  /** One pattern cell as an XM reader sees it. */
  datatype Cell = Cell(note: Option<byte>, instrument: Option<byte>, volume: Option<byte>,
                       effect: Option<byte>, param: Option<byte>)

  /** The empty cell. */
  const Blank := Cell(None, None, None, None, None)

  /** Reads one cell at `pos` by XM's packing rule: a first byte with bit 7 set
      is a mask (bit 0 note, bit 1 instrument, bit 2 volume, bit 3 effect,
      bit 4 parameter) of the bytes that follow; a first byte without it is
      the note of a full five-byte cell. Gives the cell and the bytes read,
      or None when the cell runs past the end. */
  function Unpack(s: seq<byte>, pos: nat): Option<(Cell, nat)>
  {
    if pos >= |s| then None
    else if s[pos] < 0x80 then
      if pos + 5 <= |s| then
        Some((Cell(Some(s[pos]), Some(s[pos + 1]), Some(s[pos + 2]), Some(s[pos + 3]), Some(s[pos + 4])), 5))
      else None
    else
      var m := s[pos];
      var n := m % 2 + m / 2 % 2 + m / 4 % 2 + m / 8 % 2 + m / 16 % 2;
      if pos + 1 + n > |s| then None
      else
        var q0 := pos + 1;
        var note := if m % 2 == 1 then Some(s[q0]) else None;
        var q1 := q0 + m % 2;
        var ins := if m / 2 % 2 == 1 then Some(s[q1]) else None;
        var q2 := q1 + m / 2 % 2;
        var vol := if m / 4 % 2 == 1 then Some(s[q2]) else None;
        var q3 := q2 + m / 4 % 2;
        var eff := if m / 8 % 2 == 1 then Some(s[q3]) else None;
        var q4 := q3 + m / 8 % 2;
        var par := if m / 16 % 2 == 1 then Some(s[q4]) else None;
        Some((Cell(note, ins, vol, eff, par), 1 + n))
  }

  /** The cell a command stands for in the XM pattern: its note moved up two
      octaves, its registry number, its effect with the corrected parameter. */
  function Intended(c: Command, ins: byte, ftFix: bool): Cell {
    Cell(
      if c.Note? || c.EffectNoteIns? || c.EffectNote? then Some((c.note + 24) % 0x100) else None,
      if HasInstrument(c) then Some(ins) else None,
      None,
      if c.Effect? || c.EffectNoteIns? || c.EffectNote? || c.EffectIns? then Some(c.effect) else None,
      if c.Effect? || c.EffectNoteIns? || c.EffectNote? || c.EffectIns? then Some(FineTune(c.effect, c.param, ftFix)) else None)
  }

  /** An XM reader recovers from the packed bytes exactly the cell the command
      stands for, and reads exactly the bytes `readcommand` wrote, whatever
      follows them. */
  lemma UnpackCellBytes(c: Command, ins: byte, ftFix: bool, rest: seq<byte>)
    ensures Unpack(CellBytes(c, ins, ftFix) + rest, 0)
            == Some((Intended(c, ins, ftFix), |CellBytes(c, ins, ftFix)|))
  {
    var s := CellBytes(c, ins, ftFix) + rest;
    match c
    case Delay(_) =>
    case Effect(e, p) =>
      assert s[1] == e && s[2] == FineTune(e, p, ftFix);
    case Note(n, _) =>
      assert s[1] == (n + 24) % 0x100 && s[2] == ins;
    case EffectNoteIns(e, p, n, _) =>
      assert s[1] == (n + 24) % 0x100 && s[2] == ins && s[3] == e && s[4] == FineTune(e, p, ftFix);
    case EffectNote(e, p, n) =>
      assert s[1] == (n + 24) % 0x100 && s[2] == e && s[3] == FineTune(e, p, ftFix);
    case EffectIns(e, p, _) =>
      assert s[1] == ins && s[2] == e && s[3] == FineTune(e, p, ftFix);
    case Unknown(_) =>
  }

  /** The byte 0x80 a waiting channel writes reads back as an empty cell. */
  lemma UnpackWait(rest: seq<byte>)
    ensures Unpack([0x80] + rest, 0) == Some((Blank, 1))
  {
  }
}
