/** The pattern pass of song2xm (pgm2xm.c:284-318) as functions: every row,
    every channel either waits out its delay, writing the empty cell 0x80, or
    runs one command through `readcommand` (pgm2xm.c:128-202). */
module Patterns {
  import opened Bytes
  import opened Registry
  import opened Commands

  /** Pattern rows per pattern, fixed by the converter. */
  const Rows64: nat := 64

  /** What `readcommand` leaves behind: the registry, the packed cell it
      wrote, the advanced cursor and the delay it returns. */
  datatype Executed = Executed(table: seq<byte>, cell: seq<byte>, next: nat, delay: nat)

  /** `readcommand` on the command at `cursor`: the sample id goes through
      the registry and the cell carries the registry number as a uint8_t. */
  function Execute(dump: seq<byte>, ftFix: bool, table: seq<byte>, cursor: nat): (e: Executed)
    requires Fits(dump, cursor)
    ensures e.next == cursor + Width(dump[cursor])
    ensures 1 <= |e.cell| <= 5
    ensures table <= e.table && (Distinct(table) ==> Distinct(e.table))
  {
    var c := Decode(dump, cursor);
    var r := if HasInstrument(c) then Resolve(table, c.ins) else Resolved(table, 0);
    CellLength(c, r.index % 0x100, ftFix);
    Executed(r.table, CellBytes(c, r.index % 0x100, ftFix), cursor + Width(dump[cursor]), DelayOf(c))
  }

  /** What `Execute` leaves, part by part. */
  lemma ExecuteCell(dump: seq<byte>, ftFix: bool, table: seq<byte>, cursor: nat)
    requires Fits(dump, cursor)
    ensures var c := Decode(dump, cursor);
            var r := if HasInstrument(c) then Resolve(table, c.ins) else Resolved(table, 0);
            var e := Execute(dump, ftFix, table, cursor);
            e.table == r.table && e.cell == CellBytes(c, r.index % 0x100, ftFix)
            && e.delay == DelayOf(c)
  {
  }

  /** One channel's read position and pending delay (`channelptrs[j]`,
      `channeldelays[j]`). */
  datatype Voice = Voice(cursor: nat, delay: nat)

  /** The state of a pattern pass: the voices, the registry and the packed
      cells written since the pattern header. */
  datatype Pass = Pass(voices: seq<Voice>, table: seq<byte>, cells: seq<byte>)

  /** Every voice can still run `rows` commands of up to 4 bytes each. */
  predicate Room(dump: seq<byte>, voices: seq<Voice>, rows: nat) {
    forall j :: 0 <= j < |voices| ==> voices[j].cursor + 4 * rows <= |dump|
  }

  /** Channel `j`'s turn in one row (pgm2xm.c:306-312). */
  function Tick(dump: seq<byte>, ftFix: bool, st: Pass, j: nat): (r: Pass)
    requires j < |st.voices| && st.voices[j].cursor + 4 <= |dump|
    ensures |r.voices| == |st.voices|
    ensures forall i :: 0 <= i < |st.voices| && i != j ==> r.voices[i] == st.voices[i]
    ensures st.voices[j].cursor <= r.voices[j].cursor <= st.voices[j].cursor + 4
    ensures st.cells <= r.cells && |st.cells| + 1 <= |r.cells| <= |st.cells| + 5
    ensures st.table <= r.table && (Distinct(st.table) ==> Distinct(r.table))
    ensures st.voices[j].delay > 0 ==>
              && r.voices[j] == Voice(st.voices[j].cursor, st.voices[j].delay - 1)
              && r.table == st.table && r.cells == st.cells + [0x80]
    ensures st.voices[j].delay == 0 ==>
              var c := st.voices[j].cursor;
              r.voices[j] == Voice(c + Width(dump[c]), DelayOf(Decode(dump, c)))
  {
    var v := st.voices[j];
    if v.delay > 0 then
      Pass(st.voices[j := Voice(v.cursor, v.delay - 1)], st.table, st.cells + [0x80])
    else
      var e := Execute(dump, ftFix, st.table, v.cursor);
      Pass(st.voices[j := Voice(e.next, e.delay)], e.table, st.cells + e.cell)
  }

  /** The turns of channels `j` .. the last, in order. */
  function Row(dump: seq<byte>, ftFix: bool, st: Pass, j: nat): (r: Pass)
    requires j <= |st.voices|
    requires forall i :: j <= i < |st.voices| ==> st.voices[i].cursor + 4 <= |dump|
    ensures |r.voices| == |st.voices|
    ensures forall i :: 0 <= i < |st.voices| ==>
              st.voices[i].cursor <= r.voices[i].cursor <= st.voices[i].cursor + 4
    ensures forall i :: 0 <= i < j ==> r.voices[i] == st.voices[i]
    ensures st.cells <= r.cells
    ensures |st.cells| + (|st.voices| - j) <= |r.cells| <= |st.cells| + 5 * (|st.voices| - j)
    ensures st.table <= r.table && (Distinct(st.table) ==> Distinct(r.table))
    decreases |st.voices| - j
  {
    if j == |st.voices| then st else Row(dump, ftFix, Tick(dump, ftFix, st, j), j + 1)
  }

  /** `n` whole rows. */
  function Rows(dump: seq<byte>, ftFix: bool, st: Pass, n: nat): (r: Pass)
    requires Room(dump, st.voices, n)
    ensures |r.voices| == |st.voices|
    ensures st.cells <= r.cells
    ensures st.table <= r.table && (Distinct(st.table) ==> Distinct(r.table))
    decreases n
  {
    if n == 0 then st
    else
      var st1 := Row(dump, ftFix, st, 0);
      RoomAfterRow(dump, st.voices, st1.voices, n);
      Rows(dump, ftFix, st1, n - 1)
  }

  /** Every row writes between one and five bytes per channel. */
  lemma {:induction false} RowsLength(dump: seq<byte>, ftFix: bool, st: Pass, n: nat)
    requires Room(dump, st.voices, n)
    ensures var r := Rows(dump, ftFix, st, n);
            |st.cells| + n * |st.voices| <= |r.cells| <= |st.cells| + 5 * n * |st.voices|
    decreases n
  {
    if n > 0 {
      var st1 := Row(dump, ftFix, st, 0);
      RoomAfterRow(dump, st.voices, st1.voices, n);
      RowsLength(dump, ftFix, st1, n - 1);
      Accumulate(|st.cells|, |st1.cells|, |Rows(dump, ftFix, st1, n - 1).cells|, |st.voices|, n);
    }
  }

  /** A row moves every cursor by at most 4 bytes, so the room for `n` rows
      leaves room for `n - 1`. */
  lemma RoomAfterRow(dump: seq<byte>, before: seq<Voice>, after: seq<Voice>, n: nat)
    requires n > 0 && Room(dump, before, n) && |after| == |before|
    requires forall i :: 0 <= i < |before| ==> after[i].cursor <= before[i].cursor + 4
    ensures Room(dump, after, n - 1)
  {
  }

  /** Channel `j`'s turn followed by the rest of the row is the row from
      channel `j`. */
  lemma RowStep(dump: seq<byte>, ftFix: bool, st: Pass, j: nat)
    requires j < |st.voices|
    requires forall i :: j <= i < |st.voices| ==> st.voices[i].cursor + 4 <= |dump|
    ensures var t := Tick(dump, ftFix, st, j);
            && (forall i :: j + 1 <= i < |t.voices| ==> t.voices[i].cursor + 4 <= |dump|)
            && Row(dump, ftFix, t, j + 1) == Row(dump, ftFix, st, j)
  {
  }

  /** One row followed by `n - 1` more is `n` rows, and leaves room for them. */
  lemma RowsStep(dump: seq<byte>, ftFix: bool, st: Pass, n: nat)
    requires n > 0 && Room(dump, st.voices, n)
    ensures var st1 := Row(dump, ftFix, st, 0);
            && Room(dump, st1.voices, n - 1)
            && Rows(dump, ftFix, st1, n - 1) == Rows(dump, ftFix, st, n)
  {
    RoomAfterRow(dump, st.voices, Row(dump, ftFix, st, 0).voices, n);
  }

  lemma Accumulate(a: nat, b: nat, c: nat, k: nat, n: nat)
    requires n > 0 && a + k <= b <= a + 5 * k
    requires b + (n - 1) * k <= c <= b + 5 * (n - 1) * k
    ensures a + n * k <= c <= a + 5 * n * k
  {
    assert (n - 1) * k + k == n * k && 5 * (n - 1) * k + 5 * k == 5 * n * k;
  }

  /** Each channel starts at its pattern pointer with no delay pending
      (pgm2xm.c:296-300). */
  function Start(starts: seq<nat>, table: seq<byte>): (st: Pass)
    ensures |st.voices| == |starts| && st.table == table && st.cells == []
    ensures forall j :: 0 <= j < |starts| ==> st.voices[j] == Voice(starts[j], 0)
  {
    Pass(seq(|starts|, j requires 0 <= j < |starts| => Voice(starts[j], 0)), table, [])
  }

  /** The command streams the pattern's pointers lead to hold 64 commands. */
  predicate StartsFit(dump: seq<byte>, starts: seq<nat>) {
    forall j :: 0 <= j < |starts| ==> starts[j] + 4 * Rows64 <= |dump|
  }

  /** One pattern: 64 rows over every channel. */
  function Pattern(dump: seq<byte>, ftFix: bool, table: seq<byte>, starts: seq<nat>): (p: Pass)
    requires StartsFit(dump, starts)
    ensures |p.voices| == |starts| && table <= p.table && (Distinct(table) ==> Distinct(p.table))
  {
    Rows(dump, ftFix, Start(starts, table), Rows64)
  }

  /** A pattern writes between 1 and 5 bytes per row and channel; with at most
      16 channels that stays below what the 16-bit `pattern_size` holds. */
  lemma PatternSize(dump: seq<byte>, ftFix: bool, table: seq<byte>, starts: seq<nat>)
    requires StartsFit(dump, starts) && |starts| <= 16
    ensures var p := Pattern(dump, ftFix, table, starts);
            && Rows64 * |starts| <= |p.cells| <= 5 * Rows64 * |starts|
            && |p.cells| < 0x1_0000
            && table <= p.table
  {
    var st := Start(starts, table);
    RowsLength(dump, ftFix, st, Rows64);
    var k := |starts|;
    assert 5 * Rows64 * k == 320 * k && Rows64 * k == 64 * k;
  }

  // ---------------------------------------------------------------------
  // A channel that only waits.

  /** A pending delay holds its channel in place for a whole row: the row
      counts it down by one, whatever the other channels do. */
  lemma {:induction false} RowWaits(dump: seq<byte>, ftFix: bool, st: Pass, j: nat, k: nat)
    requires j <= k < |st.voices| && st.voices[k].delay > 0
    requires forall i :: j <= i < |st.voices| ==> st.voices[i].cursor + 4 <= |dump|
    ensures Row(dump, ftFix, st, j).voices[k] == Voice(st.voices[k].cursor, st.voices[k].delay - 1)
    decreases k - j
  {
    var t := Tick(dump, ftFix, st, j);
    if j < k {
      RowWaits(dump, ftFix, t, j + 1, k);
    }
  }

  /** While channel `k`'s delay is pending, each row counts it down and
      leaves its cursor put, whatever the other channels do. */
  lemma {:induction false} Waiting(dump: seq<byte>, ftFix: bool, st: Pass, k: nat, n: nat)
    requires k < |st.voices| && n <= st.voices[k].delay
    requires Room(dump, st.voices, n)
    ensures Rows(dump, ftFix, st, n).voices[k] == Voice(st.voices[k].cursor, st.voices[k].delay - n)
    decreases n
  {
    if n > 0 {
      var st1 := Row(dump, ftFix, st, 0);
      RowWaits(dump, ftFix, st, 0, k);
      RoomAfterRow(dump, st.voices, st1.voices, n);
      Waiting(dump, ftFix, st1, k, n - 1);
    }
  }

  /** A channel on its own that waits writes the empty cell on each of those
      rows and touches nothing else. */
  lemma {:induction false} WaitingAlone(dump: seq<byte>, ftFix: bool, st: Pass, n: nat)
    requires |st.voices| == 1 && n <= st.voices[0].delay
    requires Room(dump, st.voices, n)
    ensures Rows(dump, ftFix, st, n)
            == Pass([Voice(st.voices[0].cursor, st.voices[0].delay - n)], st.table, st.cells + seq(n, _ => 0x80))
    decreases n
  {
    if n > 0 {
      var v := st.voices[0];
      var st1 := Pass([Voice(v.cursor, v.delay - 1)], st.table, st.cells + [0x80]);
      assert Row(dump, ftFix, st, 0) == st1 by {
        assert Tick(dump, ftFix, st, 0) == st1;
      }
      WaitingAlone(dump, ftFix, st1, n - 1);
      assert st.cells + [0x80] + seq(n - 1, _ => 0x80) == st.cells + seq(n, _ => 0x80);
    }
  }

  lemma OpensWithDelay(dump: seq<byte>, ftFix: bool, st0: Pass, start: nat)
    requires st0.voices == [Voice(start, 0)] && st0.cells == []
    requires start + 4 <= |dump| && dump[start] == 0x3F
    ensures Row(dump, ftFix, st0, 0) == Pass([Voice(start + 1, 0x3F)], st0.table, [0x80])
  {
    var c := Decode(dump, start);
    assert c == Delay(0x3F);
    assert CellBytes(c, 0, ftFix) == [0x80];
    var e := Execute(dump, ftFix, st0.table, start);
    assert e == Executed(st0.table, [0x80], start + 1, 0x3F);
    var st1 := Tick(dump, ftFix, st0, 0);
    assert st1 == Pass([Voice(start + 1, 0x3F)], st0.table, [0x80]);
    assert Row(dump, ftFix, st0, 0) == Row(dump, ftFix, st1, 1);
  }

  /** A one-channel pattern whose stream opens with the longest delay, 0x3F,
      waits through every row: the delay command writes the first empty cell,
      the rows it holds write the rest; one byte is read and no instrument is
      registered. */
  lemma {:induction false} DelayOnlyRows(dump: seq<byte>, ftFix: bool, table: seq<byte>, start: nat, n: nat)
    requires 1 <= n <= 0x40 && start + 4 * n <= |dump| && dump[start] == 0x3F
    ensures Rows(dump, ftFix, Start([start], table), n)
            == Pass([Voice(start + 1, 0x40 - n)], table, seq(n, _ => 0x80))
  {
    var st0 := Start([start], table);
    assert st0.voices == [Voice(start, 0)];
    var st1 := Pass([Voice(start + 1, 0x3F)], table, [0x80]);
    OpensWithDelay(dump, ftFix, st0, start);
    RowsStep(dump, ftFix, st0, n);
    WaitingAlone(dump, ftFix, st1, n - 1);
    assert [0x80] + seq(n - 1, _ => 0x80) == seq(n, _ => 0x80);
  }

  /** The whole 64-row pattern of such a channel is 64 empty cells. */
  lemma DelayOnlyPattern(dump: seq<byte>, ftFix: bool, table: seq<byte>, start: nat)
    requires start + 4 * Rows64 <= |dump| && dump[start] == 0x3F
    ensures var p := Pattern(dump, ftFix, table, [start]);
            p.cells == seq(Rows64, _ => 0x80) && p.table == table && p.voices == [Voice(start + 1, 0)]
  {
    DelayOnlyRows(dump, ftFix, table, start, Rows64);
  }
}
