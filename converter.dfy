/** The converter's working state and the operations that change it, as
    pgm2xm.c writes them: the instrument table and its count, the output
    buffer that `fptr` walks, the per-channel read pointers and delays of the
    pattern pass, the `patterns` pointer table, and the song lookup of main. */
module Converter {
  import opened Bytes
  import opened Registry
  import opened Commands
  import opened Patterns
  import opened Samples
  import opened Song
  import opened Xm

  class Converter {
    /** `source`: the Z80 RAM dump. */
    const dump: seq<byte>
    /** `samples`: the 16 MB sample buffer as the sample ROMs filled it. */
    const samples: seq<byte>
    /** `usebios`, which also fixes `samplebase`. */
    const useBios: bool
    /** `ftfix`. */
    const ftFix: bool
    /** The file written so far: `filedata` up to `fptr`. */
    var out: seq<byte>
    /** `instable`. */
    const insTable: array<byte>
    /** `inscount`. */
    var insCount: nat

    ghost predicate Valid()
      reads this, insTable
    {
      && insTable.Length == 0x100
      && insCount <= 0x100
      && Distinct(insTable[..insCount])
      && |dump| >= DumpSize && |samples| == SampleSpace
    }

    /** The registry: the used part of `instable`. */
    ghost function Table(): seq<byte>
      reads this, insTable
      requires insCount <= insTable.Length
    {
      insTable[..insCount]
    }

    constructor (dump: seq<byte>, samples: seq<byte>, useBios: bool, ftFix: bool)
      requires |dump| >= DumpSize && |samples| == SampleSpace
      ensures Valid() && fresh(insTable)
      ensures this.dump == dump && this.samples == samples
      ensures this.useBios == useBios && this.ftFix == ftFix
      ensures out == [] && Table() == []
    {
      this.dump := dump;
      this.samples := samples;
      this.useBios := useBios;
      this.ftFix := ftFix;
      out := [];
      insTable := new byte[0x100](_ => 0);
      insCount := 0;
    }

    /** `instrument(id)` (pgm2xm.c:44-61): the 1-based number of sample
        `id - 1` in the table, appending it first when it is new; returned as
        a uint8_t. */
    method Instrument(id: byte) returns (n: byte)
      requires Valid()
      modifies this, insTable
      ensures Valid() && out == old(out)
      ensures var r := Resolve(old(Table()), id);
              Table() == r.table && n == r.index % 0x100
    {
      var key: byte := (id - 1) % 0x100;
      var i := 0;
      while i < insCount
        invariant 0 <= i <= insCount
        invariant forall m :: 0 <= m < i ==> insTable[m] != key
      {
        if insTable[i] == key {
          assert Find(Table(), key) == i;
          return (i + 1) % 0x100;
        }
        i := i + 1;
      }
      assert key !in Table();
      NoOverflow(Table(), key);
      insTable[insCount] := key;
      insCount := insCount + 1;
      assert Table() == old(Table()) + [key];
      n := insCount % 0x100;
    }

    /** The decoding half of `readcommand` (pgm2xm.c:130-186): the opcode's
        flag byte and the operands it carries, the cursor after them and the
        delay, in agreement with `Decode`. */
    method Fetch(cursor: nat) returns (flag: byte, note: byte, ins: byte, effect: byte, param: byte,
                                        next: nat, delay: nat)
      requires Fits(dump, cursor)
      ensures Fields(Decode(dump, cursor), flag, note, ins, effect, param)
      ensures next == cursor + Width(dump[cursor]) && delay == DelayOf(Decode(dump, cursor))
    {
      ghost var c := Decode(dump, cursor);
      var cmd := dump[cursor];
      next := cursor + 1;
      effect := cmd % 0x10;
      param, note, ins := 0, 0, 0;
      flag := 0x80;
      delay := 0;
      if cmd < 0x40 {
        delay := cmd;
        assert c == Delay(cmd);
      } else if cmd < 0x50 {
        flag := 0x80 + 0x18;
        param := dump[next];
        next := next + 1;
        assert c == Effect(effect, param);
      } else if 0x80 <= cmd < 0xC0 {
        flag := 0x80 + 0x03;
        note := cmd % 0x80;
        ins := dump[next];
        next := next + 1;
        assert c == Note(note, ins);
      } else if 0xC0 <= cmd < 0xD0 {
        flag := 0x80 + 0x1b;
        param := dump[next];
        note := dump[next + 1];
        ins := dump[next + 2];
        next := next + 3;
        assert c == EffectNoteIns(effect, param, note, ins);
      } else if 0xD0 <= cmd < 0xE0 {
        flag := 0x80 + 0x19;
        param := dump[next];
        note := dump[next + 1];
        next := next + 2;
        assert c == EffectNote(effect, param, note);
      } else if 0xE0 <= cmd < 0xF0 {
        flag := 0x80 + 0x1a;
        param := dump[next];
        ins := dump[next + 1];
        next := next + 2;
        assert c == EffectIns(effect, param, ins);
      } else {
        // An unknown opcode: the flag stays 0x80, only the opcode is consumed.
        assert c == Unknown(cmd);
      }
    }

    /** `readcommand` (pgm2xm.c:128-202): decodes the command at `cursor`,
        writes its packed cell, registers its sample, and gives the cursor
        after it and the delay it sets. */
    method ReadCommand(cursor: nat) returns (next: nat, delay: nat)
      requires Valid() && Fits(dump, cursor)
      modifies this, insTable
      ensures Valid()
      ensures var e := Execute(dump, ftFix, old(Table()), cursor);
              next == e.next && delay == e.delay && out == old(out) + e.cell && Table() == e.table
    {
      ghost var c := Decode(dump, cursor);
      var flag: byte, note: byte, ins: byte, effect: byte, param: byte;
      flag, note, ins, effect, param, next, delay := Fetch(cursor);
      ghost var t0 := Table();
      ghost var r := if HasInstrument(c) then Resolve(t0, c.ins) else Resolved(t0, 0);
      ExecuteCell(dump, ftFix, t0, cursor);
      out := out + [flag];
      ghost var noteAt := out;
      ghost var noteBytes: seq<byte> := if flag % 2 == 1 then [(note + 24) % 0x100] else [];
      if flag % 2 == 1 {
        out := out + [(note + 24) % 0x100];
      }
      assert out == noteAt + noteBytes;
      ghost var insAt := out;
      var n: byte := 0;
      if flag / 2 % 2 == 1 {
        n := Instrument(ins);
        out := out + [n];
      }
      ghost var insBytes: seq<byte> := if flag / 2 % 2 == 1 then [n] else [];
      assert out == insAt + insBytes && Table() == r.table && n == r.index % 0x100;
      CellFromFields(c, flag, note, ins, effect, param, n, ftFix);
      ghost var effectAt := out;
      ghost var effectBytes: seq<byte> := if flag / 8 % 4 != 0 then [effect, FineTune(effect, param, ftFix)] else [];
      if flag / 8 % 4 != 0 {
        WriteEffect(effect, param);
      }
      assert out == effectAt + effectBytes;
      Regroup(old(out), [flag], noteBytes, insBytes, effectBytes);
    }

    /** The effect pair of a packed cell (pgm2xm.c:189-199), with the
        fine-tune correction when `ftFix` is set. */
    method WriteEffect(effect: byte, param: byte)
      requires Valid()
      modifies this
      ensures Valid() && Table() == old(Table())
      ensures out == old(out) + [effect, FineTune(effect, param, ftFix)]
    {
      var p: byte := param;
      if effect == 0x0E && p / 0x10 == 5 && ftFix {
        p := p / 0x10 * 0x10 + (p as int % 0x10 - 8) % 0x10;
      }
      out := out + [effect, p];
    }

    /** The sample loop of `storeinstrument` (pgm2xm.c:117-125): `length`
        bytes from `start` in the sample buffer, each written as its
        difference from the byte before it, modulo 256. */
    method WriteSample(start: nat, length: nat)
      requires Valid() && start + length <= |samples|
      modifies this
      ensures Valid() && Table() == old(Table())
      ensures out == old(out) + Delta(samples[start .. start + length])
    {
      var i := 0;
      var delta: byte := 0;
      while i < length
        invariant 0 <= i <= length
        invariant Valid() && Table() == old(Table())
        invariant out == old(out) + Delta(samples[start .. start + i])
        invariant delta == Last(samples[start .. start + i])
      {
        var b := samples[start + i];
        DeltaAppend(samples[start .. start + i], b);
        assert samples[start .. start + i + 1] == samples[start .. start + i] + [b];
        out := out + [(b as int - delta as int) % 0x100];
        delta := b;
        i := i + 1;
      }
    }

    /** `storeinstrument(id)` (pgm2xm.c:63-126): the instrument header, the
        sample header and the delta-coded sample bytes. */
    method StoreInstrument(id: byte)
      requires Valid()
      modifies this
      ensures Valid() && Table() == old(Table())
      ensures out == old(out) + InstrumentBlock(dump, samples, useBios, id)
    {
      var sptr := DescriptorPtr(dump, id);
      var info := Transcode(DescriptorOf(dump, id), useBios);
      BlockParts(dump, samples, useBios, id, sptr, info);
      WriteBlock(id, sptr, info);
    }

    /** The headers and the sample data of sample `id`, whose descriptor at
        `sptr` transcodes to `info` (pgm2xm.c:97-125). */
    method WriteBlock(id: byte, sptr: u16, info: SampleInfo)
      requires Valid() && info.start + info.length <= |samples|
      modifies this
      ensures Valid() && Table() == old(Table())
      ensures out == old(out) + (InstrumentHeader(id, sptr) + SampleHeader(info, id))
                     + Delta(samples[info.start .. info.start + info.length])
    {
      var headers := InstrumentHeader(id, sptr) + SampleHeader(info, id);
      out := out + headers;
      WriteSample(info.start, info.length);
      Append3(old(out), headers, Delta(samples[info.start .. info.start + info.length]));
    }

    /** The position list (pgm2xm.c:233-238): `np` bytes from `at`. */
    method ReadPositions(at: nat, np: byte) returns (positions: seq<byte>)
      requires at + np <= |dump|
      ensures positions == dump[at .. at + np]
    {
      positions := [];
      var i := 0;
      while i < np
        invariant 0 <= i <= np
        invariant positions == dump[at .. at + i]
      {
        positions := positions + [dump[at + i]];
        i := i + 1;
      }
    }

    /** The header read of song2xm (pgm2xm.c:222-252): the three counts, the
        position list, the pad byte after an odd number of positions, the
        pattern pointers channel after channel into `patterns`, and after
        each channel the sentinel entries: the previous channel's sentinel
        becomes this channel's first pointer, this channel's is its last
        pointer plus 0x100. The guards are the corrected ones (see
        `Song.SentinelSlots`). */
    method ReadSong(songPtr: nat) returns (np: byte, nc: byte, npat: byte, positions: seq<byte>,
                                          patterns: array2<u16>)
      requires |dump| >= DumpSize && HeaderFits(dump, songPtr)
      ensures fresh(patterns) && patterns.Length0 == MaxChannels && patterns.Length1 == PatternSlots
      ensures var h := ReadHeader(dump, songPtr);
              && np == h.numPositions && nc == h.numChannels && npat == h.numPatterns
              && positions == h.positions
              && (forall j, i :: 0 <= j < nc && 0 <= i < npat ==> patterns[j, i] == h.pointers[j][i])
              && (npat > 0 ==> forall j :: 0 <= j < nc ==> patterns[j, npat] == Sentinel(h, j))
    {
      patterns := new u16[MaxChannels, PatternSlots]((_, _) => 0);
      np := dump[songPtr];
      nc := dump[songPtr + 1];
      npat := dump[songPtr + 2];
      positions := ReadPositions(songPtr + 4, np);
      var d: nat := songPtr + 4 + np;
      if np % 2 == 1 {
        d := d + 1;
      }
      ghost var h := ReadHeader(dump, songPtr);
      var j := 0;
      while j < nc
        invariant 0 <= j <= nc && d == songPtr + PointerBase(np) + 2 * (j * npat)
        invariant PointersRead(patterns, h, j)
      {
        d := ReadChannel(patterns, songPtr, h, j, d);
        NextRow(j, npat);
        j := j + 1;
      }
      AllPointersRead(patterns, h);
    }

    /** One channel of the pointer table (pgm2xm.c:240-252): its `npat`
        pointers from `d`, then its sentinels. */
    method ReadChannel(patterns: array2<u16>, p: nat, ghost h: SongHeader, j: nat, d: nat) returns (next: nat)
      requires |dump| >= DumpSize && HeaderFits(dump, p) && h == ReadHeader(dump, p) && j < h.numChannels
      requires patterns.Length0 == MaxChannels && patterns.Length1 == PatternSlots
      requires d == p + PointerBase(h.numPositions) + 2 * (j * h.numPatterns)
      requires PointersRead(patterns, h, j)
      modifies patterns
      ensures next == d + 2 * h.numPatterns as int
      ensures PointersRead(patterns, h, j + 1)
    {
      var npat := dump[p + 2];
      next := d;
      var i := 0;
      while i < npat
        invariant 0 <= i <= npat && next == d + 2 * i
        invariant forall i' :: 0 <= i' < i ==> patterns[j, i'] == h.pointers[j][i']
        invariant forall j', i' :: 0 <= j' < MaxChannels && 0 <= i' < PatternSlots && j' != j
                    ==> patterns[j', i'] == old(patterns[j', i'])
      {
        SlotInside(j, i, h.numChannels, npat);
        assert h.pointers[j][i] == Pointer(dump, p, j, i);
        patterns[j, i] := Word(dump, next);
        next := next + 2;
        i := i + 1;
      }
      Sentinels(patterns, h, j, npat);
    }

    /** The sentinel writes closing channel `j` of the pointer table
        (pgm2xm.c:248-251), made only when the song has patterns: the
        previous channel's sentinel becomes this channel's first pointer, and
        this channel's is its last pointer plus 0x100, kept to 16 bits. */
    method Sentinels(patterns: array2<u16>, ghost h: SongHeader, j: nat, npat: byte)
      requires WellShaped(h) && j < h.numChannels && npat == h.numPatterns
      requires patterns.Length0 == MaxChannels && patterns.Length1 == PatternSlots
      requires PointersRead(patterns, h, j)
      requires forall i :: 0 <= i < h.numPatterns ==> patterns[j, i] == h.pointers[j][i]
      modifies patterns
      ensures PointersRead(patterns, h, j + 1)
    {
      if npat > 0 {
        if j > 0 {
          patterns[j - 1, npat] := patterns[j, 0];
        }
        patterns[j, npat] := (patterns[j, npat - 1] as int + 0x100) % 0x1_0000;
      }
    }

    /** The pattern pass of song2xm (pgm2xm.c:284-318): pattern after
        pattern, each channel starting at its pointer for that pattern, the
        registry carried from one pattern to the next. */
    method WritePatterns(patterns: array2<u16>, nc: byte, npat: byte, ghost h: SongHeader)
      requires Valid() && WellShaped(h) && nc == h.numChannels && npat == h.numPatterns
      requires patterns.Length0 == MaxChannels && patterns.Length1 == PatternSlots
      requires Holds(patterns, h)
      modifies this, insTable
      ensures Valid()
      ensures Written(h, h.numPatterns, old(Table()), old(out))
    {
      ghost var t0 := Table();
      ghost var o0 := out;
      var i: nat := 0;
      while i < npat
        invariant i <= npat && Valid() && Written(h, i, t0, o0) && Holds(patterns, h)
      {
        ColumnOpens(patterns, h, i);
        NextPattern(patterns, nc, i, h, t0, o0);
        i := i + 1;
      }
    }

    /** The first `i` pattern blocks follow `start` in the output, and the
        registry is the one they leave behind. */
    ghost predicate Written(h: SongHeader, i: nat, t0: seq<byte>, start: seq<byte>)
      reads this, insTable
    {
      && insCount <= insTable.Length && |dump| >= DumpSize && WellShaped(h) && i <= h.numPatterns
      && var b := PatternsUpTo(dump, ftFix, h, i, t0);
         out == start + b.bytes && Table() == b.table
    }

    /** Pattern `i` of the pattern pass, after the first `i`. */
    method NextPattern(patterns: array2<u16>, nc: byte, i: nat, ghost h: SongHeader, ghost t0: seq<byte>,
                       ghost start: seq<byte>)
      requires Valid() && WellShaped(h) && nc == h.numChannels && i < h.numPatterns
      requires patterns.Length0 == MaxChannels && patterns.Length1 == PatternSlots
      requires Opens(patterns, i, nc, Column(h, i)) && Written(h, i, t0, start)
      modifies this, insTable
      ensures Valid() && Written(h, i + 1, t0, start)
    {
      ghost var prev := PatternsUpTo(dump, ftFix, h, i, t0);
      ghost var p := Pattern(dump, ftFix, prev.table, Column(h, i));
      PatternsStep(dump, ftFix, h, i, t0);
      WritePattern(patterns, i, nc, Column(h, i));
      Append3(start, prev.bytes, PatternBlock(p.cells));
    }

    /** The instruments of the registry in registry order (pgm2xm.c:325-326). */
    method WriteInstruments()
      requires Valid()
      modifies this
      ensures Valid() && Table() == old(Table())
      ensures out == old(out) + Instruments(dump, samples, useBios, old(Table()))
    {
      ghost var t0 := Table();
      ghost var o0 := out;
      var count := insCount;
      var n: nat := 0;
      while n < count
        invariant n <= count == insCount && Valid() && Table() == t0 && Stored(n, t0, o0)
      {
        NextInstrument(n, t0, o0);
        n := n + 1;
      }
      assert t0[..n] == t0;
    }

    /** The instruments of the first `n` registry entries of `t0` follow
        `start` in the output. */
    ghost predicate Stored(n: nat, t0: seq<byte>, start: seq<byte>)
      reads this
    {
      n <= |t0| && |dump| >= DumpSize && |samples| == SampleSpace
      && out == start + Instruments(dump, samples, useBios, t0[..n])
    }

    /** The instrument of registry entry `n` (pgm2xm.c:326). */
    method NextInstrument(n: nat, ghost t0: seq<byte>, ghost start: seq<byte>)
      requires Valid() && n < insCount && Table() == t0 && Stored(n, t0, start)
      modifies this
      ensures insCount == old(insCount) && Valid() && Table() == t0 && Stored(n + 1, t0, start)
    {
      var id := insTable[n];
      StoreInstrument(id);
      InstrumentsStep(dump, samples, useBios, t0, n);
      Append3(start, Instruments(dump, samples, useBios, t0[..n]), InstrumentBlock(dump, samples, useBios, id));
    }

    /** `*inscount2 = inscount` (pgm2xm.c:328): the instrument count into the
        two bytes at offset 72 of the header. */
    method PatchCount(ghost title: seq<byte>, ghost np: byte, ghost nc: byte, ghost npat: byte,
                      ghost positions: seq<byte>, ghost rest: seq<byte>)
      requires Valid() && |positions| <= 256
      requires out == XmHeader(title, np, nc, npat, 0, positions) + rest
      modifies this
      ensures Valid() && Table() == old(Table())
      ensures out == XmHeader(title, np, nc, npat, insCount, positions) + rest
    {
      Xm.PatchCount(title, np, nc, npat, insCount, positions, rest);
      out := out[..72] + LE16(insCount) + out[74..];
    }

    /** song2xm (pgm2xm.c:204-328): the registry emptied, the song header
        read, the module header written with instrument count 0, the pattern
        pass, the instruments, and the count back-patched. */
    method Song2Xm(songPtr: nat, title: seq<byte>)
      requires Valid() && insCount == 0 && HeaderFits(dump, songPtr) && NoNul(title)
      modifies this, insTable
      ensures Valid()
      ensures out == Image(dump, samples, useBios, ftFix, title, songPtr)
    {
      var k := 0;
      while k < 0x100
        modifies insTable
        invariant 0 <= k <= 0x100
      {
        insTable[k] := 0;
        k := k + 1;
      }
      var np, nc, npat, positions, patterns := ReadSong(songPtr);
      ghost var h := ReadHeader(dump, songPtr);
      ColumnsOpen(patterns, h);
      out := XmHeader(title, np, nc, npat, 0, positions);
      WritePatterns(patterns, nc, npat, h);
      ghost var b := PatternsUpTo(dump, ftFix, h, h.numPatterns, []);
      WriteInstruments();
      ghost var rest := b.bytes + Instruments(dump, samples, useBios, b.table);
      Append3(XmHeader(title, np, nc, npat, 0, positions), b.bytes, Instruments(dump, samples, useBios, b.table));
      DistinctBound(b.table);
      PatchCount(title, np, nc, npat, positions, rest);
    }

    /** The song lookup of main (pgm2xm.c:503-514), with the bound corrected
        to `songId < maxsongs`: a song that exists is converted from the
        pointer the driver's table holds for it; any other id writes
        nothing. */
    method Run(songId: nat, title: seq<byte>) returns (found: bool)
      requires Valid() && insCount == 0 && out == [] && NoNul(title)
      requires Lookup(dump, songId).Some? ==> HeaderFits(dump, Lookup(dump, songId).value as nat)
      modifies this, insTable
      ensures Valid()
      ensures found <==> songId < dump[SongCountAt] as nat
      ensures found ==> out == Image(dump, samples, useBios, ftFix, title, Lookup(dump, songId).value as nat)
      ensures !found ==> out == [] && Table() == []
    {
      var maxSongs := dump[SongCountAt];
      if songId >= maxSongs as nat {
        return false;
      }
      var songPtr := Word(dump, SongTableAt + 2 * songId);
      Song2Xm(songPtr as nat, title);
      return true;
    }

    /** The pattern pass state the locals of song2xm hold: the voices of the
        first `nc` channels, the registry, and what was written since `mark`. */
    ghost function PassOf(cursors: array<nat>, delays: array<nat>, nc: nat, mark: nat): Pass
      reads this, insTable, cursors, delays
      requires insCount <= insTable.Length && nc <= cursors.Length && nc <= delays.Length && mark <= |out|
    {
      Pass(Voices(cursors, delays, nc), Table(), out[mark..])
    }

    /** Channel `j`'s turn (pgm2xm.c:306-312): a channel with no delay pending
        runs its next command, any other counts its delay down and writes the
        empty cell. */
    method Turn(cursors: array<nat>, delays: array<nat>, nc: nat, j: nat, mark: nat, ghost st: Pass)
      requires Valid() && cursors != delays && nc <= cursors.Length && nc <= delays.Length
      requires j < nc && mark <= |out| && cursors[j] + 4 <= |dump|
      requires st == PassOf(cursors, delays, nc, mark)
      modifies this, insTable, cursors, delays
      ensures Valid() && |out| >= mark && out[..mark] == old(out[..mark])
      ensures forall k :: 0 <= k < cursors.Length && k != j ==> cursors[k] == old(cursors[k])
      ensures PassOf(cursors, delays, nc, mark) == Tick(dump, ftFix, st, j)
    {
      ghost var before := out;
      if delays[j] == 0 {
        var next, delay := ReadCommand(cursors[j]);
        cursors[j] := next;
        delays[j] := delay;
      } else {
        delays[j] := delays[j] - 1;
        out := out + [0x80];
      }
      assert out[mark..] == before[mark..] + out[|before|..];
      assert Voices(cursors, delays, nc) == Tick(dump, ftFix, st, j).voices;
    }

    /** One row: every channel's turn, in channel order (pgm2xm.c:304-313). */
    method PlayRow(cursors: array<nat>, delays: array<nat>, nc: nat, mark: nat, ghost st: Pass)
      requires Valid() && cursors != delays && nc <= cursors.Length && nc <= delays.Length && mark <= |out|
      requires st == PassOf(cursors, delays, nc, mark)
      requires forall k :: 0 <= k < |st.voices| ==> st.voices[k].cursor + 4 <= |dump|
      modifies this, insTable, cursors, delays
      ensures Valid() && |out| >= mark && out[..mark] == old(out[..mark])
      ensures PassOf(cursors, delays, nc, mark) == Row(dump, ftFix, st, 0)
    {
      var j := 0;
      while j < nc
        invariant 0 <= j <= nc
        invariant Valid() && |out| >= mark && out[..mark] == old(out[..mark])
        invariant Turning(cursors, delays, nc, mark, st, j)
      {
        NextTurn(cursors, delays, nc, mark, st, j);
        j := j + 1;
      }
    }

    /** The channels from `j` on still have a whole command ahead of their
        cursors, and finishing the row from channel `j` finishes the row
        begun at `st`. */
    ghost predicate Turning(cursors: array<nat>, delays: array<nat>, nc: nat, mark: nat, st: Pass, j: nat)
      reads this, insTable, cursors, delays
    {
      && insCount <= insTable.Length && nc <= cursors.Length && nc <= delays.Length && mark <= |out| && j <= nc
      && (forall k :: j <= k < nc ==> cursors[k] + 4 <= |dump|)
      && |st.voices| == nc && (forall k :: 0 <= k < nc ==> st.voices[k].cursor + 4 <= |dump|)
      && Row(dump, ftFix, PassOf(cursors, delays, nc, mark), j) == Row(dump, ftFix, st, 0)
    }

    /** Channel `j`'s turn within the row begun at `st`. */
    method NextTurn(cursors: array<nat>, delays: array<nat>, nc: nat, mark: nat, ghost st: Pass, j: nat)
      requires Valid() && cursors != delays && j < nc && Turning(cursors, delays, nc, mark, st, j)
      modifies this, insTable, cursors, delays
      ensures Valid() && |out| >= mark && out[..mark] == old(out[..mark])
      ensures Turning(cursors, delays, nc, mark, st, j + 1)
    {
      ghost var now := PassOf(cursors, delays, nc, mark);
      RowStep(dump, ftFix, now, j);
      Turn(cursors, delays, nc, j, mark, now);
    }

    /** `*pattern_size = fptr - startoffset`: the block header written after
        `pre` gets the number of bytes that follow it, as a uint16_t. */
    method PatchSize(ghost pre: seq<byte>, mark: nat)
      requires Valid() && |pre| + 9 == mark <= |out|
      requires out[..mark] == pre + (LE32(9) + [0] + LE16(64)) + LE16(0)
      modifies this
      ensures Valid() && Table() == old(Table())
      ensures out == pre + PatternBlock(old(out)[mark..])
    {
      ghost var whole := out;
      out := out[..mark - 2] + LE16((|out| - mark) % 0x1_0000) + out[mark..];
      Backpatch(pre, LE32(9) + [0] + LE16(64), whole);
    }

    /** `rows` rows from pass state `st`: the remaining rows of a pattern
        (pgm2xm.c:302-314). */
    method PlayRows(cursors: array<nat>, delays: array<nat>, nc: nat, mark: nat, rows: nat, ghost st: Pass)
      requires Valid() && cursors != delays && nc <= cursors.Length && nc <= delays.Length && mark <= |out|
      requires st == PassOf(cursors, delays, nc, mark) && Room(dump, st.voices, rows)
      modifies this, insTable, cursors, delays
      ensures Valid() && |out| >= mark && out[..mark] == old(out)[..mark]
      ensures PassOf(cursors, delays, nc, mark) == Rows(dump, ftFix, st, rows)
    {
      var r := 0;
      while r < rows
        invariant 0 <= r <= rows
        invariant Valid() && |out| >= mark && out[..mark] == old(out[..mark])
        invariant Playing(cursors, delays, nc, mark, st, rows, rows - r)
      {
        PlayNextRow(cursors, delays, nc, mark, st, rows, rows - r);
        r := r + 1;
      }
    }

    /** From pass state `st`, `rows` rows give what `left` rows give from the
        state the locals hold now. */
    ghost predicate Playing(cursors: array<nat>, delays: array<nat>, nc: nat, mark: nat, st: Pass, rows: nat, left: nat)
      reads this, insTable, cursors, delays
    {
      && insCount <= insTable.Length && nc <= cursors.Length && nc <= delays.Length && mark <= |out|
      && Room(dump, st.voices, rows)
      && var now := PassOf(cursors, delays, nc, mark);
         Room(dump, now.voices, left) && Rows(dump, ftFix, now, left) == Rows(dump, ftFix, st, rows)
    }

    /** One more row of the pattern (pgm2xm.c:304-313). */
    method PlayNextRow(cursors: array<nat>, delays: array<nat>, nc: nat, mark: nat, ghost st: Pass, ghost rows: nat, left: nat)
      requires Valid() && cursors != delays && left > 0 && Playing(cursors, delays, nc, mark, st, rows, left)
      modifies this, insTable, cursors, delays
      ensures Valid() && |out| >= mark && out[..mark] == old(out[..mark])
      ensures Playing(cursors, delays, nc, mark, st, rows, left - 1)
    {
      ghost var now := PassOf(cursors, delays, nc, mark);
      RowsStep(dump, ftFix, now, left);
      PlayRow(cursors, delays, nc, mark, now);
    }

    /** One pattern of the pattern pass (pgm2xm.c:286-317): the block header
        with a size placeholder, every channel starting at its pointer in
        column `i` of `patterns`, 64 rows of turns, and the size back-patched
        as a uint16_t. */
    method WritePattern(patterns: array2<u16>, i: nat, nc: nat, ghost starts: seq<nat>)
      requires Valid() && nc <= MaxChannels
      requires patterns.Length0 == MaxChannels && patterns.Length1 == PatternSlots && i < PatternSlots
      requires Opens(patterns, i, nc, starts)
      modifies this, insTable
      ensures Valid()
      ensures var p := Pattern(dump, ftFix, old(Table()), starts);
              out == old(out) + PatternBlock(p.cells) && Table() == p.table
    {
      ghost var t0 := Table();
      var head := LE32(9) + [0] + LE16(64);
      out := out + head + LE16(0);
      var mark := |out|;
      var cursors, delays := OpenChannels(patterns, i, nc, starts);
      PlayRows(cursors, delays, nc, mark, Rows64, Start(starts, t0));
      PatchSize(old(out), mark);
    }
  }

  /** Each channel's read pointer at its stream for pattern `i`, no delay
      pending (pgm2xm.c:296-300). */
  method OpenChannels(patterns: array2<u16>, i: nat, nc: nat, ghost starts: seq<nat>)
    returns (cursors: array<nat>, delays: array<nat>)
    requires nc <= MaxChannels && patterns.Length0 == MaxChannels && i < patterns.Length1
    requires Opens(patterns, i, nc, starts)
    ensures fresh(cursors) && fresh(delays) && cursors != delays
    ensures cursors.Length == MaxChannels && delays.Length == MaxChannels
    ensures Voices(cursors, delays, nc) == Start(starts, []).voices
  {
    cursors := new nat[MaxChannels](_ => 0);    // channelptrs
    delays := new nat[MaxChannels](_ => 0);     // channeldelays
    var j := 0;
    while j < nc
      modifies cursors, delays
      invariant 0 <= j <= nc
      invariant forall k :: 0 <= k < j ==> cursors[k] == patterns[k, i] && delays[k] == 0
    {
      cursors[j] := patterns[j, i];
      delays[j] := 0;
      j := j + 1;
    }
  }

  /** The first `j` channels of the pointer table are read into `patterns`,
      with the sentinels the converter has stored after them so far. */
  ghost predicate PointersRead(patterns: array2<u16>, h: SongHeader, j: nat)
    reads patterns
    requires patterns.Length0 == MaxChannels && patterns.Length1 == PatternSlots
    requires WellShaped(h) && j <= h.numChannels
  {
    var npat := h.numPatterns;
    && (forall j', i' :: 0 <= j' < j && 0 <= i' < npat ==> patterns[j', i'] == h.pointers[j'][i'])
    && (npat > 0 ==> forall j' :: 0 <= j' && j' + 1 < j ==> patterns[j', npat] == h.pointers[j' + 1][0])
    && (npat > 0 && j > 0 ==> patterns[j - 1, npat] == (h.pointers[j - 1][npat - 1] as int + 0x100) % 0x1_0000)
  }

  /** Once every channel is read, `patterns` holds the header's pointers and
      each channel's sentinel. */
  lemma AllPointersRead(patterns: array2<u16>, h: SongHeader)
    requires patterns.Length0 == MaxChannels && patterns.Length1 == PatternSlots
    requires WellShaped(h) && h.numPatterns < PatternSlots && PointersRead(patterns, h, h.numChannels)
    ensures forall j, i :: 0 <= j < h.numChannels && 0 <= i < h.numPatterns ==> patterns[j, i] == h.pointers[j][i]
    ensures h.numPatterns > 0 ==> forall j :: 0 <= j < h.numChannels ==> patterns[j, h.numPatterns] == Sentinel(h, j)
  {
  }

  lemma NextRow(j: nat, n: nat)
    ensures (j + 1) * n == j * n + n
  {
  }

  /** Every column of `patterns` in use holds the pattern pointers of the
      same pattern of header `h`. */
  ghost predicate Holds(patterns: array2<u16>, h: SongHeader)
    reads patterns
    requires WellShaped(h)
  {
    forall i :: 0 <= i < h.numPatterns ==> Opens(patterns, i, h.numChannels, Column(h, i))
  }

  /** A pointer table read from header `h` holds its pattern pointers column
      by column. */
  lemma ColumnsOpen(patterns: array2<u16>, h: SongHeader)
    requires patterns.Length0 == MaxChannels && patterns.Length1 == PatternSlots
    requires WellShaped(h) && h.numPatterns < PatternSlots
    requires forall j, i :: 0 <= j < h.numChannels && 0 <= i < h.numPatterns ==> patterns[j, i] == h.pointers[j][i]
    ensures Holds(patterns, h)
  {
  }

  lemma ColumnOpens(patterns: array2<u16>, h: SongHeader, i: nat)
    requires WellShaped(h) && i < h.numPatterns && Holds(patterns, h)
    ensures Opens(patterns, i, h.numChannels, Column(h, i))
  {
  }

  /** Column `i` of the pattern pointer table holds `starts` for the first
      `nc` channels. */
  ghost predicate Opens(patterns: array2<u16>, i: nat, nc: nat, starts: seq<nat>)
    reads patterns
  {
    && nc <= patterns.Length0 && i < patterns.Length1 && |starts| == nc
    && forall k :: 0 <= k < nc ==> starts[k] == patterns[k, i]
  }

  /** The voices of the first `nc` channels. */
  ghost function Voices(cursors: array<nat>, delays: array<nat>, nc: nat): (v: seq<Voice>)
    reads cursors, delays
    requires nc <= cursors.Length && nc <= delays.Length
    ensures |v| == nc && forall k :: 0 <= k < nc ==> v[k] == Voice(cursors[k], delays[k])
  {
    seq(nc, k requires 0 <= k < nc reads cursors, delays => Voice(cursors[k], delays[k]))
  }

  /** Back-patching the size field of a pattern block written after
      `prefix` gives the block. */
  lemma Backpatch(prefix: seq<byte>, head: seq<byte>, whole: seq<byte>)
    requires head == LE32(9) + [0] + LE16(64)
    requires |prefix| + 9 <= |whole| && whole[..|prefix| + 9] == prefix + head + LE16(0)
    ensures var cells := whole[|prefix| + 9..];
            whole[..|prefix| + 7] + LE16(|cells| % 0x1_0000) + cells == prefix + PatternBlock(cells)
  {
    var cells := whole[|prefix| + 9..];
    assert whole[..|prefix| + 7] == whole[..|prefix| + 9][..|prefix| + 7];
    assert whole[..|prefix| + 7] == prefix + head;
    assert PatternBlock(cells) == head + LE16(|cells| % 0x1_0000) + cells;
  }

  lemma Append3(a: seq<byte>, b: seq<byte>, c: seq<byte>)
    ensures a + b + c == a + (b + c)
  {
  }

  lemma Regroup(a: seq<byte>, b: seq<byte>, c: seq<byte>, d: seq<byte>, e: seq<byte>)
    ensures a + b + c + d + e == a + (b + c + d + e)
  {
  }

  /** The packed cell in terms of the locals `readcommand` fills. */
  lemma CellFromFields(c: Command, flag: byte, note: byte, ins: byte, effect: byte, param: byte, n: byte, ftFix: bool)
    requires Fields(c, flag, note, ins, effect, param)
    ensures CellBytes(c, n, ftFix)
            == [flag] + (if flag % 2 == 1 then [(note + 24) % 0x100] else [])
               + (if flag / 2 % 2 == 1 then [n] else [])
               + (if flag / 8 % 4 != 0 then [effect, FineTune(effect, param, ftFix)] else [])
  {
  }

  /** The locals `readcommand` fills agree with the decoded command. */
  ghost predicate Fields(c: Command, flag: byte, note: byte, ins: byte, effect: byte, param: byte) {
    && flag == Flag(c)
    && (NoteBit(flag) ==> note == c.note)
    && (InstrumentBit(flag) <==> HasInstrument(c))
    && (HasInstrument(c) ==> ins == c.ins)
    && (EffectBits(flag) ==> effect == c.effect && param == c.param)
  }
}
