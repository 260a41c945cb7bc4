/** The XM file `song2xm` builds (pgm2xm.c:254-328): the 336-byte module
    header, one packed pattern block per pattern, and one instrument per
    registered sample, each an instrument header, a sample header and the
    delta-coded sample bytes. */
module Xm {
  import opened Bytes
  import opened Registry
  import opened Commands
  import opened Patterns
  import opened Samples
  import opened Song

  // ---------------------------------------------------------------------
  // Text fields.

  /** A string of 8-bit characters as the bytes `sprintf` writes. */
  function Text(s: string): (b: seq<byte>)
    requires forall i :: 0 <= i < |s| ==> s[i] as int < 0x100
    ensures |b| == |s|
  {
    seq(|s|, i requires 0 <= i < |s| => s[i] as int)
  }

  /** A C string: no NUL byte inside. */
  predicate NoNul(s: seq<byte>) {
    forall i :: 0 <= i < |s| ==> s[i] != 0
  }

  /** A field of `n` bytes holding `text`, then its terminating NUL and the
      bytes after it, all zero. */
  function Pad(text: seq<byte>, n: nat): (f: seq<byte>)
    requires |text| <= n
    ensures |f| == n && f[..|text|] == text
  {
    text + Zeros(n - |text|)
  }

  /** The lower-case hexadecimal digit `printf`'s `%x` prints for `d`. */
  function HexDigit(d: nat): byte
    requires d < 0x10
  {
    if d < 10 then 0x30 + d else 0x61 + (d - 10)
  }

  /** The value of a hexadecimal digit. */
  function DigitValue(c: byte): nat {
    if 0x30 <= c <= 0x39 then c - 0x30 else if 0x61 <= c <= 0x66 then c - 0x61 + 10 else 0
  }

  /** `%0<width>x`: the digits of `n`, at least `width` of them, zero-padded
      on the left. */
  function Hex(n: nat, width: nat): (s: seq<byte>)
    ensures |s| >= 1 && |s| >= width
    decreases n, width
  {
    if n < 0x10 && width <= 1 then [HexDigit(n)]
    else Hex(n / 0x10, if width > 0 then width - 1 else 0) + [HexDigit(n % 0x10)]
  }

  /** Reads a string of hexadecimal digits back as a number. */
  function HexValue(s: seq<byte>): nat
    decreases |s|
  {
    if s == [] then 0 else HexValue(s[..|s| - 1]) * 0x10 + DigitValue(s[|s| - 1])
  }

  /** Reading the printed digits gives the number back. */
  lemma {:induction false} HexRoundTrip(n: nat, width: nat)
    ensures HexValue(Hex(n, width)) == n
    decreases n, width
  {
    if !(n < 0x10 && width <= 1) {
      var s := Hex(n, width);
      HexRoundTrip(n / 0x10, if width > 0 then width - 1 else 0);
      assert s[..|s| - 1] == Hex(n / 0x10, if width > 0 then width - 1 else 0);
    }
  }

  /** 16 to the `k`. */
  function Pow16(k: nat): (p: nat)
    ensures p >= 1
  {
    if k == 0 then 1 else 0x10 * Pow16(k - 1)
  }

  /** A number below 16^k prints in at most k digits when the width is at
      most k. */
  lemma {:induction false} HexLength(n: nat, width: nat, k: nat)
    requires 1 <= k && n < Pow16(k) && width <= k
    ensures |Hex(n, width)| <= k
    decreases n, width
  {
    if !(n < 0x10 && width <= 1) {
      if k > 1 {
        HexLength(n / 0x10, if width > 0 then width - 1 else 0, k - 1);
      }
    }
  }

  /** The name `storeinstrument` prints into a header: the sample id in two
      digits, " at ", and an address in `width` digits. */
  function Label(id: byte, addr: nat, width: nat): seq<byte> {
    Hex(id, 2) + Text(" at ") + Hex(addr, width)
  }

  /** The two labels fit the 22-byte name fields with their NUL. */
  lemma LabelLength(id: byte, addr: u32, width: nat)
    requires width == 4 || width == 6
    requires width == 4 ==> addr < 0x1_0000
    ensures |Label(id, addr, width)| <= 14
  {
    assert Pow16(2) == 0x100;
    assert Pow16(4) == 0x1_0000;
    assert Pow16(8) == 0x1_0000_0000;
    HexLength(id, 2, 2);
    if width == 4 {
      HexLength(addr, 4, 4);
    } else {
      HexLength(addr, 6, 8);
    }
  }

  // ---------------------------------------------------------------------
  // The module header.

  const Signature: string := "Extended Module: "
  const Tracker: string := "pgm2xm 151118 by ctr"

  /** `title[20] = 0` when the title is longer than 20 characters. */
  function Title(title: seq<byte>): (t: seq<byte>)
    ensures t <= title && |t| == if |title| > 20 then 20 else |title|
  {
    if |title| > 20 then title[..20] else title
  }

  /** Bytes 0 .. 71 of the header: everything before the instrument count. */
  function HeaderHead(title: seq<byte>, np: byte, nc: byte, npat: byte): (x: seq<byte>)
    ensures |x| == 72
  {
    Text(Signature) + Pad(Title(title), 20) + [0x1a] + Text(Tracker) + LE16(0x104)
    + LE32(276) + LE16(np) + LE16(0) + LE16(nc) + LE16(npat)
  }

  /** Bytes 74 .. 335: flags, tempo, BPM and the order table. */
  function HeaderTail(positions: seq<byte>): (x: seq<byte>)
    requires |positions| <= 256
    ensures |x| == 262
  {
    LE16(0) + LE16(6) + LE16(125) + Pad(positions, 256)
  }

  /** The XM module header of pgm2xm.c:254-276: "Extended Module: " and the
      title, 0x1a, the tracker name, version 0x0104, the 276-byte header
      size, song length, restart position 0, channel, pattern and instrument
      counts, flags 0, tempo 6, BPM 125, and the order table. */
  function XmHeader(title: seq<byte>, np: byte, nc: byte, npat: byte, ninstr: u16,
                    positions: seq<byte>): (x: seq<byte>)
    requires |positions| <= 256
    ensures |x| == 336
  {
    HeaderHead(title, np, nc, npat) + LE16(ninstr) + HeaderTail(positions)
  }

  /** The header's numeric fields read back at the offsets the XM format
      gives them. */
  lemma XmHeaderFields(title: seq<byte>, np: byte, nc: byte, npat: byte, ninstr: u16, positions: seq<byte>)
    requires |positions| == np
    ensures var x := XmHeader(title, np, nc, npat, ninstr, positions);
            && x[37] == 0x1a
            && Word(x, 58) == 0x104
            && Dword(x, 60) == 276
            && Word(x, 64) == np && Word(x, 66) == 0
            && Word(x, 68) == nc && Word(x, 70) == npat
            && Word(x, 72) == ninstr && Word(x, 74) == 0
            && Word(x, 76) == 6 && Word(x, 78) == 125
  {
  }

  /** The header's text fields and order table read back. */
  lemma XmHeaderText(title: seq<byte>, np: byte, nc: byte, npat: byte, ninstr: u16, positions: seq<byte>)
    requires |positions| == np
    ensures var x := XmHeader(title, np, nc, npat, ninstr, positions);
            && x[..17] == Text(Signature)
            && x[17 .. 17 + |Title(title)|] == Title(title)
            && x[38 .. 58] == Text(Tracker)
            && x[80 .. 80 + np] == positions
  {
    var x := XmHeader(title, np, nc, npat, ninstr, positions);
    var sig, pad, trk := Text(Signature), Pad(Title(title), 20), Text(Tracker);
    var order := Pad(positions, 256);
    forall k | 0 <= k < 17 ensures x[k] == sig[k] { }
    forall k | 0 <= k < 20 ensures x[17 + k] == pad[k] { }
    forall k | 0 <= k < 20 ensures x[38 + k] == trk[k] { }
    forall k | 0 <= k < 256 ensures x[80 + k] == order[k] { }
    assert x[17 .. 17 + |Title(title)|] == pad[..|Title(title)|];
    assert x[80 .. 80 + np] == order[..np];
  }

  /** Writing the instrument count into a header made with count 0 gives the
      header made with that count (the back-patch of pgm2xm.c:328). */
  lemma PatchCount(title: seq<byte>, np: byte, nc: byte, npat: byte, ninstr: u16,
                    positions: seq<byte>, rest: seq<byte>)
    requires |positions| <= 256
    ensures var x := XmHeader(title, np, nc, npat, 0, positions) + rest;
            x[..72] + LE16(ninstr) + x[74..] == XmHeader(title, np, nc, npat, ninstr, positions) + rest
  {
    var head := HeaderHead(title, np, nc, npat);
    var x := XmHeader(title, np, nc, npat, 0, positions) + rest;
    assert x == head + LE16(0) + (HeaderTail(positions) + rest);
    assert x[..72] == head;
    assert x[74..] == HeaderTail(positions) + rest;
  }

  // ---------------------------------------------------------------------
  // Pattern blocks.

  /** One pattern: header length 9, packing type 0, 64 rows, the size of the
      packed data (the back-patched `pattern_size`, a uint16_t), the data. */
  function PatternBlock(cells: seq<byte>): (b: seq<byte>)
    ensures |b| == 9 + |cells| && b[9..] == cells
  {
    LE32(9) + [0] + LE16(64) + LE16(|cells| % 0x1_0000) + cells
  }

  /** The block's fields read back; its size field is the number of data
      bytes that follow when that number fits 16 bits. */
  lemma PatternBlockFields(cells: seq<byte>)
    ensures var b := PatternBlock(cells);
            && Dword(b, 0) == 9 && b[4] == 0 && Word(b, 5) == 64
            && Word(b, 7) == |cells| % 0x1_0000
            && (|cells| < 0x1_0000 ==> Word(b, 7) == |b| - 9)
  {
    var b := PatternBlock(cells);
    DwordAt([], 9, [0] + LE16(64) + LE16(|cells| % 0x1_0000) + cells);
    assert b == LE32(9) + ([0] + LE16(64) + LE16(|cells| % 0x1_0000) + cells);
    WordAt(LE32(9) + [0], 64, LE16(|cells| % 0x1_0000) + cells);
    WordAt(LE32(9) + [0] + LE16(64), |cells| % 0x1_0000, cells);
  }

  /** The pattern pointers of pattern `i`, one per channel. */
  function Column(h: SongHeader, i: nat): (starts: seq<nat>)
    requires WellShaped(h) && i < h.numPatterns
    ensures |starts| == h.numChannels
    ensures forall j :: 0 <= j < |starts| ==> starts[j] < 0x1_0000
  {
    seq(h.numChannels, j requires 0 <= j < h.numChannels => h.pointers[j][i] as nat)
  }

  /** The registry after some patterns, and their blocks. */
  datatype Built = Built(table: seq<byte>, bytes: seq<byte>)

  /** The first `n` pattern blocks of the pattern pass (pgm2xm.c:284-318),
      threading the registry from one pattern to the next. */
  function PatternsUpTo(dump: seq<byte>, ftFix: bool, h: SongHeader, n: nat, table: seq<byte>): (b: Built)
    requires |dump| >= DumpSize && WellShaped(h) && n <= h.numPatterns
    ensures table <= b.table && (Distinct(table) ==> Distinct(b.table))
    ensures 9 * n <= |b.bytes|
    decreases n
  {
    if n == 0 then Built(table, [])
    else
      var prev := PatternsUpTo(dump, ftFix, h, n - 1, table);
      var p := Pattern(dump, ftFix, prev.table, Column(h, n - 1));
      PatternSize(dump, ftFix, prev.table, Column(h, n - 1));
      Built(p.table, prev.bytes + PatternBlock(p.cells))
  }

  /** One more pattern appends its block and carries the registry on. */
  lemma PatternsStep(dump: seq<byte>, ftFix: bool, h: SongHeader, i: nat, table: seq<byte>)
    requires |dump| >= DumpSize && WellShaped(h) && i < h.numPatterns
    ensures var prev := PatternsUpTo(dump, ftFix, h, i, table);
            var p := Pattern(dump, ftFix, prev.table, Column(h, i));
            PatternsUpTo(dump, ftFix, h, i + 1, table) == Built(p.table, prev.bytes + PatternBlock(p.cells))
  {
  }

  // ---------------------------------------------------------------------
  // Instruments.

  /** The 252-byte instrument header of pgm2xm.c:99-107: header size 252, the
      name "<id> at <descriptor>", type 0, one sample, sample header size 40,
      and zeros for the rest. */
  function InstrumentHeader(id: byte, sptr: u16): (x: seq<byte>)
    ensures |x| == 252
  {
    LabelLength(id, sptr, 4);
    LE32(252) + Pad(Label(id, sptr, 4), 22) + [0] + LE16(1) + LE32(40) + Zeros(219)
  }

  /** The 40-byte sample header of pgm2xm.c:108-115: length, loop start,
      loop length, volume, finetune 0, loop type (forward when flag 0x08 is
      set), panning 128, relative note and reserved byte 0, and the name
      "<id> at <start>". */
  function SampleHeader(r: SampleInfo, id: byte): (x: seq<byte>)
    ensures |x| == 40
  {
    LabelLength(id, r.start, 6);
    LE32(r.length) + LE32(r.loopStart) + LE32(r.loopLength)
    + [r.volume, 0, if r.loops then 1 else 0, 128, 0, 0]
    + Pad(Label(id, r.start, 6), 22)
  }

  /** A reader finds the sample's length, loop start and loop length at
      offsets 0, 4 and 8, the volume at 12, the loop type at 14 and the
      centre panning at 15. */
  lemma SampleHeaderFields(r: SampleInfo, id: byte)
    ensures var x := SampleHeader(r, id);
            && Dword(x, 0) == r.length && Dword(x, 4) == r.loopStart && Dword(x, 8) == r.loopLength
            && x[12] == r.volume && x[14] == (if r.loops then 1 else 0) && x[15] == 128
  {
    LabelLength(id, r.start, 6);
    var rest := [r.volume, 0, if r.loops then 1 else 0, 128, 0, 0] + Pad(Label(id, r.start, 6), 22);
    var x := SampleHeader(r, id);
    assert x == LE32(r.length) + LE32(r.loopStart) + LE32(r.loopLength) + rest;
    DwordAt([], r.length, LE32(r.loopStart) + LE32(r.loopLength) + rest);
    DwordAt(LE32(r.length), r.loopStart, LE32(r.loopLength) + rest);
    DwordAt(LE32(r.length) + LE32(r.loopStart), r.loopLength, rest);
  }

  /** The descriptor of sample `id`. */
  function DescriptorOf(dump: seq<byte>, id: byte): Descriptor
    requires |dump| >= DumpSize
  {
    ReadDescriptor(dump, DescriptorPtr(dump, id))
  }

  /** The sample data of sample `id`: its bytes in the sample buffer. */
  function SampleData(dump: seq<byte>, samples: seq<byte>, useBios: bool, id: byte): (data: seq<byte>)
    requires |dump| >= DumpSize && |samples| == SampleSpace
    ensures |data| == Transcode(DescriptorOf(dump, id), useBios).length
  {
    var r := Transcode(DescriptorOf(dump, id), useBios);
    TranscodeInBounds(DescriptorOf(dump, id), useBios);
    samples[r.start .. r.start + r.length]
  }

  /** `storeinstrument(id)` (pgm2xm.c:63-126): instrument header, sample
      header, delta-coded sample data. */
  function InstrumentBlock(dump: seq<byte>, samples: seq<byte>, useBios: bool, id: byte): (b: seq<byte>)
    requires |dump| >= DumpSize && |samples| == SampleSpace
    ensures |b| == 292 + Transcode(DescriptorOf(dump, id), useBios).length
  {
    var r := Transcode(DescriptorOf(dump, id), useBios);
    InstrumentHeader(id, DescriptorPtr(dump, id)) + SampleHeader(r, id)
    + Delta(SampleData(dump, samples, useBios, id))
  }

  /** The block of sample `id` from its descriptor pointer and its
      transcoded descriptor. */
  lemma BlockParts(dump: seq<byte>, samples: seq<byte>, useBios: bool, id: byte, sptr: u16, info: SampleInfo)
    requires |dump| >= DumpSize && |samples| == SampleSpace
    requires sptr == DescriptorPtr(dump, id) && info == Transcode(DescriptorOf(dump, id), useBios)
    ensures info.start + info.length <= |samples|
    ensures InstrumentBlock(dump, samples, useBios, id)
            == (InstrumentHeader(id, sptr) + SampleHeader(info, id)) + Delta(samples[info.start .. info.start + info.length])
  {
    TranscodeInBounds(DescriptorOf(dump, id), useBios);
  }

  /** An XM reader finds the sample length in the sample header equal to the
      data that follows, and decoding that data yields the sample's bytes. */
  lemma InstrumentBlockDecodes(dump: seq<byte>, samples: seq<byte>, useBios: bool, id: byte)
    requires |dump| >= DumpSize && |samples| == SampleSpace
    ensures var b := InstrumentBlock(dump, samples, useBios, id);
            && Dword(b, 0) == 252 && Word(b, 27) == 1 && Dword(b, 29) == 40
            && Dword(b, 252) == |b| - 292
            && Integrate(b[292..]) == SampleData(dump, samples, useBios, id)
  {
    var data := SampleData(dump, samples, useBios, id);
    var b := InstrumentBlock(dump, samples, useBios, id);
    assert b[292..] == Delta(data);
    DeltaRoundTrip(data);
  }

  /** The instruments of the registry, in registry order (pgm2xm.c:325-326). */
  function Instruments(dump: seq<byte>, samples: seq<byte>, useBios: bool, table: seq<byte>): (b: seq<byte>)
    requires |dump| >= DumpSize && |samples| == SampleSpace
    ensures |b| >= 292 * |table|
    decreases |table|
  {
    if table == [] then []
    else Instruments(dump, samples, useBios, table[..|table| - 1])
         + InstrumentBlock(dump, samples, useBios, table[|table| - 1])
  }

  /** One more registry entry adds its instrument block at the end. */
  lemma InstrumentsStep(dump: seq<byte>, samples: seq<byte>, useBios: bool, table: seq<byte>, n: nat)
    requires |dump| >= DumpSize && |samples| == SampleSpace && n < |table|
    ensures Instruments(dump, samples, useBios, table[..n + 1])
            == Instruments(dump, samples, useBios, table[..n]) + InstrumentBlock(dump, samples, useBios, table[n])
  {
    assert table[..n + 1][..n] == table[..n];
  }

  // ---------------------------------------------------------------------
  // The whole file.

  /** The XM file for the song at `songPtr`: the header with the final
      instrument count, the pattern blocks, the instruments. */
  function Image(dump: seq<byte>, samples: seq<byte>, useBios: bool, ftFix: bool,
                 title: seq<byte>, songPtr: nat): (img: seq<byte>)
    requires |dump| >= DumpSize && |samples| == SampleSpace && HeaderFits(dump, songPtr)
    ensures |img| >= 336
    ensures var h := ReadHeader(dump, songPtr);
            var t := PatternsUpTo(dump, ftFix, h, h.numPatterns, []).table;
            |t| <= 0x100 && img[..336] == XmHeader(title, h.numPositions, h.numChannels, h.numPatterns, |t|, h.positions)
  {
    var h := ReadHeader(dump, songPtr);
    var b := PatternsUpTo(dump, ftFix, h, h.numPatterns, []);
    DistinctBound(b.table);
    var x := XmHeader(title, h.numPositions, h.numChannels, h.numPatterns, |b.table|, h.positions);
    var rest := b.bytes + Instruments(dump, samples, useBios, b.table);
    PrefixOf(x, rest);
    x + rest
  }

  lemma PrefixOf(x: seq<byte>, rest: seq<byte>)
    ensures (x + rest)[..|x|] == x
  {
  }

  /** A file that opens with the module header shows its fields. */
  lemma HeaderInFile(f: seq<byte>, title: seq<byte>, h: SongHeader, ninstr: u16)
    requires |h.positions| == h.numPositions
    requires |f| >= 336 && f[..336] == XmHeader(title, h.numPositions, h.numChannels, h.numPatterns, ninstr, h.positions)
    ensures && Word(f, 64) == h.numPositions && Word(f, 68) == h.numChannels
            && Word(f, 70) == h.numPatterns && Word(f, 72) == ninstr
            && f[80 .. 80 + h.numPositions] == h.positions
  {
    var x := XmHeader(title, h.numPositions, h.numChannels, h.numPatterns, ninstr, h.positions);
    XmHeaderFields(title, h.numPositions, h.numChannels, h.numPatterns, ninstr, h.positions);
    XmHeaderText(title, h.numPositions, h.numChannels, h.numPatterns, ninstr, h.positions);
    assert f[64] == x[64] && f[65] == x[65] && f[68] == x[68] && f[69] == x[69];
    assert f[70] == x[70] && f[71] == x[71] && f[72] == x[72] && f[73] == x[73];
    forall k | 0 <= k < h.numPositions ensures f[80 + k] == h.positions[k] {
      assert f[..336][80 + k] == f[80 + k];
      assert x[80 .. 80 + h.numPositions][k] == x[80 + k];
    }
  }

  /** The file's header counts are the song's position, channel and pattern
      counts and the number of registry entries, which is at most 256, and
      its order table is the song's position list. */
  lemma ImageHeader(dump: seq<byte>, samples: seq<byte>, useBios: bool, ftFix: bool,
                    title: seq<byte>, songPtr: nat)
    requires |dump| >= DumpSize && |samples| == SampleSpace && HeaderFits(dump, songPtr)
    ensures var img := Image(dump, samples, useBios, ftFix, title, songPtr);
            var h := ReadHeader(dump, songPtr);
            var t := PatternsUpTo(dump, ftFix, h, h.numPatterns, []).table;
            && Word(img, 64) == h.numPositions && Word(img, 68) == h.numChannels
            && Word(img, 70) == h.numPatterns && Word(img, 72) == |t| <= 0x100
            && img[80 .. 80 + h.numPositions] == h.positions
  {
    var h := ReadHeader(dump, songPtr);
    var t := PatternsUpTo(dump, ftFix, h, h.numPatterns, []).table;
    HeaderInFile(Image(dump, samples, useBios, ftFix, title, songPtr), title, h, |t|);
  }
}
