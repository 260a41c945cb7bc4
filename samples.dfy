/** The sample side of `storeinstrument` (pgm2xm.c:63-126): the 22-byte
    sample descriptor in the dump, the linear sample-ROM addresses made from
    it, the policy that silences a sample, and XM's delta coding of the
    sample bytes. */
module Samples {
  import opened Bytes

  /** Bytes per descriptor in the table at `word(0x60)`. */
  const DescriptorSize: nat := 22
  /** The sample buffer: `malloc(16777216)` (pgm2xm.c:468). */
  const SampleSpace: nat := 0x100_0000
  /** Where the game's sample ROM starts when the BIOS samples are left out. */
  const GameBase: u32 := 0x40_0000

  /** Bank byte, flags, the four stored addresses (start, end, loop start,
      loop end) and the volume of one sample. */
  datatype Descriptor = Descriptor(bank: byte, flags: byte, start: u32, end: u32,
                                   loopStart: u32, loopEnd: u32, volume: byte)

  /** `(uint16_t)(word(0x60) + id * 22)`: the descriptor's offset, wrapped to
      16 bits. */
  function DescriptorPtr(dump: seq<byte>, id: byte): (p: u16)
    requires 0x62 <= |dump|
    ensures Word(dump, 0x60) + id as int * DescriptorSize < 0x1_0000 ==> p == Word(dump, 0x60) + id as int * DescriptorSize
    ensures Word(dump, 0x60) + id as int * DescriptorSize >= 0x1_0000 ==> p == Word(dump, 0x60) + id as int * DescriptorSize - 0x1_0000
  {
    (Word(dump, 0x60) + id * DescriptorSize) % 0x1_0000
  }

  /** An address field: three bytes shifted into the top 24 bits of a uint32_t
      (`b[2]<<24 | b[1]<<16 | b[0]<<8`). */
  function Address(dump: seq<byte>, p: nat): (a: u32)
    requires p + 3 <= |dump|
    ensures a % 0x100 == 0
    ensures a / 0x100 % 0x100 == dump[p] && a / 0x1_0000 % 0x100 == dump[p + 1] && a / 0x100_0000 == dump[p + 2]
  {
    AddressBytes(dump[p], dump[p + 1], dump[p + 2]);
    dump[p + 2] as int * 0x100_0000 + dump[p + 1] as int * 0x1_0000 + dump[p] as int * 0x100
  }

  /** Where the three bytes of an address field land. */
  lemma AddressBytes(b0: byte, b1: byte, b2: byte)
    ensures var a := b2 as int * 0x100_0000 + b1 as int * 0x1_0000 + b0 as int * 0x100;
            && a % 0x100 == 0 && a / 0x100 % 0x100 == b0
            && a / 0x1_0000 % 0x100 == b1 && a / 0x100_0000 == b2
  {
    var a := b2 as int * 0x100_0000 + b1 as int * 0x1_0000 + b0 as int * 0x100;
    assert a / 0x100 == b2 as int * 0x1_0000 + b1 as int * 0x100 + b0 as int;
    assert a / 0x1_0000 == b2 as int * 0x100 + b1 as int;
  }

  /** The fields of the descriptor at `p` (pgm2xm.c:67-76). */
  function ReadDescriptor(dump: seq<byte>, p: nat): (d: Descriptor)
    requires p + DescriptorSize <= |dump|
    ensures d.bank == dump[p] && d.flags == dump[p + 1] && d.volume == dump[p + 12]
    ensures d.start / 0x100 % 0x100 == dump[p + 5] && d.end / 0x100 % 0x100 == dump[p + 9]
    ensures d.loopStart / 0x100 % 0x100 == dump[p + 15] && d.loopEnd / 0x100 % 0x100 == dump[p + 19]
    ensures d.start == Address(dump, p + 5) && d.end == Address(dump, p + 9)
    ensures d.loopStart == Address(dump, p + 15) && d.loopEnd == Address(dump, p + 19)
  {
    Descriptor(dump[p], dump[p + 1], Address(dump, p + 5), Address(dump, p + 9),
               Address(dump, p + 15), Address(dump, p + 19), dump[p + 12])
  }

  /** `((bank<<20) & 0xffffff) | (raw>>12)`: the bank's low nibble selects a
      1 MB window and the top 20 bits of the stored address (which carries 12
      bits of fraction) the byte within it. The two bit fields do not overlap,
      so the OR is a sum. */
  function Linear(bank: byte, raw: u32): (a: nat)
    ensures a < SampleSpace
    ensures a / 0x10_0000 == bank % 0x10 && a % 0x10_0000 == raw / 0x1000
  {
    (bank % 0x10) * 0x10_0000 + raw / 0x1000
  }

  /** `samplebase`: 0 with the BIOS samples loaded ahead of the game's, else
      0x400000 (pgm2xm.c:387, 395). */
  function SampleBase(useBios: bool): u32 {
    if useBios then 0 else GameBase
  }

  /** `linear - samplebase` in uint32_t arithmetic. */
  function Rebase(a: nat, base: u32): (r: u32)
    requires a < SampleSpace
    ensures a >= base ==> r == a - base
    ensures a < base ==> r == a - base + 0x1_0000_0000
  {
    (a - base) % 0x1_0000_0000
  }

  /** Start address in the sample buffer. */
  function StartOf(d: Descriptor, useBios: bool): u32 {
    Rebase(Linear(d.bank, d.start), SampleBase(useBios))
  }

  /** End address in the sample buffer. */
  function EndOf(d: Descriptor, useBios: bool): u32 {
    Rebase(Linear(d.bank, d.end), SampleBase(useBios))
  }

  /** Loop start address in the sample buffer. */
  function LoopStartOf(d: Descriptor, useBios: bool): u32 {
    Rebase(Linear(d.bank, d.loopStart), SampleBase(useBios))
  }

  /** Loop end address in the sample buffer. */
  function LoopEndOf(d: Descriptor, useBios: bool): u32 {
    Rebase(Linear(d.bank, d.loopEnd), SampleBase(useBios))
  }

  /** What the XM sample header records: start in the sample buffer, length,
      loop start relative to the start, loop length, volume, loop flag. */
  datatype SampleInfo = SampleInfo(start: u32, length: u32, loopStart: u32, loopLength: u32,
                                   volume: byte, loops: bool)

  /** The silencing test exactly as pgm2xm.c:90 writes it, on the rebased
      addresses. */
  predicate SilentAsWritten(useBios: bool, start: u32, end: u32) {
    (!useBios && start <= GameBase) || start > end
  }

  /** The corrected test: as written, and also a sample whose linear start
      lies below the sample base, in the BIOS region that is not loaded. */
  predicate Silent(d: Descriptor, useBios: bool) {
    SilentAsWritten(useBios, StartOf(d, useBios), EndOf(d, useBios))
    || Linear(d.bank, d.start) < SampleBase(useBios)
  }

  /** pgm2xm.c:80-96 under a given verdict: a silenced sample has start,
      length, loop start and loop length 0 but keeps volume and loop flag. */
  function TranscodeWith(d: Descriptor, useBios: bool, silent: bool): (r: SampleInfo)
    requires !silent ==> StartOf(d, useBios) <= EndOf(d, useBios)
  {
    var s := StartOf(d, useBios);
    var e := EndOf(d, useBios);
    var ls := LoopStartOf(d, useBios);
    var le := LoopEndOf(d, useBios);
    var loops := d.flags / 8 % 2 == 1;            // flags & 0x08
    if silent then SampleInfo(0, 0, 0, 0, d.volume, loops)
    else SampleInfo(s, e - s, (ls - s) % 0x1_0000_0000, (le - ls) % 0x1_0000_0000, d.volume, loops)
  }

  /** `storeinstrument`'s sample fields as the source computes them. */
  function TranscodeAsWritten(d: Descriptor, useBios: bool): (r: SampleInfo)
    ensures SilentAsWritten(useBios, StartOf(d, useBios), EndOf(d, useBios)) ==>
              r.start == 0 && r.length == 0 && r.loopStart == 0 && r.loopLength == 0
    ensures !SilentAsWritten(useBios, StartOf(d, useBios), EndOf(d, useBios)) ==>
              && r.start == StartOf(d, useBios) && r.start + r.length == EndOf(d, useBios)
              && r.loopStart == (LoopStartOf(d, useBios) - StartOf(d, useBios)) % 0x1_0000_0000
              && r.loopLength == (LoopEndOf(d, useBios) - LoopStartOf(d, useBios)) % 0x1_0000_0000
    ensures r.volume == d.volume && r.loops == (d.flags / 8 % 2 == 1)
  {
    TranscodeWith(d, useBios, SilentAsWritten(useBios, StartOf(d, useBios), EndOf(d, useBios)))
  }

  /** The sample fields with the corrected silencing test. */
  function Transcode(d: Descriptor, useBios: bool): (r: SampleInfo)
    ensures Silent(d, useBios) ==> r.start == 0 && r.length == 0 && r.loopStart == 0 && r.loopLength == 0
    ensures !Silent(d, useBios) ==>
              && r.start == StartOf(d, useBios) && r.start + r.length == EndOf(d, useBios)
              && r.loopStart == (LoopStartOf(d, useBios) - StartOf(d, useBios)) % 0x1_0000_0000
              && r.loopLength == (LoopEndOf(d, useBios) - LoopStartOf(d, useBios)) % 0x1_0000_0000
    ensures r.volume == d.volume && r.loops == (d.flags / 8 % 2 == 1)
  {
    TranscodeWith(d, useBios, Silent(d, useBios))
  }

  /** With the corrected test every sample read stays inside the 16 MB sample
      buffer: the four addresses share one bank, so a start at or above the
      sample base puts the end there too. */
  lemma TranscodeInBounds(d: Descriptor, useBios: bool)
    ensures var r := Transcode(d, useBios); r.start + r.length <= SampleSpace
  {
    var ls := Linear(d.bank, d.start);
    var le := Linear(d.bank, d.end);
    if !Silent(d, useBios) && !useBios {
      assert ls / 0x10_0000 >= 4;
      assert le >= GameBase;
    }
  }

  /** Where the two tests differ, the source reads outside the buffer: without
      the BIOS samples, a bank-0 sample from 0x1000 to 0x2000 rebases to
      0xFFC01000 .. 0xFFC02000, passes both checks of line 90, and its
      4096 bytes are read about 4 GB past the 16 MB buffer. */
  lemma AsWrittenReadsOutside()
    ensures var d := Descriptor(0, 0, 0x100_0000, 0x200_0000, 0, 0, 0x40);
            var r := TranscodeAsWritten(d, false);
            && !SilentAsWritten(false, StartOf(d, false), EndOf(d, false))
            && r.start == 0xFFC0_1000 && r.length == 0x1000
            && r.start + r.length > SampleSpace
            && Silent(d, false)
  {
  }

  /** The policy as written still silences everything it names. */
  lemma SilentAsWrittenSilences(d: Descriptor, useBios: bool)
    requires SilentAsWritten(useBios, StartOf(d, useBios), EndOf(d, useBios))
    ensures Silent(d, useBios)
    ensures var r := TranscodeAsWritten(d, useBios);
            r == Transcode(d, useBios) && r.start == 0 && r.length == 0 && r.loopStart == 0 && r.loopLength == 0
  {
  }

  // ---------------------------------------------------------------------
  // Delta coding.

  /** The last byte, or 0 before the first. */
  function Last(s: seq<byte>): byte {
    if s == [] then 0 else s[|s| - 1]
  }

  /** XM's sample coding (pgm2xm.c:117-125): each byte minus the byte before
      it, modulo 256, the first minus 0. */
  function Delta(s: seq<byte>): (d: seq<byte>)
    ensures |d| == |s|
    ensures |s| > 0 ==> d[0] == s[0]
  {
    seq(|s|, i requires 0 <= i < |s| => (s[i] as int - (if i == 0 then 0 else s[i - 1] as int)) % 0x100)
  }

  /** Each coded byte added to the sample byte before it, modulo 256, gives
      the next sample byte. */
  lemma DeltaSteps(s: seq<byte>)
    ensures forall i :: 0 < i < |s| ==> (s[i - 1] as int + Delta(s)[i] as int) % 0x100 == s[i]
  {
  }

  /** How an XM loader decodes the sample: running sums modulo 256. */
  function Integrate(d: seq<byte>): (s: seq<byte>)
    ensures |s| == |d|
    decreases |d|
  {
    if d == [] then [] else
      var p := Integrate(d[..|d| - 1]);
      p + [(Last(p) as int + d[|d| - 1] as int) % 0x100]
  }

  /** Coding one more byte appends its difference from the last one. */
  lemma DeltaAppend(s: seq<byte>, x: byte)
    ensures Delta(s + [x]) == Delta(s) + [(x as int - Last(s) as int) % 0x100]
  {
    var l := Delta(s + [x]);
    var r := Delta(s) + [(x as int - Last(s) as int) % 0x100];
    forall i | 0 <= i < |l| ensures l[i] == r[i] {
      if i < |s| {
        assert (s + [x])[i] == s[i];
        if i > 0 { assert (s + [x])[i - 1] == s[i - 1]; }
      }
    }
  }

  /** Decoding the coded sample gives back the sample bytes. */
  lemma {:induction false} DeltaRoundTrip(s: seq<byte>)
    ensures Integrate(Delta(s)) == s
    decreases |s|
  {
    if s != [] {
      var front, x := s[..|s| - 1], s[|s| - 1];
      assert s == front + [x];
      DeltaAppend(front, x);
      var d := Delta(s);
      assert d[..|s| - 1] == Delta(front);
      DeltaRoundTrip(front);
      assert (Last(front) as int + d[|s| - 1] as int) % 0x100 == x;
    }
  }

  /** Coding a decoded sample gives back the coded bytes. */
  lemma {:induction false} IntegrateRoundTrip(d: seq<byte>)
    ensures Delta(Integrate(d)) == d
    decreases |d|
  {
    if d != [] {
      var front := d[..|d| - 1];
      var p := Integrate(front);
      var x: byte := (Last(p) as int + d[|d| - 1] as int) % 0x100;
      assert Integrate(d) == p + [x];
      assert (x as int - Last(p) as int) % 0x100 == d[|d| - 1];
      IntegrateRoundTrip(front);
      DeltaAppend(p, x);
      assert d == front + [d[|d| - 1]];
    }
  }
}
