/** Finding a song in the Z80 dump and reading its header (pgm2xm.c:222-252,
    503-514): the song count and pointer table of the sound driver, the
    position list, and the per-channel pattern pointers with the sentinel
    entry the converter stores after them. */
module Song {
  import opened Bytes

  /** The converter reads the dump as a 64 KB window plus the 256 bytes a
      pattern stream at the very top can still run into. */
  const DumpSize: nat := 0x1_0100
  /** Where the driver keeps the number of songs. */
  const SongCountAt: nat := 0x52
  /** Where the driver's table of song pointers starts. */
  const SongTableAt: nat := 0x70
  /** `uint16_t patterns[16][256]`. */
  const MaxChannels: nat := 16
  const PatternSlots: nat := 256

  /** The song lookup exactly as main writes it: `songid > maxsongs` is
      refused, anything else reads the pointer at `0x70 + 2 * songid`. */
  function LookupAsWritten(dump: seq<byte>, songId: nat): (r: Option<u16>)
    requires |dump| >= DumpSize
    ensures r.Some? <==> songId <= dump[SongCountAt]
    ensures r.Some? ==> r.value == Word(dump, SongTableAt + 2 * songId)
  {
    if songId > dump[SongCountAt] then None else Some(Word(dump, SongTableAt + 2 * songId))
  }

  /** The corrected lookup: the table holds `maxsongs` pointers, ids 0 to
      `maxsongs - 1`, as the "Song %02x / %02x" message shows. */
  function Lookup(dump: seq<byte>, songId: nat): (r: Option<u16>)
    requires |dump| >= DumpSize
    ensures r.Some? <==> songId < dump[SongCountAt]
    ensures r.Some? ==> r.value == Word(dump, SongTableAt + 2 * songId)
  {
    if songId >= dump[SongCountAt] then None else Some(Word(dump, SongTableAt + 2 * songId))
  }

  /** A song the corrected lookup finds has its pointer inside the table of
      `maxsongs` words, and the source finds the same pointer; the two differ
      at one id only. */
  lemma LookupInTable(dump: seq<byte>, songId: nat)
    requires |dump| >= DumpSize
    ensures Lookup(dump, songId).Some? ==>
              SongTableAt + 2 * songId + 2 <= SongTableAt + 2 * dump[SongCountAt] as int
    ensures songId != dump[SongCountAt] ==> LookupAsWritten(dump, songId) == Lookup(dump, songId)
  {
  }

  /** The source accepts the id one past the last song and reads the word
      after the pointer table as a song pointer. */
  lemma LookupAsWrittenPastTable(dump: seq<byte>)
    requires |dump| >= DumpSize
    ensures var id := dump[SongCountAt] as nat;
            && LookupAsWritten(dump, id) == Some(Word(dump, SongTableAt + 2 * id))
            && SongTableAt + 2 * id >= SongTableAt + 2 * dump[SongCountAt] as int
            && Lookup(dump, id) == None
  {
  }

  // ---------------------------------------------------------------------
  // The song header.

  /** Position count, channel count, pattern count, the position list and,
      per channel, the pointer of each pattern's command stream. */
  datatype SongHeader = SongHeader(numPositions: byte, numChannels: byte, numPatterns: byte,
                                   positions: seq<byte>, pointers: seq<seq<u16>>)

  /** Offset of the pointer table from the song pointer: four header bytes,
      the positions, and one pad byte when their count is odd. */
  function PointerBase(np: byte): nat {
    4 + np + np % 2
  }

  /** The header, its position list and its pointer table lie inside the
      dump, and the song has no more channels than `patterns` has rows. */
  predicate HeaderFits(dump: seq<byte>, p: nat) {
    && p + 4 <= |dump|
    && dump[p + 1] as int <= MaxChannels
    && p + PointerBase(dump[p]) + 2 * (dump[p + 1] as int * dump[p + 2] as int) <= |dump|
  }

  /** Slot `j * npat + i` of an `nc * npat` table is inside it. */
  lemma SlotInside(j: nat, i: nat, nc: nat, npat: nat)
    requires j < nc && i < npat
    ensures j * npat + i + 1 <= nc * npat
  {
    assert (j + 1) * npat == j * npat + npat;
    MulMonotone(j + 1, nc, npat);
  }

  lemma {:induction false} MulMonotone(a: nat, b: nat, c: nat)
    requires a <= b
    ensures a * c <= b * c
    decreases b - a
  {
    if a < b {
      MulMonotone(a + 1, b, c);
      assert (a + 1) * c == a * c + c;
    }
  }

  /** The pointer of channel `j`'s stream for pattern `i`: the tables are
      stored channel after channel. */
  function Pointer(dump: seq<byte>, p: nat, j: nat, i: nat): u16
    requires HeaderFits(dump, p) && j < dump[p + 1] && i < dump[p + 2]
  {
    SlotInside(j, i, dump[p + 1], dump[p + 2]);
    Word(dump, p + PointerBase(dump[p]) + 2 * (j * dump[p + 2] + i))
  }

  /** The header at song pointer `p` (pgm2xm.c:222-246). */
  function ReadHeader(dump: seq<byte>, p: nat): (h: SongHeader)
    requires HeaderFits(dump, p)
    ensures h.numPositions == dump[p] && h.numChannels == dump[p + 1] && h.numPatterns == dump[p + 2]
    ensures h.positions == dump[p + 4 .. p + 4 + dump[p]]
    ensures |h.pointers| == h.numChannels
    ensures forall j :: 0 <= j < h.numChannels ==> |h.pointers[j]| == h.numPatterns
    ensures WellShaped(h)
    ensures forall j, i :: 0 <= j < h.numChannels && 0 <= i < h.numPatterns ==>
              h.pointers[j][i] == Pointer(dump, p, j, i)
  {
    var nc := dump[p + 1];
    var npat := dump[p + 2];
    SongHeader(dump[p], nc, npat, dump[p + 4 .. p + 4 + dump[p]],
      seq(nc, j requires 0 <= j < nc => seq(npat, i requires 0 <= i < npat => Pointer(dump, p, j, i))))
  }

  /** What the header of a well-formed song holds together. */
  predicate WellShaped(h: SongHeader) {
    && |h.positions| == h.numPositions
    && |h.pointers| == h.numChannels <= MaxChannels
    && forall j :: 0 <= j < |h.pointers| ==> |h.pointers[j]| == h.numPatterns
  }

  // ---------------------------------------------------------------------
  // The sentinel entries of pgm2xm.c:248-251.

  /** A slot of `patterns[16][256]`, as row and column. */
  datatype Slot = Slot(row: int, col: int)

  predicate InArray(s: Slot) {
    0 <= s.row < MaxChannels && 0 <= s.col < PatternSlots
  }

  /** The slots the sentinel code of channel `j` touches as written: the
      store to the previous channel under the guard `i > 0` (where `i` has
      reached `npat`), then the read of the last pointer and the store after
      it. */
  function SentinelSlotsAsWritten(j: int, npat: nat): seq<Slot> {
    (if npat > 0 then [Slot(j - 1, npat)] else []) + [Slot(j, npat - 1), Slot(j, npat)]
  }

  /** The corrected sentinel code: the store to the previous channel only
      when there is one, and the last-pointer read only when there is a last
      pointer. */
  function SentinelSlots(j: int, npat: nat): seq<Slot> {
    (if j > 0 && npat > 0 then [Slot(j - 1, npat)] else [])
    + (if npat > 0 then [Slot(j, npat - 1), Slot(j, npat)] else [])
  }

  /** As written, the first channel of any song with patterns stores to
      row -1, in front of the array. */
  lemma SentinelAsWrittenOutside(npat: nat)
    requires 1 <= npat < PatternSlots
    ensures !InArray(SentinelSlotsAsWritten(0, npat)[0])
    ensures SentinelSlotsAsWritten(0, npat)[0] == Slot(-1, npat)
  {
  }

  /** Corrected, every slot touched for a channel of the song lies in the
      array, and the slots as written agree with it on every later channel. */
  lemma SentinelSlotsInside(j: nat, nc: nat, npat: nat)
    requires j < nc <= MaxChannels && npat < PatternSlots
    ensures forall s :: s in SentinelSlots(j, npat) ==> InArray(s)
    ensures j > 0 && npat > 0 ==> SentinelSlots(j, npat) == SentinelSlotsAsWritten(j, npat)
  {
  }

  /** The value the sentinel of channel `j` holds once every channel is read:
      the next channel's first pointer, or for the last channel its own last
      pointer plus 0x100 (kept to 16 bits). */
  function Sentinel(h: SongHeader, j: nat): (v: u16)
    requires WellShaped(h) && h.numPatterns > 0 && j < h.numChannels
    ensures j + 1 < h.numChannels ==> v == h.pointers[j + 1][0]
    ensures j + 1 == h.numChannels ==> (v - h.pointers[j][h.numPatterns - 1]) % 0x1_0000 == 0x100
  {
    if j + 1 < h.numChannels then h.pointers[j + 1][0]
    else (h.pointers[j][h.numPatterns - 1] as int + 0x100) % 0x1_0000
  }
}
