# pgm2xm in Dafny

pgm2xm converts a song of the PGM arcade sound driver into an Extended
Module (XM 0x0104) file. It takes a RAM dump of the Z80 sound CPU and the
sample ROMs as input. This project models the converter's core,
`pgm2xm.c`, as it works. There are three exceptions, all listed under
"## Findings" and "## Left out": the song lookup refuses the id one past the
song table; the sentinel stores of the pointer table skip the slots outside
`patterns[16][256]`; and a sample in the unloaded BIOS region is silenced. The
converter methods use these corrected versions, and the as-written versions
are modelled beside them. The model covers:

- **The song lookup of `main`.** It reads the song count at 0x52 and the
  song pointer at `0x70 + 2 * id`.
- **The song header read.** This covers the position, channel and pattern
  counts; the position list with its pad byte; and the per-channel pattern
  pointer table with its sentinel entries.
- **The XM module header.**
- **The pattern pass.** For each pattern, it runs 64 rows of channel turns.
  On each turn a channel either waits out its delay, writing the empty cell
  0x80, or decodes one command of the driver's bytecode (`readcommand`) into
  a packed XM cell. After the pass it back-patches the block's size field.
- **The instrument registry (`instrument`).** It gives each sample id a
  dense 1-based number in the order the patterns first reference it.
- **The instruments (`storeinstrument`).** These are a 252-byte instrument
  header and a 40-byte sample header per registered sample, followed by the
  delta-coded sample bytes. The sample addresses come from the driver's
  22-byte descriptors.
- **The final instrument count**, back-patched into the header.

The imperative parts keep the program's shape. One `Converter` object holds
the globals:

- `source`, the dump;
- `samples`;
- `usebios` and `ftfix`;
- `instable` as a 256-slot array, with `inscount`;
- the file written so far (`filedata` up to `fptr`), as a sequence the
  methods extend and back-patch in place.

The pattern pass works over `patterns[16][256]` as an `array2`, and over
`channelptrs` and `channeldelays` as arrays. Every method is proved against
a function that states what it computes:

- `Patterns.Execute` / `Tick` / `Row` / `Rows` / `Pattern` for a command, a
  turn, a row, several rows and a pattern;
- `Xm.PatternsUpTo` for the first `n` pattern blocks;
- `Xm.Instruments` for the instrument blocks;
- `Xm.Image` for the whole file.

Those functions carry their own properties as lemmas. The loops' invariants
are named predicates, each with a one-step method that keeps it:

- `Written(h, i, …)`: the file holds the first `i` pattern blocks, and the
  registry is the one they leave.
- `Stored(n, …)`: the file holds the blocks of the first `n` registry
  entries.
- `Playing(…, left)`: `left` more rows from the current channel state give
  the rows the pattern promises.
- `Turning(…, j)`: finishing the row from channel `j` gives the row begun at
  the start.

Modules:

| file | module | contents |
|---|---|---|
| bytes.dfy | `Bytes` | C integer widths; little-endian fields |
| registry.dfy | `Registry` | the instrument table as a function, and its bijection and ordering properties |
| commands.dfy | `Commands` | the bytecode, its decoding and packed cells; the XM reader's unpacking as the partner |
| song.dfy | `Song` | song lookup, song header, pointer table, sentinels |
| samples.dfy | `Samples` | descriptors, address arithmetic, the silencing policy, delta coding and its inverse |
| patterns.dfy | `Patterns` | the pattern pass as functions over a pass state |
| xm.dfy | `Xm` | the XM byte layout and the whole file image |
| converter.dfy | `Converter` | the converter's state and its methods |

Some behaviours of the code are easy to misread. The model follows the
code:

- An unrecognised opcode moves the cursor by one byte. The code consumes
  the opcode at line 131 before classifying it.
- Each channel's sentinel is overwritten by the next channel's first
  pointer (line 249). So only the last channel keeps "last pointer + 0x100".
- The bank byte contributes only its low nibble (`(base<<20) & 0xffffff`).
- Channel and pattern counts are not checked against any maximum. The
  model states the bound the `patterns` array needs as a requirement.
- Without the BIOS samples, the test `startaddr <= 0x400000` (line 90) is
  made on the rebased address. It therefore also silences the game samples
  that start in the first 4 MB of the game ROM, at linear addresses
  0x400000 to 0x800000. The model keeps this, in both `Samples.Silent` and
  `Samples.SilentAsWritten`.

## Model

| member | source | states |
|---|---|---|
| Bytes.LE16 | pgm2xm.c:264-275 | the two bytes a 16-bit store writes read back, little-endian, as the stored value |
| Bytes.LE32 | pgm2xm.c:266 | the four bytes a 32-bit store writes read back, little-endian, as the stored value |
| Bytes.WordAt | pgm2xm.c:267-275 | a 16-bit field stored in the middle of a buffer reads back unchanged |
| Bytes.DwordAt | pgm2xm.c:288 | a 32-bit field stored in the middle of a buffer reads back unchanged |
| Registry.Key | pgm2xm.c:46 | `id -= 1` on a uint8_t: the key plus one, modulo 256, is the id (id 0 wraps to 255) |
| Registry.Find | pgm2xm.c:50-54 | the scan's result is the first slot holding the key, and no earlier slot holds it; the table length means absent |
| Registry.Resolve | pgm2xm.c:44-61 | a key already present leaves the table unchanged and yields its 1-based slot; a new key is appended and yields the new count; no repeats are introduced |
| Registry.ResolveAllExtends | pgm2xm.c:57-59 | entries are only ever appended, so a number once handed out keeps naming the same sample |
| Registry.ResolveAllDistinct | pgm2xm.c:50-59 | any run of lookups keeps the table free of repeats |
| Registry.IndexStable | pgm2xm.c:50-53 | re-referencing an id after any further lookups yields the number it got first and changes nothing |
| Registry.RegistryKeys | pgm2xm.c:44-61 | from an empty table, the registry holds exactly the keys referenced, each once |
| Registry.FirstReferenceOrder | pgm2xm.c:44-61 | entry i precedes entry j exactly when i's key is first referenced before j's |
| Registry.InstrumentCount | pgm2xm.c:325-328 | the instrument count equals the number of distinct ids referenced |
| Registry.NoOverflow | pgm2xm.c:57-59 | whenever a new key is appended the table has fewer than 256 entries, so `instable[inscount]` stays inside the array |
| Registry.FullTable | pgm2xm.c:50-54 | a table of 256 distinct ids finds every id, so no 257th entry is made |
| Registry.DistinctBound | pgm2xm.c:328 | a table without repeats has at most 256 entries, so the count fits the header's 16-bit field |
| Commands.Width | pgm2xm.c:130-182 | every command takes between 1 and 4 bytes |
| Commands.Decode | pgm2xm.c:130-182 | the command decoded at a position is well formed, and its bytecode is exactly the bytes it spans |
| Commands.DecodeBytecode | pgm2xm.c:130-182 | decoding a command's bytecode followed by anything gives the command back |
| Commands.FineTune | pgm2xm.c:192-195 | the high nibble is kept; for effect E5x under ftfix the low nibble moves down by 8 modulo 16, otherwise the parameter is unchanged |
| Commands.Flag | pgm2xm.c:132-178 | the flag has bit 7 set, bits 2, 5 and 6 clear; the note bit is set exactly for commands with a note, the instrument bit exactly for those with a sample id, and the effect bits (both) exactly for those with an effect |
| Commands.CellBytes | pgm2xm.c:184-199 | the cell starts with the flag, then note + 24 (mod 256) when the note bit is set, the instrument number when its bit is set, and it ends with the effect and fine-tuned parameter when the effect bits are set |
| Commands.OpcodeTable | pgm2xm.c:130-182 | per opcode range: width 1/2/2/4/3/3/1, flag 0x80/0x98/0x83/0x9B/0x99/0x9A/0x80, and a delay equal to the opcode only below 0x40 |
| Commands.CellLength | pgm2xm.c:184-199 | the cell has 1 + [bit 0] + [bit 1] + 2·[bits 0x18] bytes, at most 5, and starts with the flag, which has bit 7 set |
| Commands.UnpackCellBytes | pgm2xm.c:184-199 | an XM reader unpacking the written bytes gets exactly the cell the command stands for and consumes exactly those bytes |
| Commands.UnpackWait | pgm2xm.c:311 | the 0x80 a waiting channel writes unpacks as the empty cell of one byte |
| Song.Lookup | pgm2xm.c:503-514 | the corrected lookup finds a song exactly when the id is below the song count, and its pointer is the word at 0x70 + 2·id |
| Song.LookupAsWritten | pgm2xm.c:503-512 | as written, a song is found exactly when the id is at most the song count, and its pointer is the word at 0x70 + 2·id |
| Song.LookupInTable | pgm2xm.c:506-512 | a found song's pointer lies inside the table of `maxsongs` words; the lookup as written agrees everywhere except at id `maxsongs` |
| Song.LookupAsWrittenPastTable | pgm2xm.c:506 | as written, id `maxsongs` is accepted and reads the word after the pointer table |
| Song.ReadHeader | pgm2xm.c:222-246 | the counts, the position list after the four header bytes, and each channel's pointers as words laid out channel after channel past the optional pad byte |
| Song.SentinelAsWrittenOutside | pgm2xm.c:248-249 | as written, channel 0 of a song with patterns stores to row -1, before the array |
| Song.SentinelSlotsInside | pgm2xm.c:248-251 | with the corrected guards every slot touched lies inside `patterns[16][256]`; for later channels the slots are those the code touches |
| Song.Sentinel | pgm2xm.c:248-251 | after all channels, a channel's sentinel is the next channel's first pointer, or for the last channel its last pointer plus 0x100 modulo 2^16 |
| Samples.Linear | pgm2xm.c:80-83 | the linear address lies in the 16 MB sample space; its 1 MB window is the bank's low nibble and its offset the stored address shifted right by 12 |
| Samples.DescriptorPtr | pgm2xm.c:65 | the descriptor offset is word(0x60) + 22·id, less 2^16 when that overflows the uint16_t |
| Samples.Address | pgm2xm.c:68-71 | the three bytes from p fill bits 8-15, 16-23 and 24-31 in that order, and bits 0-7 are zero |
| Samples.ReadDescriptor | pgm2xm.c:67-76 | bank, flags and volume are the bytes at +0, +1 and +12; start, end, loop start and loop end are the three-byte addresses at +5, +9, +15 and +19 |
| Samples.Rebase | pgm2xm.c:80-83 | subtracting the sample base in uint32_t arithmetic: the difference when the address is at or above the base, otherwise the difference plus 2^32 |
| Samples.Transcode | pgm2xm.c:80-96 | a silenced sample has start, length, loop start and loop length 0; any other has its rebased start, its rebased end as start + length, loop start = loop start address − start and loop length = loop end − loop start, both modulo 2^32; volume and loop flag come from the descriptor |
| Samples.TranscodeAsWritten | pgm2xm.c:80-96 | the same fields under the silencing test of line 90 as written |
| Samples.TranscodeInBounds | pgm2xm.c:118-120 | with the corrected policy the sample bytes read lie inside the 16 MB buffer |
| Samples.AsWrittenReadsOutside | pgm2xm.c:90 | the policy as written lets a bank-0 sample through without BIOS samples, and its read lands about 4 GB past the buffer |
| Samples.SilentAsWrittenSilences | pgm2xm.c:90-96 | every sample the code silences, the corrected policy silences too, with the same result |
| Samples.DeltaRoundTrip | pgm2xm.c:117-125 | summing the coded bytes modulo 256 gives back the sample bytes |
| Samples.Delta | pgm2xm.c:117-125 | the coding keeps the length and the first byte |
| Samples.DeltaSteps | pgm2xm.c:117-125 | each coded byte added to the sample byte before it, modulo 256, gives the next sample byte |
| Samples.IntegrateRoundTrip | pgm2xm.c:117-125 | coding the decoded bytes gives back the coded bytes, so delta coding is a bijection |
| Patterns.Execute | pgm2xm.c:128-202 | one command moves the cursor by its width, writes 1 to 5 bytes, and only appends to the registry, keeping it free of repeats |
| Patterns.Tick | pgm2xm.c:306-312 | a turn changes only its own channel, moves its cursor by at most 4, appends 1 to 5 bytes and only extends the registry; a waiting channel writes 0x80 and counts down with cursor and registry unchanged; otherwise the cursor moves by the command's width and the delay becomes the command's delay |
| Patterns.Row | pgm2xm.c:304-313 | the turns from channel j on leave earlier channels alone, move every cursor by at most 4, and write 1 to 5 bytes per remaining channel |
| Patterns.Rows | pgm2xm.c:302-314 | n rows keep the channel count, only append output and only extend the registry |
| Patterns.RowsLength | pgm2xm.c:302-314 | n rows write between n and 5n bytes per channel |
| Patterns.Start | pgm2xm.c:296-300 | channel j starts at the j-th pattern pointer with no delay; the registry is carried over and nothing is written yet |
| Patterns.Pattern | pgm2xm.c:296-314 | a pattern keeps one voice per channel and only extends the registry, without repeats |
| Patterns.PatternSize | pgm2xm.c:284-317 | a pattern writes between 64 and 320 bytes per channel, so with 16 channels its size fits the uint16_t `pattern_size` |
| Patterns.Waiting | pgm2xm.c:308-311 | in a pass of any width, while channel k has n or more rows of delay pending, n rows count its delay down by n and leave its cursor put |
| Patterns.RowWaits | pgm2xm.c:304-313 | one row counts a waiting channel's delay down by one and leaves its cursor put, whatever the channels before and after it do |
| Patterns.WaitingAlone | pgm2xm.c:308-311 | a channel on its own that waits writes 0x80 on each row and changes neither its cursor nor the registry |
| Patterns.DelayOnlyRows | pgm2xm.c:134-138 | a stream opening with delay 0x3F writes one empty cell per row for up to 64 rows, reads one byte and registers nothing |
| Patterns.DelayOnlyPattern | pgm2xm.c:302-314 | such a channel's whole pattern is 64 empty cells |
| Xm.Hex | pgm2xm.c:104 | `%0Nx` prints at least one digit and at least N digits |
| Xm.HexRoundTrip | pgm2xm.c:114 | reading the printed hexadecimal digits back gives the number |
| Xm.LabelLength | pgm2xm.c:104 | both name labels, with their NUL, fit the 22-byte name fields |
| Xm.Title | pgm2xm.c:257-258 | the title is a prefix of the given title, of length min(length, 20) |
| Xm.XmHeader | pgm2xm.c:254-276 | the module header is 336 bytes |
| Xm.XmHeaderFields | pgm2xm.c:261-275 | the header's 0x1a byte, version, header size, song length, restart, channel, pattern and instrument counts, flags, tempo and BPM read back at their XM offsets |
| Xm.XmHeaderText | pgm2xm.c:260-263 | the header opens with "Extended Module: " and the title, carries the tracker name at 38, and holds the position list at 80 |
| Xm.PatchCount | pgm2xm.c:271-272 | writing the count into a header made with count 0 gives the header made with that count |
| Xm.PatternBlock | pgm2xm.c:288-294 | a pattern block is its 9-byte header followed by the packed data |
| Xm.PatternBlockFields | pgm2xm.c:288-316 | the block reads back header length 9, packing 0 and 64 rows, and its size field is the number of data bytes when that fits 16 bits |
| Xm.Column | pgm2xm.c:296-300 | pattern i has one 16-bit stream pointer per channel |
| Xm.PatternsUpTo | pgm2xm.c:284-318 | the first n pattern blocks only extend the registry, keep it free of repeats, and take at least 9 bytes each |
| Xm.InstrumentHeader | pgm2xm.c:98-107 | the instrument header is 252 bytes |
| Xm.SampleHeader | pgm2xm.c:108-115 | the sample header is 40 bytes |
| Xm.SampleHeaderFields | pgm2xm.c:108-113 | a reader finds length, loop start and loop length at 0, 4 and 8, the volume at 12, the loop type (1 when flag 0x08 is set) at 14 and panning 128 at 15 |
| Xm.SampleData | pgm2xm.c:118-120 | the sample data is as long as the transcoded length |
| Xm.InstrumentBlock | pgm2xm.c:63-126 | an instrument block is 252 + 40 + sample length bytes |
| Xm.InstrumentBlockDecodes | pgm2xm.c:103-125 | a reader finds header size 252, one sample, sample header size 40 and a length field equal to the data that follows; decoding that data gives the sample bytes |
| Xm.Instruments | pgm2xm.c:325-326 | the instruments of a registry take at least 292 bytes per entry |
| Xm.Image | pgm2xm.c:204-328 | the file opens with the module header whose instrument count is the final registry size, at most 256 |
| Xm.HeaderInFile | pgm2xm.c:264-276 | a file opening with the module header shows the song's counts, the instrument count and the position list |
| Xm.ImageHeader | pgm2xm.c:267-272 | the file's header counts are the song's position, channel and pattern counts and the registry size, and its order table is the position list |
| Converter.Converter.constructor | pgm2xm.c:28-34 | the state starts with an empty file and an empty registry |
| Converter.Converter.Instrument | pgm2xm.c:44-61 | the scan-and-append leaves the registry `Resolve` gives and returns its number as a uint8_t; the output is untouched |
| Converter.Converter.Fetch | pgm2xm.c:130-182 | the flag, operands, next cursor and delay agree with the decoded command |
| Converter.Converter.ReadCommand | pgm2xm.c:128-202 | the cursor, delay, bytes written and registry are those `Execute` gives |
| Converter.Converter.WriteEffect | pgm2xm.c:189-199 | writes the effect and the fine-tuned parameter |
| Converter.Converter.WriteSample | pgm2xm.c:117-125 | the loop carrying `delta` writes the delta coding of the sample bytes |
| Converter.Converter.StoreInstrument | pgm2xm.c:63-126 | writes the sample's instrument block and leaves the registry alone |
| Converter.Converter.WriteBlock | pgm2xm.c:97-125 | writes the two headers followed by the delta-coded sample bytes |
| Converter.Converter.ReadPositions | pgm2xm.c:228-235 | the position list is the np bytes after the four header bytes |
| Converter.Converter.ReadSong | pgm2xm.c:222-252 | the counts, positions and every pointer are those of the header read; every channel's sentinel is `Song.Sentinel` |
| Converter.Converter.ReadChannel | pgm2xm.c:240-252 | one channel's pointers are read, its sentinels stored and the read position moved past them |
| Converter.Converter.Sentinels | pgm2xm.c:248-251 | the sentinel stores extend the pointer-table invariant to one more channel |
| Converter.Converter.WritePatterns | pgm2xm.c:284-318 | the file gains exactly the pattern blocks `PatternsUpTo` gives, and the registry is the one they leave |
| Converter.Converter.NextPattern | pgm2xm.c:284-318 | one more pattern keeps that invariant |
| Converter.Converter.WriteInstruments | pgm2xm.c:325-326 | the file gains the instrument blocks of every registry entry in order; the registry is unchanged |
| Converter.Converter.NextInstrument | pgm2xm.c:325-326 | one more registry entry keeps that invariant |
| Converter.Converter.PatchCount | pgm2xm.c:328 | the header's instrument count becomes the registry size, the rest unchanged |
| Converter.Converter.Song2Xm | pgm2xm.c:204-328 | the file written is exactly `Xm.Image` of the song |
| Converter.Converter.Run | pgm2xm.c:503-514 | a song is converted exactly when its id is below the song count, from the pointer the table holds; otherwise nothing is written |
| Converter.Converter.Turn | pgm2xm.c:306-312 | the channel's turn leaves the state `Tick` gives and moves no other cursor |
| Converter.Converter.PlayRow | pgm2xm.c:304-313 | the channel loop leaves the state `Row` gives |
| Converter.Converter.NextTurn | pgm2xm.c:304-313 | one more channel keeps the row invariant |
| Converter.Converter.PatchSize | pgm2xm.c:316 | back-patching `pattern_size` turns the header and the bytes after it into `PatternBlock` of those bytes |
| Converter.Converter.PlayRows | pgm2xm.c:302-314 | the row loop leaves the state `Rows` gives |
| Converter.Converter.PlayNextRow | pgm2xm.c:302-314 | one more row keeps the rows invariant |
| Converter.Converter.WritePattern | pgm2xm.c:286-317 | one pattern appends `PatternBlock` of the cells `Pattern` gives and leaves its registry |
| Converter.OpenChannels | pgm2xm.c:296-300 | every channel starts at its pointer in the pattern's column, with no delay |
| Converter.AllPointersRead | pgm2xm.c:240-252 | after every channel, `patterns` holds the header's pointers and each channel's sentinel |

## Left out

- Command-line parsing, the default title and file name, the option flags,
  loading the dump and the sample ROMs, and writing the file are not
  modelled. They are argument plumbing and I/O. The dump, the sample buffer,
  `usebios`, `ftfix` and the title are the constructor's and the methods'
  parameters.
- `printf` diagnostics are left out, including the unknown-opcode warning.
- `malloc`'d output bytes the converter never writes are modelled as zeros.
  In the program they hold whatever the allocation held. In the module
  header these are the bytes between the title's NUL and byte 37, and the
  order-table bytes after the positions. In each sample header they are
  bytes 13, 16 and 17 and the bytes after the sample label's NUL. The
  instrument header is zeroed by the program itself (lines 99-102).
- The 10 000 000-byte output allocation is not modelled; the file is a
  sequence that grows. The pattern pass writes at most 336 + 255 · (9 +
  5120) bytes and the instruments at most 256 · (292 + 16 MB), so a large
  enough sample set would overrun that buffer in the program.
- Converter.Converter.Run: the song id is a natural number. A negative
  `songid`, from `(int)strtoul` of a negative argument, passes the program's check and reads before the
  table; that case is not modelled.
- Converter.Converter.Song2Xm: it requires the song header and the whole
  pointer table to lie inside the dump, with at most 16 channels
  (`Song.HeaderFits`). The program reads without bounds checks, and more
  than 16 channels overrun `patterns[16][256]`.
- Converter.Converter.Song2Xm: it requires the dump to hold at least
  0x10100 bytes. The dump saved from the sound CPU is the 64 KB address
  space, 0x10000 bytes. The caller is expected to pad it with 256 zero
  bytes, which is all a 64-row stream starting at the top can read. The
  model then matches the program whenever the program's reads stay inside
  the 64 KB.
- Converter.Converter.Song2Xm: its instruments use the corrected silencing
  test (`Samples.Silent`), so `Xm.Image` is the file the program would
  write with line 90 fixed. The two differ only for a sample whose linear
  start lies in the unloaded BIOS region.
- Converter.Converter.StoreInstrument: it writes `Samples.Transcode`, not
  `Samples.TranscodeAsWritten`. Without BIOS samples, a descriptor whose
  linear start lies below 0x400000 is silenced with zero start, length and
  loop fields. The program writes the wrapped addresses instead; for
  example, a bank-0 sample with start = end = 0x1000000 and loop
  0x2000000..0x3000000 gets loop start 0x1000, loop length 0x1000 and the
  label "xx at ffc01000". When the end also lies past the start, the
  program reads outside its sample buffer (see Findings). Both policies
  agree on every sample the program silences (`Samples.SilentAsWrittenSilences`).
- Converter.Converter.Run: it uses the corrected lookup (`Song.Lookup`)
  and refuses `songId == maxsongs`. The program accepts that id and
  converts the song whose pointer is the word just past the table, at
  0x70 + 2·maxsongs. On every other id the two lookups agree
  (`Song.LookupInTable`).
- Converter.Converter.Song2Xm: it requires `inscount == 0`, which the
  zero-initialised global gives for the one song a run converts. Every
  object models one run.
- Converter.Converter.Song2Xm: the title is required to hold no NUL byte,
  since it is a C string. Its characters are bytes, without any encoding.
- Converter.Converter.Sentinels: it uses the corrected guards of the
  sentinel Finding, so it skips two stores the program makes.
  - For every song with patterns, the program's channel 0 stores its first
    pointer into `patterns[-1][num_patterns]`, which lies before the array.
    What that overwrites is outside the model. Within the array, the
    contents are the same.
  - For a song without patterns, the program stores
    `patterns[j][-1] + 0x100` into `patterns[j][0]`, reading before the row.
    No pattern is converted in that case, so the output is the same.
- Patterns.PatternSize: it bounds a pattern block's data at 64 to 320 bytes
  per channel. It does not prove that an XM reader splits that data into
  exactly 64 × num_channels cells. Each cell's reading is proved on its own
  (`Commands.UnpackCellBytes`, `Commands.UnpackWait`).
- The channel pointers are offsets into the dump rather than C pointers.
  The left shift `*(source+sptr+7)<<24` is taken as unsigned.

## Findings

| source | as written | input that shows it | evidently intended | confidence | as-written member | corrected member |
|---|---|---|---|---|---|---|
| pgm2xm.c:506 | `if(songid > maxsongs)` accepts `songid == maxsongs` | a dump whose byte 0x52 is 3, with song id 3: the word at 0x76, just past the three-entry table, is taken as a song pointer | refuse every id at or above the song count (`>=`), as the "Song %02x / %02x" message with `maxsongs-1` shows | not executed | Song.LookupAsWrittenPastTable | Song.LookupInTable |
| pgm2xm.c:248-251 | the guard `if(i>0)` stores `patterns[j-1][num_patterns]` when `j == 0`; with no patterns, `patterns[j][num_patterns-1]` is read at column -1 | any song with at least one pattern: channel 0 stores to row -1, before the array | store the previous channel's sentinel only when there is a previous channel, and the last pointer's sentinel only when there is a last pointer | not executed | Song.SentinelAsWrittenOutside | Song.SentinelSlotsInside |
| pgm2xm.c:90 | without BIOS samples, only `startaddr <= 0x400000` is silenced, after the 32-bit subtraction has wrapped any start below 0x400000 to about 4 GB | `usebios == 0`, a bank-0 descriptor with stored start 0x1000000 and end 0x2000000: start 0xFFC01000, end 0xFFC02000, 4096 bytes read about 4 GB past the 16 MB buffer | silence every sample whose linear start lies below the sample base, in the unloaded BIOS region | not executed | Samples.AsWrittenReadsOutside | Samples.TranscodeInBounds |
