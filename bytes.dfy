/** The C integer widths the converter works in, and the little-endian
    field encoding that both the Z80 dump and the XM container use. */
module Bytes {

  /** uint8_t */
  type byte = x: int | 0 <= x < 0x100
  /** uint16_t */
  type u16 = x: int | 0 <= x < 0x1_0000
  /** uint32_t */
  type u32 = x: int | 0 <= x < 0x1_0000_0000

  datatype Option<T> = None | Some(value: T)

  /** `n` zero bytes: a cleared field, or one the converter never writes. */
  function Zeros(n: nat): (z: seq<byte>)
    ensures |z| == n
    ensures forall i :: 0 <= i < n ==> z[i] == 0
  {
    seq(n, _ => 0)
  }

  /** `*(uint16_t*)(s + p)` on the little-endian host. */
  function Word(s: seq<byte>, p: nat): u16
    requires p + 2 <= |s|
  {
    s[p] as int + 0x100 * s[p + 1] as int
  }

  /** `*(uint32_t*)(s + p)` on the little-endian host. */
  function Dword(s: seq<byte>, p: nat): u32
    requires p + 4 <= |s|
  {
    s[p] as int + 0x100 * s[p + 1] as int + 0x1_0000 * s[p + 2] as int + 0x100_0000 * s[p + 3] as int
  }

  /** The two bytes `*(uint16_t*)p = x` stores; reading them back gives `x`. */
  function LE16(x: u16): (s: seq<byte>)
    ensures |s| == 2 && Word(s, 0) == x
  {
    [x % 0x100, x / 0x100]
  }

  /** The four bytes `*(uint32_t*)p = x` stores; reading them back gives `x`. */
  function LE32(x: u32): (s: seq<byte>)
    ensures |s| == 4 && Dword(s, 0) == x
  {
    var q1 := x / 0x100;
    var q2 := q1 / 0x100;
    [x % 0x100, q1 % 0x100, q2 % 0x100, q2 / 0x100]
  }

  /** A 16-bit field stored in the middle of a buffer reads back unchanged. */
  lemma WordAt(a: seq<byte>, x: u16, b: seq<byte>)
    ensures Word(a + LE16(x) + b, |a|) == x
  {
    var s := a + LE16(x) + b;
    assert s[|a|] == LE16(x)[0] && s[|a| + 1] == LE16(x)[1];
  }

  /** A 32-bit field stored in the middle of a buffer reads back unchanged. */
  lemma DwordAt(a: seq<byte>, x: u32, b: seq<byte>)
    ensures Dword(a + LE32(x) + b, |a|) == x
  {
    var s := a + LE32(x) + b;
    assert s[|a|] == LE32(x)[0] && s[|a| + 1] == LE32(x)[1];
    assert s[|a| + 2] == LE32(x)[2] && s[|a| + 3] == LE32(x)[3];
  }
}
