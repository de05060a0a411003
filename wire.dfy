/** Byte-level vocabulary shared by the band client model: bytes, optional
    and fallible results, Python slicing, and the fixed-width integer and
    string formats of Python's struct module as the client uses them.
    Formats written without a byte-order prefix ('b', 'h', 'H') use the host
    order; the model takes the host to be little-endian. */
module Wire {

  type uint8 = x: int | 0 <= x < 0x100
  type Bytes = seq<uint8>

  datatype Option<+T> = None | Some(value: T)

  /** The outcome of a Python operation that returns a value or raises. */
  datatype Result<+T, +E> = Success(value: T) | Failure(error: E)

  function Min(a: int, b: int): int { if a < b then a else b }

  /** struct format 'b': one byte as a two's-complement signed value, i.e.
      the unique value in -128..127 congruent to the byte modulo 256. */
  function Int8(b: uint8): (v: int)
    ensures -0x80 <= v < 0x80
    ensures v % 0x100 == b
  {
    if b < 0x80 then b else b - 0x100
  }

  /** struct format 'H' on two bytes, low byte first. */
  function UInt16(lo: uint8, hi: uint8): (v: int)
    ensures 0 <= v < 0x1_0000
    ensures v % 0x100 == lo && v / 0x100 == hi
  {
    lo + 0x100 * hi
  }

  /** struct format 'h' on two bytes, low byte first: the unique value in
      -32768..32767 congruent to the unsigned reading modulo 65536. */
  function Int16(lo: uint8, hi: uint8): (v: int)
    ensures -0x8000 <= v < 0x8000
    ensures v % 0x1_0000 == UInt16(lo, hi)
  {
    var u := UInt16(lo, hi);
    if u < 0x8000 then u else u - 0x1_0000
  }

  /** struct.pack('<H', v): the two bytes of a 16-bit unsigned value. */
  function EncodeUInt16(v: int): (r: Bytes)
    requires 0 <= v < 0x1_0000
    ensures |r| == 2 && UInt16(r[0], r[1]) == v
  {
    [v % 0x100, v / 0x100]
  }

  /** struct.pack('<h', v): the two bytes of a 16-bit signed value. */
  function EncodeInt16(v: int): (r: Bytes)
    requires -0x8000 <= v < 0x8000
    ensures |r| == 2 && Int16(r[0], r[1]) == v
  {
    var u := if v < 0 then v + 0x1_0000 else v;
    [u % 0x100, u / 0x100]
  }

  /** Reading two bytes as 'h' and packing the value again gives the bytes back. */
  lemma Int16Bytes(lo: uint8, hi: uint8)
    ensures EncodeInt16(Int16(lo, hi)) == [lo, hi]
  {
  }

  /** struct.pack('b', v) for one signed byte. */
  function EncodeInt8(v: int): (r: uint8)
    requires -0x80 <= v < 0x80
    ensures Int8(r) == v
  {
    if v < 0 then v + 0x100 else v
  }

  /** struct.pack('<Ns', s) (Python 2): s padded with NUL bytes, or cut, to
      exactly n bytes. */
  function PadTo(s: Bytes, n: nat): (r: Bytes)
    ensures |r| == n
    ensures forall i :: 0 <= i < n ==> r[i] == (if i < |s| then s[i] else 0)
    ensures |s| == n ==> r == s
  {
    if n <= |s| then s[..n] else s + seq(n - |s|, _ => 0)
  }

  /** Python's s[i:j] for non-negative bounds: both ends are clamped to the
      length, and an empty slice results when they cross. */
  function Slice(s: Bytes, i: nat, j: nat): (r: Bytes)
    ensures |r| == (if i <= j && i <= |s| then Min(j, |s|) - i else 0)
    ensures forall k :: 0 <= k < |r| ==> r[k] == s[i + k]
  {
    if i <= j && i <= |s| then s[i..Min(j, |s|)] else []
  }

  /** A Python 2 byte-string literal written with printable characters. */
  function Ascii(s: string): (r: Bytes)
    requires forall i :: 0 <= i < |s| ==> s[i] as int < 0x100
    ensures |r| == |s|
    ensures forall i :: 0 <= i < |s| ==> r[i] == s[i] as int
  {
    seq(|s|, i requires 0 <= i < |s| => s[i] as int)
  }

  // ------------------------------------------------- sequence algebra

  /** Moving the brackets of a three-part concatenation. */
  lemma Assoc<T>(a: seq<T>, b: seq<T>, c: seq<T>)
    ensures a + b + c == a + (b + c)
  {
  }

  /** Appending three parts one after the other appends their
      concatenation. */
  lemma Append3<T>(s: seq<T>, a: seq<T>, b: seq<T>, c: seq<T>)
    ensures s + a + b + c == s + (a + b + c)
  {
  }

  /** Four single appends are one append of the four elements. */
  lemma Append4<T>(s: seq<T>, a: T, b: T, c: T, e: T)
    ensures s + [a] + [b] + [c] + [e] == s + [a, b, c, e]
  {
  }

  /** Two elements between a prefix and a suffix, as nested appends. */
  lemma Nest<T>(p: seq<T>, a: T, b: T, r: seq<T>)
    ensures p + [a, b] + r == p + ([a] + ([b] + r))
  {
  }

  /** Moving the brackets of a six-part concatenation. */
  lemma Regroup6<T>(a: seq<T>, b: seq<T>, c: seq<T>, d: seq<T>, e: seq<T>, f: seq<T>)
    ensures a + (b + c + d + e) + f == (a + b + c + d) + e + f
  {
  }
}
