/** The write sequence of auth.py dfuUpdate once the file's name and bytes
    are known: the file kind taken from its extension, the metadata frame,
    the 20-byte data chunks and the checksum frame. The checksum itself is
    Crc16.Crc; the class MiBand3 in module Band runs the sequence with the
    waits in between. */
module Dfu {
  import opened Wire
  import Crc16
  import Frames

  // ------------------------------------------------------------ file name

  /** The index of the last occurrence of c in s, or -1. */
  function LastIndex(s: string, c: char): (i: int)
    ensures -1 <= i < |s|
    ensures i >= 0 ==> s[i] == c
    ensures forall j :: i < j < |s| ==> s[j] != c
    decreases |s|
  {
    if s == [] then -1
    else if s[|s| - 1] == c then |s| - 1
    else LastIndex(s[..|s| - 1], c)
  }

  /** os.path.splitext(fileName)[1][1:]: the text after the last dot of the
      last path component, provided that dot is not part of a run of
      leading dots; otherwise empty. */
  function Extension(fileName: string): (ext: string)
    ensures forall i :: 0 <= i < |ext| ==> ext[i] != '.' && ext[i] != '/'
    ensures ext != "" ==>
      var dot := |fileName| - |ext| - 1;
      && 0 <= dot && fileName[dot] == '.' && fileName[dot + 1..] == ext
      && exists i :: 0 <= i < dot && fileName[i] != '.' && forall j :: i <= j < dot ==> fileName[j] != '/'
    ensures forall dot, i :: Splits(fileName, i, dot) ==> ext == fileName[dot + 1..]
    ensures (forall dot, i :: !Splits(fileName, i, dot)) ==> ext == ""
  {
    var sep := LastIndex(fileName, '/');
    var dot := LastIndex(fileName, '.');
    if dot > sep && exists i :: sep + 1 <= i < dot && fileName[i] != '.' then
      var ext := fileName[dot + 1..];
      assert Splits(fileName, (var i :| sep + 1 <= i < dot && fileName[i] != '.'; i), dot);
      ext
    else
      assert forall dot, i :: !Splits(fileName, i, dot) by {
        forall dot', i | Splits(fileName, i, dot') ensures false {
          SplitsAtLastDot(fileName, i, dot');
        }
      }
      ""
  }

  /** splitext separates fileName at dot when dot is the last dot, it lies
      in the last path component, and a character other than a dot comes
      before it in that component (character i). */
  predicate Splits(fileName: string, i: int, dot: int)
  {
    && 0 <= i < dot < |fileName|
    && fileName[dot] == '.' && fileName[i] != '.'
    && (forall j :: i <= j < |fileName| ==> fileName[j] != '/')
    && (forall j :: dot < j < |fileName| ==> fileName[j] != '.')
  }

  /** A split point is the last dot, after the last separator. */
  lemma SplitsAtLastDot(fileName: string, i: int, dot: int)
    requires Splits(fileName, i, dot)
    ensures LastIndex(fileName, '.') == dot
    ensures LastIndex(fileName, '/') < i
  {
  }

  /** A few names as the client sees them. */
  lemma ExtensionExamples()
    ensures Extension("Mili_wuhan.res") == "res"
    ensures Extension(".fw") == ""
  {
    assert "Mili_wuhan.res"[10] == '.';
    assert LastIndex("Mili_wuhan.res", '.') == 10;
    assert LastIndex("Mili_wuhan.res", '/') == -1;
    assert "Mili_wuhan.res"[0] != '.';
    assert "Mili_wuhan.res"[11..] == "res";
    assert LastIndex(".fw", '.') == 0;
  }

  /** str.lower() on a byte string: only A-Z change. */
  function LowerAscii(s: string): (r: string)
    ensures |r| == |s|
    ensures forall i :: 0 <= i < |s| ==> r[i] == if 'A' <= s[i] <= 'Z' then (s[i] as int + 32) as char else s[i]
  {
    seq(|s|, i requires 0 <= i < |s| => if 'A' <= s[i] <= 'Z' then (s[i] as int + 32) as char else s[i])
  }

  /** Lower-casing twice is lower-casing once. */
  lemma LowerAsciiIdempotent(s: string)
    ensures LowerAscii(LowerAscii(s)) == LowerAscii(s)
  {
  }

  datatype FileKind = Resource | Firmware | Other

  /** The extension compared case-insensitively with "res" and "fw". */
  function Kind(ext: string): (k: FileKind)
    ensures k == Resource <==> LowerAscii(ext) == "res"
    ensures k == Firmware <==> LowerAscii(ext) == "fw"
  {
    var lower := LowerAscii(ext);
    if lower == "res" then Resource else if lower == "fw" then Firmware else Other
  }

  /** The kind does not depend on the case of the extension. */
  lemma KindIgnoresCase(ext: string)
    ensures Kind(LowerAscii(ext)) == Kind(ext)
  {
    LowerAsciiIdempotent(ext);
  }

  // --------------------------------------------------------------- frames

  datatype DfuError = SizeOverflow  // struct.pack('<i', size) on a size of 2^31 or more

  /** struct.pack('<i', size)[:-1]: the low three bytes of the size. */
  function Le3(size: nat): (r: Bytes)
    requires size < 0x8000_0000
    ensures |r| == 3
    ensures r[0] as int + 0x100 * r[1] as int + 0x1_0000 * r[2] as int == size % 0x100_0000
  {
    var a := size / 0x100;
    var b := a / 0x100;
    assert size == size % 0x100 + 0x100 * (a % 0x100) + 0x1_0000 * (b % 0x100) + 0x100_0000 * (b / 0x100);
    [size % 0x100, a % 0x100, b % 0x100]
  }

  /** The metadata frame: 01, the size, and 02 for a resource; 01 and the
      size for firmware; nothing for any other kind. The size is packed as
      a signed 32-bit value, which raises for sizes of 2^31 or more. */
  function MetaFrame(kind: FileKind, size: nat): (r: Result<Option<Bytes>, DfuError>)
    ensures r.Failure? <==> kind != Other && size >= 0x8000_0000
    ensures r.Success? ==> (r.value.Some? <==> kind != Other)
    ensures r.Success? && r.value.Some? ==>
      && |r.value.value| == (if kind == Resource then 5 else 4)
      && r.value.value[..4] == [0x01] + Le3(size)
      && (kind == Resource ==> r.value.value[4] == 0x02)
  {
    if kind == Other then Success(None)
    else if size >= 0x8000_0000 then Failure(SizeOverflow)
    else if kind == Resource then Success(Some([0x01] + Le3(size) + [0x02]))
    else Success(Some([0x01] + Le3(size)))
  }

  /** The checksum frame: 04, the low byte, the high byte. */
  function ChecksumFrame(crc: bv32): (r: Bytes)
    ensures |r| == 3 && r[0] == 0x04
  {
    [0x04, Crc16.Low(crc), Crc16.High(crc)]
  }

  /** The two checksum bytes of the frame give the checksum back. */
  lemma ChecksumFrameCarriesCrc(crc: bv32)
    requires crc <= 0xFFFF
    ensures var r := ChecksumFrame(crc); r[1] as int + 0x100 * r[2] as int == crc as int
  {
    Crc16.LowHighReconstruct(crc);
  }

  // --------------------------------------------------------------- chunks

  /** The successive results of f.read(20) until the file is exhausted. */
  function Chunks(s: Bytes): (r: seq<Bytes>)
    ensures |r| == (|s| + 19) / 20
    ensures forall i :: 0 <= i < |r| ==> 1 <= |r[i]| <= 20
    decreases |s|
  {
    if s == [] then []
    else if |s| <= 20 then [s]
    else [s[..20]] + Chunks(s[20..])
  }

  function Concat(ss: seq<Bytes>): (r: Bytes)
    decreases |ss|
  {
    if ss == [] then [] else ss[0] + Concat(ss[1..])
  }

  /** Sending every chunk sends the whole file, in order. */
  lemma {:induction false} ChunksConcat(s: Bytes)
    ensures Concat(Chunks(s)) == s
    decreases |s|
  {
    if |s| > 20 {
      ChunksConcat(s[20..]);
      var c := Chunks(s);
      assert c[1..] == Chunks(s[20..]);
    }
  }

  /** Chunk k is the slice of the file starting at byte 20k. */
  lemma {:induction false} ChunkAt(s: Bytes, k: nat)
    requires k < (|s| + 19) / 20
    ensures Chunks(s)[k] == s[20 * k..Min(20 * k + 20, |s|)]
    decreases k
  {
    if k > 0 {
      ChunkAt(s[20..], k - 1);
      assert s[20..][20 * (k - 1)..Min(20 * (k - 1) + 20, |s| - 20)] == s[20 * k..Min(20 * k + 20, |s|)];
    }
  }

  /** The chunks as writes to the DFU data characteristic. */
  function DataWrites(chunks: seq<Bytes>): (r: seq<Frames.Write>)
    ensures |r| == |chunks|
    ensures forall i :: 0 <= i < |r| ==> r[i] == Frames.Write(Frames.DfuData, chunks[i])
  {
    seq(|chunks|, i requires 0 <= i < |chunks| => Frames.Write(Frames.DfuData, chunks[i]))
  }

  // ------------------------------------------------------ whole sequence

  /** A write to the DFU control characteristic. */
  function Control(frame: Bytes): Frames.Write
  {
    Frames.Write(Frames.DfuControl, frame)
  }

  /** The part every file gets: 03, the data chunks, 00 and the checksum. */
  function Body(file: Bytes): (r: seq<Frames.Write>)
    ensures var n := (|file| + 19) / 20;
      && |r| == n + 3
      && r[0] == Control([0x03])
      && r[1..n + 1] == DataWrites(Chunks(file))
      && r[n + 1] == Control([0x00])
      && r[n + 2] == Control(ChecksumFrame(Crc16.Crc(file)))
  {
    var data := DataWrites(Chunks(file));
    var r := [Control([0x03])] + data + [Control([0x00])] + [Control(ChecksumFrame(Crc16.Crc(file)))];
    assert r[1..|data| + 1] == data;
    r
  }

  /** Everything dfuUpdate writes when no notification arrives during its
      two waits: the metadata frame (if any), 03, the data chunks, 00, the
      checksum frame, and 05 for firmware. */
  function DfuWrites(fileName: string, file: Bytes): (r: Result<seq<Frames.Write>, DfuError>)
  {
    WritesFor(Kind(Extension(fileName)), file)
  }

  function WritesFor(kind: FileKind, file: Bytes): (r: Result<seq<Frames.Write>, DfuError>)
  {
    match MetaFrame(kind, |file|)
    case Failure(e) => Failure(e)
    case Success(meta) => Success(Assemble(meta, kind, file))
  }

  /** What dfuUpdate writes before its first wait: the metadata frame (if
      any), 03, the data chunks and 00. */
  function Prelude(meta: Option<Bytes>, file: Bytes): (r: seq<Frames.Write>)
    ensures var m := if meta.Some? then 1 else 0;
      |r| == m + 2 + |Chunks(file)| && r[m] == Control([0x03]) && r[|r| - 1] == Control([0x00])
  {
    (if meta.Some? then [Control(meta.value)] else [])
    + [Control([0x03])] + DataWrites(Chunks(file)) + [Control([0x00])]
  }

  /** The whole sequence is the prelude, the checksum frame and, for
      firmware, 05. */
  lemma AssembleSplit(meta: Option<Bytes>, kind: FileKind, file: Bytes)
    ensures Assemble(meta, kind, file)
      == Prelude(meta, file) + [Control(ChecksumFrame(Crc16.Crc(file)))]
         + (if kind == Firmware then [Control([0x05])] else [])
  {
    var head := if meta.Some? then [Control(meta.value)] else [];
    var data := DataWrites(Chunks(file));
    var ck := Control(ChecksumFrame(Crc16.Crc(file)));
    Regroup6(head, [Control([0x03])], data, [Control([0x00])], [ck],
            if kind == Firmware then [Control([0x05])] else []);
  }

  /** The metadata write (if any), the body, and 05 for firmware. */
  function Assemble(meta: Option<Bytes>, kind: FileKind, file: Bytes): seq<Frames.Write>
  {
    (if meta.Some? then [Control(meta.value)] else [])
    + Body(file)
    + (if kind == Firmware then [Control([0x05])] else [])
  }

  /** The shape of the sequence: how many writes, and which control
      frame goes where. */
  lemma DfuWritesShape(meta: Option<Bytes>, kind: FileKind, file: Bytes)
    ensures var w := Assemble(meta, kind, file);
      var m := if meta.Some? then 1 else 0;
      var n := (|file| + 19) / 20;
      && |w| == m + 3 + n + (if kind == Firmware then 1 else 0)
      && (m == 1 ==> w[0] == Control(meta.value))
      && w[m] == Control([0x03])
      && w[m + n + 1] == Control([0x00])
      && w[m + n + 2] == Control(ChecksumFrame(Crc16.Crc(file)))
      && (w[|w| - 1] == Control([0x05]) <==> kind == Firmware)
  {
    var head := if meta.Some? then [Control(meta.value)] else [];
    var tail := if kind == Firmware then [Control([0x05])] else [];
    var body := Body(file);
    var n := (|file| + 19) / 20;
    Part(head, body, tail, 0);
    Part(head, body, tail, n + 1);
    Part(head, body, tail, n + 2);
  }

  /** Element i of the middle part of a three-part concatenation. */
  lemma Part<T>(head: seq<T>, body: seq<T>, tail: seq<T>, i: nat)
    requires i < |body|
    ensures (head + body + tail)[|head| + i] == body[i]
  {
  }

  /** Between the 03 and the 00 come exactly the data chunks, in order. */
  lemma DfuWritesData(meta: Option<Bytes>, kind: FileKind, file: Bytes)
    ensures var w := Assemble(meta, kind, file);
      var m := if meta.Some? then 1 else 0;
      var n := (|file| + 19) / 20;
      |w| >= m + 1 + n && w[m + 1..m + 1 + n] == DataWrites(Chunks(file))
  {
    var head := if meta.Some? then [Control(meta.value)] else [];
    var tail := if kind == Firmware then [Control([0x05])] else [];
    var data := DataWrites(Chunks(file));
    var ck := Control(ChecksumFrame(Crc16.Crc(file)));
    assert Body(file) == [Control([0x03])] + data + [Control([0x00])] + [ck];
    Framed(head, Control([0x03]), data, [Control([0x00]), ck], tail);
  }

  /** The part framed by one element in front inside a larger
      concatenation. */
  lemma Framed<T>(head: seq<T>, x: T, data: seq<T>, after: seq<T>, tail: seq<T>)
    requires |after| == 2
    ensures var w := head + ([x] + data + [after[0]] + [after[1]]) + tail;
      |w| >= |head| + 1 + |data| && w[|head| + 1..|head| + 1 + |data|] == data
  {
    var w := head + ([x] + data + [after[0]] + [after[1]]) + tail;
    forall k | 0 <= k < |data|
      ensures w[|head| + 1 + k] == data[k]
    {
    }
  }

  /** Data write k carries bytes 20k to 20k + 20 of the file (fewer for
      the last chunk). */
  lemma DataWriteAt(meta: Option<Bytes>, kind: FileKind, file: Bytes, k: nat)
    requires k < (|file| + 19) / 20
    ensures var w := Assemble(meta, kind, file);
      var m := if meta.Some? then 1 else 0;
      |w| > m + 1 + k && w[m + 1 + k] == Frames.Write(Frames.DfuData, file[20 * k..Min(20 * k + 20, |file|)])
  {
    var w := Assemble(meta, kind, file);
    var m := if meta.Some? then 1 else 0;
    var n := (|file| + 19) / 20;
    var d := DataWrites(Chunks(file));
    DfuWritesData(meta, kind, file);
    ElementOfSlice(w, m + 1, m + 1 + n, k);
    ChunkAt(file, k);
    assert d[k] == Frames.Write(Frames.DfuData, Chunks(file)[k]);
  }

  /** Element k of a slice is element lo + k of the sequence. */
  lemma ElementOfSlice<T>(s: seq<T>, lo: nat, hi: nat, k: nat)
    requires lo <= hi <= |s| && k < hi - lo
    ensures s[lo + k] == s[lo..hi][k]
  {
  }

  /** For a file whose length is a multiple of 20, every data write
      carries 20 bytes: write k carries bytes 20k to 20k + 20. */
  lemma WholeChunkWrites(meta: Option<Bytes>, kind: FileKind, file: Bytes)
    requires |file| % 20 == 0
    ensures var w := Assemble(meta, kind, file);
      var m := if meta.Some? then 1 else 0;
      |w| >= m + 1 + |file| / 20 &&
      forall k :: 0 <= k < |file| / 20 ==> w[m + 1 + k] == Frames.Write(Frames.DfuData, file[20 * k..20 * k + 20])
  {
    DfuWritesData(meta, kind, file);
    forall k | 0 <= k < |file| / 20
      ensures Assemble(meta, kind, file)[(if meta.Some? then 1 else 0) + 1 + k]
        == Frames.Write(Frames.DfuData, file[20 * k..20 * k + 20])
    {
      DataWriteAt(meta, kind, file, k);
    }
  }

  /** The data writes carry the whole file, in order. */
  lemma DataWritesCarryFile(file: Bytes)
    ensures var d := DataWrites(Chunks(file));
      Concat(seq(|d|, i requires 0 <= i < |d| => d[i].frame)) == file
  {
    var d := DataWrites(Chunks(file));
    assert seq(|d|, i requires 0 <= i < |d| => d[i].frame) == Chunks(file);
    ChunksConcat(file);
  }

  /** "update.fw" names a firmware file. */
  lemma UpdateFwIsFirmware()
    ensures Kind(Extension("update.fw")) == Firmware
  {
    assert LastIndex("update.fw", '.') == 6;
    assert LastIndex("update.fw", '/') == -1;
    assert "update.fw"[0] != '.';
    assert "update.fw"[7..] == "fw";
    assert LowerAscii("fw") == "fw";
  }

  /** The metadata frame of a 1000-byte firmware file. */
  lemma ThousandByteMeta()
    ensures MetaFrame(Firmware, 1000) == Success(Some([0x01, 0xE8, 0x03, 0x00]))
  {
    assert Le3(1000) == [0xE8, 0x03, 0x00];
    assert [0x01] + Le3(1000) == [0x01, 0xE8, 0x03, 0x00];
  }

  /** A 1000-byte firmware file: metadata 01 E8 03 00, then 03, fifty
      20-byte chunks of the file in order, 00, the checksum and 05, 55
      writes in all. */
  lemma ThousandByteFirmware(file: Bytes)
    requires |file| == 1000
    ensures DfuWrites("update.fw", file).Success?
    ensures var w := DfuWrites("update.fw", file).value;
      && |w| == 55 && w[0] == Control([0x01, 0xE8, 0x03, 0x00])
      && w[1] == Control([0x03])
      && (forall i :: 0 <= i < 50 ==> w[2 + i] == Frames.Write(Frames.DfuData, file[20 * i..20 * i + 20]))
      && w[52] == Control([0x00])
      && w[53] == Control(ChecksumFrame(Crc16.Crc(file)))
      && w[54] == Control([0x05])
  {
    UpdateFwIsFirmware();
    ThousandByteMeta();
    var meta := Some([0x01, 0xE8, 0x03, 0x00]);
    DfuWritesShape(meta, Firmware, file);
    WholeChunkWrites(meta, Firmware, file);
  }
}
