/**
 * The MSENC video encoder's firmware handling: choosing the firmware file,
 * copying a little-endian ucode image into the driver's word buffer and
 * validating its headers, the bounded idle-wait polls, and the sequence of
 * DMA transfers that boots the engine.
 */
module Msenc {
  import opened Wrappers

  type u8 = x: int | 0 <= x < 0x100
  type u32 = x: int | 0 <= x < 0x1_0000_0000

  const Word32: int := 0x1_0000_0000
  const EINVAL: int := 22
  const ENOENT: int := 2
  const BinMagic: int := 0x10de
  const BinVersion: int := 1
  /** MSENC_IDLE_TIMEOUT_DEFAULT, in microseconds. */
  const IdleTimeoutDefault: nat := 10000
  /** MSENC_IDLE_CHECK_PERIOD, in microseconds. */
  const IdleCheckPeriod: nat := 10
  /** The size of one DMA transfer into the engine's memory. */
  const ChunkSize: nat := 256

  // ---------------------------------------------------------------------
  // msenc_get_fw_name

  const FwName02: string := "nvhost_msenc02.fw"

  /**
   * The firmware file name for major version `major`; None when the 32-byte
   * name buffer cannot be allocated or the major version is not 2.
   */
  function FwName(allocOk: bool, major: nat): (name: Option<string>)
    ensures name.Some? <==> allocOk && major == 2
    ensures name.Some? ==> name.value == FwName02 && |name.value| + 1 <= 32
  {
    if !allocOk then None
    else if major == 2 then Some(FwName02)
    else None
  }

  // ---------------------------------------------------------------------
  // le32_to_cpu

  function DecodeLE32(b: seq<u8>): (w: u32)
    requires |b| == 4
    ensures w % 0x100 == b[0] && w / 0x100_0000 == b[3]
  {
    var b0: int, b1: int, b2: int, b3: int := b[0], b[1], b[2], b[3];
    b0 + 0x100 * b1 + 0x1_0000 * b2 + 0x100_0000 * b3
  }

  function EncodeLE32(w: u32): (b: seq<u8>)
    ensures |b| == 4
  {
    var q1 := w / 0x100;
    var q2 := q1 / 0x100;
    [w % 0x100, q1 % 0x100, q2 % 0x100, q2 / 0x100]
  }

  /** A number written as a low byte and a high part has that byte as its remainder and that part as its quotient. */
  lemma SplitByte(x: int, lo: int, hi: int)
    requires 0 <= lo < 0x100 && x == lo + 0x100 * hi
    ensures x % 0x100 == lo && x / 0x100 == hi
  {
  }

  lemma DecodeEncodeLE32(w: u32)
    ensures DecodeLE32(EncodeLE32(w)) == w
  {
    var q1: int := w / 0x100;
    var q2: int := q1 / 0x100;
    assert w == w % 0x100 + 0x100 * q1;
    assert q1 == q1 % 0x100 + 0x100 * q2;
    assert q2 == q2 % 0x100 + 0x100 * (q2 / 0x100);
  }

  lemma EncodeDecodeLE32(b: seq<u8>)
    requires |b| == 4
    ensures EncodeLE32(DecodeLE32(b)) == b
  {
    var b0: int, b1: int, b2: int, b3: int := b[0], b[1], b[2], b[3];
    var q2: int := b2 + 0x100 * b3;
    var q1: int := b1 + 0x100 * q2;
    var w: int := DecodeLE32(b);
    assert w == b0 + 0x100 * q1;
    SplitByte(w, b0, q1);
    SplitByte(q1, b1, q2);
    SplitByte(q2, b2, b3);
  }

  /** The image decoded word by word; trailing bytes short of a word are dropped. */
  function DecodeWords(fw: seq<u8>): (ws: seq<u32>)
    ensures |ws| == |fw| / 4
    ensures forall w :: 0 <= w < |ws| ==> ws[w] == DecodeLE32(fw[4 * w .. 4 * w + 4])
  {
    if |fw| < 4 then []
    else
      var rest := DecodeWords(fw[4..]);
      assert forall w :: 0 <= w < |rest| ==> fw[4..][4 * w .. 4 * w + 4] == fw[4 * (w + 1) .. 4 * (w + 1) + 4];
      [DecodeLE32(fw[..4])] + rest
  }

  function EncodeWords(ws: seq<u32>): (fw: seq<u8>)
    ensures |fw| == 4 * |ws|
  {
    if ws == [] then [] else EncodeLE32(ws[0]) + EncodeWords(ws[1..])
  }

  /** Decoding an encoded image gives the words back, whatever partial word follows them. */
  lemma {:induction false} DecodeEncodeWords(ws: seq<u32>, tail: seq<u8>)
    requires |tail| < 4
    ensures DecodeWords(EncodeWords(ws) + tail) == ws
  {
    if ws != [] {
      var fw := EncodeWords(ws) + tail;
      DecodeEncodeLE32(ws[0]);
      assert fw[..4] == EncodeLE32(ws[0]);
      assert fw[4..] == EncodeWords(ws[1..]) + tail;
      DecodeEncodeWords(ws[1..], tail);
    }
  }

  // ---------------------------------------------------------------------
  // msenc_setup_ucode_image

  /** struct msenc_ucode_bin_header_v1: the first six words of the image. */
  datatype BinHeader = BinHeader(
    magic: u32, ver: u32, size: u32,
    osHeaderOffset: u32, osDataOffset: u32, osSize: u32)

  /** The leading words of struct msenc_ucode_os_header_v1. */
  datatype OsHeader = OsHeader(codeOffset: u32, codeSize: u32, dataOffset: u32, dataSize: u32)

  /** The `os` part of struct msenc that the driver fills from the headers. */
  datatype OsInfo = OsInfo(size: u32, binDataOffset: u32, codeOffset: u32, dataOffset: u32, dataSize: u32)

  /** The bin header is the image's first six words, in the order of its fields. */
  function ReadBinHeader(img: seq<u32>): (h: BinHeader)
    requires |img| >= 6
    ensures [h.magic, h.ver, h.size, h.osHeaderOffset, h.osDataOffset, h.osSize] == img[..6]
  {
    BinHeader(img[0], img[1], img[2], img[3], img[4], img[5])
  }

  /** The OS header sits at byte offset osHeaderOffset of the image; it is read whole words at a time. */
  predicate OsHeaderFits(img: seq<u32>)
    requires |img| >= 6
    ensures OsHeaderFits(img) ==> ReadBinHeader(img).osHeaderOffset + 16 <= 4 * |img|
  {
    var off := ReadBinHeader(img).osHeaderOffset;
    off % 4 == 0 && off / 4 + 4 <= |img|
  }

  /** The OS header is the four words starting at byte offset os_bin_header_offset. */
  function ReadOsHeader(img: seq<u32>): (h: OsHeader)
    requires |img| >= 6 && OsHeaderFits(img)
    ensures var at := ReadBinHeader(img).osHeaderOffset / 4;
      4 * at == ReadBinHeader(img).osHeaderOffset
      && [h.codeOffset, h.codeSize, h.dataOffset, h.dataSize] == img[at..at + 4]
  {
    var at := ReadBinHeader(img).osHeaderOffset / 4;
    OsHeader(img[at], img[at + 1], img[at + 2], img[at + 3])
  }

  /** The buffer after the copy loop: the decoded words, then whatever the buffer held beyond them. */
  function CopiedImage(buf: seq<u32>, fw: seq<u8>): (img: seq<u32>)
    requires |fw| / 4 <= |buf|
    ensures |img| == |buf|
    ensures img[..|fw| / 4] == DecodeWords(fw)
    ensures img[|fw| / 4..] == buf[|fw| / 4..]
  {
    DecodeWords(fw) + buf[|fw| / 4..]
  }

  /** The header checks in the driver's order: magic, then version, then declared size against the file size. */
  function SetupError(img: seq<u32>, fwSize: nat): (err: int)
    requires |img| >= 6
    ensures err == 0 || err == -EINVAL || err == -ENOENT
    ensures err == -ENOENT <==> img[0] == BinMagic && img[1] != BinVersion
    ensures err == -EINVAL <==> img[0] != BinMagic || (img[1] == BinVersion && img[2] > fwSize)
    ensures err == 0 <==> img[0] == BinMagic && img[1] == BinVersion && img[2] <= fwSize
  {
    var h := ReadBinHeader(img);
    if h.magic != BinMagic then -EINVAL
    else if h.ver != BinVersion then -ENOENT
    else if h.size > fwSize then -EINVAL
    else 0
  }

  /** What a successful setup records, from the bin header and the OS header. */
  function OsFromImage(img: seq<u32>): (os: OsInfo)
    requires |img| >= 6 && OsHeaderFits(img)
    ensures os.size == img[5] && os.binDataOffset == img[4]
    ensures var at := img[3] / 4;
      os.codeOffset == img[at] && os.dataOffset == img[at + 2] && os.dataSize == img[at + 3]
  {
    var b := ReadBinHeader(img);
    var o := ReadOsHeader(img);
    OsInfo(b.osSize, b.osDataOffset, o.codeOffset, o.dataOffset, o.dataSize)
  }

  // ---------------------------------------------------------------------
  // msenc_wait_idle, msenc_dma_wait_idle

  /** The timeout a wait works with: 0 selects the default. */
  function EffectiveTimeout(timeout: nat): (t: nat)
    ensures t > 0
  {
    if timeout == 0 then IdleTimeoutDefault else timeout
  }

  /** How many times a wait with budget t polls before giving up: each failed poll spends min(10, what is left). */
  function PollCount(t: nat): (n: nat)
    ensures t > 0 ==> n >= 1
    ensures n * IdleCheckPeriod >= t && (n == 0 || (n - 1) * IdleCheckPeriod < t)
  {
    (t + IdleCheckPeriod - 1) / IdleCheckPeriod
  }

  /** The first poll in [k, n) whose read reports idle. */
  function FirstIdleFrom(idle: nat -> bool, k: nat, n: nat): (r: Option<nat>)
    ensures r.Some? ==> k <= r.value < n && idle(r.value) && forall j :: k <= j < r.value ==> !idle(j)
    ensures r.None? ==> forall j :: k <= j < n ==> !idle(j)
    decreases n - k
  {
    if k >= n then None
    else if idle(k) then Some(k)
    else FirstIdleFrom(idle, k + 1, n)
  }

  /**
   * The countdown loop shared by msenc_wait_idle and msenc_dma_wait_idle:
   * `idle(k)` says whether the k-th register read reports idle. Returns the
   * error code and what is left of *timeout.
   */
  method PollIdle(timeout: u32, idle: nat -> bool) returns (err: int, left: nat)
    ensures var t := EffectiveTimeout(timeout);
      var first := FirstIdleFrom(idle, 0, PollCount(t));
      && (first.Some? ==> err == 0 && left == t - IdleCheckPeriod * first.value && left > 0)
      && (first.None? ==> err == -1 && left == 0)
  {
    ghost var t0 := EffectiveTimeout(timeout);
    ghost var n := PollCount(t0);
    var t: nat := timeout;
    if t == 0 {
      t := IdleTimeoutDefault;
    }
    var k: nat := 0;
    while t > 0
      invariant k <= n
      invariant t > 0 ==> t == t0 - IdleCheckPeriod * k && k < n
      invariant t == 0 ==> k == n
      invariant forall j :: 0 <= j < k ==> !idle(j)
      decreases t
    {
      var check := if IdleCheckPeriod < t then IdleCheckPeriod else t;
      if idle(k) {
        assert FirstIdleFrom(idle, 0, n) == Some(k) by {
          FirstIdleAt(idle, 0, k, n);
        }
        return 0, t;
      }
      t := t - check;
      k := k + 1;
    }
    FirstIdleNone(idle, 0, n);
    err, left := -1, 0;
  }

  lemma {:induction false} FirstIdleAt(idle: nat -> bool, k: nat, m: nat, n: nat)
    requires k <= m < n && idle(m)
    requires forall j :: k <= j < m ==> !idle(j)
    ensures FirstIdleFrom(idle, k, n) == Some(m)
    decreases m - k
  {
    if k < m {
      FirstIdleAt(idle, k + 1, m, n);
    }
  }

  lemma {:induction false} FirstIdleNone(idle: nat -> bool, k: nat, n: nat)
    requires forall j :: k <= j < n ==> !idle(j)
    ensures FirstIdleFrom(idle, k, n) == None
    decreases n - k
  {
    if k < n {
      FirstIdleNone(idle, k + 1, n);
    }
  }

  /** msenc_wait_idle: the engine is idle when the idle-state word reads 0. */
  method WaitIdle(timeout: u32, word: nat -> u32) returns (err: int, left: nat)
    ensures var first := FirstIdleFrom((k: nat) => word(k) == 0, 0, PollCount(EffectiveTimeout(timeout)));
      && (err == 0 <==> first.Some?)
      && (err == -1 <==> first.None?)
      && (first.None? ==> left == 0)
  {
    err, left := PollIdle(timeout, (k: nat) => word(k) == 0);
  }

  // ---------------------------------------------------------------------
  // msenc_boot

  /** One DMA request: source offset into the image, offset in the engine's memory, and whether it targets instruction memory. */
  datatype Transfer = Transfer(source: u32, internal: nat, imem: bool)

  /** The number of 256-byte chunks that cover `dataSize` bytes. */
  function ChunkCount(dataSize: nat): (n: nat)
    ensures n * ChunkSize >= dataSize
    ensures n == 0 || (n - 1) * ChunkSize < dataSize
  {
    (dataSize + ChunkSize - 1) / ChunkSize
  }

  /** The data transfers of a boot: one per chunk, in order, with the 32-bit source address. */
  function DataChunks(os: OsInfo): (c: seq<Transfer>)
    ensures |c| == ChunkCount(os.dataSize)
    ensures forall i :: 0 <= i < |c| ==> c[i].internal == ChunkSize * i < os.dataSize && !c[i].imem
    ensures forall i :: 0 <= i < |c| ==> c[i].source == (os.dataOffset + ChunkSize * i) % Word32
    ensures forall b: nat :: b < os.dataSize ==>
      b / ChunkSize < |c| && c[b / ChunkSize].internal <= b < c[b / ChunkSize].internal + ChunkSize
  {
    var n := ChunkCount(os.dataSize);
    seq(n, i requires 0 <= i < n => Transfer((os.dataOffset + ChunkSize * i) % Word32, ChunkSize * i, false))
  }

  /**
   * msenc_boot: the DMA requests it issues, in order, and its result. The
   * chunk transfers' own idle waits are not checked; only the final wait
   * on the engine decides the result.
   */
  method Boot(os: OsInfo, word: nat -> u32) returns (log: seq<Transfer>, err: int)
    ensures log == DataChunks(os) + [Transfer(os.codeOffset, 0, true)]
    ensures err == 0 <==> FirstIdleFrom((k: nat) => word(k) == 0, 0, PollCount(IdleTimeoutDefault)).Some?
    ensures err == 0 || err == -1
  {
    log := [];
    var offset: nat := 0;
    ghost var i: nat := 0;
    while offset < os.dataSize
      invariant offset == ChunkSize * i
      invariant i <= ChunkCount(os.dataSize)
      invariant log == DataChunks(os)[..i]
      decreases os.dataSize - offset
    {
      log := log + [Transfer((os.dataOffset + offset) % Word32, offset, false)];
      offset := offset + ChunkSize;
      i := i + 1;
    }
    assert i == ChunkCount(os.dataSize);
    log := log + [Transfer(os.codeOffset, 0, true)];
    var left;
    err, left := WaitIdle(0, word);
  }

  /** The loop step as the driver writes it, on a 32-bit offset. */
  function WrapStep(offset: u32): (next: u32)
    ensures offset + ChunkSize < Word32 ==> next == offset + ChunkSize
  {
    (offset + ChunkSize) % Word32
  }

  /**
   * With a 32-bit offset and dataSize above 0xFFFFFF00, every multiple of 256
   * passes the loop guard and the step keeps the offset a multiple of 256, so
   * the chunk loop as written never ends: from 0xFFFFFF00 it wraps back to 0.
   */
  lemma AsWrittenChunkLoopNeverExits(dataSize: u32, offset: u32)
    requires dataSize > 0xFFFF_FF00 && offset % ChunkSize == 0
    ensures offset < dataSize
    ensures WrapStep(offset) % ChunkSize == 0
    ensures WrapStep(0xFFFF_FF00) == 0
  {
  }

  /** The copy loop of msenc_setup_ucode_image: word w of the buffer becomes le32_to_cpu of the file's word w. */
  method CopyImage(ucode: array<u32>, fw: seq<u8>)
    requires |fw| / 4 <= ucode.Length
    modifies ucode
    ensures ucode[..] == CopiedImage(old(ucode[..]), fw)
  {
    var words := |fw| / 4;
    var w := 0;
    while w < words
      invariant 0 <= w <= words
      invariant ucode[..w] == DecodeWords(fw)[..w]
      invariant ucode[w..] == old(ucode[..])[w..]
    {
      ucode[w] := DecodeLE32(fw[4 * w .. 4 * w + 4]);
      w := w + 1;
      assert ucode[..w] == ucode[..w - 1] + [ucode[w - 1]];
    }
    assert ucode[..] == ucode[..words] + ucode[words..];
  }

  class Engine {
    /** The `os` fields of struct msenc. */
    var os: OsInfo

    constructor ()
      ensures os == OsInfo(0, 0, 0, 0, 0)
    {
      os := OsInfo(0, 0, 0, 0, 0);
    }

    /**
     * msenc_setup_ucode_image: copy floor(|fw|/4) little-endian words into
     * `ucode`, check the bin header, and on success record the OS layout.
     * The OS header must lie in the buffer whenever the checks pass.
     */
    method SetupUcodeImage(ucode: array<u32>, fw: seq<u8>) returns (err: int)
      requires |fw| / 4 <= ucode.Length && 6 <= ucode.Length
      requires var img := CopiedImage(ucode[..], fw);
        SetupError(img, |fw|) == 0 ==> OsHeaderFits(img)
      modifies this, ucode
      ensures ucode[..] == CopiedImage(old(ucode[..]), fw)
      ensures err == SetupError(ucode[..], |fw|)
      ensures err == 0 ==> OsHeaderFits(ucode[..]) && os == OsFromImage(ucode[..])
      ensures err != 0 ==> os == old(os)
    {
      CopyImage(ucode, fw);
      if ucode[0] != BinMagic {
        return -EINVAL;
      }
      if ucode[1] != BinVersion {
        return -ENOENT;
      }
      if ucode[2] > |fw| {
        return -EINVAL;
      }
      var at := ucode[3] / 4;
      os := OsInfo(ucode[5], ucode[4], ucode[at], ucode[at + 2], ucode[at + 3]);
      err := 0;
    }
  }
}
