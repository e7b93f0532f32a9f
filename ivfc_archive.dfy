/** The IVFC (RomFS) archive backend: a read-only archive whose single file is the payload
    window `[dataOffset, dataOffset + dataSize)` of a backing container, optionally encrypted
    with AES in counter mode.

    A read of `(offset, length)` is widened to the 16-byte block grid, clamped to the
    payload window, read raw from the container, decrypted in place when the container is
    encrypted (counting blocks from the payload's position after the 0x1000-byte header),
    and the requested part is copied out. Every mutating archive operation is refused. */
module FileSys {
  import opened Results

  type Byte = bv8

  /** Sizes and offsets are unsigned 64-bit in the source; `2^64` is their modulus. */
  const U64Modulus: nat := 0x1_0000_0000_0000_0000

  /** The cipher block size, and the grid reads are aligned to. */
  const BlockSize: nat := 0x10

  /** The container header that precedes the payload in the counter's address space. */
  const CounterHeaderOffset: nat := 0x1000

  function Min(a: nat, b: nat): nat {
    if a <= b then a else b
  }

  // ---------------------------------------------------------------------------------------
  // AES-CTR (section 6.5 of NIST SP 800-38A)

  /** Byte `k` of the AES-CTR keystream whose first block is encrypted from counter `seed`
      under the all-zero key the archive uses: block `k / 16` of the keystream comes from the
      seed advanced by `k / 16`, and byte `k % 16` is taken from it. The block cipher itself
      is not part of this model. */
  type Keystream = (seq<Byte>, nat) -> Byte

  /** Counter-mode encryption or decryption of `data`, counting blocks from `block`: each byte
      is combined with the keystream byte at the same position. */
  function CtrCrypt(ks: Keystream, seed: seq<Byte>, block: nat, data: seq<Byte>): (r: seq<Byte>)
    ensures |r| == |data|
  {
    seq(|data|, i requires 0 <= i < |data| => data[i] ^ ks(seed, block * BlockSize + i))
  }

  /** Counter mode is its own inverse: decrypting what it encrypted gives the data back. */
  lemma CtrCryptInvolution(ks: Keystream, seed: seq<Byte>, block: nat, data: seq<Byte>)
    ensures CtrCrypt(ks, seed, block, CtrCrypt(ks, seed, block, data)) == data
  {
    var once := CtrCrypt(ks, seed, block, data);
    var twice := CtrCrypt(ks, seed, block, once);
    forall i | 0 <= i < |data|
      ensures twice[i] == data[i]
    {
      var k := ks(seed, block * BlockSize + i);
      assert twice[i] == (data[i] ^ k) ^ k;
    }
  }

  /** The decryption of `tmp_vector` in place: the first `n` bytes are transformed, the rest
      of the buffer is left alone. */
  method CtrCryptInPlace(ks: Keystream, seed: seq<Byte>, block: nat, a: array<Byte>, n: nat)
    requires n <= a.Length
    modifies a
    ensures a[..n] == CtrCrypt(ks, seed, block, old(a[..n]))
    ensures a[n..] == old(a[n..])
  {
    forall i | 0 <= i < n {
      a[i] := a[i] ^ ks(seed, block * BlockSize + i);
    }
  }

  // ---------------------------------------------------------------------------------------
  // The arithmetic of a read

  /** `offset & 0xF`: where the request starts inside its 16-byte block. */
  function Pad(offset: nat): (p: nat)
    ensures p < BlockSize && p <= offset
  {
    offset % BlockSize
  }

  /** `offset & ~0xF`: the request's offset rounded down to the block grid. */
  function AlignedOffset(offset: nat): (a: nat)
    ensures a % BlockSize == 0
    ensures a <= offset < a + BlockSize
    ensures a + Pad(offset) == offset
  {
    offset - Pad(offset)
  }

  /** The number of raw bytes to read, starting at the aligned offset: the request widened by
      `pad`, clamped to what is left of the payload window. When the aligned offset already
      lies past the window nothing is left, so nothing is read. */
  function ReadLength(offset: nat, length: nat, dataSize: nat): (n: nat)
    ensures n <= length + Pad(offset)
    ensures AlignedOffset(offset) <= dataSize ==> AlignedOffset(offset) + n <= dataSize
    ensures AlignedOffset(offset) > dataSize ==> n == 0
  {
    Min(length + Pad(offset),
        if AlignedOffset(offset) <= dataSize then dataSize - AlignedOffset(offset) else 0)
  }

  /** The number of bytes handed to the caller: the bytes read beyond `pad`, or none when the
      read stopped short of `pad`. */
  function Count(readed: nat, pad: nat): (n: nat)
    ensures readed >= pad ==> n + pad == readed
    ensures readed < pad ==> n == 0
  {
    if readed >= pad then readed - pad else 0
  }

  /** The clamp as the source writes it, `min(length + pad, data_size - read_offset)` in
      unsigned 64-bit arithmetic: both operands wrap around. */
  function ReadLengthAsWritten(offset: nat, length: nat, dataSize: nat): (n: nat)
    ensures n <= (length + Pad(offset)) % U64Modulus
    ensures AlignedOffset(offset) <= dataSize < U64Modulus ==> AlignedOffset(offset) + n <= dataSize
  {
    Min((length + Pad(offset)) % U64Modulus, (dataSize - AlignedOffset(offset)) % U64Modulus)
  }

  /** The returned count as the source writes it, `readed - pad` in unsigned 64-bit arithmetic. */
  function CountAsWritten(readed: nat, pad: nat): (n: nat)
    ensures n < U64Modulus
    ensures pad <= readed < pad + U64Modulus ==> n + pad == readed
    ensures readed < pad < readed + U64Modulus ==> n == U64Modulus + readed - pad
  {
    (readed - pad) % U64Modulus
  }

  /** Where the aligned offset lies inside the window (and `length + pad` does not
      overflow) the clamped length is the source's own value. Past the window they part:
      nothing is left to read, but the source's wrapped subtraction lets it read. */
  lemma ReadLengthAgreesInsideWindow(offset: nat, length: nat, dataSize: nat)
    requires offset < U64Modulus && dataSize < U64Modulus && length + Pad(offset) < U64Modulus
    ensures AlignedOffset(offset) <= dataSize ==>
              ReadLength(offset, length, dataSize) == ReadLengthAsWritten(offset, length, dataSize)
    ensures AlignedOffset(offset) > dataSize ==>
              ReadLength(offset, length, dataSize) == 0
              && (length + Pad(offset) > 0 ==> ReadLengthAsWritten(offset, length, dataSize) > 0)
  {
    var a := AlignedOffset(offset);
    if a > dataSize {
      assert (dataSize - a) % U64Modulus == U64Modulus - (a - dataSize) by {
        assert dataSize - a == (U64Modulus - (a - dataSize)) - U64Modulus;
      }
    }
  }

  /** The source's count and the clamped count agree exactly when the read reached `pad`. */
  lemma CountAgreesUnlessShort(readed: nat, pad: nat)
    requires readed < U64Modulus && pad < BlockSize
    ensures Count(readed, pad) == CountAsWritten(readed, pad) <==> readed >= pad
  {
    if readed < pad {
      assert (readed - pad) % U64Modulus == U64Modulus + readed - pad by {
        assert readed - pad == (U64Modulus + readed - pad) - U64Modulus;
      }
    }
  }

  /** A request that starts in a later block than the end of the payload: the source's
      `data_size - read_offset` wraps to a huge value, so it reads `length + pad` bytes from
      beyond the payload window. Here data_size = 16, offset = 32, length = 16. */
  lemma ReadLengthAsWrittenLeavesWindow()
    ensures ReadLengthAsWritten(32, 16, 16) == 16
    ensures AlignedOffset(32) + ReadLengthAsWritten(32, 16, 16) > 16
    ensures ReadLength(32, 16, 16) == 0
  {
  }

  /** A request that starts past the end of the payload but inside its last block: the
      window gives only 3 bytes, fewer than `pad` = 5, and the source's `readed - pad`
      wraps to `2^64 - 2`, far more than the caller's buffer. Here data_size = 3, offset = 5,
      length = 0. */
  lemma CountAsWrittenUnderflows()
    ensures ReadLengthAsWritten(5, 0, 3) == 3 && Pad(5) == 5
    ensures CountAsWritten(3, Pad(5)) == U64Modulus - 2
    ensures Count(3, Pad(5)) == 0
  {
  }

  // ---------------------------------------------------------------------------------------
  // What a read returns

  /** The immutable view of a backing container: its bytes, whether it is encrypted, and the
      16-byte counter seed it reports for decryption. */
  datatype RomImage = RomImage(bytes: seq<Byte>, encrypted: bool, counter: seq<Byte>)

  /** Reading up to `n` bytes at `pos`: stops at the end of the container. */
  function RawRead(bytes: seq<Byte>, pos: nat, n: nat): (r: seq<Byte>)
    ensures |r| <= n
    ensures pos + n <= |bytes| ==> |r| == n
    ensures forall i :: 0 <= i < |r| ==> pos + i < |bytes| && r[i] == bytes[pos + i]
  {
    if pos >= |bytes| then [] else bytes[pos..Min(pos + n, |bytes|)]
  }

  /** The raw bytes of a read, from the aligned offset, clamped to the payload window. */
  function RawBlocks(img: RomImage, dataOffset: nat, dataSize: nat, offset: nat, length: nat)
    : seq<Byte>
  {
    RawRead(img.bytes, dataOffset + AlignedOffset(offset), ReadLength(offset, length, dataSize))
  }

  /** The scratch buffer after decryption: the raw bytes, decrypted from the counter block of
      the aligned offset when the container is encrypted. It is never longer than the clamped
      read, and encrypting it again from the same block gives the raw bytes back. */
  function Plaintext(img: RomImage, ks: Keystream, dataOffset: nat, dataSize: nat,
                     offset: nat, length: nat): (r: seq<Byte>)
    ensures |r| <= ReadLength(offset, length, dataSize)
    ensures img.encrypted ==>
              CtrCrypt(ks, img.counter, (AlignedOffset(offset) + CounterHeaderOffset) / BlockSize, r)
              == RawBlocks(img, dataOffset, dataSize, offset, length)
  {
    var raw := RawBlocks(img, dataOffset, dataSize, offset, length);
    var block := (AlignedOffset(offset) + CounterHeaderOffset) / BlockSize;
    if img.encrypted then
      CtrCryptInvolution(ks, img.counter, block, raw);
      CtrCrypt(ks, img.counter, block, raw)
    else raw
  }

  /** The bytes `Read(offset, length)` hands to the caller: the scratch buffer from `pad` on. */
  function ReadResult(img: RomImage, ks: Keystream, dataOffset: nat, dataSize: nat,
                      offset: nat, length: nat): (r: seq<Byte>)
    ensures |r| <= length
  {
    var plain := Plaintext(img, ks, dataOffset, dataSize, offset, length);
    if Pad(offset) <= |plain| then plain[Pad(offset)..] else []
  }

  /** The plaintext of payload byte `x`: the container byte, decrypted with the keystream
      byte at the same position of the counter's address space (after the header). */
  function PayloadByte(img: RomImage, ks: Keystream, dataOffset: nat, x: nat): Byte
    requires dataOffset + x < |img.bytes|
  {
    if img.encrypted then img.bytes[dataOffset + x] ^ ks(img.counter, CounterHeaderOffset + x)
    else img.bytes[dataOffset + x]
  }

  /** The block index the decryption starts from is exactly the aligned position in the
      counter's address space. */
  lemma CounterBlockIsAligned(readOffset: nat)
    requires readOffset % BlockSize == 0
    ensures (readOffset + CounterHeaderOffset) / BlockSize * BlockSize == readOffset + CounterHeaderOffset
  {
    var k := readOffset / BlockSize;
    assert readOffset == k * BlockSize;
    assert readOffset + CounterHeaderOffset == (k + 0x100) * BlockSize;
  }

  /** What a read returns, whatever the alignment of the request: the plaintext of the
      payload from `offset`, `min(length, dataSize - offset)` bytes of it, and nothing when
      `offset` lies past the payload. Widening the request to the block grid and decrypting
      from the aligned block is invisible to the caller. */
  lemma ReadReturnsPayload(img: RomImage, ks: Keystream, dataOffset: nat, dataSize: nat,
                           offset: nat, length: nat)
    requires dataOffset + dataSize <= |img.bytes|
    ensures var r := ReadResult(img, ks, dataOffset, dataSize, offset, length);
            && |r| == (if offset <= dataSize then Min(length, dataSize - offset) else 0)
            && forall i :: 0 <= i < |r| ==>
                 dataOffset + offset + i < |img.bytes|
                 && r[i] == PayloadByte(img, ks, dataOffset, offset + i)
  {
    var r := ReadResult(img, ks, dataOffset, dataSize, offset, length);
    var pad := Pad(offset);
    var readOffset := AlignedOffset(offset);
    var n := ReadLength(offset, length, dataSize);
    var raw := RawRead(img.bytes, dataOffset + readOffset, n);
    var block := (readOffset + CounterHeaderOffset) / BlockSize;
    var plain := Plaintext(img, ks, dataOffset, dataSize, offset, length);
    assert raw == RawBlocks(img, dataOffset, dataSize, offset, length);
    assert plain == if img.encrypted then CtrCrypt(ks, img.counter, block, raw) else raw;
    assert r == if pad <= |plain| then plain[pad..] else [];
    if readOffset <= dataSize {
      assert |raw| == n;
      if offset <= dataSize {
        assert n >= pad;
        CounterBlockIsAligned(readOffset);
        forall i | 0 <= i < |r|
          ensures dataOffset + offset + i < |img.bytes|
          ensures r[i] == PayloadByte(img, ks, dataOffset, offset + i)
        {
          assert r[i] == plain[pad + i];
          assert raw[pad + i] == img.bytes[dataOffset + offset + i];
          if img.encrypted {
            assert block * BlockSize + pad + i == CounterHeaderOffset + offset + i;
          }
        }
      } else {
        assert n < pad;
      }
    } else {
      assert n == 0 && |raw| == 0;
    }
  }

  /** An unencrypted read within the payload returns the container slice at
      `dataOffset + offset`. */
  lemma UnencryptedReadIsSlice(img: RomImage, ks: Keystream, dataOffset: nat, dataSize: nat,
                               offset: nat, length: nat)
    requires !img.encrypted
    requires dataOffset + dataSize <= |img.bytes| && offset <= dataSize
    ensures ReadResult(img, ks, dataOffset, dataSize, offset, length)
            == img.bytes[dataOffset + offset .. dataOffset + offset + Min(length, dataSize - offset)]
  {
    ReadReturnsPayload(img, ks, dataOffset, dataSize, offset, length);
  }

  /** Reading 20 bytes at offset 95 of a 100-byte payload: the raw read is bytes [80, 100) of
      the payload and stops exactly at its end; 5 bytes are returned. */
  lemma ReadAtEndOfPayload(img: RomImage, ks: Keystream, dataOffset: nat)
    requires dataOffset + 100 <= |img.bytes|
    ensures AlignedOffset(95) == 80 && ReadLength(95, 20, 100) == 20
    ensures |ReadResult(img, ks, dataOffset, 100, 95, 20)| == 5
  {
    ReadReturnsPayload(img, ks, dataOffset, 100, 95, 20);
  }

  /** An unaligned encrypted read of 10 bytes at offset 5: bytes [0, 15) of the payload are
      read and decrypted from counter block 0x100, and their plaintext [5, 15) is returned. */
  lemma UnalignedEncryptedRead(img: RomImage, ks: Keystream, dataOffset: nat, dataSize: nat)
    requires img.encrypted && dataSize >= 15 && dataOffset + dataSize <= |img.bytes|
    ensures Pad(5) == 5 && AlignedOffset(5) == 0 && ReadLength(5, 10, dataSize) == 15
    ensures (AlignedOffset(5) + CounterHeaderOffset) / BlockSize == 0x100
    ensures var r := ReadResult(img, ks, dataOffset, dataSize, 5, 10);
            && |r| == 10
            && forall i :: 0 <= i < 10 ==>
                 r[i] == img.bytes[dataOffset + 5 + i] ^ ks(img.counter, 0x1005 + i)
  {
    ReadReturnsPayload(img, ks, dataOffset, dataSize, 5, 10);
  }

  // ---------------------------------------------------------------------------------------
  // The backing container, the file and the archive

  /** `memcpy(dst, src + from, count)`: the first `count` bytes of `dst` become
      `src[from .. from + count]`, the rest of `dst` is left alone. */
  method CopyOut(src: array<Byte>, from: nat, count: nat, dst: array<Byte>)
    requires count > 0 ==> from + count <= src.Length
    requires count <= dst.Length && src != dst
    modifies dst
    ensures forall i :: 0 <= i < count ==> dst[i] == src[from + i]
    ensures dst[count..] == old(dst[count..])
  {
    forall i | 0 <= i < count {
      dst[i] := src[from + i];
    }
  }

  /** The container the payload is read from: fixed contents and a file position that
      `Seek` and `ReadBytes` move. */
  class RomFS {
    const bytes: seq<Byte>
    const encrypted: bool
    const counter: seq<Byte>
    var position: nat

    function Image(): RomImage {
      RomImage(bytes, encrypted, counter)
    }

    constructor (bytes: seq<Byte>, encrypted: bool, counter: seq<Byte>)
      ensures Image() == RomImage(bytes, encrypted, counter) && position == 0
    {
      this.bytes := bytes;
      this.encrypted := encrypted;
      this.counter := counter;
      position := 0;
    }

    method Seek(pos: nat)
      modifies this`position
      ensures position == pos
    {
      position := pos;
    }

    /** Read up to `n` bytes at the current position into `buffer`, advancing the position
        by the number of bytes read. */
    method ReadBytes(buffer: array<Byte>, n: nat) returns (readed: nat)
      requires n <= buffer.Length
      modifies this`position, buffer
      ensures readed <= n
      ensures buffer[..readed] == RawRead(bytes, old(position), n)
      ensures buffer[readed..] == old(buffer[readed..])
      ensures position == old(position) + readed
    {
      var chunk := RawRead(bytes, position, n);
      forall i | 0 <= i < |chunk| {
        buffer[i] := chunk[i];
      }
      readed := |chunk|;
      position := position + readed;
    }
  }

  /** The archive's one file: the payload window of the container. */
  class IVFCFile {
    const romfs: RomFS?
    const dataOffset: nat
    const dataSize: nat
    const keystream: Keystream

    constructor (romfs: RomFS?, dataOffset: nat, dataSize: nat, keystream: Keystream)
      ensures this.romfs == romfs && this.dataOffset == dataOffset
      ensures this.dataSize == dataSize && this.keystream == keystream
    {
      this.romfs := romfs;
      this.dataOffset := dataOffset;
      this.dataSize := dataSize;
      this.keystream := keystream;
    }

    /** Read `length` bytes at payload offset `offset` into `buffer`. Without a container the
        result carries no value and nothing is touched. Otherwise the container is left
        positioned after the raw bytes read at `dataOffset + AlignedOffset(offset)`, and the
        caller's buffer starts with `ReadResult`, whose length is returned. */
    method Read(offset: nat, length: nat, buffer: array<Byte>) returns (r: ResultVal<nat>)
      requires length <= buffer.Length
      modifies romfs, buffer
      ensures romfs == null ==> r == Empty && buffer[..] == old(buffer[..])
      ensures romfs != null ==>
                var out := ReadResult(romfs.Image(), keystream, dataOffset, dataSize, offset, length);
                && r == Ok(|out|)
                && buffer[..|out|] == out
                && buffer[|out|..] == old(buffer[|out|..])
      ensures romfs != null ==>
                var start := dataOffset + AlignedOffset(offset);
                romfs.position == start + |RawRead(romfs.bytes, start, ReadLength(offset, length, dataSize))|
    {
      if romfs == null {
        return Empty;
      }
      var tmp, readed := ReadBlocks(offset, length);
      ghost var plain := tmp[..readed];
      ghost var out := ReadResult(romfs.Image(), keystream, dataOffset, dataSize, offset, length);
      var pad := Pad(offset);
      // `readed - pad`, clamped at zero where the source's unsigned subtraction wraps.
      var count := Count(readed, pad);
      assert count == |out| <= length;
      CopyOut(tmp, pad, count, buffer);
      assert buffer[..count] == out by {
        forall i | 0 <= i < count
          ensures buffer[i] == out[i]
        {
          assert out[i] == plain[pad + i] == tmp[pad + i];
        }
      }
      return Ok(count);
    }

    /** Seek to the aligned offset, read the clamped length into a fresh scratch buffer and
        decrypt it in place: the first `readed` bytes of the buffer are then `Plaintext`. */
    method ReadBlocks(offset: nat, length: nat) returns (tmp: array<Byte>, readed: nat)
      requires romfs != null
      modifies romfs
      ensures fresh(tmp) && readed <= tmp.Length
      ensures tmp[..readed] == Plaintext(romfs.Image(), keystream, dataOffset, dataSize, offset, length)
      ensures var start := dataOffset + AlignedOffset(offset);
              romfs.position == start + |RawRead(romfs.bytes, start, ReadLength(offset, length, dataSize))|
    {
      var readOffset := AlignedOffset(offset);
      var readLength := ReadLength(offset, length, dataSize);
      romfs.Seek(dataOffset + readOffset);
      tmp := new Byte[readLength];
      readed := romfs.ReadBytes(tmp, readLength);
      ghost var raw := tmp[..readed];
      assert raw == RawBlocks(romfs.Image(), dataOffset, dataSize, offset, length);
      if romfs.encrypted {
        CtrCryptInPlace(keystream, romfs.counter, (readOffset + CounterHeaderOffset) / BlockSize, tmp, readed);
      }
    }

    /** Writing is not supported: the write reports success with no byte written. */
    function Write(offset: nat, length: nat, flush: bool, data: seq<Byte>): (r: ResultVal<nat>)
      ensures r == Ok(0)
    {
      Ok(0)
    }

    function GetSize(): (r: nat)
      ensures r == dataSize
    {
      dataSize
    }

    /** Resizing is refused; the size is fixed at construction. */
    function SetSize(size: nat): (r: bool)
      ensures !r
    {
      false
    }
  }

  /** An archive path; its structure is not used, every path names the one file. */
  type Path = string

  /** The access mode a file is opened with; only reading is ever honoured. */
  datatype Mode = Mode(read: bool, write: bool, create: bool)

  /** The archive's root directory, which lists no entries. */
  class IVFCDirectory {
    constructor ()
    {
    }
  }

  /** The read-only archive: every open succeeds, every change is refused. */
  class IVFCArchive {
    const romfs: RomFS?
    const dataOffset: nat
    const dataSize: nat
    const keystream: Keystream

    constructor (romfs: RomFS?, dataOffset: nat, dataSize: nat, keystream: Keystream)
      ensures this.romfs == romfs && this.dataOffset == dataOffset
      ensures this.dataSize == dataSize && this.keystream == keystream
    {
      this.romfs := romfs;
      this.dataOffset := dataOffset;
      this.dataSize := dataSize;
      this.keystream := keystream;
    }

    /** Whatever the path and mode, a new file over the archive's payload window. */
    method OpenFile(path: Path, mode: Mode) returns (r: ResultVal<IVFCFile>)
      ensures r.Ok? && fresh(r.value)
      ensures r.value.romfs == romfs && r.value.dataOffset == dataOffset
      ensures r.value.dataSize == dataSize && r.value.keystream == keystream
    {
      var file := new IVFCFile(romfs, dataOffset, dataSize, keystream);
      return Ok(file);
    }

    /** Whatever the path, a new empty directory. */
    method OpenDirectory(path: Path) returns (r: ResultVal<IVFCDirectory>)
      ensures r.Ok? && fresh(r.value)
    {
      var dir := new IVFCDirectory();
      return Ok(dir);
    }

    function DeleteFile(path: Path): (r: ResultCode)
      ensures !r.IsSuccess()
      ensures r == Code(NoData, FS, Canceled, Status)
    {
      Code(NoData, FS, Canceled, Status)
    }

    function RenameFile(srcPath: Path, destPath: Path): (r: ResultCode)
      ensures !r.IsSuccess() && r == Raw(RawMinusOne)
    {
      Raw(RawMinusOne)
    }

    function DeleteDirectory(path: Path): (r: ResultCode)
      ensures !r.IsSuccess() && r == Raw(RawMinusOne)
    {
      Raw(RawMinusOne)
    }

    function DeleteDirectoryRecursively(path: Path): (r: ResultCode)
      ensures !r.IsSuccess() && r == Raw(RawMinusOne)
    {
      Raw(RawMinusOne)
    }

    function CreateFile(path: Path, size: nat): (r: ResultCode)
      ensures !r.IsSuccess()
      ensures r == Code(NotAuthorized, FS, NotSupported, Permanent)
    {
      Code(NotAuthorized, FS, NotSupported, Permanent)
    }

    function CreateDirectory(path: Path): (r: ResultCode)
      ensures !r.IsSuccess() && r == Raw(RawMinusOne)
    {
      Raw(RawMinusOne)
    }

    function RenameDirectory(srcPath: Path, destPath: Path): (r: ResultCode)
      ensures !r.IsSuccess() && r == Raw(RawMinusOne)
    {
      Raw(RawMinusOne)
    }

    /** The archive is not a writable volume: it reports no free space. */
    function GetFreeBytes(): (r: nat)
      ensures r == 0
    {
      0
    }
  }
}
