/**
  The "warmed block" bitmap of disk-warmer (disk-warmer/main.c): one bit per
  block of `block_size` bytes, set by `bitmap_mark_range` and queried by
  `bitmap_is_marked`.  The byte array is modelled by pure functions on
  `seq<bv8>`, and the `WarmedBitmap` class (the C struct) is proved to follow
  them.
*/
module Bitmap {
  import opened CInt

  /** `1 << bit_index` in a byte. */
  function Mask(bit: nat): bv8
    requires bit < 8
  {
    (1 as bv8) << bit
  }

  /** `num_blocks = (disk_size + block_size - 1) / block_size`: blocks needed to cover the disk. */
  function NumBlocks(diskSize: nat, blockSize: nat): (k: nat)
    requires blockSize > 0
    ensures k * blockSize >= diskSize
    ensures k == 0 || (k - 1) * blockSize < diskSize
  {
    var k := (diskSize + blockSize - 1) / blockSize;
    assert k * blockSize <= diskSize + blockSize - 1 < k * blockSize + blockSize;
    k
  }

  /** `size_bytes = (num_blocks + 7) / 8`: bytes needed for one bit per block. */
  function BitmapBytes(diskSize: nat, blockSize: nat): (n: nat)
    requires blockSize > 0
    ensures n * 8 >= NumBlocks(diskSize, blockSize)
    ensures n == 0 || (n - 1) * 8 < NumBlocks(diskSize, blockSize)
  {
    (NumBlocks(diskSize, blockSize) + 7) / 8
  }

  /** Whether block `block` is set in `bytes` (false beyond the array). */
  function BlockBit(bytes: seq<bv8>, block: nat): bool
  {
    block / 8 < |bytes| && bytes[block / 8] & Mask(block % 8) != 0
  }

  /** `data[byte_index] |= (1 << bit_index)` for block `block`. */
  function SetBit(bytes: seq<bv8>, block: nat): (r: seq<bv8>)
    requires block / 8 < |bytes|
    ensures |r| == |bytes|
  {
    bytes[block / 8 := bytes[block / 8] | Mask(block % 8)]
  }

  lemma OrMask(x: bv8, i: nat, j: nat)
    requires i < 8 && j < 8
    ensures ((x | Mask(i)) & Mask(j) != 0) == ((x & Mask(j) != 0) || i == j)
  {
  }

  /** Setting one block's bit sets that block and leaves every other block as it was. */
  lemma SetBitOnly(bytes: seq<bv8>, block: nat, b: nat)
    requires block / 8 < |bytes|
    ensures BlockBit(SetBit(bytes, block), b) == (BlockBit(bytes, b) || b == block)
  {
    if b / 8 == block / 8 {
      OrMask(bytes[block / 8], block % 8, b % 8);
      assert b == block <==> b % 8 == block % 8;
    }
  }

  /**
    The loop of `bitmap_mark_range`: blocks `block .. endBlock` below
    `limit` (`disk_size / block_size`) get their bit set when their byte is
    inside the array.
  */
  function MarkFrom(bytes: seq<bv8>, block: nat, endBlock: int, limit: int): (r: seq<bv8>)
    ensures |r| == |bytes|
    decreases endBlock - block
  {
    if block <= endBlock && block < limit then
      MarkFrom(if block / 8 < |bytes| then SetBit(bytes, block) else bytes, block + 1, endBlock, limit)
    else
      bytes
  }

  /**
    After the marking loop a block is set exactly when it was set before or it
    is one of the visited blocks that has a byte in the array: bits are only
    ever OR-ed in, never cleared.
  */
  lemma {:induction false} MarkFromBits(bytes: seq<bv8>, block: nat, endBlock: int, limit: int, b: nat)
    ensures BlockBit(MarkFrom(bytes, block, endBlock, limit), b) ==
      (BlockBit(bytes, b) || (block <= b <= endBlock && b < limit && b / 8 < |bytes|))
    decreases endBlock - block
  {
    if block <= endBlock && block < limit {
      var next := if block / 8 < |bytes| then SetBit(bytes, block) else bytes;
      MarkFromBits(next, block + 1, endBlock, limit, b);
      if block / 8 < |bytes| {
        SetBitOnly(bytes, block, b);
      }
    }
  }

  /** The blocks `bitmap_mark_range(start, length)` visits: `start/bs ..= (start+length-1)/bs`, C division. */
  function FirstBlock(start: nat, blockSize: nat): nat
    requires blockSize > 0
  {
    start / blockSize
  }

  function LastBlock(start: nat, length: int, blockSize: nat): int
    requires blockSize > 0
  {
    Div(start + length - 1, blockSize)
  }

  /** The bytes after `bitmap_mark_range(start, length)` on a bitmap holding `bytes`. */
  function MarkRangeBytes(bytes: seq<bv8>, diskSize: nat, blockSize: nat, start: nat, length: int): (r: seq<bv8>)
    requires blockSize > 0
  {
    MarkFrom(bytes, FirstBlock(start, blockSize), LastBlock(start, length, blockSize), diskSize / blockSize)
  }

  /** Every block strictly inside the disk has its byte inside an array of `size_bytes` bytes. */
  lemma {:induction false} FullBlocksHaveBytes(diskSize: nat, blockSize: nat, b: nat)
    requires blockSize > 0 && b < diskSize / blockSize
    ensures b < NumBlocks(diskSize, blockSize)
    ensures b / 8 < BitmapBytes(diskSize, blockSize)
  {
    BelowQuotient(diskSize, blockSize, b);
    MulCancel(b, NumBlocks(diskSize, blockSize), blockSize);
    DivBelow(b, BitmapBytes(diskSize, blockSize));
  }

  lemma BelowQuotient(x: nat, d: nat, b: nat)
    requires d > 0 && b < x / d
    ensures b * d < x
  {
    var q := x / d;
    assert x == q * d + x % d;
    MulLe(b + 1, q, d);
    assert (b + 1) * d == b * d + d;
  }

  lemma MulLe(a: nat, b: nat, c: nat)
    requires a <= b
    ensures a * c <= b * c
  {
    assert b * c - a * c == (b - a) * c;
  }

  lemma MulCancel(b: nat, k: nat, d: nat)
    requires d > 0 && b * d < k * d
    ensures b < k
  {
  }

  lemma DivBelow(b: nat, n: nat)
    requires b < n * 8
    ensures b / 8 < n
  {
  }

  /**
    After `bitmap_mark_range(start, length)` on a bitmap of `size_bytes`
    bytes, a block is marked exactly when it was marked before or it lies in
    `[start/bs, (start+length-1)/bs]` and below `disk_size/bs`.
  */
  lemma MarkRangeMarks(bytes: seq<bv8>, diskSize: nat, blockSize: nat, start: nat, length: int, b: nat)
    requires blockSize > 0 && |bytes| == BitmapBytes(diskSize, blockSize)
    ensures BlockBit(MarkRangeBytes(bytes, diskSize, blockSize, start, length), b) ==
      (BlockBit(bytes, b) ||
       (FirstBlock(start, blockSize) <= b <= LastBlock(start, length, blockSize) && b < diskSize / blockSize))
  {
    MarkFromBits(bytes, FirstBlock(start, blockSize), LastBlock(start, length, blockSize), diskSize / blockSize, b);
    if b < diskSize / blockSize {
      FullBlocksHaveBytes(diskSize, blockSize, b);
    }
  }

  /**
    The trailing partial block (`disk_size / bs` when `bs` does not divide
    `disk_size`) has a bit in the array, sized by the ceiling, but no call of
    `bitmap_mark_range` ever sets it, since marking stops at the floor.
  */
  lemma {:induction false} TrailingPartialBlockNeverMarked(bytes: seq<bv8>, diskSize: nat, blockSize: nat,
                                                           start: nat, length: int)
    requires blockSize > 0 && diskSize % blockSize != 0 && |bytes| == BitmapBytes(diskSize, blockSize)
    ensures diskSize / blockSize < NumBlocks(diskSize, blockSize)
    ensures (diskSize / blockSize) / 8 < |bytes|
    ensures BlockBit(MarkRangeBytes(bytes, diskSize, blockSize, start, length), diskSize / blockSize) ==
      BlockBit(bytes, diskSize / blockSize)
  {
    var q := diskSize / blockSize;
    var r := diskSize % blockSize;
    assert diskSize + blockSize - 1 == (q + 1) * blockSize + (r - 1);
    DivUnique(diskSize + blockSize - 1, blockSize, q + 1, r - 1);
    assert NumBlocks(diskSize, blockSize) == q + 1;
    MarkRangeMarks(bytes, diskSize, blockSize, start, length, q);
  }

  /** `bitmap_is_marked(offset)` on the bytes of a bitmap, for offsets the warmers pass (>= 0). */
  function IsMarkedIn(bytes: seq<bv8>, blockSize: nat, offset: nat): (r: bool)
    requires blockSize > 0
    ensures r <==> BlockBit(bytes, offset / blockSize)
  {
    var block := offset / blockSize;
    var byteIndex := block / 8;
    if byteIndex >= |bytes| then false
    else bytes[byteIndex] & Mask(block % 8) != 0
  }

  /** A freshly calloc'ed bitmap marks nothing. */
  lemma ZeroedMarksNothing(n: nat, b: nat)
    ensures !BlockBit(seq(n, _ => 0 as bv8), b)
  {
    if b / 8 < n {
      assert seq(n, _ => 0 as bv8)[b / 8] == 0;
    }
  }

  /** `struct warmed_bitmap`. `data == null` when calloc failed or after `bitmap_free`. */
  class WarmedBitmap {
    var diskSize: nat
    var blockSize: nat
    var sizeBytes: nat
    var data: array?<bv8>

    ghost predicate Valid()
      reads this
    {
      blockSize > 0 &&
      sizeBytes == BitmapBytes(diskSize, blockSize) &&
      (data != null ==> data.Length == sizeBytes)
    }

    /** The bytes of the bitmap; empty without data. */
    ghost function Bytes(): seq<bv8>
      reads this, data
    {
      if data == null then [] else data[..]
    }

    /**
      `bitmap_init(bitmap, disk_size, block_size)`; `callocOk` is the outcome
      of `calloc`, which zeroes the bytes.
    */
    constructor (diskSize: nat, blockSize: nat, callocOk: bool)
      requires blockSize > 0
      ensures Valid()
      ensures this.diskSize == diskSize && this.blockSize == blockSize
      ensures sizeBytes == BitmapBytes(diskSize, blockSize)
      ensures callocOk <==> data != null
      ensures data != null ==> fresh(data) && Bytes() == seq(sizeBytes, _ => 0 as bv8)
    {
      this.diskSize := diskSize;
      this.blockSize := blockSize;
      var n := BitmapBytes(diskSize, blockSize);
      sizeBytes := n;
      if callocOk {
        data := new bv8[n](_ => 0);
      } else {
        data := null;
      }
    }

    /** `bitmap_mark_range(bitmap, start, length)`: nothing happens without data. */
    method MarkRange(start: nat, length: int)
      requires Valid()
      modifies data
      ensures Valid()
      ensures Bytes() == MarkRangeBytes(old(Bytes()), diskSize, blockSize, start, length)
    {
      if data == null {
        return;
      }
      var startBlock := start / blockSize;
      var endBlock := Div(start + length - 1, blockSize);
      var limit := diskSize / blockSize;
      var block := startBlock;
      while block <= endBlock && block < limit
        invariant startBlock <= block
        invariant MarkFrom(data[..], block, endBlock, limit) ==
          MarkRangeBytes(old(Bytes()), diskSize, blockSize, start, length)
        decreases endBlock - block
      {
        var byteIndex := block / 8;
        var bitIndex := block % 8;
        if byteIndex < sizeBytes {
          data[byteIndex] := data[byteIndex] | Mask(bitIndex);
        }
        block := block + 1;
      }
    }

    /** `bitmap_is_marked(bitmap, offset)`: 0 without data. */
    function IsMarked(offset: nat): (r: bool)
      reads this, data
      requires Valid()
      ensures r <==> data != null && BlockBit(data[..], offset / blockSize)
      ensures r == IsMarkedIn(Bytes(), blockSize, offset)
    {
      if data == null then false else IsMarkedIn(data[..], blockSize, offset)
    }

    /** `bitmap_free(bitmap)`. */
    method Free()
      requires Valid()
      modifies this
      ensures Valid() && data == null
      ensures diskSize == old(diskSize) && blockSize == old(blockSize) && sizeBytes == old(sizeBytes)
    {
      data := null;
    }
  }
}
