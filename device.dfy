/**
  Device parameters of disk-warmer: `struct device_info` and
  `device_align_io_params` (disk-warmer/main.c), which rounds the read size
  and the stride up to the physical sector size when direct I/O is used.
*/
module Device {
  import opened CInt

  const DEFAULT_READ_SIZE_KB: nat := 4
  const DEFAULT_STRIDE_KB: nat := 512
  const DEFAULT_QUEUE_DEPTH: nat := 128
  const DEFAULT_ALIGNMENT_BYTES: nat := 512

  /** `struct device_info`; the size and the sector sizes come from `lseek` and `ioctl`. */
  datatype DeviceInfo = DeviceInfo(size: int, logicalSectorSize: int, physicalSectorSize: int,
                                   supportsDirectIo: bool)

  /** A multiple of `alignment` in the sense of C's `%`. */
  predicate Aligned(v: int, alignment: int)
    requires alignment > 0
  {
    Mod(v, alignment) == 0
  }

  /** C's `%` of a multiple is zero, for either sign of the multiple. */
  lemma ModOfMultiple(q: int, a: int)
    requires a > 0
    ensures Mod(q * a, a) == 0
  {
    if q >= 0 {
      DivUnique(q * a, a, q, 0);
    } else {
      assert -(q * a) == (-q) * a;
      DivUnique((-q) * a, a, -q, 0);
    }
  }

  /**
    One assignment of `device_align_io_params`: a value that is not a
    multiple of `alignment` becomes `((v + alignment - 1) / alignment) * alignment`.
  */
  function AlignUp(v: int, alignment: int): (r: int)
    requires alignment > 0
    ensures Aligned(r, alignment)
    ensures Aligned(v, alignment) ==> r == v
    ensures v >= 0 ==> v <= r < v + alignment
  {
    if Mod(v, alignment) != 0 then
      var q := Div(v + alignment - 1, alignment);
      ModOfMultiple(q, alignment);
      q * alignment
    else
      v
  }

  /** For a non-negative value the result is the least multiple of `alignment` not below it. */
  lemma AlignUpIsLeast(v: nat, alignment: int, m: int)
    requires alignment > 0 && Aligned(m, alignment) && m >= v
    ensures AlignUp(v, alignment) <= m
  {
    if Mod(v, alignment) != 0 {
      var qm := m / alignment;
      assert m == qm * alignment;
      var q := (v + alignment - 1) / alignment;
      DivUnique(qm * alignment + alignment - 1, alignment, qm, alignment - 1);
      DivMonotone(v + alignment - 1, qm * alignment + alignment - 1, alignment);
      MulMonotone(q, qm, alignment);
    }
  }

  lemma DivMonotone(x: nat, y: nat, d: int)
    requires d > 0 && x <= y
    ensures x / d <= y / d
  {
    var qx, qy := x / d, y / d;
    assert qx * d <= x && y < qy * d + d;
    if qx > qy {
      MulGap(qx, qy, d);
    }
  }

  lemma MulGap(a: int, b: int, d: int)
    requires a > b && d > 0
    ensures a * d >= b * d + d
  {
    MulAtLeast(a - b, d);
    assert a * d - b * d == (a - b) * d;
  }

  lemma MulMonotone(a: int, b: int, c: nat)
    requires a <= b
    ensures a * c <= b * c
  {
  }

  /**
    `device_align_io_params(info, use_direct_io, &read_size, &stride)`:
    returns the new `(read_size, stride)`.
  */
  function AlignIoParams(info: DeviceInfo, useDirectIo: bool, readSize: int, stride: int): (r: (int, int))
    requires useDirectIo ==> info.physicalSectorSize > 0
    ensures !useDirectIo ==> r == (readSize, stride)
    ensures useDirectIo ==> Aligned(r.0, info.physicalSectorSize) && Aligned(r.1, info.physicalSectorSize)
    ensures useDirectIo && readSize >= 0 ==> readSize <= r.0 < readSize + info.physicalSectorSize
    ensures useDirectIo && stride >= 0 ==> stride <= r.1 < stride + info.physicalSectorSize
  {
    if !useDirectIo then (readSize, stride)
    else (AlignUp(readSize, info.physicalSectorSize), AlignUp(stride, info.physicalSectorSize))
  }

  /** Aligning already aligned parameters changes nothing. */
  lemma AlignIoParamsIdempotent(info: DeviceInfo, useDirectIo: bool, readSize: int, stride: int)
    requires useDirectIo ==> info.physicalSectorSize > 0
    ensures var r := AlignIoParams(info, useDirectIo, readSize, stride);
      AlignIoParams(info, useDirectIo, r.0, r.1) == r
  {
  }
}
