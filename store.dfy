/*
 * The ramdisk's byte store: the byte type, the 512-byte sector and the
 * arithmetic that turns sector numbers into byte offsets, the capacity
 * announced to the block layer, and the effect of copying a buffer into
 * the store.
 */
module Store {

  /** One byte of `_ramdisk_data` (a C `u8`). */
  newtype Byte = b: int | 0 <= b < 256

  /** Bytes per sector; the driver multiplies sector numbers and counts by it. */
  const SECTOR_SIZE: nat := 512

  /** Number of values of a C `unsigned int`. */
  const U32_MOD: nat := 0x1_0000_0000

  /** Number of values of a C `unsigned long` (64-bit kernel). */
  const ULONG_MOD: nat := 0x1_0000_0000_0000_0000

  /** The value kept when a non-negative integer is stored into an `unsigned int`. */
  function U32(x: nat): (r: nat)
    ensures r < U32_MOD
    ensures x < U32_MOD ==> r == x
  {
    x % U32_MOD
  }

  /**
   * Bytes in n sectors: the byte offset of sector n (`blk_rq_pos(req) * 512`)
   * and the byte length of a run of n sectors (`blk_rq_cur_sectors(req) * 512`).
   */
  function SectorBytes(n: nat): (bytes: nat)
    ensures bytes % SECTOR_SIZE == 0 && bytes / SECTOR_SIZE == n
  {
    n * SECTOR_SIZE
  }

  /**
   * Capacity, in sectors, that `ramdisk_init` announces for a store of
   * `size` bytes: the quotient by 512, plus one when a remainder is left.
   * The result is the least sector count that covers every byte.
   */
  function NSectors(size: nat): (n: nat)
    ensures n * SECTOR_SIZE >= size
    ensures n == 0 || (n - 1) * SECTOR_SIZE < size
  {
    var n := size / SECTOR_SIZE;
    if size % SECTOR_SIZE != 0 then n + 1 else n
  }

  /**
   * A store size rounded up to whole sectors: the bytes a store needs so
   * that every one of the NSectors(size) sectors announced lies inside it.
   */
  function CapacityBytes(size: nat): (bytes: nat)
    ensures size <= bytes < size + SECTOR_SIZE && bytes % SECTOR_SIZE == 0
    ensures NSectors(bytes) == NSectors(size) && bytes / SECTOR_SIZE == NSectors(size)
  {
    NSectors(size) * SECTOR_SIZE
  }

  /** The store after `memcpy(_ramdisk_data + offset, src, |src|)`; OverwritePlaces says what it holds. */
  function Overwrite(disk: seq<Byte>, offset: nat, src: seq<Byte>): (r: seq<Byte>)
    requires offset + |src| <= |disk|
    ensures |r| == |disk|
  {
    disk[..offset] + src + disk[offset + |src|..]
  }

  /**
   * After the copy, the addressed range holds `src` and every other byte
   * is as before.
   */
  lemma OverwritePlaces(disk: seq<Byte>, offset: nat, src: seq<Byte>)
    requires offset + |src| <= |disk|
    ensures Overwrite(disk, offset, src)[offset..offset + |src|] == src
    ensures forall i :: 0 <= i < |disk| && !(offset <= i < offset + |src|) ==> Overwrite(disk, offset, src)[i] == disk[i]
  {
    var r := Overwrite(disk, offset, src);
    forall i | 0 <= i < |disk| && !(offset <= i < offset + |src|)
      ensures r[i] == disk[i]
    {
      if i < offset {
        assert r[i] == disk[..offset][i];
      } else {
        assert r[i] == disk[offset + |src|..][i - offset - |src|];
      }
    }
    assert r[offset..offset + |src|] == src;
  }
}
