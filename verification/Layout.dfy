/** Sizes and on-disk layout arithmetic shared by the file-system modules. */
module Layout {
  const BLK_SZ: nat := 4096
  const BLK_SZ_BITS: nat := 32768
  const INODE_SZ: nat := 256
  const DIRENT_SZ: nat := 263
  const MAX_FILE_NAME_LEN: nat := 255
  const NUM_INODES: nat := 100000
  const NUM_DIRECT_BLOCKS: nat := 12
  const NUM_BLKS_PER_IB: nat := 512
  const NUM_DIRENTS_PER_BLOCK: nat := 15
  const NUM_INODES_PER_BLOCK: nat := 16
  const NUM_IBITMAP_BLOCKS: nat := 4
  const NUM_ITAB_BLOCKS: nat := 6250

  const ROOT_INO: nat := 2
  const FIRST_UNRESERVED_INO: nat := 8

  const MAX_OPEN_FILES: nat := 1000000
  const START_FD: nat := 3
  const FD_MOD: nat := 0x1_0000_0000

  /** Data blocks one inode can address: the direct ones, then one indirect list. */
  const MAX_FILE_BLKS: nat := 524
  const MAX_FILE_BYTES: nat := 2146304

  /** Blocks one inode can own: its data blocks, and (at index IND) the indirect block itself. */
  const OWN_LEN: nat := 525
  const IND: nat := 524

  type Byte = n: nat | n < 256

  const U64: nat := 0x1_0000_0000_0000_0000

  datatype Option<+T> = None | Some(value: T)

  /** The ids from lo up to hi. */
  function Ids(lo: nat, hi: nat): (r: set<nat>)
    requires lo <= hi
    ensures forall x :: x in r <==> lo <= x < hi
    ensures |r| == hi - lo
    decreases hi
  {
    if lo == hi then {} else Ids(lo, hi - 1) + {hi - 1}
  }

  function Min(a: nat, b: nat): nat {
    if a < b then a else b
  }
}
