/** Constants and on-disk records of the RAM-disk file system (include/fs.h, kernel/fs.c). */
module FsTypes {
  import opened CStrings

  const BLOCK_SIZE: nat := 4096
  const NUM_BLOCKS: nat := 256
  const DISK_SIZE: nat := 1048576
  const MAX_INODES: nat := 64
  const MAX_FDS: nat := 32
  const MAX_NAME: nat := 24
  const DIRECT: nat := 8
  const MAX_BYTES: nat := 32768
  const DIR_ENTRIES: nat := 128
  const DIR_NAME: nat := 29
  const DATA_START: nat := 5
  const ROOT_BLOCK: nat := 4
  const DATA_BLOCKS: nat := 251

  const FS_FILE: nat := 1
  const FS_DIR: nat := 2

  type Name = seq<byte>

  datatype Inode = Inode(used: bool, kind: nat, mode: nat, size: nat, blocks: seq<nat>, name: seq<byte>)
  datatype Dirent = Dirent(inode: nat, used: bool, name: seq<byte>)
  datatype FileDesc = FileDesc(used: bool, flags: nat, inode: nat, offset: nat)

  const ZERO_INODE: Inode := Inode(false, 0, 0, 0, [0, 0, 0, 0, 0, 0, 0, 0], Zeros(MAX_NAME))
  const ZERO_DIRENT: Dirent := Dirent(0, false, Zeros(DIR_NAME))
  const ZERO_FD: FileDesc := FileDesc(false, 0, 0, 0)
  const ROOT_INODE: Inode :=
    Inode(true, FS_DIR, 0, 0, [ROOT_BLOCK, 0, 0, 0, 0, 0, 0, 0], Pad([0x2f], MAX_NAME))

  /** A name the file system accepts: non-empty and short enough to leave room for its NUL. */
  predicate ValidName(n: Name) {
    0 < |n| < MAX_NAME && 0 !in n
  }

  function Min(a: int, b: int): int { if a <= b then a else b }
  function Max(a: int, b: int): int { if a <= b then b else a }
}
