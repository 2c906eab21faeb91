/** The concrete state as a value, and the invariant that ties it to the specification. */
module FsState {
  import opened Wrappers
  import opened CStrings
  import opened BitCounts
  import opened FsTypes
  import opened FsSpec
  import opened FsLaws

  /**
   * Everything fs.c keeps: both bitmaps (decoded bit by bit), inode table, root directory, descriptors, block
   * contents.
   */
  datatype Disk = Disk(
    inodeUsed: seq<bool>, blockUsed: seq<bool>, inodes: seq<Inode>,
    dir: seq<Dirent>, fds: seq<FileDesc>, bytes: seq<byte>)

  /** Who owns what: the (inode, slot) pair each allocated block belongs to, and the directory slot of each inode. */
  datatype Owners = Owners(block: map<nat, (nat, nat)>, slot: seq<nat>)

  predicate IsFile(d: Disk, i: int)
    requires |d.inodes| == MAX_INODES
  {
    1 <= i < MAX_INODES && d.inodes[i].used
  }

  ghost predicate Shape(d: Disk) {
    && |d.inodeUsed| == MAX_INODES && |d.blockUsed| == NUM_BLOCKS
    && |d.inodes| == MAX_INODES && |d.dir| == DIR_ENTRIES && |d.fds| == MAX_FDS
    && |d.bytes| == DISK_SIZE
    && (forall i | 0 <= i < MAX_INODES :: |d.inodes[i].blocks| == DIRECT && |d.inodes[i].name| == MAX_NAME)
    && (forall s | 0 <= s < DIR_ENTRIES :: |d.dir[s].name| == DIR_NAME)
  }

  /** A file's inode: no holes, since slot k is taken exactly when the file reaches into block k. */
  ghost predicate FileInode(n: Inode) {
    && n.used && n.kind == FS_FILE && n.mode == 0 && n.size <= MAX_BYTES
    && |n.name| == MAX_NAME && 0 in n.name && ValidName(CStr(n.name))
    && |n.blocks| == DIRECT
    && (forall k | 0 <= k < DIRECT :: n.blocks[k] != 0 <==> k * BLOCK_SIZE < n.size)
    && (forall k | 0 <= k < DIRECT :: n.blocks[k] != 0 ==> DATA_START <= n.blocks[k] < NUM_BLOCKS)
  }

  /** The inode bitmap agrees with the used fields, and inodes hold a well-formed file or nothing. */
  ghost predicate InodesOk(d: Disk)
    requires Shape(d)
  {
    && d.inodes[0] == ROOT_INODE && d.inodeUsed[0]
    && forall i | 1 <= i < MAX_INODES ::
         && d.inodeUsed[i] == d.inodes[i].used
         && (if d.inodes[i].used then FileInode(d.inodes[i]) else d.inodes[i] == ZERO_INODE)
  }

  /** A data block's bit is set exactly when one (inode, slot) pair points to it; metadata blocks are always set. */
  ghost predicate BlocksOk(d: Disk, owner: map<nat, (nat, nat)>)
    requires Shape(d)
  {
    && (forall i, k | 1 <= i < MAX_INODES && 0 <= k < DIRECT && d.inodes[i].blocks[k] != 0 ::
          d.inodes[i].blocks[k] in owner && owner[d.inodes[i].blocks[k]] == (i, k))
    && (forall b | b in owner ::
          && DATA_START <= b < NUM_BLOCKS
          && 1 <= owner[b].0 < MAX_INODES && owner[b].1 < DIRECT
          && d.inodes[owner[b].0].blocks[owner[b].1] == b)
    && (forall b | 0 <= b < NUM_BLOCKS :: d.blockUsed[b] <==> b < DATA_START || b in owner)
  }

  /** Used directory entries and used inodes are in bijection and agree on the name. */
  ghost predicate DirOk(d: Disk, slot: seq<nat>)
    requires Shape(d)
  {
    && |slot| == MAX_INODES
    && (forall s | 0 <= s < DIR_ENTRIES ::
          if d.dir[s].used then
            && IsFile(d, d.dir[s].inode) && slot[d.dir[s].inode] == s && 0 in d.dir[s].name
            && CStr(d.dir[s].name) == CStr(d.inodes[d.dir[s].inode].name)
          else d.dir[s] == ZERO_DIRENT)
    && (forall i | IsFile(d, i) :: slot[i] < DIR_ENTRIES && d.dir[slot[i]].used && d.dir[slot[i]].inode == i)
  }

  /** Byte q of block k of inode i; a missing block reads as zero. */
  function Cell(d: Disk, i: nat, k: nat, q: nat): byte
    requires Shape(d) && i < MAX_INODES && k < DIRECT && q < BLOCK_SIZE
  {
    var b := d.inodes[i].blocks[k];
    if b == 0 || b >= NUM_BLOCKS then 0 else d.bytes[b * BLOCK_SIZE + q]
  }

  /** Byte p of some data, zero past its end. */
  function ByteOr0(data: seq<byte>, p: nat): byte { if p < |data| then data[p] else 0 }

  /** Inode i stores exactly this data, and the rest of its blocks is zero. */
  ghost predicate Stores(d: Disk, i: nat, data: seq<byte>)
    requires Shape(d) && i < MAX_INODES
  {
    && d.inodes[i].size == |data| <= MAX_BYTES
    && forall k: nat, q: nat | k < DIRECT && q < BLOCK_SIZE :: Cell(d, i, k, q) == ByteOr0(data, k * BLOCK_SIZE + q)
  }

  ghost predicate FilesOk(d: Disk, files: map<Name, File>)
    requires Shape(d)
  {
    && (forall n | n in files ::
          && IsFile(d, files[n].ino) && CStr(d.inodes[files[n].ino].name) == n
          && Stores(d, files[n].ino, files[n].data))
    && (forall i | IsFile(d, i) :: CStr(d.inodes[i].name) in files && files[CStr(d.inodes[i].name)].ino == i)
  }

  ghost predicate FdsOk(d: Disk, fs: Fs)
    requires Shape(d)
  {
    && |fs.handles| == MAX_FDS
    && forall fd | 0 <= fd < MAX_FDS ::
         if fs.handles[fd].Some? then
           && fs.handles[fd].value.name in fs.files
           && d.fds[fd] == FileDesc(true, 0, fs.files[fs.handles[fd].value.name].ino, fs.handles[fd].value.offset)
         else d.fds[fd] == ZERO_FD
  }

  /** The invariant of every reachable state. */
  ghost predicate Inv(d: Disk, o: Owners, fs: Fs) {
    && Shape(d) && InodesOk(d) && BlocksOk(d, o.block) && DirOk(d, o.slot)
    && FilesOk(d, fs.files) && FdsOk(d, fs) && WF(fs)
    && CountClear(d.blockUsed, DATA_START) == FreeBlocks(fs.files)
  }
}
