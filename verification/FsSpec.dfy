/** The simple specification: named byte sequences, and descriptors that are (name, offset) pairs. */
module FsSpec {
  import opened Wrappers
  import opened CStrings
  import opened FsTypes

  /** A file's inode number is part of the specification because fs_create returns it. */
  datatype File = File(ino: nat, data: seq<byte>)
  datatype Handle = Handle(name: Name, offset: nat)
  datatype Fs = Fs(files: map<Name, File>, handles: seq<Option<Handle>>)

  /** What a call leaves: the new state, the int32 it returns, and the bytes it put in the caller's buffer. */
  datatype Outcome = Outcome(fs: Fs, ret: int, bytes: seq<byte>)

  function Returns(fs: Fs, ret: int): Outcome { Outcome(fs, ret, []) }

  function Empty(): Fs { Fs(map[], seq(MAX_FDS, _ => None)) }

  // ---- space accounting -------------------------------------------------------------------

  function BlocksFor(size: nat): nat { (size + BLOCK_SIZE - 1) / BLOCK_SIZE }

  ghost function UsedBlocks(files: map<Name, File>): nat {
    if files == map[] then 0
    else
      var n :| n in files;
      BlocksFor(|files[n].data|) + UsedBlocks(files - {n})
  }

  ghost function FreeBlocks(files: map<Name, File>): int { DATA_BLOCKS - UsedBlocks(files) }

  function Inos(files: map<Name, File>): set<nat> { set n | n in files :: files[n].ino }

  /** The lowest inode number from i on that no file has; MAX_INODES when there is none. */
  function LowestIno(used: set<nat>, i: nat): (r: nat)
    requires i <= MAX_INODES
    ensures i <= r <= MAX_INODES
    ensures r < MAX_INODES ==> r !in used
    ensures forall j | i <= j < r :: j in used
    decreases MAX_INODES - i
  {
    if i == MAX_INODES || i !in used then i else LowestIno(used, i + 1)
  }

  /** The lowest unused descriptor from i on; the table's length when there is none. */
  function LowestFd(handles: seq<Option<Handle>>, i: nat): (r: nat)
    requires i <= |handles|
    ensures i <= r <= |handles|
    ensures r < |handles| ==> handles[r].None?
    ensures forall j | i <= j < r :: handles[j].Some?
    decreases |handles| - i
  {
    if i == |handles| || handles[i].None? then i else LowestFd(handles, i + 1)
  }

  // ---- operations -------------------------------------------------------------------------

  predicate IsOpen(fs: Fs, fd: int) {
    0 <= fd < |fs.handles| && fs.handles[fd].Some?
  }

  /** The descriptor refers to a file and stands within it. */
  predicate Placed(fs: Fs, fd: int) {
    IsOpen(fs, fd) && var h := fs.handles[fd].value; h.name in fs.files && h.offset <= |fs.files[h.name].data|
  }

  predicate NameIsOpen(fs: Fs, name: Name) {
    exists fd | 0 <= fd < |fs.handles| :: fs.handles[fd].Some? && fs.handles[fd].value.name == name
  }

  function Create(fs: Fs, name: Option<Name>): Outcome {
    if name.None? || |name.value| == 0 || |name.value| >= MAX_NAME then Returns(fs, -1)
    else if name.value in fs.files then Returns(fs, -2)
    else if |fs.files| == MAX_INODES - 1 then Returns(fs, -3)
    else
      var ino := LowestIno(Inos(fs.files), 1);
      Returns(fs.(files := fs.files[name.value := File(ino, [])]), ino)
  }

  function Open(fs: Fs, name: Name): Outcome {
    if name !in fs.files then Returns(fs, -1)
    else
      var fd := LowestFd(fs.handles, 0);
      if fd == |fs.handles| then Returns(fs, -2)
      else Returns(fs.(handles := fs.handles[fd := Some(Handle(name, 0))]), fd)
  }

  /** The bytes a read delivers: as many as asked for and as there are after the offset. */
  function ReadLen(fs: Fs, fd: int, count: nat): nat
    requires Placed(fs, fd)
  {
    var h := fs.handles[fd].value;
    Min(count, |fs.files[h.name].data| - h.offset)
  }

  function Read(fs: Fs, fd: int, nullBuf: bool, count: nat): Outcome {
    if !Placed(fs, fd) || nullBuf then Returns(fs, -1)
    else
      var h := fs.handles[fd].value;
      var n := ReadLen(fs, fd, count);
      Outcome(Seek(fs, fd, h.offset + n), n, fs.files[h.name].data[h.offset..h.offset + n])
  }

  function Seek(fs: Fs, fd: int, offset: nat): Fs
    requires IsOpen(fs, fd)
  {
    fs.(handles := fs.handles[fd := Some(fs.handles[fd].value.(offset := offset))])
  }

  /** Overwrites from the offset on, extending the data when the bytes reach past its end. */
  function SpliceData(data: seq<byte>, offset: nat, bytes: seq<byte>): seq<byte>
    requires offset <= |data|
  {
    data[..offset] + bytes + (if offset + |bytes| <= |data| then data[offset + |bytes|..] else [])
  }

  function Splice(fs: Fs, fd: int, bytes: seq<byte>): Fs {
    if !Placed(fs, fd) then fs
    else
      var h := fs.handles[fd].value;
      var f := fs.files[h.name];
      Seek(fs.(files := fs.files[h.name := f.(data := SpliceData(f.data, h.offset, bytes))]), fd, h.offset + |bytes|)
  }

  /** How far a descriptor can still write: to the size limit, or to the end of the file's own and the free blocks. */
  ghost function Room(fs: Fs, fd: int): int
    requires Placed(fs, fd)
  {
    var h := fs.handles[fd].value;
    Min(MAX_BYTES, (BlocksFor(|fs.files[h.name].data|) + FreeBlocks(fs.files)) * BLOCK_SIZE) - h.offset
  }

  ghost function WriteLen(fs: Fs, fd: int, count: nat): nat
    requires Placed(fs, fd)
  {
    Max(0, Min(count, Room(fs, fd)))
  }

  ghost function Write(fs: Fs, fd: int, buf: Option<seq<byte>>): Outcome {
    if !Placed(fs, fd) || buf.None? then Returns(fs, -1)
    else
      var n := WriteLen(fs, fd, |buf.value|);
      Returns(Splice(fs, fd, buf.value[..n]), n)
  }

  function Close(fs: Fs, fd: int): Outcome {
    if IsOpen(fs, fd) then Returns(fs.(handles := fs.handles[fd := None]), 0) else Returns(fs, -1)
  }

  function Unlink(fs: Fs, name: Name): Outcome {
    if name !in fs.files then Returns(fs, -1)
    else if NameIsOpen(fs, name) then Returns(fs, -2)
    else Returns(fs.(files := fs.files - {name}), 0)
  }

  function Size(fs: Fs, fd: int): int {
    if IsOpen(fs, fd) && fs.handles[fd].value.name in fs.files then |fs.files[fs.handles[fd].value.name].data| else 0
  }

  // ---- what every reachable state keeps ------------------------------------------------------

  ghost predicate WF(fs: Fs) {
    && |fs.handles| == MAX_FDS
    && (forall n | n in fs.files ::
          ValidName(n) && 1 <= fs.files[n].ino < MAX_INODES && |fs.files[n].data| <= MAX_BYTES)
    && (forall n, m | n in fs.files && m in fs.files && n != m :: fs.files[n].ino != fs.files[m].ino)
    && (forall fd | 0 <= fd < MAX_FDS && fs.handles[fd].Some? ::
          && fs.handles[fd].value.name in fs.files
          && fs.handles[fd].value.offset <= |fs.files[fs.handles[fd].value.name].data|)
    && UsedBlocks(fs.files) <= DATA_BLOCKS
  }
}
