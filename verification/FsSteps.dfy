/** Each change the file system makes keeps the invariant and is the specification's change. */
module FsSteps {
  import opened Wrappers
  import opened CStrings
  import opened BitCounts
  import opened FsTypes
  import opened FsSpec
  import opened FsLaws
  import opened FsState

  // ---- looking up a name --------------------------------------------------------------------------

  /** A directory entry carrying a name is that of the file with this name. */
  lemma EntryOf(d: Disk, o: Owners, fs: Fs, s: nat)
    requires Inv(d, o, fs) && s < DIR_ENTRIES && d.dir[s].used
    ensures CStr(d.dir[s].name) in fs.files
    ensures fs.files[CStr(d.dir[s].name)].ino == d.dir[s].inode
  {
  }

  /** Every file has a directory entry. */
  lemma HasEntry(d: Disk, o: Owners, fs: Fs, name: Name)
    requires Inv(d, o, fs) && name in fs.files
    ensures var s := o.slot[fs.files[name].ino]; s < DIR_ENTRIES && d.dir[s].used && CStr(d.dir[s].name) == name
  {
    var i := fs.files[name].ino;
    assert IsFile(d, i);
    var s := o.slot[i];
    assert d.dir[s].inode == i;
  }

  /** What a scan of the directory finds: the file's entry, or nothing when no file has the name. */
  lemma LookUp(d: Disk, o: Owners, fs: Fs, name: Name, r: int)
    requires Inv(d, o, fs) && (r == -1 || 0 <= r < DIR_ENTRIES)
    requires r != -1 ==> d.dir[r].used && CStr(d.dir[r].name) == name
    requires r == -1 ==> forall s | 0 <= s < DIR_ENTRIES :: !(d.dir[s].used && CStr(d.dir[s].name) == name)
    ensures r != -1 <==> name in fs.files
    ensures r != -1 ==>
              d.dir[r].inode == fs.files[name].ino && o.slot[fs.files[name].ino] == r && IsFile(d, d.dir[r].inode)
  {
    if name in fs.files { HasEntry(d, o, fs, name); }
    if r != -1 { EntryOf(d, o, fs, r); }
  }

  // ---- counting directory entries -------------------------------------------------------------------

  lemma {:induction false} EntriesCard(d: Disk, slot: seq<nat>, n: nat) returns (inos: set<nat>)
    requires Shape(d) && DirOk(d, slot) && n <= DIR_ENTRIES
    requires forall s | 0 <= s < n :: d.dir[s].used
    ensures |inos| == n
    ensures forall i | i in inos :: 1 <= i < MAX_INODES && slot[i] < n
  {
    if n == 0 {
      inos := {};
    } else {
      inos := EntriesCard(d, slot, n - 1);
      inos := inos + {d.dir[n - 1].inode};
    }
  }

  /** 63 inodes cannot fill 128 directory slots, so fs_create never returns -4. */
  lemma DirNeverFull(d: Disk, o: Owners, fs: Fs)
    requires Inv(d, o, fs)
    ensures exists s | 0 <= s < DIR_ENTRIES :: !d.dir[s].used
  {
    if forall s | 0 <= s < DIR_ENTRIES :: d.dir[s].used {
      var inos := EntriesCard(d, o.slot, DIR_ENTRIES);
      NumbersBelow(inos, MAX_INODES);
      assert false;
    }
  }

  lemma NumbersBelow(a: set<nat>, hi: nat)
    requires forall i | i in a :: 1 <= i < hi
    requires 1 <= hi
    ensures |a| <= hi - 1
  {
    SubsetCard(a, Range(1, hi));
  }

  // ---- inode numbers in use ---------------------------------------------------------------------------

  lemma InodeUsed(d: Disk, o: Owners, fs: Fs, i: nat)
    requires Inv(d, o, fs) && 1 <= i < MAX_INODES
    ensures d.inodeUsed[i] <==> i in Inos(fs.files)
    ensures d.inodeUsed[i] <==> d.inodes[i].used
  {
    if d.inodes[i].used {
      assert IsFile(d, i);
    }
    assert forall n | n in fs.files :: IsFile(d, fs.files[n].ino);
  }

  /** A scan of the inode bitmap finds the specification's inode number, or that 63 files exist. */
  lemma LowestInode(d: Disk, o: Owners, fs: Fs, r: int)
    requires Inv(d, o, fs) && (r == -1 || 1 <= r < MAX_INODES)
    requires r != -1 ==> !d.inodeUsed[r]
    requires forall i | 1 <= i < (if r == -1 then MAX_INODES else r) :: d.inodeUsed[i]
    ensures r == -1 <==> |fs.files| == MAX_INODES - 1
    ensures r != -1 ==> r == LowestIno(Inos(fs.files), 1) && !d.inodes[r].used
  {
    InosFull(fs);
    var low := LowestIno(Inos(fs.files), 1);
    if r != -1 { InodeUsed(d, o, fs, r); }
    if low < MAX_INODES { InodeUsed(d, o, fs, low); }
  }

  // ---- descriptors --------------------------------------------------------------------------------

  lemma FdUsed(d: Disk, fs: Fs)
    requires Shape(d) && FdsOk(d, fs)
    ensures forall fd | 0 <= fd < MAX_FDS :: d.fds[fd].used <==> fs.handles[fd].Some?
  {
  }

  lemma OpenIff(d: Disk, o: Owners, fs: Fs)
    requires Inv(d, o, fs)
    ensures |d.fds| == MAX_FDS && forall fd: int :: IsOpen(fs, fd) <==> 0 <= fd < MAX_FDS && d.fds[fd].used
  {
    hide BlocksOk, DirOk, FilesOk, InodesOk;
    FdUsed(d, fs);
  }

  /** Where the scan for a free descriptor stops. */
  lemma LowestFdIs(d: Disk, fs: Fs, fd: nat)
    requires Shape(d) && FdsOk(d, fs) && fd <= MAX_FDS
    requires (fd < MAX_FDS ==> !d.fds[fd].used) && forall j | 0 <= j < fd :: d.fds[j].used
    ensures LowestFd(fs.handles, 0) == fd
  {
    FdUsed(d, fs);
  }

  lemma SameCells(d: Disk, e: Disk, i: nat, data: seq<byte>)
    requires Shape(d) && Shape(e) && e == d.(fds := e.fds) && i < MAX_INODES && Stores(d, i, data)
    ensures Stores(e, i, data)
  {
    assert forall k: nat, q: nat | k < DIRECT && q < BLOCK_SIZE :: Cell(e, i, k, q) == Cell(d, i, k, q);
  }

  /** Descriptors play no part in the rest of the invariant. */
  lemma FdsApart(d: Disk, e: Disk, o: Owners, fs: Fs)
    requires Shape(d) && InodesOk(d) && BlocksOk(d, o.block) && DirOk(d, o.slot) && FilesOk(d, fs.files)
    requires Shape(e) && e == d.(fds := e.fds)
    ensures InodesOk(e) && BlocksOk(e, o.block) && DirOk(e, o.slot) && FilesOk(e, fs.files)
  {
    assert forall i | 0 <= i < MAX_INODES :: IsFile(e, i) == IsFile(d, i);
    assert FilesOk(e, fs.files) by {
      forall n | n in fs.files
        ensures Stores(e, fs.files[n].ino, fs.files[n].data)
      {
        assert IsFile(d, fs.files[n].ino);
        SameCells(d, e, fs.files[n].ino, fs.files[n].data);
      }
    }
  }

  lemma FdsInv(d: Disk, e: Disk, o: Owners, fs: Fs, fs2: Fs)
    requires Inv(d, o, fs)
    requires e == d.(fds := e.fds) && |e.fds| == MAX_FDS && fs2 == fs.(handles := fs2.handles)
    requires WF(fs2) && FdsOk(e, fs2)
    ensures Inv(e, o, fs2)
  {
    FdsApart(d, e, o, fs);
  }

  /** Setting one descriptor on both sides. */
  lemma SetFd(d: Disk, fs: Fs, fd: nat, f: FileDesc, h: Option<Handle>)
    requires Shape(d) && FdsOk(d, fs) && fd < MAX_FDS
    requires h.None? ==> f == ZERO_FD
    requires h.Some? ==> h.value.name in fs.files && f == FileDesc(true, 0, fs.files[h.value.name].ino, h.value.offset)
    ensures var e := d.(fds := d.fds[fd := f]); Shape(e) && FdsOk(e, fs.(handles := fs.handles[fd := h]))
  {
  }

  lemma OpenInv(d: Disk, o: Owners, fs: Fs, name: Name, fd: nat)
    requires Inv(d, o, fs) && name in fs.files && fd < MAX_FDS
    requires !d.fds[fd].used && forall j | 0 <= j < fd :: d.fds[j].used
    ensures Open(fs, name).ret == fd
    ensures Inv(d.(fds := d.fds[fd := FileDesc(true, 0, fs.files[name].ino, 0)]), o, Open(fs, name).fs)
  {
    hide BlocksOk, DirOk, FilesOk, InodesOk;
    LowestFdIs(d, fs, fd);
    SetFd(d, fs, fd, FileDesc(true, 0, fs.files[name].ino, 0), Some(Handle(name, 0)));
    hide FdsOk;
    OpenWF(fs, name);
    hide WF;
    FdsInv(d, d.(fds := d.fds[fd := FileDesc(true, 0, fs.files[name].ino, 0)]), o, fs, Open(fs, name).fs);
  }

  lemma OpenFull(d: Disk, o: Owners, fs: Fs)
    requires Inv(d, o, fs) && forall j | 0 <= j < MAX_FDS :: d.fds[j].used
    ensures LowestFd(fs.handles, 0) == MAX_FDS == |fs.handles|
  {
    hide BlocksOk, DirOk, FilesOk, InodesOk;
    LowestFdIs(d, fs, MAX_FDS);
  }

  lemma SeekInv(d: Disk, o: Owners, fs: Fs, fd: nat, offset: nat)
    requires Inv(d, o, fs) && IsOpen(fs, fd) && offset <= |fs.files[fs.handles[fd].value.name].data|
    ensures Inv(d.(fds := d.fds[fd := d.fds[fd].(offset := offset)]), o, Seek(fs, fd, offset))
  {
    hide BlocksOk, DirOk, FilesOk, InodesOk;
    SetFd(d, fs, fd, d.fds[fd].(offset := offset), Some(fs.handles[fd].value.(offset := offset)));
    hide FdsOk;
    assert WF(Seek(fs, fd, offset));
    hide WF;
    FdsInv(d, d.(fds := d.fds[fd := d.fds[fd].(offset := offset)]), o, fs, Seek(fs, fd, offset));
  }

  lemma CloseInv(d: Disk, o: Owners, fs: Fs, fd: nat)
    requires Inv(d, o, fs) && IsOpen(fs, fd)
    ensures Inv(d.(fds := d.fds[fd := ZERO_FD]), o, Close(fs, fd).fs)
  {
    hide BlocksOk, DirOk, FilesOk, InodesOk;
    SetFd(d, fs, fd, ZERO_FD, None);
    hide FdsOk;
    CloseWF(fs, fd);
    hide WF;
    FdsInv(d, d.(fds := d.fds[fd := ZERO_FD]), o, fs, Close(fs, fd).fs);
  }

  lemma NamesTerminated(d: Disk, o: Owners, fs: Fs)
    requires Inv(d, o, fs)
    ensures Shape(d) && |o.slot| == MAX_INODES
    ensures forall s | 0 <= s < DIR_ENTRIES :: if d.dir[s].used then 0 in d.dir[s].name else d.dir[s] == ZERO_DIRENT
  {
  }

  // ---- creating -----------------------------------------------------------------------------------

  function NewInode(name: Name): Inode
    requires |name| < MAX_NAME
  {
    ZERO_INODE.(used := true, kind := FS_FILE, name := Pad(name, MAX_NAME))
  }

  function AddFile(d: Disk, i: nat, s: nat, name: Name): Disk
    requires Shape(d) && i < MAX_INODES && s < DIR_ENTRIES && |name| < MAX_NAME
  {
    d.(inodeUsed := d.inodeUsed[i := true], inodes := d.inodes[i := NewInode(name)],
       dir := d.dir[s := Dirent(i, true, Pad(name, DIR_NAME))])
  }

  lemma AddFileDir(d: Disk, slot: seq<nat>, i: nat, s: nat, name: Name)
    requires Shape(d) && InodesOk(d) && DirOk(d, slot)
    requires 1 <= i < MAX_INODES && !d.inodes[i].used && s < DIR_ENTRIES && !d.dir[s].used && ValidName(name)
    ensures var e := AddFile(d, i, s, name); Shape(e) && InodesOk(e) && DirOk(e, slot[i := s])
  {
    CStrPad(name, MAX_NAME);
    CStrPad(name, DIR_NAME);
    assert Pad(name, MAX_NAME)[|name|] == 0 && Pad(name, DIR_NAME)[|name|] == 0;
    var e := AddFile(d, i, s, name);
    assert IsFile(e, i);
    assert forall j | j != i && 0 <= j < MAX_INODES :: IsFile(e, j) == IsFile(d, j);
  }

  lemma AddFileBlocks(d: Disk, owner: map<nat, (nat, nat)>, i: nat, s: nat, name: Name)
    requires Shape(d) && InodesOk(d) && BlocksOk(d, owner)
    requires 1 <= i < MAX_INODES && !d.inodes[i].used && s < DIR_ENTRIES && ValidName(name)
    ensures var e := AddFile(d, i, s, name); Shape(e) && BlocksOk(e, owner)
  {
    assert d.inodes[i].blocks == NewInode(name).blocks;
  }

  lemma AddFileStores(d: Disk, i: nat, s: nat, name: Name, j: nat, data: seq<byte>)
    requires Shape(d) && i < MAX_INODES && s < DIR_ENTRIES && |name| < MAX_NAME
    requires j < MAX_INODES && (if j == i then data == [] else Stores(d, j, data))
    ensures Shape(AddFile(d, i, s, name)) && Stores(AddFile(d, i, s, name), j, data)
  {
    var e := AddFile(d, i, s, name);
    forall k: nat, q: nat | k < DIRECT && q < BLOCK_SIZE
      ensures Cell(e, j, k, q) == ByteOr0(data, k * BLOCK_SIZE + q)
    {
      if j != i { assert Cell(e, j, k, q) == Cell(d, j, k, q); }
    }
  }

  lemma AddFileFiles(d: Disk, files: map<Name, File>, i: nat, s: nat, name: Name)
    requires Shape(d) && FilesOk(d, files)
    requires 1 <= i < MAX_INODES && !d.inodes[i].used && s < DIR_ENTRIES && ValidName(name) && name !in files
    ensures var e := AddFile(d, i, s, name); Shape(e) && FilesOk(e, files[name := File(i, [])])
  {
    CStrPad(name, MAX_NAME);
    var e, files2 := AddFile(d, i, s, name), files[name := File(i, [])];
    forall n | n in files2
      ensures IsFile(e, files2[n].ino) && CStr(e.inodes[files2[n].ino].name) == n
          && Stores(e, files2[n].ino, files2[n].data)
    {
      if n != name { assert IsFile(d, files[n].ino); }
      AddFileStores(d, i, s, name, files2[n].ino, files2[n].data);
    }
    forall j | IsFile(e, j)
      ensures CStr(e.inodes[j].name) in files2 && files2[CStr(e.inodes[j].name)].ino == j
    {
      if j != i { assert IsFile(d, j); }
    }
  }

  lemma AddFileFds(d: Disk, fs: Fs, i: nat, s: nat, name: Name)
    requires Shape(d) && FdsOk(d, fs) && name !in fs.files
    requires i < MAX_INODES && s < DIR_ENTRIES && |name| < MAX_NAME
    ensures var e := AddFile(d, i, s, name); Shape(e) && FdsOk(e, fs.(files := fs.files[name := File(i, [])]))
  {
  }

  lemma AddFileInv(d: Disk, o: Owners, fs: Fs, i: nat, s: nat, name: Name)
    requires Inv(d, o, fs)
    requires 1 <= i < MAX_INODES && !d.inodes[i].used
    requires s < DIR_ENTRIES && !d.dir[s].used
    requires ValidName(name) && name !in fs.files
    ensures Inv(AddFile(d, i, s, name), o.(slot := o.slot[i := s]), fs.(files := fs.files[name := File(i, [])]))
  {
    AddFileDir(d, o.slot, i, s, name);
    AddFileBlocks(d, o.block, i, s, name);
    AddFileFiles(d, fs.files, i, s, name);
    AddFileFds(d, fs, i, s, name);
    InodeUsed(d, o, fs, i);
    AddWF(fs, name, i);
  }

  // ---- unlinking ----------------------------------------------------------------------------------

  /** The block bitmap once the first n block pointers have been freed. */
  function Freed(used: seq<bool>, blocks: seq<nat>, n: nat): (r: seq<bool>)
    requires n <= |blocks|
    ensures |r| == |used|
  {
    if n == 0 then used
    else
      var u := Freed(used, blocks, n - 1);
      if blocks[n - 1] != 0 && DATA_START <= blocks[n - 1] < |used| then u[blocks[n - 1] := false] else u
  }

  lemma {:induction false} FreedBits(used: seq<bool>, blocks: seq<nat>, n: nat, b: nat)
    requires n <= |blocks| && DATA_START <= b < |used|
    ensures Freed(used, blocks, n)[b] <==> used[b] && forall k | 0 <= k < n :: blocks[k] != b
  {
    if n > 0 {
      FreedBits(used, blocks, n - 1, b);
    }
  }

  lemma {:induction false} FreedMeta(used: seq<bool>, blocks: seq<nat>, n: nat, b: nat)
    requires n <= |blocks| && b < DATA_START && b < |used|
    ensures Freed(used, blocks, n)[b] == used[b]
  {
    if n > 0 {
      FreedMeta(used, blocks, n - 1, b);
    }
  }

  lemma {:induction false} FreedCount(used: seq<bool>, ino: Inode, n: nat)
    requires FileInode(ino) && |used| == NUM_BLOCKS && n <= DIRECT
    requires forall k | 0 <= k < DIRECT && ino.blocks[k] != 0 :: used[ino.blocks[k]]
    requires forall j, k | 0 <= j < k < DIRECT && ino.blocks[j] != 0 :: ino.blocks[j] != ino.blocks[k]
    ensures CountClear(Freed(used, ino.blocks, n), DATA_START) ==
        CountClear(used, DATA_START) + Min(n, BlocksFor(ino.size))
  {
    if n > 0 {
      FreedCount(used, ino, n - 1);
      if ino.blocks[n - 1] != 0 {
        FreedBits(used, ino.blocks, n - 1, ino.blocks[n - 1]);
        CountSet(Freed(used, ino.blocks, n - 1), DATA_START, ino.blocks[n - 1], false);
      }
    }
  }

  function RemoveFile(d: Disk, i: nat, s: nat): Disk
    requires Shape(d) && i < MAX_INODES && s < DIR_ENTRIES
  {
    d.(inodeUsed := d.inodeUsed[i := false], inodes := d.inodes[i := ZERO_INODE], dir := d.dir[s := ZERO_DIRENT],
       blockUsed := Freed(d.blockUsed, d.inodes[i].blocks, DIRECT))
  }

  function Disown(owner: map<nat, (nat, nat)>, i: nat): map<nat, (nat, nat)> {
    map b | b in owner && owner[b].0 != i :: owner[b]
  }

  lemma RemoveFileDir(d: Disk, slot: seq<nat>, i: nat, s: nat)
    requires Shape(d) && InodesOk(d) && DirOk(d, slot)
    requires IsFile(d, i) && s == slot[i]
    ensures s < DIR_ENTRIES
    ensures var e := RemoveFile(d, i, s); Shape(e) && InodesOk(e) && DirOk(e, slot)
  {
    var e := RemoveFile(d, i, s);
    assert d.dir[s].inode == i;
    assert forall j | 0 <= j < MAX_INODES :: IsFile(e, j) == (j != i && IsFile(d, j));
    assert InodesOk(e);
  }

  lemma RemoveFileBlocks(d: Disk, owner: map<nat, (nat, nat)>, i: nat, s: nat)
    requires Shape(d) && InodesOk(d) && BlocksOk(d, owner)
    requires IsFile(d, i) && s < DIR_ENTRIES
    ensures var e := RemoveFile(d, i, s); Shape(e) && BlocksOk(e, Disown(owner, i))
  {
    var e, own := RemoveFile(d, i, s), Disown(owner, i);
    forall b: nat | b < NUM_BLOCKS
      ensures e.blockUsed[b] <==> b < DATA_START || b in own
    {
      if b < DATA_START {
        FreedMeta(d.blockUsed, d.inodes[i].blocks, DIRECT, b);
      } else {
        FreedBits(d.blockUsed, d.inodes[i].blocks, DIRECT, b);
        if b in owner && owner[b].0 == i { assert d.inodes[i].blocks[owner[b].1] == b; }
      }
    }
  }

  lemma RemoveFileCount(d: Disk, owner: map<nat, (nat, nat)>, i: nat, s: nat)
    requires Shape(d) && InodesOk(d) && BlocksOk(d, owner)
    requires IsFile(d, i) && s < DIR_ENTRIES
    ensures CountClear(RemoveFile(d, i, s).blockUsed, DATA_START) ==
            CountClear(d.blockUsed, DATA_START) + BlocksFor(d.inodes[i].size)
  {
    var n := d.inodes[i];
    assert FileInode(n);
    forall k | 0 <= k < DIRECT && n.blocks[k] != 0
      ensures d.blockUsed[n.blocks[k]] && owner[n.blocks[k]] == (i, k)
    {
    }
    FreedCount(d.blockUsed, n, DIRECT);
  }

  lemma RemoveFileFiles(d: Disk, files: map<Name, File>, i: nat, s: nat)
    requires Shape(d) && FilesOk(d, files) && IsFile(d, i) && s < DIR_ENTRIES
    ensures var e := RemoveFile(d, i, s); Shape(e) && FilesOk(e, files - {CStr(d.inodes[i].name)})
  {
    var e, name := RemoveFile(d, i, s), CStr(d.inodes[i].name);
    forall n | n in files - {name}
      ensures IsFile(e, files[n].ino) && CStr(e.inodes[files[n].ino].name) == n
          && Stores(e, files[n].ino, files[n].data)
    {
      var j := files[n].ino;
      assert IsFile(d, j) && j != i && Stores(d, j, files[n].data);
      assert forall k: nat, q: nat | k < DIRECT && q < BLOCK_SIZE :: Cell(e, j, k, q) == Cell(d, j, k, q);
    }
    assert forall j | IsFile(e, j) :: j != i && IsFile(d, j);
  }

  lemma RemoveFileInv(d: Disk, o: Owners, fs: Fs, name: Name)
    requires Inv(d, o, fs) && Unlink(fs, name).ret == 0
    ensures var i := fs.files[name].ino;
            Inv(RemoveFile(d, i, o.slot[i]), o.(block := Disown(o.block, i)), Unlink(fs, name).fs)
  {
    var i := fs.files[name].ino;
    assert IsFile(d, i);
    RemoveFileDir(d, o.slot, i, o.slot[i]);
    RemoveFileBlocks(d, o.block, i, o.slot[i]);
    RemoveFileCount(d, o.block, i, o.slot[i]);
    RemoveFileFiles(d, fs.files, i, o.slot[i]);
    UnlinkWF(fs, name);
    assert Stores(d, i, fs.files[name].data);
    assert FdsOk(RemoveFile(d, i, o.slot[i]), Unlink(fs, name).fs);
  }

  // ---- writing within one block ---------------------------------------------------------------------

  /** A write position: descriptor, inode, block slot and offset in the block, and the block itself. */
  datatype Spot = Spot(fd: nat, ino: nat, slot: nat, off: nat, block: nat)

  /** The descriptor's next byte is at this spot; a missing block may be any free one. */
  ghost predicate SpotOk(d: Disk, fs: Fs, w: Spot)
    requires Shape(d)
  {
    && w.fd < MAX_FDS && w.slot < DIRECT && w.off < BLOCK_SIZE && DATA_START <= w.block < NUM_BLOCKS
    && IsFile(d, w.ino) && FileInode(d.inodes[w.ino])
    && d.fds[w.fd] == FileDesc(true, 0, w.ino, w.slot * BLOCK_SIZE + w.off)
    && w.slot * BLOCK_SIZE + w.off <= d.inodes[w.ino].size
    && (if IsNew(d, w) then !d.blockUsed[w.block] else d.inodes[w.ino].blocks[w.slot] == w.block)
    && IsOpen(fs, w.fd)
    && var h := fs.handles[w.fd].value;
       && h.name in fs.files && h.offset == w.slot * BLOCK_SIZE + w.off <= |fs.files[h.name].data|
       && fs.files[h.name].ino == w.ino
       && CStr(d.inodes[w.ino].name) == h.name
       && Stores(d, w.ino, fs.files[h.name].data)
  }

  predicate IsNew(d: Disk, w: Spot)
    requires Shape(d) && w.ino < MAX_INODES && w.slot < DIRECT
  {
    d.inodes[w.ino].blocks[w.slot] == 0
  }

  /** A fresh block is cleared first; then the chunk goes at the spot. */
  predicate ChunkBytes(before: seq<byte>, after: seq<byte>, w: Spot, isNew: bool, chunk: seq<byte>)
    requires w.block < NUM_BLOCKS && |before| == DISK_SIZE
  {
    && 0 < |chunk| <= BLOCK_SIZE - w.off
    && |after| == DISK_SIZE
    && forall a: nat | a < DISK_SIZE ::
         after[a] ==
         if w.block * BLOCK_SIZE + w.off <= a < w.block * BLOCK_SIZE + w.off + |chunk|
             then chunk[a - (w.block * BLOCK_SIZE + w.off)]
         else if isNew && w.block * BLOCK_SIZE <= a < w.block * BLOCK_SIZE + BLOCK_SIZE then 0
         else before[a]
  }

  /** The state after one round of fs_write's loop that wrote n bytes, with the size already raised. */
  function Chunked(d: Disk, w: Spot, n: nat, after: seq<byte>): Disk
    requires Shape(d) && w.fd < MAX_FDS && w.ino < MAX_INODES && w.slot < DIRECT && w.block < NUM_BLOCKS
  {
    var ino := d.inodes[w.ino];
    d.(blockUsed := d.blockUsed[w.block := true],
       inodes := d.inodes[w.ino := ino.(blocks := ino.blocks[w.slot := w.block],
                                        size := Max(ino.size, d.fds[w.fd].offset + n))],
       fds := d.fds[w.fd := d.fds[w.fd].(offset := d.fds[w.fd].offset + n)],
       bytes := after)
  }

  lemma OpenFd(d: Disk, o: Owners, fs: Fs, fd: nat)
    requires Inv(d, o, fs) && IsOpen(fs, fd)
    ensures Shape(d)
    ensures var h := fs.handles[fd].value;
            && h.name in fs.files && d.fds[fd] == FileDesc(true, 0, fs.files[h.name].ino, h.offset)
            && IsFile(d, d.fds[fd].inode) && FileInode(d.inodes[d.fds[fd].inode])
            && CStr(d.inodes[d.fds[fd].inode].name) == h.name
            && Stores(d, d.fds[fd].inode, fs.files[h.name].data)
            && h.offset <= d.inodes[d.fds[fd].inode].size == |fs.files[h.name].data| <= MAX_BYTES
            && d.inodes[d.fds[fd].inode].kind == FS_FILE
  {
  }

  lemma InRange(d: Disk, i: nat, data: seq<byte>, pos: nat)
    requires Shape(d) && i < MAX_INODES && Stores(d, i, data) && pos < |data|
    ensures pos / BLOCK_SIZE < DIRECT && |d.inodes[i].blocks| == DIRECT
  {
  }

  /** The bytes a block holds are the file's, as far as the file reaches. */
  lemma BlockHolds(d: Disk, i: nat, data: seq<byte>, k: nat, q: nat, n: nat)
    requires Shape(d) && i < MAX_INODES && Stores(d, i, data) && FileInode(d.inodes[i])
    requires k < DIRECT && q < BLOCK_SIZE && n <= BLOCK_SIZE - q && 0 < n && k * BLOCK_SIZE + q + n <= |data|
    ensures DATA_START <= d.inodes[i].blocks[k] < NUM_BLOCKS
    ensures var lo := d.inodes[i].blocks[k] * BLOCK_SIZE + q;
            forall a | lo <= a < lo + n :: d.bytes[a] == data[a - lo + k * BLOCK_SIZE + q]
  {
    var lo := d.inodes[i].blocks[k] * BLOCK_SIZE + q;
    forall a | lo <= a < lo + n
      ensures d.bytes[a] == data[a - lo + k * BLOCK_SIZE + q]
    {
      assert Cell(d, i, k, q + a - lo) == ByteOr0(data, k * BLOCK_SIZE + (q + a - lo));
    }
  }

  /** The new size stays within the slots in use after the write. */
  lemma ChunkSize(n: Inode, slot: nat, off: nat, len: nat)
    requires FileInode(n) && slot < DIRECT && off < BLOCK_SIZE && 0 < len <= BLOCK_SIZE - off
    requires slot * BLOCK_SIZE + off <= n.size
    ensures var size := Max(n.size, slot * BLOCK_SIZE + off + len);
            && size <= MAX_BYTES
            && (n.blocks[slot] == 0 ==> BlocksFor(n.size) == slot && BlocksFor(size) == slot + 1)
            && (n.blocks[slot] != 0 ==> BlocksFor(size) == BlocksFor(n.size) > slot)
            && (forall k | 0 <= k < DIRECT :: k * BLOCK_SIZE < size <==> k == slot || n.blocks[k] != 0)
  {
  }

  lemma ChunkRoom(d: Disk, fs: Fs, w: Spot, len: nat)
    requires Shape(d) && WF(fs) && SpotOk(d, fs, w) && 0 < len <= BLOCK_SIZE - w.off
    requires CountClear(d.blockUsed, DATA_START) == FreeBlocks(fs.files)
    ensures len <= Room(fs, w.fd)
  {
    ChunkSize(d.inodes[w.ino], w.slot, w.off, len);
    CountZero(d.blockUsed, DATA_START);
  }

  lemma ChunkInodes(d: Disk, slot: seq<nat>, fs: Fs, w: Spot, n: nat, after: seq<byte>)
    requires Shape(d) && InodesOk(d) && DirOk(d, slot) && SpotOk(d, fs, w)
    requires 0 < n <= BLOCK_SIZE - w.off && |after| == DISK_SIZE
    ensures var e := Chunked(d, w, n, after); Shape(e) && InodesOk(e) && DirOk(e, slot)
  {
    ChunkSize(d.inodes[w.ino], w.slot, w.off, n);
    var e := Chunked(d, w, n, after);
    assert FileInode(e.inodes[w.ino]);
    assert forall j | 0 <= j < MAX_INODES :: IsFile(e, j) == IsFile(d, j) && e.inodes[j].name == d.inodes[j].name;
  }

  lemma ChunkBlocks(d: Disk, owner: map<nat, (nat, nat)>, fs: Fs, w: Spot, n: nat, after: seq<byte>)
    requires Shape(d) && BlocksOk(d, owner) && SpotOk(d, fs, w) && |after| == DISK_SIZE
    ensures var e := Chunked(d, w, n, after); Shape(e) && BlocksOk(e, owner[w.block := (w.ino, w.slot)])
  {
    var e, own := Chunked(d, w, n, after), owner[w.block := (w.ino, w.slot)];
    if !IsNew(d, w) {
      assert owner[w.block] == (w.ino, w.slot);
      assert own == owner && e.blockUsed == d.blockUsed;
    }
  }

  lemma ChunkCount(d: Disk, fs: Fs, w: Spot, chunk: seq<byte>)
    requires Shape(d) && SpotOk(d, fs, w) && 0 < |chunk| <= BLOCK_SIZE - w.off
    requires CountClear(d.blockUsed, DATA_START) == FreeBlocks(fs.files)
    requires !IsNew(d, w) ==> d.blockUsed[w.block]
    ensures CountClear(d.blockUsed[w.block := true], DATA_START) == FreeBlocks(Splice(fs, w.fd, chunk).files)
  {
    var h := fs.handles[w.fd].value;
    var f := fs.files[h.name];
    ChunkSize(d.inodes[w.ino], w.slot, w.off, |chunk|);
    UsedRemove(fs.files, h.name);
    UsedUpdate(fs.files, h.name, f.(data := SpliceData(f.data, h.offset, chunk)));
    if IsNew(d, w) {
      CountSet(d.blockUsed, DATA_START, w.block, true);
    } else {
      assert d.blockUsed[w.block := true] == d.blockUsed;
    }
  }

  /** No other slot of any file has a byte in the block written to. */
  lemma ChunkOthers(d: Disk, owner: map<nat, (nat, nat)>, fs: Fs, w: Spot, chunk: seq<byte>, after: seq<byte>,
      j: nat, k: nat, q: nat)
    requires Shape(d) && BlocksOk(d, owner) && SpotOk(d, fs, w)
    requires ChunkBytes(d.bytes, after, w, IsNew(d, w), chunk)
    requires IsFile(d, j) && k < DIRECT && q < BLOCK_SIZE && (j, k) != (w.ino, w.slot)
    ensures Shape(Chunked(d, w, |chunk|, after))
    ensures Cell(Chunked(d, w, |chunk|, after), j, k, q) == Cell(d, j, k, q)
  {
    var c := d.inodes[j].blocks[k];
    if c != 0 {
      assert c in owner && owner[c] == (j, k);
      assert c != w.block;
    }
  }

  /**
   * In the block written to, exactly the chunk's bytes change; a fresh block was all zero in the file's image already.
   */
  lemma ChunkOwn(d: Disk, fs: Fs, w: Spot, chunk: seq<byte>, after: seq<byte>, q: nat)
    requires Shape(d) && SpotOk(d, fs, w) && q < BLOCK_SIZE
    requires ChunkBytes(d.bytes, after, w, IsNew(d, w), chunk)
    ensures Shape(Chunked(d, w, |chunk|, after))
    ensures Cell(Chunked(d, w, |chunk|, after), w.ino, w.slot, q) ==
            if w.off <= q < w.off + |chunk| then chunk[q - w.off] else Cell(d, w.ino, w.slot, q)
  {
  }

  lemma SpliceByte(data: seq<byte>, offset: nat, chunk: seq<byte>, p: nat)
    requires offset <= |data|
    ensures |SpliceData(data, offset, chunk)| == Max(|data|, offset + |chunk|)
    ensures ByteOr0(SpliceData(data, offset, chunk), p) ==
            if offset <= p < offset + |chunk| then chunk[p - offset] else ByteOr0(data, p)
  {
  }

  lemma ChunkCell(d: Disk, owner: map<nat, (nat, nat)>, fs: Fs, w: Spot, chunk: seq<byte>, after: seq<byte>,
      k: nat, q: nat)
    requires Shape(d) && BlocksOk(d, owner) && SpotOk(d, fs, w) && k < DIRECT && q < BLOCK_SIZE
    requires ChunkBytes(d.bytes, after, w, IsNew(d, w), chunk)
    ensures var h := fs.handles[w.fd].value;
            && Shape(Chunked(d, w, |chunk|, after))
            && Cell(Chunked(d, w, |chunk|, after), w.ino, k, q) ==
               ByteOr0(SpliceData(fs.files[h.name].data, h.offset, chunk), k * BLOCK_SIZE + q)
  {
    var h := fs.handles[w.fd].value;
    var was := fs.files[h.name].data;
    SpliceByte(was, h.offset, chunk, k * BLOCK_SIZE + q);
    assert Cell(d, w.ino, k, q) == ByteOr0(was, k * BLOCK_SIZE + q);
    if k == w.slot {
      ChunkOwn(d, fs, w, chunk, after, q);
    } else {
      ChunkOthers(d, owner, fs, w, chunk, after, w.ino, k, q);
    }
  }

  lemma ChunkStores(d: Disk, owner: map<nat, (nat, nat)>, fs: Fs, w: Spot, chunk: seq<byte>, after: seq<byte>)
    requires Shape(d) && BlocksOk(d, owner) && SpotOk(d, fs, w)
    requires ChunkBytes(d.bytes, after, w, IsNew(d, w), chunk)
    ensures var e := Chunked(d, w, |chunk|, after);
            var h := fs.handles[w.fd].value;
            Shape(e) && Stores(e, w.ino, SpliceData(fs.files[h.name].data, h.offset, chunk))
  {
    var h := fs.handles[w.fd].value;
    ChunkSize(d.inodes[w.ino], w.slot, w.off, |chunk|);
    SpliceByte(fs.files[h.name].data, h.offset, chunk, 0);
    forall k: nat, q: nat | k < DIRECT && q < BLOCK_SIZE
      ensures Cell(Chunked(d, w, |chunk|, after), w.ino, k, q) ==
              ByteOr0(SpliceData(fs.files[h.name].data, h.offset, chunk), k * BLOCK_SIZE + q)
    {
      ChunkCell(d, owner, fs, w, chunk, after, k, q);
    }
  }

  lemma ChunkOther(d: Disk, owner: map<nat, (nat, nat)>, fs: Fs, w: Spot, chunk: seq<byte>, after: seq<byte>,
      j: nat, data: seq<byte>)
    requires Shape(d) && BlocksOk(d, owner) && SpotOk(d, fs, w)
    requires ChunkBytes(d.bytes, after, w, IsNew(d, w), chunk)
    requires IsFile(d, j) && j != w.ino && Stores(d, j, data)
    ensures Shape(Chunked(d, w, |chunk|, after)) && Stores(Chunked(d, w, |chunk|, after), j, data)
  {
    forall k: nat, q: nat | k < DIRECT && q < BLOCK_SIZE
      ensures Cell(Chunked(d, w, |chunk|, after), j, k, q) == ByteOr0(data, k * BLOCK_SIZE + q)
    {
      ChunkOthers(d, owner, fs, w, chunk, after, j, k, q);
    }
  }

  lemma ChunkFiles(d: Disk, owner: map<nat, (nat, nat)>, fs: Fs, w: Spot, chunk: seq<byte>, after: seq<byte>)
    requires Shape(d) && BlocksOk(d, owner) && FilesOk(d, fs.files) && SpotOk(d, fs, w)
    requires ChunkBytes(d.bytes, after, w, IsNew(d, w), chunk)
    ensures var e := Chunked(d, w, |chunk|, after); Shape(e) && FilesOk(e, Splice(fs, w.fd, chunk).files)
  {
    ChunkStores(d, owner, fs, w, chunk, after);
    var e, files2, name := Chunked(d, w, |chunk|, after), Splice(fs, w.fd, chunk).files, fs.handles[w.fd].value.name;
    forall n | n in files2
      ensures IsFile(e, files2[n].ino) && CStr(e.inodes[files2[n].ino].name) == n
          && Stores(e, files2[n].ino, files2[n].data)
    {
      var j := files2[n].ino;
      assert IsFile(d, j);
      if n != name {
        ChunkOther(d, owner, fs, w, chunk, after, j, fs.files[n].data);
      }
    }
    assert forall j | IsFile(e, j) :: IsFile(d, j);
  }

  lemma ChunkFds(d: Disk, fs: Fs, w: Spot, chunk: seq<byte>, after: seq<byte>)
    requires Shape(d) && FdsOk(d, fs) && SpotOk(d, fs, w) && |after| == DISK_SIZE
    ensures var e := Chunked(d, w, |chunk|, after); Shape(e) && FdsOk(e, Splice(fs, w.fd, chunk))
  {
  }

  /** One round of fs_write's loop is a splice of the specification. */
  lemma ChunkInv(d: Disk, o: Owners, fs: Fs, w: Spot, chunk: seq<byte>, after: seq<byte>)
    requires Inv(d, o, fs) && SpotOk(d, fs, w)
    requires ChunkBytes(d.bytes, after, w, IsNew(d, w), chunk)
    ensures Inv(Chunked(d, w, |chunk|, after),
                o.(block := o.block[w.block := (w.ino, w.slot)]),
                Splice(fs, w.fd, chunk))
  {
    assert WF(Splice(fs, w.fd, chunk)) by {
      ChunkRoom(d, fs, w, |chunk|);
      SpliceWF(fs, w.fd, chunk);
    }
    ChunkInodes(d, o.slot, fs, w, |chunk|, after);
    ChunkBlocks(d, o.block, fs, w, |chunk|, after);
    ChunkFiles(d, o.block, fs, w, chunk, after);
    ChunkFds(d, fs, w, chunk, after);
    assert CountClear(d.blockUsed[w.block := true], DATA_START) == FreeBlocks(Splice(fs, w.fd, chunk).files) by {
      assert !IsNew(d, w) ==> d.blockUsed[w.block];
      ChunkCount(d, fs, w, chunk);
    }
  }

  // ---- fs_write's loop as a whole -------------------------------------------------------------------

  /** fs_write stores the size only after its loop; this is the state with the size already raised. */
  function Raised(d: Disk, ino: nat, offset: nat): Disk
    requires ino < |d.inodes|
  {
    d.(inodes := d.inodes[ino := d.inodes[ino].(size := Max(d.inodes[ino].size, offset))])
  }

  /** What a write leaves alone: everything but its inode's size and blocks, its offset, set bits and data blocks. */
  ghost predicate WroteOnly(d: Disk, e: Disk, fd: nat, ino: nat)
    requires Shape(d) && fd < MAX_FDS && ino < MAX_INODES
  {
    && Shape(e)
    && e.inodeUsed == d.inodeUsed && e.dir == d.dir
    && e.inodes == d.inodes[ino := d.inodes[ino].(size := e.inodes[ino].size, blocks := e.inodes[ino].blocks)]
    && e.fds == d.fds[fd := d.fds[fd].(offset := e.fds[fd].offset)]
    && (forall b | 0 <= b < NUM_BLOCKS && d.blockUsed[b] :: e.blockUsed[b])
    && (forall a | 0 <= a < DATA_START * BLOCK_SIZE :: e.bytes[a] == d.bytes[a])
  }

  /** The state after one round of fs_write's loop that wrote n bytes, its size not yet raised. */
  function Put(d: Disk, w: Spot, n: nat, after: seq<byte>): Disk
    requires Shape(d) && w.fd < MAX_FDS && w.ino < MAX_INODES && w.slot < DIRECT && w.block < NUM_BLOCKS
  {
    d.(blockUsed := d.blockUsed[w.block := true],
       inodes := d.inodes[w.ino := d.inodes[w.ino].(blocks := d.inodes[w.ino].blocks[w.slot := w.block])],
       fds := d.fds[w.fd := d.fds[w.fd].(offset := d.fds[w.fd].offset + n)],
       bytes := after)
  }

  /** What getting a block for a slot leaves: nothing changed, or a free block taken, cleared and recorded. */
  ghost predicate GotBlock(d: Disk, e: Disk, ino: nat, k: nat, b: nat)
    requires Shape(d) && ino < MAX_INODES && k < DIRECT
  {
    if d.inodes[ino].blocks[k] != 0 then b == d.inodes[ino].blocks[k] && e == d
    else
      && DATA_START <= b < NUM_BLOCKS && !d.blockUsed[b]
      && e == d.(blockUsed := d.blockUsed[b := true],
                 inodes := d.inodes[ino := d.inodes[ino].(blocks := d.inodes[ino].blocks[k := b])], bytes := e.bytes)
      && |e.bytes| == DISK_SIZE
      && forall a: nat | a < DISK_SIZE ::
           e.bytes[a] == if b * BLOCK_SIZE <= a < b * BLOCK_SIZE + BLOCK_SIZE then 0 else d.bytes[a]
  }

  /** What copying a chunk into a block leaves. */
  ghost predicate Filled(e: Disk, f: Disk, fd: nat, at: nat, chunk: seq<byte>)
    requires fd < |e.fds| && |e.bytes| == DISK_SIZE
  {
    && f == e.(fds := e.fds[fd := e.fds[fd].(offset := e.fds[fd].offset + |chunk|)], bytes := f.bytes)
    && |f.bytes| == DISK_SIZE
    && forall a: nat | a < DISK_SIZE :: f.bytes[a] == if at <= a < at + |chunk| then chunk[a - at] else e.bytes[a]
  }

  lemma RoundPut(d: Disk, e: Disk, f: Disk, w: Spot, chunk: seq<byte>)
    requires Shape(d) && w.fd < MAX_FDS && w.ino < MAX_INODES && w.slot < DIRECT && DATA_START <= w.block < NUM_BLOCKS
    requires GotBlock(d, e, w.ino, w.slot, w.block) && Filled(e, f, w.fd, w.block * BLOCK_SIZE + w.off, chunk)
    requires 0 < |chunk| <= BLOCK_SIZE - w.off
    requires !IsNew(d, w) ==> d.blockUsed[w.block]
    ensures f == Put(d, w, |chunk|, f.bytes)
    ensures ChunkBytes(d.bytes, f.bytes, w, IsNew(d, w), chunk)
  {
    if !IsNew(d, w) {
      var n := d.inodes[w.ino];
      assert n.blocks[w.slot := w.block] == n.blocks;
      assert d.inodes[w.ino := n] == d.inodes;
      assert d.blockUsed[w.block := true] == d.blockUsed;
    }
  }

  lemma RaisedPut(d: Disk, w: Spot, n: nat, after: seq<byte>)
    requires Shape(d) && w.fd < MAX_FDS && w.ino < MAX_INODES && w.slot < DIRECT && w.block < NUM_BLOCKS
    ensures var off := d.fds[w.fd].offset;
            && Shape(Raised(d, w.ino, off))
            && Raised(Put(d, w, n, after), w.ino, off + n) == Chunked(Raised(d, w.ino, off), w, n, after)
  {
    var off := d.fds[w.fd].offset;
    assert Raised(Put(d, w, n, after), w.ino, off + n).inodes == Chunked(Raised(d, w.ino, off), w, n, after).inodes;
  }

  lemma PutWroteOnly(d: Disk, w: Spot, chunk: seq<byte>, after: seq<byte>)
    requires Shape(d) && w.fd < MAX_FDS && w.ino < MAX_INODES && w.slot < DIRECT && DATA_START <= w.block < NUM_BLOCKS
    requires ChunkBytes(d.bytes, after, w, IsNew(d, w), chunk)
    ensures WroteOnly(d, Put(d, w, |chunk|, after), w.fd, w.ino)
  {
  }

  /** The specification's side of one round: a splice within the block, or no room left. */
  ghost predicate RoundOf(fs: Fs, fs2: Fs, fd: nat, offset: nat, src: seq<byte>, done: nat, want: nat, n: nat)
    requires done < want <= |src|
  {
    if n == 0 then fs2 == fs && WF(fs) && IsOpen(fs, fd) && Room(fs, fd) == 0
    else
      && n == Min(BLOCK_SIZE - offset % BLOCK_SIZE, want - done) && fs2 == Splice(fs, fd, src[done..done + n])
      && WF(fs) && IsOpen(fs, fd) && n <= Room(fs, fd)
  }

  lemma WroteNothing(d: Disk, fd: nat, ino: nat)
    requires Shape(d) && fd < MAX_FDS && ino < MAX_INODES
    ensures WroteOnly(d, d, fd, ino)
  {
  }

  lemma WroteOnlyTrans(d: Disk, e: Disk, f: Disk, fd: nat, ino: nat)
    requires Shape(d) && fd < MAX_FDS && ino < MAX_INODES
    requires WroteOnly(d, e, fd, ino) && WroteOnly(e, f, fd, ino)
    ensures WroteOnly(d, f, fd, ino)
  {
  }

  lemma InvFits(d: Disk, o: Owners, fs: Fs, w: Spot, n: nat)
    requires Inv(d, o, fs) && SpotOk(d, fs, w) && 0 < n <= BLOCK_SIZE - w.off
    ensures WF(fs) && n <= Room(fs, w.fd)
  {
    hide BlocksOk, DirOk, FilesOk, InodesOk, FdsOk;
    ChunkRoom(d, fs, w, n);
  }

  /** One round keeps the raised state's invariant, and changes nothing it should not. */
  lemma RoundInv(d: Disk, e: Disk, f: Disk, o: Owners, fs: Fs, w: Spot, chunk: seq<byte>)
    requires Shape(d) && w.fd < MAX_FDS && w.ino < MAX_INODES && w.slot < DIRECT && w.block < NUM_BLOCKS
    requires IsOpen(fs, w.fd) && d.fds[w.fd].offset < MAX_BYTES && d.fds[w.fd].inode == w.ino
    requires w.slot == d.fds[w.fd].offset / BLOCK_SIZE && w.off == d.fds[w.fd].offset % BLOCK_SIZE
    requires GotBlock(d, e, w.ino, w.slot, w.block) && 0 < |chunk| <= BLOCK_SIZE - w.off
    requires |e.fds| == MAX_FDS && |e.bytes| == DISK_SIZE && Filled(e, f, w.fd, w.block * BLOCK_SIZE + w.off, chunk)
    requires Inv(Raised(d, w.ino, d.fds[w.fd].offset), o, fs)
    ensures Shape(f) && WroteOnly(d, f, w.fd, w.ino)
    ensures WF(fs) && |chunk| <= Room(fs, w.fd)
    ensures Inv(Raised(f, w.ino, d.fds[w.fd].offset + |chunk|),
                o.(block := o.block[w.block := (w.ino, w.slot)]), Splice(fs, w.fd, chunk))
  {
    hide Inv, FileInode, Stores;
    var r := Raised(d, w.ino, d.fds[w.fd].offset);
    OpenFd(r, o, fs, w.fd);
    BlockTaken(r, o, fs, w.ino, w.slot);
    RoundPut(d, e, f, w, chunk);
    hide GotBlock, Filled;
    PutWroteOnly(d, w, chunk, f.bytes);
    hide WroteOnly;
    SpotIs(r, o, fs, w.fd, w.block);
    RaisedPut(d, w, |chunk|, f.bytes);
    ChunkInv(r, o, fs, w, chunk, f.bytes);
    InvFits(r, o, fs, w, |chunk|);
  }

  lemma RaisedSame(d: Disk, ino: nat, offset: nat)
    requires ino < |d.inodes| && offset <= d.inodes[ino].size
    ensures Raised(d, ino, offset) == d
  {
  }

  lemma SpotIs(d: Disk, o: Owners, fs: Fs, fd: nat, b: nat)
    requires Inv(d, o, fs) && IsOpen(fs, fd) && fs.handles[fd].value.offset < MAX_BYTES
    requires DATA_START <= b < NUM_BLOCKS
    requires var ino, k := d.fds[fd].inode, d.fds[fd].offset / BLOCK_SIZE;
             ino < MAX_INODES && k < DIRECT &&
             if d.inodes[ino].blocks[k] == 0 then !d.blockUsed[b] else d.inodes[ino].blocks[k] == b
    ensures SpotOk(d, fs, Spot(fd, d.fds[fd].inode, d.fds[fd].offset / BLOCK_SIZE, d.fds[fd].offset % BLOCK_SIZE, b))
  {
    hide BlocksOk, DirOk, FilesOk, InodesOk, FdsOk;
    OpenFd(d, o, fs, fd);
    hide FileInode, Stores;
  }

  lemma BlockTaken(d: Disk, o: Owners, fs: Fs, i: nat, k: nat)
    requires Inv(d, o, fs) && IsFile(d, i) && k < DIRECT
    ensures d.inodes[i].blocks[k] < NUM_BLOCKS
    ensures d.inodes[i].blocks[k] != 0 ==> DATA_START <= d.inodes[i].blocks[k] && d.blockUsed[d.inodes[i].blocks[k]]
  {
  }

  /** When fs_write finds no free block it has filled all the room there was. */
  lemma NoRoom(d: Disk, o: Owners, fs: Fs, fd: nat)
    requires Inv(d, o, fs) && IsOpen(fs, fd) && fs.handles[fd].value.offset < MAX_BYTES
    requires var ino, k := d.fds[fd].inode, d.fds[fd].offset / BLOCK_SIZE;
             ino < MAX_INODES && k < DIRECT && d.inodes[ino].blocks[k] == 0
    requires forall b | DATA_START <= b < NUM_BLOCKS :: d.blockUsed[b]
    ensures WF(fs) && Room(fs, fd) == 0
  {
    hide BlocksOk, DirOk, FilesOk, InodesOk, FdsOk;
    OpenFd(d, o, fs, fd);
    CountZero(d.blockUsed, DATA_START);
    ChunkSize(d.inodes[d.fds[fd].inode], d.fds[fd].offset / BLOCK_SIZE, d.fds[fd].offset % BLOCK_SIZE, 1);
  }

  /** After some rounds, the specification's state is one splice of all the bytes written so far. */
  ghost predicate WrittenSoFar(fs: Fs, fs2: Fs, fd: nat, src: seq<byte>, done: nat)
    requires done <= |src|
  {
    WF(fs) && IsOpen(fs, fd) && done <= Room(fs, fd) && fs2 == Splice(fs, fd, src[..done])
  }

  lemma NoneWritten(fs: Fs, fd: nat, src: seq<byte>)
    requires WF(fs) && IsOpen(fs, fd)
    ensures WrittenSoFar(fs, fs, fd, src, 0)
  {
    RoomPositive(fs, fd);
    var h := fs.handles[fd].value;
    var f := fs.files[h.name];
    assert SpliceData(f.data, h.offset, src[..0]) == f.data;
    assert fs.files[h.name := f] == fs.files;
    assert fs.handles[fd := Some(h)] == fs.handles;
  }

  lemma MoreWritten(fs: Fs, fs2: Fs, fs3: Fs, fd: nat, offset: nat, src: seq<byte>, done: nat, want: nat, n: nat)
    requires done < want <= |src| && WrittenSoFar(fs, fs2, fd, src, done)
    requires RoundOf(fs2, fs3, fd, offset, src, done, want, n)
    ensures n == 0 ==> fs3 == fs2 && done == Room(fs, fd)
    ensures n != 0 ==> done + n <= want && WrittenSoFar(fs, fs3, fd, src, done + n)
  {
    SpliceWF(fs, fd, src[..done]);
    if n != 0 {
      SpliceTwice(fs, fd, src[..done], src[done..done + n]);
      assert src[..done] + src[done..done + n] == src[..done + n];
    }
  }

  lemma AllWritten(fs: Fs, fs2: Fs, fd: nat, src: seq<byte>, done: nat)
    requires done <= |src| && WrittenSoFar(fs, fs2, fd, src, done)
    requires done == Room(fs, fd) || done == Min(|src|, MAX_BYTES - fs.handles[fd].value.offset)
    ensures var r := Write(fs, fd, Some(src)); r.fs == fs2 && r.ret == done
  {
  }

  lemma SoFarOpen(fs: Fs, fs2: Fs, fd: nat, src: seq<byte>, done: nat)
    requires done <= |src| && WrittenSoFar(fs, fs2, fd, src, done)
    ensures IsOpen(fs2, fd)
  {
  }

  lemma InvWF(d: Disk, o: Owners, fs: Fs)
    requires Inv(d, o, fs)
    ensures WF(fs)
  {
  }

  lemma RaisedWroteOnly(d: Disk, e: Disk, fd: nat, ino: nat, offset: nat)
    requires Shape(d) && fd < MAX_FDS && ino < MAX_INODES && WroteOnly(d, e, fd, ino)
    ensures WroteOnly(d, Raised(e, ino, offset), fd, ino)
  {
  }

  /** fs_unlink's scan by inode number is the specification's by name. */
  lemma NameInUse(d: Disk, o: Owners, fs: Fs, name: Name)
    requires Inv(d, o, fs) && name in fs.files
    ensures Shape(d)
    ensures NameIsOpen(fs, name) <==> exists fd ::
        0 <= fd < MAX_FDS && d.fds[fd].used && d.fds[fd].inode == fs.files[name].ino
  {
    hide BlocksOk, DirOk, FilesOk, InodesOk;
    FdUsed(d, fs);
    if NameIsOpen(fs, name) {
      var fd :| 0 <= fd < |fs.handles| && fs.handles[fd].Some? && fs.handles[fd].value.name == name;
      assert d.fds[fd].used && d.fds[fd].inode == fs.files[name].ino;
    }
  }

  lemma SlashName(s: seq<byte>)
    requires s == CStr([0x2f, 0])[..1] + [0] + ZERO_INODE.name[2..]
    ensures s == ROOT_INODE.name
  {
  }

  // ---- initialisation -------------------------------------------------------------------------------

  /** A cleared disk with the root inode and the five metadata blocks reserved. */
  predicate Formatted(d: Disk) {
    && |d.inodeUsed| == MAX_INODES && |d.blockUsed| == NUM_BLOCKS
    && |d.inodes| == MAX_INODES && |d.dir| == DIR_ENTRIES && |d.fds| == MAX_FDS && |d.bytes| == DISK_SIZE
    && (forall i | 0 <= i < MAX_INODES :: d.inodeUsed[i] == (i == 0))
    && (forall b | 0 <= b < NUM_BLOCKS :: d.blockUsed[b] == (b < DATA_START))
    && (forall i | 0 <= i < MAX_INODES :: d.inodes[i] == if i == 0 then ROOT_INODE else ZERO_INODE)
    && (forall s | 0 <= s < DIR_ENTRIES :: d.dir[s] == ZERO_DIRENT)
    && (forall f | 0 <= f < MAX_FDS :: d.fds[f] == ZERO_FD)
    && (forall a | 0 <= a < DISK_SIZE :: d.bytes[a] == 0)
  }

  lemma FormattedInv(d: Disk)
    requires Formatted(d)
    ensures Inv(d, Owners(map[], seq(MAX_INODES, _ => 0)), Empty())
  {
    CountAllClear(d.blockUsed, DATA_START);
    EmptyWF();
    assert FdsOk(d, Empty());
  }
}
