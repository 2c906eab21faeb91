/** kernel/fs.c: the file system as it runs, over byte-packed bitmaps, record tables and one flat byte array. */
module FileSystems {
  import opened Wrappers
  import opened CStrings
  import opened ByteBitmaps
  import opened FsTypes
  import Spec = FsSpec
  import opened FsLaws
  import opened FsState
  import opened FsSteps

  /** What memory holds before fs_init, place by place. */
  datatype Found = Found(
    inodeMap: nat -> byte, blockMap: nat -> byte, inodes: nat -> Inode,
    dir: nat -> Dirent, fds: nat -> FileDesc, bytes: nat -> byte)

  class FileSystem {
    const inodeMap: array<byte>
    const blockMap: array<byte>
    const inodes: array<Inode>
    const rootDir: array<Dirent>
    const fds: array<FileDesc>
    const ramdisk: array<byte>

    /** The specification's state, and the ownership index; Valid ties both to the arrays. */
    ghost var model: Spec.Fs
    ghost var owners: Owners

    ghost predicate Wired() {
      && inodeMap.Length == BLOCK_SIZE && blockMap.Length == BLOCK_SIZE
      && inodes.Length == MAX_INODES && rootDir.Length == DIR_ENTRIES && fds.Length == MAX_FDS
      && ramdisk.Length == DISK_SIZE
      && inodeMap != blockMap && inodeMap != ramdisk && blockMap != ramdisk
    }

    ghost function Repr(): set<object> { {this, inodeMap, blockMap, inodes, rootDir, fds, ramdisk} }

    ghost function View(): Disk
      requires Wired()
      reads inodeMap, blockMap, inodes, rootDir, fds, ramdisk
    {
      Disk(Decode(inodeMap[..], MAX_INODES), Decode(blockMap[..], NUM_BLOCKS),
           inodes[..], rootDir[..], fds[..], ramdisk[..])
    }

    ghost predicate Valid()
      reads this, inodeMap, blockMap, inodes, rootDir, fds, ramdisk
    {
      Wired() && Inv(View(), owners, model)
    }

    // ---- inode allocation -----------------------------------------------------------------------

    method AllocInode() returns (ino: int)
      requires Wired()
      modifies inodeMap, inodes
      ensures ino == -1 || 1 <= ino < MAX_INODES
      ensures forall i | 1 <= i < (if ino == -1 then MAX_INODES else ino) :: old(View()).inodeUsed[i]
      ensures ino == -1 ==> View() == old(View())
      ensures ino != -1 ==>
                && !old(View()).inodeUsed[ino]
                && View() == old(View()).(inodeUsed := old(View()).inodeUsed[ino := true],
                                          inodes := old(View()).inodes[ino :=
                                            ZERO_INODE.(used := true, kind := FS_FILE)])
    {
      var i := 1;
      while i < MAX_INODES
        invariant 1 <= i <= MAX_INODES
        invariant forall j | 1 <= j < i :: View().inodeUsed[j]
        invariant View() == old(View())
      {
        var taken := BitTest(inodeMap, i);
        if !taken {
          BitSet(inodeMap, i);
          inodes[i] := ZERO_INODE;
          inodes[i] := inodes[i].(used := true);
          inodes[i] := inodes[i].(kind := FS_FILE);
          return i;
        }
        i := i + 1;
      }
      return -1;
    }

    method FreeInode(ino: nat)
      requires Wired()
      modifies inodeMap, inodes
      ensures ino == 0 || ino >= MAX_INODES ==> View() == old(View())
      ensures 0 < ino < MAX_INODES ==>
                View() == old(View()).(inodeUsed := old(View()).inodeUsed[ino := false],
                                       inodes := old(View()).inodes[ino := ZERO_INODE])
    {
      if ino == 0 || ino >= MAX_INODES {
        return;
      }
      BitClear(inodeMap, ino);
      inodes[ino] := ZERO_INODE;
    }

    // ---- block allocation -------------------------------------------------------------------------

    method MemSet(dst: array<byte>, at: nat, value: byte, n: nat)
      requires at + n <= dst.Length
      modifies dst
      ensures forall a | 0 <= a < dst.Length :: dst[a] == if at <= a < at + n then value else old(dst[a])
    {
      var i := 0;
      while i < n
        invariant i <= n
        invariant forall a | 0 <= a < dst.Length :: dst[a] == if at <= a < at + i then value else old(dst[a])
      {
        dst[at + i] := value;
        i := i + 1;
      }
    }

    method AllocBlock() returns (b: int)
      requires Wired()
      modifies blockMap, ramdisk
      ensures b == -1 || DATA_START <= b < NUM_BLOCKS
      ensures forall c | DATA_START <= c < (if b == -1 then NUM_BLOCKS else b) :: old(View()).blockUsed[c]
      ensures b == -1 ==> View() == old(View())
      ensures b != -1 ==>
                && !old(View()).blockUsed[b]
                && View() == old(View()).(blockUsed := old(View()).blockUsed[b := true], bytes := View().bytes)
                && forall a: nat | a < DISK_SIZE ::
                     ramdisk[a] == if b * BLOCK_SIZE <= a < b * BLOCK_SIZE + BLOCK_SIZE then 0 else old(ramdisk[a])
    {
      b := DATA_START;
      while b < NUM_BLOCKS
        invariant DATA_START <= b <= NUM_BLOCKS
        invariant forall c | DATA_START <= c < b :: View().blockUsed[c]
        invariant View() == old(View())
      {
        var taken := BitTest(blockMap, b);
        if !taken {
          BitSet(blockMap, b);
          MemSet(ramdisk, b * BLOCK_SIZE, 0, BLOCK_SIZE);
          return b;
        }
        b := b + 1;
      }
      return -1;
    }

    method FreeBlock(b: nat)
      requires Wired()
      modifies blockMap
      ensures View() == old(View()).(blockUsed :=
                if DATA_START <= b < NUM_BLOCKS then old(View()).blockUsed[b := false] else old(View()).blockUsed)
    {
      if b < DATA_START || b >= NUM_BLOCKS {
        return;
      }
      BitClear(blockMap, b);
    }

    // ---- directory --------------------------------------------------------------------------------

    method FindDirent(name: seq<byte>) returns (d: int)
      requires Wired() && 0 in name
      requires forall s | 0 <= s < DIR_ENTRIES && rootDir[s].used :: 0 in rootDir[s].name
      ensures d == -1 || 0 <= d < DIR_ENTRIES
      ensures d != -1 ==> rootDir[d].used && CStr(rootDir[d].name) == CStr(name)
      ensures forall s | 0 <= s < (if d == -1 then DIR_ENTRIES else d) ::
          !(rootDir[s].used && CStr(rootDir[s].name) == CStr(name))
    {
      var i := 0;
      while i < DIR_ENTRIES
        invariant 0 <= i <= DIR_ENTRIES
        invariant forall s | 0 <= s < i :: !(rootDir[s].used && CStr(rootDir[s].name) == CStr(name))
      {
        if rootDir[i].used {
          var c := StrCmp(rootDir[i].name, name);
          if c == 0 {
            return i;
          }
        }
        i := i + 1;
      }
      return -1;
    }

    method AddDirent(name: seq<byte>, ino: nat) returns (r: int, ghost slot: nat)
      requires Wired() && 0 in name && |CStr(name)| < DIR_NAME
      requires forall s | 0 <= s < DIR_ENTRIES && !rootDir[s].used :: rootDir[s] == ZERO_DIRENT
      modifies rootDir
      ensures r == 0 || r == -1
      ensures r == -1 ==> rootDir[..] == old(rootDir[..]) && forall s | 0 <= s < DIR_ENTRIES :: rootDir[s].used
      ensures r == 0 ==>
                && slot < DIR_ENTRIES && !old(rootDir[slot]).used && (forall t | 0 <= t < slot :: old(rootDir[t]).used)
                && rootDir[..] == old(rootDir[..])[slot := Dirent(ino % 0x10000, true, Pad(CStr(name), DIR_NAME))]
    {
      var i := 0;
      while i < DIR_ENTRIES
        invariant 0 <= i <= DIR_ENTRIES
        invariant forall s | 0 <= s < i :: rootDir[s].used
        invariant rootDir[..] == old(rootDir[..])
      {
        if !rootDir[i].used {
          rootDir[i] := rootDir[i].(used := true);
          rootDir[i] := rootDir[i].(inode := ino % 0x10000);
          var copied := StrNCpy(rootDir[i].name, name, DIR_NAME);
          assert copied == Pad(CStr(name), DIR_NAME);
          rootDir[i] := rootDir[i].(name := copied);
          return 0, i;
        }
        i := i + 1;
      }
      return -1, 0;
    }

    method RemoveDirent(index: nat)
      requires Wired()
      modifies rootDir
      ensures rootDir[..] == if index < DIR_ENTRIES then old(rootDir[..])[index := ZERO_DIRENT] else old(rootDir[..])
    {
      if index < DIR_ENTRIES {
        rootDir[index] := ZERO_DIRENT;
      }
    }

    // ---- the calls --------------------------------------------------------------------------------

    /** fs_create. Its -4 exit, a full directory, is dead: 63 inodes cannot fill 128 slots. */
    method Create(name: Option<seq<byte>>) returns (ret: int)
      requires Valid() && (name.Some? ==> 0 in name.value)
      modifies this, inodeMap, inodes, rootDir
      ensures Valid()
      ensures var r := Spec.Create(old(model), if name.None? then None else Some(CStr(name.value)));
              model == r.fs && ret == r.ret
    {
      hide Inv, Decode, Shape, FileInode, CStr, Spec.UsedBlocks, Spec.Inos, Spec.LowestIno;
      if name.None? || name.value[0] == 0 {
        return -1;
      }
      var len := StrLen(name.value);
      if len >= MAX_NAME {
        return -1;
      }
      NamesTerminated(View(), owners, model);
      var found := FindDirent(name.value);
      LookUp(View(), owners, model, CStr(name.value), found);
      if found >= 0 {
        return -2;
      }
      ret := CreateNew(name.value);
    }

    /** The part of fs_create after its checks (kernel/fs.c:543-574). */
    method CreateNew(name: seq<byte>) returns (ret: int)
      requires Valid() && 0 in name && ValidName(CStr(name)) && CStr(name) !in model.files
      modifies this, inodeMap, inodes, rootDir
      ensures Valid()
      ensures var r := Spec.Create(old(model), Some(CStr(name))); model == r.fs && ret == r.ret
    {
      hide Inv, Decode, Shape, FileInode, CStr, Spec.UsedBlocks, Spec.Inos, Spec.LowestIno;
      NamesTerminated(View(), owners, model);
      ghost var d := View();
      var ino := AllocInode();
      LowestInode(d, owners, model, ino);
      if ino < 0 {
        return -3;
      }
      var added, slot := AddDirent(name, ino);
      if added < 0 {
        FreeInode(ino);
        DirNeverFull(d, owners, model);
        return -4;
      }
      var copied := StrNCpy(inodes[ino].name, name, MAX_NAME);
      inodes[ino] := inodes[ino].(name := copied);
      assert copied == Pad(CStr(name), MAX_NAME);
      assert View() == AddFile(d, ino, slot, CStr(name));
      AddFileInv(d, owners, model, ino, slot, CStr(name));
      owners := owners.(slot := owners.slot[ino := slot]);
      model := model.(files := model.files[CStr(name) := Spec.File(ino, [])]);
      return ino;
    }

    /** fs_open. */
    method Open(name: seq<byte>) returns (ret: int)
      requires Valid() && 0 in name
      modifies this`model, fds
      ensures Valid()
      ensures var r := Spec.Open(old(model), CStr(name)); model == r.fs && ret == r.ret
    {
      hide Inv;
      NamesTerminated(View(), owners, model);
      var d := FindDirent(name);
      LookUp(View(), owners, model, CStr(name), d);
      if d < 0 {
        return -1;
      }
      var ino := rootDir[d].inode;
      if ino >= MAX_INODES || !inodes[ino].used {
        assert false;
        return -1;
      }
      var fd := 0;
      while fd < MAX_FDS
        invariant 0 <= fd <= MAX_FDS
        invariant forall j | 0 <= j < fd :: fds[j].used
        invariant fds[..] == old(fds[..]) && model == old(model)
      {
        if !fds[fd].used {
          ghost var before := View();
          fds[fd] := fds[fd].(used := true);
          fds[fd] := fds[fd].(flags := 0);
          fds[fd] := fds[fd].(inode := ino % 0x10000);
          fds[fd] := fds[fd].(offset := 0);
          OpenInv(before, owners, model, CStr(name), fd);
          assert View() == before.(fds := before.fds[fd := FileDesc(true, 0, ino, 0)]);
          model := Spec.Open(model, CStr(name)).fs;
          return fd;
        }
        fd := fd + 1;
      }
      OpenFull(View(), owners, model);
      assert Spec.Open(model, CStr(name)).ret == -2;
      return -2;
    }

    method MemCpy(dst: array<byte>, at: nat, src: seq<byte>, n: nat)
      requires n <= |src| && at + n <= dst.Length
      modifies dst
      ensures forall a | 0 <= a < dst.Length :: dst[a] == if at <= a < at + n then src[a - at] else old(dst[a])
    {
      var i := 0;
      while i < n
        invariant i <= n
        invariant forall a | 0 <= a < dst.Length :: dst[a] == if at <= a < at + i then src[a - at] else old(dst[a])
      {
        dst[at + i] := src[i];
        i := i + 1;
      }
    }

    method CopyOut(dst: array<byte>, at: nat, from: nat, n: nat)
      requires at + n <= dst.Length && from + n <= ramdisk.Length && dst != ramdisk
      modifies dst
      ensures forall a | 0 <= a < dst.Length ::
                dst[a] == if at <= a < at + n then ramdisk[a - at + from] else old(dst[a])
    {
      var i := 0;
      while i < n
        invariant i <= n
        invariant forall a | 0 <= a < dst.Length ::
            dst[a] == if at <= a < at + i then ramdisk[a - at + from] else old(dst[a])
      {
        dst[at + i] := ramdisk[from + i];
        i := i + 1;
      }
    }

    /** The loop of fs_read (kernel/fs.c:691-740): block by block, the file's bytes from the offset on. */
    method ReadLoop(fd: nat, ino: nat, buf: array<byte>, want: nat, ghost data: seq<byte>) returns (done: nat)
      requires Wired() && fd < MAX_FDS && 1 <= ino < MAX_INODES && Shape(View())
      requires FileInode(inodes[ino]) && Stores(View(), ino, data) && fds[fd].offset + want <= |data|
      requires want <= buf.Length && buf !in Repr()
      modifies fds, buf
      ensures done == want
      ensures View() == old(View()).(
                fds := old(View()).fds[fd := old(View()).fds[fd].(offset := old(fds[fd]).offset + want)])
      ensures buf[..] == data[old(fds[fd]).offset..old(fds[fd]).offset + want] + old(buf[..])[want..]
    {
      hide Shape, FileInode, Stores, ByteBit;
      ghost var d, start, rest := View(), fds[fd].offset, buf[..];
      done := 0;
      while done < want
        invariant 0 <= done <= want
        invariant View() == d.(fds := d.fds[fd := d.fds[fd].(offset := start + done)])
        invariant forall a | 0 <= a < buf.Length :: buf[a] == if a < done then data[start + a] else rest[a]
      {
        var pos := fds[fd].offset;
        var blockIndex := pos / BLOCK_SIZE;
        var blockOff := pos % BLOCK_SIZE;
        var n := BLOCK_SIZE - blockOff;
        if n > want - done {
          n := want - done;
        }
        InRange(d, ino, data, pos);
        BlockHolds(d, ino, data, blockIndex, blockOff, n);
        if blockIndex >= DIRECT || inodes[ino].blocks[blockIndex] == 0 {
          assert false;
          break;
        }
        CopyOut(buf, done, inodes[ino].blocks[blockIndex] * BLOCK_SIZE + blockOff, n);
        fds[fd] := fds[fd].(offset := pos + n);
        done := done + n;
      }
    }

    /** fs_read. The early break and the type test are dead: files have no holes and only files are open. */
    method Read(fd: int, buf: array?<byte>, count: nat) returns (ret: int)
      requires Valid()
      requires buf != null ==> buf.Length >= count && buf !in Repr()
      modifies this`model, fds, if buf == null then {} else {buf}
      ensures Valid()
      ensures var r := Spec.Read(old(model), fd, buf == null, count);
              && model == r.fs && ret == r.ret
              && (buf != null ==> |r.bytes| <= count && buf[..] == r.bytes + old(buf[..])[|r.bytes|..])
    {
      hide Inv, Decode, Shape, FileInode, Stores, CStr, Spec.WF;
      OpenIff(View(), owners, model);
      if fd < 0 || fd >= MAX_FDS || !fds[fd].used || buf == null {
        return -1;
      }
      OpenFd(View(), owners, model, fd);
      var ino := fds[fd].inode;
      if !inodes[ino].used || inodes[ino].kind != FS_FILE {
        assert false;
        return -1;
      }
      ghost var d, h := View(), model.handles[fd].value;
      ghost var data := model.files[h.name].data;
      if fds[fd].offset >= inodes[ino].size {
        return 0;
      }
      var want := count;
      var available := inodes[ino].size - fds[fd].offset;
      if want > available {
        want := available;
      }
      var done := ReadLoop(fd, ino, buf, want, data);
      SeekInv(d, owners, model, fd, h.offset + done);
      model := Spec.Seek(model, fd, h.offset + done);
      return done;
    }

    /** The block for slot k of an inode, allocated on the first write to it (kernel/fs.c:838-851). */
    method GetBlock(ino: nat, k: nat) returns (b: int)
      requires Wired() && ino < MAX_INODES && k < DIRECT && Shape(View())
      modifies blockMap, ramdisk, inodes
      ensures b < 0 ==> View() == old(View()) && inodes[ino].blocks[k] == 0
      ensures b < 0 ==> forall c | DATA_START <= c < NUM_BLOCKS :: View().blockUsed[c]
      ensures b >= 0 ==> GotBlock(old(View()), View(), ino, k, b)
    {
      if inodes[ino].blocks[k] == 0 {
        b := AllocBlock();
        if b < 0 {
          return -1;
        }
        inodes[ino] := inodes[ino].(blocks := inodes[ino].blocks[k := b]);
      }
      b := inodes[ino].blocks[k];
    }

    /** The copy and the offset's advance (kernel/fs.c:864-877). */
    method Fill(fd: nat, at: nat, src: seq<byte>, done: nat, n: nat)
      requires Wired() && fd < MAX_FDS && at + n <= DISK_SIZE && done + n <= |src|
      modifies ramdisk, fds
      ensures Filled(old(View()), View(), fd, at, src[done..done + n])
    {
      MemCpy(ramdisk, at, src[done..], n);
      fds[fd] := fds[fd].(offset := fds[fd].offset + n);
    }

    /** One round of fs_write's loop (kernel/fs.c:816-879); the block is -1 when it breaks for want of a free one. */
    method RoundBody(fd: nat, ino: nat, src: seq<byte>, done: nat, want: nat)
        returns (n: nat, block: int, ghost e: Disk)
      requires Wired() && fd < MAX_FDS && ino < MAX_INODES && Shape(View())
      requires fds[fd].offset < MAX_BYTES && done < want <= |src|
      requires inodes[ino].blocks[fds[fd].offset / BLOCK_SIZE] < NUM_BLOCKS
      modifies blockMap, ramdisk, inodes, fds
      ensures block < 0 ==> n == 0 && View() == old(View()) && inodes[ino].blocks[fds[fd].offset / BLOCK_SIZE] == 0
      ensures block < 0 ==> forall c | DATA_START <= c < NUM_BLOCKS :: View().blockUsed[c]
      ensures block >= 0 ==>
                && n == Min(BLOCK_SIZE - old(fds[fd]).offset % BLOCK_SIZE, want - done) && block < NUM_BLOCKS
                && GotBlock(old(View()), e, ino, old(fds[fd]).offset / BLOCK_SIZE, block)
                && |e.bytes| == DISK_SIZE && e.fds == old(fds[..])
                && Filled(e, View(), fd, block * BLOCK_SIZE + old(fds[fd]).offset % BLOCK_SIZE, src[done..done + n])
    {
      hide Decode, Filled;
      var pos := fds[fd].offset;
      var blockIndex := pos / BLOCK_SIZE;
      var blockOff := pos % BLOCK_SIZE;
      block := GetBlock(ino, blockIndex);
      e := View();
      if block < 0 {
        return 0, -1, e;
      }
      n := BLOCK_SIZE - blockOff;
      if n > want - done {
        n := want - done;
      }
      Fill(fd, block * BLOCK_SIZE + blockOff, src, done, n);
    }

    /** What a round means: a splice of the specification, or no room left. */
    method WriteRound(fd: nat, ino: nat, src: seq<byte>, done: nat, want: nat) returns (n: nat)
      requires Wired() && fd < MAX_FDS && ino < MAX_INODES && fds[fd].inode == ino && Shape(View())
      requires fds[fd].offset < MAX_BYTES && done < want <= |src| && Spec.IsOpen(model, fd)
      requires Inv(Raised(View(), ino, fds[fd].offset), owners, model)
      modifies this, blockMap, ramdisk, inodes, fds
      ensures Shape(View()) && fds[fd].inode == ino && fds[fd].offset == old(fds[fd]).offset + n
      ensures Inv(Raised(View(), ino, fds[fd].offset), owners, model)
      ensures RoundOf(old(model), model, fd, old(fds[fd]).offset, src, done, want, n)
      ensures WroteOnly(old(View()), View(), fd, ino)
    {
      hide Inv, Decode, FileInode, Stores, Spec.WF, WroteOnly, Spec.Splice, Spec.Room, Shape, GotBlock;
      ghost var d, pos := View(), fds[fd].offset;
      ghost var r := Raised(d, ino, pos);
      OpenFd(r, owners, model, fd);
      BlockTaken(r, owners, model, ino, pos / BLOCK_SIZE);
      var block;
      ghost var e;
      n, block, e := RoundBody(fd, ino, src, done, want);
      if block < 0 {
        NoRoom(r, owners, model, fd);
        WroteNothing(d, fd, ino);
        return 0;
      }
      RoundInv(d, e, View(), owners, model, Spot(fd, ino, pos / BLOCK_SIZE, pos % BLOCK_SIZE, block),
          src[done..done + n]);
      owners := owners.(block := owners.block[block := (ino, pos / BLOCK_SIZE)]);
      model := Spec.Splice(model, fd, src[done..done + n]);
    }

    /** fs_write's loop (kernel/fs.c:811-880): rounds until the bytes are written or no free block is left. */
    method WriteLoop(fd: nat, ino: nat, src: seq<byte>, want: nat) returns (done: nat)
      requires Wired() && fd < MAX_FDS && ino < MAX_INODES && fds[fd].inode == ino && Shape(View())
      requires fds[fd].offset + want <= MAX_BYTES && want <= |src| && Spec.WF(model) && Spec.IsOpen(model, fd)
      requires Inv(Raised(View(), ino, fds[fd].offset), owners, model)
      modifies this, blockMap, ramdisk, inodes, fds
      ensures Shape(View()) && fds[fd].inode == ino && done <= want
      ensures done == want || done == Spec.Room(old(model), fd)
      ensures Inv(Raised(View(), ino, fds[fd].offset), owners, model)
      ensures WrittenSoFar(old(model), model, fd, src, done)
      ensures WroteOnly(old(View()), View(), fd, ino)
    {
      hide Inv, Decode, FileInode, Stores, WroteOnly, WrittenSoFar, RoundOf, Shape, Spec.Splice, Spec.Room, Spec.WF;
      ghost var d, fs := View(), model;
      NoneWritten(fs, fd, src);
      WroteNothing(d, fd, ino);
      done := 0;
      while done < want
        invariant 0 <= done <= want
        invariant Shape(View()) && fds[fd].inode == ino && fds[fd].offset == d.fds[fd].offset + done
        invariant Inv(Raised(View(), ino, fds[fd].offset), owners, model)
        invariant WrittenSoFar(fs, model, fd, src, done)
        invariant WroteOnly(d, View(), fd, ino)
      {
        if fds[fd].offset / BLOCK_SIZE >= DIRECT {
          assert false;
          break;
        }
        SoFarOpen(fs, model, fd, src, done);
        ghost var e, m := View(), model;
        var n := WriteRound(fd, ino, src, done, want);
        MoreWritten(fs, m, model, fd, e.fds[fd].offset, src, done, want, n);
        WroteOnlyTrans(d, e, View(), fd, ino);
        if n == 0 {
          break;
        }
        done := done + n;
      }
    }

    /** fs_write. */
    method Write(fd: int, buf: Option<seq<byte>>, count: nat) returns (ret: int)
      requires Valid() && (buf.Some? ==> count <= |buf.value|)
      modifies this, blockMap, ramdisk, inodes, fds
      ensures Valid()
      ensures var r := Spec.Write(old(model), fd, if buf.None? then None else Some(buf.value[..count]));
              model == r.fs && ret == r.ret
      ensures if ret < 0 then View() == old(View())
              else
                && 0 <= fd < MAX_FDS && old(fds[fd]).inode < MAX_INODES && Shape(old(View()))
                && WroteOnly(old(View()), View(), fd, old(fds[fd]).inode)
    {
      hide Inv, Decode, FileInode, Stores, WroteOnly, WrittenSoFar, Shape, Spec.Room, Spec.WF;
      OpenIff(View(), owners, model);
      NamesTerminated(View(), owners, model);
      InvWF(View(), owners, model);
      if fd < 0 || fd >= MAX_FDS || !fds[fd].used || buf.None? {
        return -1;
      }
      OpenFd(View(), owners, model, fd);
      var ino := fds[fd].inode;
      if !inodes[ino].used || inodes[ino].kind != FS_FILE {
        assert false;
        return -1;
      }
      if fds[fd].offset > MAX_BYTES {
        assert false;
        return -1;
      }
      var writable := MAX_BYTES - fds[fd].offset;
      var want := count;
      if want > writable {
        want := writable;
      }
      var src := buf.value[..count];
      ghost var d, fs := View(), model;
      RaisedSame(d, ino, fds[fd].offset);
      var done := WriteLoop(fd, ino, src, want);
      AllWritten(fs, model, fd, src, done);
      ghost var last := View();
      RaisedWroteOnly(d, last, fd, ino, fds[fd].offset);
      if fds[fd].offset > inodes[ino].size {
        inodes[ino] := inodes[ino].(size := fds[fd].offset);
      }
      assert View() == Raised(last, ino, fds[fd].offset);
      return done;
    }

    /** fs_close. */
    method Close(fd: int) returns (ret: int)
      requires Valid()
      modifies this`model, fds
      ensures Valid()
      ensures var r := Spec.Close(old(model), fd); model == r.fs && ret == r.ret
    {
      hide Inv, Decode, FileInode, Stores, Shape;
      OpenIff(View(), owners, model);
      if fd < 0 || fd >= MAX_FDS || !fds[fd].used {
        return -1;
      }
      CloseInv(View(), owners, model, fd);
      ghost var d := View();
      fds[fd] := ZERO_FD;
      assert View() == d.(fds := d.fds[fd := ZERO_FD]);
      model := Spec.Close(model, fd).fs;
      return 0;
    }

    /** fs_size. */
    method Size(fd: int) returns (size: nat)
      requires Valid()
      ensures size == Spec.Size(model, fd)
    {
      hide Inv, Decode, FileInode, Stores, Shape;
      OpenIff(View(), owners, model);
      if fd < 0 || fd >= MAX_FDS || !fds[fd].used {
        return 0;
      }
      OpenFd(View(), owners, model, fd);
      return inodes[fds[fd].inode].size;
    }

    /** The scan of fs_unlink for a descriptor on the inode (kernel/fs.c:965-975). */
    method InUse(ino: nat) returns (r: bool)
      requires Wired()
      ensures r <==> exists fd :: 0 <= fd < MAX_FDS && fds[fd].used && fds[fd].inode == ino
    {
      var fd := 0;
      while fd < MAX_FDS
        invariant 0 <= fd <= MAX_FDS
        invariant forall j | 0 <= j < fd :: !(fds[j].used && fds[j].inode == ino)
      {
        if fds[fd].used && fds[fd].inode == ino {
          return true;
        }
        fd := fd + 1;
      }
      return false;
    }

    /** The loop of fs_unlink that frees a file's blocks (kernel/fs.c:982-992). */
    method FreeBlocks(ino: nat)
      requires Wired() && ino < MAX_INODES && |inodes[ino].blocks| == DIRECT
      modifies blockMap
      ensures View() == old(View()).(blockUsed := Freed(old(View()).blockUsed, inodes[ino].blocks, DIRECT))
    {
      ghost var d := View();
      var i := 0;
      while i < DIRECT
        invariant 0 <= i <= DIRECT
        invariant View() == d.(blockUsed := Freed(d.blockUsed, d.inodes[ino].blocks, i))
      {
        if inodes[ino].blocks[i] != 0 {
          FreeBlock(inodes[ino].blocks[i]);
        }
        i := i + 1;
      }
    }

    /** fs_unlink. */
    method Unlink(name: seq<byte>) returns (ret: int)
      requires Valid() && 0 in name
      modifies this, inodeMap, blockMap, inodes, rootDir
      ensures Valid()
      ensures var r := Spec.Unlink(old(model), CStr(name)); model == r.fs && ret == r.ret
    {
      hide Inv, Decode, FileInode, Stores, Shape, Freed;
      NamesTerminated(View(), owners, model);
      var d := FindDirent(name);
      LookUp(View(), owners, model, CStr(name), d);
      if d < 0 {
        return -1;
      }
      var ino := rootDir[d].inode;
      if ino == 0 || ino >= MAX_INODES {
        assert false;
        return -1;
      }
      var busy := InUse(ino);
      NameInUse(View(), owners, model, CStr(name));
      if busy {
        return -2;
      }
      ghost var was := View();
      RemoveFileInv(was, owners, model, CStr(name));
      FreeBlocks(ino);
      FreeInode(ino);
      RemoveDirent(d);
      assert View() == RemoveFile(was, ino, d);
      owners := owners.(block := Disown(owners.block, ino));
      model := Spec.Unlink(model, CStr(name)).fs;
      return 0;
    }

    /** fs_init. Blocks 1 to 4 are the bitmaps and record tables here, so clearing the disk clears those too. */
    method Init()
      requires Wired()
      modifies this, inodeMap, blockMap, inodes, rootDir, fds, ramdisk
      ensures Valid() && model == Spec.Empty()
    {
      hide Inv, ByteBit;
      MemSet(ramdisk, 0, 0, DISK_SIZE);
      MemSet(inodeMap, 0, 0, BLOCK_SIZE);
      MemSet(blockMap, 0, 0, BLOCK_SIZE);
      ClearTables();
      DecodeZeros(blockMap[..], NUM_BLOCKS);
      DecodeZeros(inodeMap[..], MAX_INODES);
      ghost var d := View();
      var b := 0;
      while b < DATA_START
        invariant 0 <= b <= DATA_START
        invariant |View().blockUsed| == NUM_BLOCKS && forall c | 0 <= c < NUM_BLOCKS :: View().blockUsed[c] == (c < b)
        invariant View() == d.(blockUsed := View().blockUsed)
      {
        BitSet(blockMap, b);
        b := b + 1;
      }
      BitSet(inodeMap, 0);
      inodes[0] := inodes[0].(used := true);
      inodes[0] := inodes[0].(kind := FS_DIR);
      inodes[0] := inodes[0].(blocks := inodes[0].blocks[0 := ROOT_BLOCK]);
      var name := StrNCpy(inodes[0].name, [0x2f, 0], MAX_NAME);
      inodes[0] := inodes[0].(name := name);
      SlashName(name);
      owners := Owners(map[], seq(MAX_INODES, _ => 0));
      model := Spec.Empty();
      FormattedInv(View());
    }

    method ClearTables()
      requires Wired()
      modifies inodes, rootDir, fds
      ensures forall i | 0 <= i < MAX_INODES :: inodes[i] == ZERO_INODE
      ensures forall s | 0 <= s < DIR_ENTRIES :: rootDir[s] == ZERO_DIRENT
      ensures forall f | 0 <= f < MAX_FDS :: fds[f] == ZERO_FD
    {
      forall i | 0 <= i < MAX_INODES { inodes[i] := ZERO_INODE; }
      forall s | 0 <= s < DIR_ENTRIES { rootDir[s] := ZERO_DIRENT; }
      forall f | 0 <= f < MAX_FDS { fds[f] := ZERO_FD; }
    }

    /** The memory fs_init finds is arbitrary: disk, bitmaps, inodes, directory and descriptors. */
    constructor (found: Found)
      ensures Valid() && model == Spec.Empty()
      ensures fresh(Repr())
    {
      inodeMap := new byte[BLOCK_SIZE](found.inodeMap);
      blockMap := new byte[BLOCK_SIZE](found.blockMap);
      inodes := new Inode[MAX_INODES](found.inodes);
      rootDir := new Dirent[DIR_ENTRIES](found.dir);
      fds := new FileDesc[MAX_FDS](found.fds);
      ramdisk := new byte[DISK_SIZE](found.bytes);
      new;
      Init();
    }
  }
}
