/** What each call of the file system answers and changes, said without its own definition (kernel/fs.c). */
module FsResults {
  import opened Wrappers
  import opened CStrings
  import opened FsTypes
  import opened FsSpec
  import opened FsLaws
  import FsRuns

  // ---- names ----------------------------------------------------------------------------------------------------

  /** A name fs_create takes: given, not empty, shorter than 24 bytes. */
  predicate GoodName(name: Option<Name>) { name.Some? && 0 < |name.value| < 24 }

  /** Some descriptor is on the file. */
  predicate HeldOpen(fs: Fs, name: Name) {
    exists fd | 0 <= fd < |fs.handles| :: fs.handles[fd].Some? && fs.handles[fd].value.name == name
  }

  /** Every file but one is the same before and after, and so is every descriptor. */
  predicate OthersKept(before: Fs, after: Fs, name: Name) {
    && after.handles == before.handles
    && after.files - {name} == before.files - {name}
  }

  // ---- the calls --------------------------------------------------------------------------------------------------

  /** fs_create: which refusal each input gets, and what success adds. */
  lemma CreateResult(fs: Fs, name: Option<Name>)
    requires WF(fs)
    ensures var r := Create(fs, name);
            && -3 <= r.ret && r.bytes == []
            && (r.ret == -1 <==> !GoodName(name))
            && (r.ret == -2 <==> GoodName(name) && name.value in fs.files)
            && (r.ret == -3 <==> GoodName(name) && name.value !in fs.files && |fs.files| == 63)
            && (r.ret < 0 ==> r.fs == fs)
            && (r.ret >= 0 ==>
                  && 1 <= r.ret < 64 && !HasNumber(fs, r.ret) && (forall i | 1 <= i < r.ret :: HasNumber(fs, i))
                  && name.value in r.fs.files && r.fs.files[name.value] == File(r.ret, [])
                  && OthersKept(fs, r.fs, name.value))
  {
    hide WF, Inos, HasNumber;
    NumberTaken(fs);
    if GoodName(name) && name.value !in fs.files {
      InosFull(fs);
      assert fs.files[name.value := File(LowestIno(Inos(fs.files), 1), [])] - {name.value} == fs.files - {name.value};
    }
  }

  /** Some file has this inode number. */
  ghost predicate HasNumber(fs: Fs, i: int) {
    exists n :: n in fs.files && fs.files[n].ino == i
  }

  lemma NumberTaken(fs: Fs)
    ensures forall i: nat :: i in Inos(fs.files) <==> HasNumber(fs, i)
  {
  }

  /** fs_open: -1 for an unknown name, -2 with all 32 descriptors in use, else the lowest free one, at offset 0. */
  lemma OpenResult(fs: Fs, name: Name)
    requires WF(fs)
    ensures var r := Open(fs, name);
            && -2 <= r.ret < 32 && r.bytes == []
            && (r.ret == -1 <==> name !in fs.files)
            && (r.ret == -2 <==> name in fs.files && forall fd | 0 <= fd < 32 :: fs.handles[fd].Some?)
            && (r.ret < 0 ==> r.fs == fs)
            && (r.ret >= 0 ==>
                  && fs.handles[r.ret].None? && (forall fd | 0 <= fd < r.ret :: fs.handles[fd].Some?)
                  && |r.fs.handles| == 32 && r.fs.handles[r.ret] == Some(Handle(name, 0))
                  && (forall fd | 0 <= fd < 32 && fd != r.ret :: r.fs.handles[fd] == fs.handles[fd])
                  && r.fs.files == fs.files)
  {
  }

  /**
   * fs_read: -1 for a NULL buffer or a closed descriptor, else the file's bytes from the offset on, as many as there
   * are.
   */
  lemma ReadResult(fs: Fs, fd: int, nullBuf: bool, count: nat)
    requires WF(fs)
    ensures var r := Read(fs, fd, nullBuf, count);
            && -1 <= r.ret && r.fs.files == fs.files
            && (r.ret == -1 <==> nullBuf || !IsOpen(fs, fd))
            && (r.ret == -1 ==> r.fs == fs && r.bytes == [])
            && (r.ret >= 0 ==>
                  var h := fs.handles[fd].value;
                  var data := fs.files[h.name].data;
                  && r.ret == (if count <= |data| - h.offset then count else |data| - h.offset)
                  && r.bytes == data[h.offset..h.offset + r.ret]
                  && r.fs.handles == fs.handles[fd := Some(Handle(h.name, h.offset + r.ret))])
  {
  }

  /**
   * fs_write refuses exactly a NULL buffer or a closed descriptor, and
       then changes nothing. Otherwise it writes as much
   * as is given, the 32768 bytes of a file allow, and the file's own and the free blocks hold past the offset.
   */
  lemma WriteResult(fs: Fs, fd: int, buf: Option<seq<byte>>)
    requires WF(fs)
    ensures var r := Write(fs, fd, buf);
            && -1 <= r.ret && r.bytes == []
            && (r.ret == -1 <==> buf.None? || !IsOpen(fs, fd))
            && (r.ret == -1 ==> r.fs == fs)
            && (r.ret >= 0 ==>
                  var h := fs.handles[fd].value;
                  var blocks := (|fs.files[h.name].data| + 4095) / 4096 + FreeBlocks(fs.files);
                  && r.ret <= |buf.value| && h.offset + r.ret <= 32768 && h.offset + r.ret <= 4096 * blocks
                  && (r.ret == |buf.value| || h.offset + r.ret == 32768 || h.offset + r.ret == 4096 * blocks))
  {
    hide FreeBlocks, Splice;
    if buf.Some? && IsOpen(fs, fd) { RoomPositive(fs, fd); }
  }

  /** fs_close: 0 and the descriptor is free, or -1 and no change for one that is not open. */
  lemma CloseResult(fs: Fs, fd: int)
    ensures var r := Close(fs, fd);
            && r.bytes == [] && r.fs.files == fs.files
            && r.ret == (if 0 <= fd < |fs.handles| && fs.handles[fd].Some? then 0 else -1)
            && (r.ret == -1 ==> r.fs == fs)
            && (r.ret == 0 ==>
                  && |r.fs.handles| == |fs.handles| && r.fs.handles[fd].None?
                  && forall g | 0 <= g < |fs.handles| && g != fd :: r.fs.handles[g] == fs.handles[g])
  {
  }

  /** fs_unlink: -1 for an unknown name, -2 while a descriptor is on the file, else the file and its blocks are gone. */
  lemma UnlinkResult(fs: Fs, name: Name)
    requires WF(fs)
    ensures var r := Unlink(fs, name);
            && -2 <= r.ret <= 0 && r.bytes == []
            && (r.ret == -1 <==> name !in fs.files)
            && (r.ret == -2 <==> name in fs.files && HeldOpen(fs, name))
            && (r.ret < 0 ==> r.fs == fs)
            && (r.ret == 0 ==>
                  && name !in r.fs.files && OthersKept(fs, r.fs, name)
                  && FreeBlocks(r.fs.files) == FreeBlocks(fs.files) + (|fs.files[name].data| + 4095) / 4096)
  {
    if name in fs.files { UsedRemove(fs.files, name); }
  }

  /** fs_size: 0 for a closed descriptor, else the offset plus what reading everything from there delivers. */
  lemma SizeResult(fs: Fs, fd: int)
    requires WF(fs)
    ensures !IsOpen(fs, fd) ==> Size(fs, fd) == 0
    ensures IsOpen(fs, fd) ==>
              && Size(fs, fd) == |fs.files[fs.handles[fd].value.name].data|
              && Size(fs, fd) == fs.handles[fd].value.offset + Read(fs, fd, false, 32768).ret
  {
  }

  /** fs_init: no file, no open descriptor, 251 free blocks. */
  lemma InitResult()
    ensures var fs := FsRuns.Run([]).fs;
            && fs.files == map[] && |fs.handles| == 32 && (forall fd | 0 <= fd < 32 :: fs.handles[fd].None?)
            && FreeBlocks(fs.files) == 251
  {
  }
}
