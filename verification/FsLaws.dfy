/** Laws of the specification: what every call keeps, how space is conserved, and that chunking is invisible. */
module FsLaws {
  import opened Wrappers
  import opened CStrings
  import opened FsTypes
  import opened FsSpec

  // ---- space ------------------------------------------------------------------------------------

  lemma {:induction false} UsedRemove(files: map<Name, File>, n: Name)
    requires n in files
    ensures UsedBlocks(files) == BlocksFor(|files[n].data|) + UsedBlocks(files - {n})
    decreases |files|
  {
    var m :| m in files && UsedBlocks(files) == BlocksFor(|files[m].data|) + UsedBlocks(files - {m});
    if m != n {
      UsedRemove(files - {m}, n);
      UsedRemove(files - {n}, m);
      assert files - {m} - {n} == files - {n} - {m};
    }
  }

  lemma UsedUpdate(files: map<Name, File>, n: Name, f: File)
    ensures UsedBlocks(files[n := f]) == BlocksFor(|f.data|) + UsedBlocks(files - {n})
  {
    UsedRemove(files[n := f], n);
    assert files[n := f] - {n} == files - {n};
  }

  // ---- inode numbers --------------------------------------------------------------------------------

  lemma {:induction false} InosCard(files: map<Name, File>)
    requires forall n, m | n in files && m in files && n != m :: files[n].ino != files[m].ino
    ensures |Inos(files)| == |files|
    decreases |files|
  {
    if files != map[] {
      var n :| n in files;
      InosCard(files - {n});
      forall i | i in Inos(files)
        ensures i in Inos(files - {n}) + {files[n].ino}
      {
        var m :| m in files && files[m].ino == i;
        if m != n { assert m in files - {n}; }
      }
      assert Inos(files) == Inos(files - {n}) + {files[n].ino};
      assert |files.Keys| == |(files - {n}).Keys| + 1 by { assert files.Keys == (files - {n}).Keys + {n}; }
    } else {
      assert Inos(files) == {};
    }
  }

  function Range(lo: nat, hi: nat): (r: set<nat>)
    ensures forall i: nat :: i in r <==> lo <= i < hi
    ensures lo <= hi ==> |r| == hi - lo
    decreases hi
  {
    if lo >= hi then {} else Range(lo, hi - 1) + {hi - 1}
  }

  lemma AllTaken(used: set<nat>, hi: nat)
    requires hi == MAX_INODES && LowestIno(used, 1) == hi
    requires forall i | i in used :: 1 <= i < hi
    ensures |used| >= hi - 1
  {
    var all := Range(1, hi);
    forall i | i in all ensures i in used {}
    SubsetCard(all, used);
  }

  lemma LowestFull(used: set<nat>, hi: nat)
    requires hi == MAX_INODES
    requires forall i | i in used :: 1 <= i < hi
    ensures |used| <= hi - 1
    ensures |used| == hi - 1 <==> LowestIno(used, 1) == hi
  {
    SubsetCard(used, Range(1, hi));
    if LowestIno(used, 1) == hi {
      AllTaken(used, hi);
    } else {
      assert LowestIno(used, 1) in Range(1, hi);
    }
  }

  /** The counting argument behind fs_create's -3: inode numbers run out exactly when 63 files exist. */
  lemma InosFull(fs: Fs)
    requires WF(fs)
    ensures |fs.files| <= MAX_INODES - 1
    ensures |fs.files| == MAX_INODES - 1 <==> LowestIno(Inos(fs.files), 1) == MAX_INODES
  {
    InosCard(fs.files);
    LowestFull(Inos(fs.files), MAX_INODES);
  }

  lemma SubsetCard(a: set<nat>, b: set<nat>)
    requires a <= b
    ensures |a| <= |b|
    ensures |a| == |b| ==> a == b
  {
    assert b == a + (b - a);
    assert |b| == |a| + |b - a|;
  }

  // ---- every call keeps WF ----------------------------------------------------------------------

  lemma EmptyWF()
    ensures WF(Empty())
  {
  }

  lemma AddUsed(files: map<Name, File>, n: Name, ino: nat)
    requires n !in files
    ensures UsedBlocks(files[n := File(ino, [])]) == UsedBlocks(files)
  {
    UsedUpdate(files, n, File(ino, []));
    assert files - {n} == files;
  }

  lemma AddWF(fs: Fs, n: Name, ino: nat)
    requires WF(fs) && n !in fs.files && ValidName(n)
    requires 1 <= ino < MAX_INODES && ino !in Inos(fs.files)
    ensures WF(fs.(files := fs.files[n := File(ino, [])]))
    ensures UsedBlocks(fs.files[n := File(ino, [])]) == UsedBlocks(fs.files)
  {
    AddUsed(fs.files, n, ino);
    assert forall m | m in fs.files :: fs.files[m].ino in Inos(fs.files);
  }

  lemma CreateWF(fs: Fs, name: Option<Name>)
    requires WF(fs) && (name.Some? ==> 0 !in name.value)
    ensures WF(Create(fs, name).fs)
    ensures FreeBlocks(Create(fs, name).fs.files) == FreeBlocks(fs.files)
  {
    var r := Create(fs, name);
    if r.ret > 0 {
      InosFull(fs);
      AddWF(fs, name.value, r.ret);
    }
  }

  lemma OpenWF(fs: Fs, name: Name)
    requires WF(fs)
    ensures WF(Open(fs, name).fs)
  {
  }

  lemma ReadWF(fs: Fs, fd: int, nullBuf: bool, count: nat)
    requires WF(fs)
    ensures WF(Read(fs, fd, nullBuf, count).fs)
  {
  }

  lemma CloseWF(fs: Fs, fd: int)
    requires WF(fs)
    ensures WF(Close(fs, fd).fs)
  {
  }

  lemma UnlinkWF(fs: Fs, name: Name)
    requires WF(fs)
    ensures WF(Unlink(fs, name).fs)
    ensures Unlink(fs, name).ret == 0 ==>
              FreeBlocks(Unlink(fs, name).fs.files) == FreeBlocks(fs.files) + BlocksFor(|fs.files[name].data|)
  {
    if Unlink(fs, name).ret == 0 {
      UsedRemove(fs.files, name);
    }
  }

  /** A splice that fits takes blocks only from the free ones, and uses up exactly its length of the room. */
  lemma SpliceWF(fs: Fs, fd: int, bytes: seq<byte>)
    requires WF(fs) && IsOpen(fs, fd) && |bytes| <= Room(fs, fd)
    ensures WF(Splice(fs, fd, bytes))
    ensures Room(Splice(fs, fd, bytes), fd) == Room(fs, fd) - |bytes|
  {
    var h := fs.handles[fd].value;
    var f := fs.files[h.name];
    var g := f.(data := SpliceData(f.data, h.offset, bytes));
    UsedRemove(fs.files, h.name);
    UsedUpdate(fs.files, h.name, g);
  }

  lemma WriteWF(fs: Fs, fd: int, buf: Option<seq<byte>>)
    requires WF(fs)
    ensures WF(Write(fs, fd, buf).fs)
  {
    if IsOpen(fs, fd) && buf.Some? {
      RoomPositive(fs, fd);
      SpliceWF(fs, fd, buf.value[..WriteLen(fs, fd, |buf.value|)]);
    }
  }

  lemma RoomPositive(fs: Fs, fd: int)
    requires WF(fs) && IsOpen(fs, fd)
    ensures Room(fs, fd) >= 0
  {
  }

  // ---- chunking ---------------------------------------------------------------------------------

  lemma SpliceTwice(fs: Fs, fd: int, x: seq<byte>, y: seq<byte>)
    requires WF(fs) && IsOpen(fs, fd)
    ensures Splice(Splice(fs, fd, x), fd, y) == Splice(fs, fd, x + y)
  {
    var h := fs.handles[fd].value;
    var d := fs.files[h.name].data;
    var o := h.offset;
    assert SpliceData(SpliceData(d, o, x), o + |x|, y) == SpliceData(d, o, x + y);
  }
}
