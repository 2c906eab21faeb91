/** What the invariant of every reachable state says about ownership, the directory, and file contents. */
module FsFacts {
  import opened Wrappers
  import opened CStrings
  import opened BitCounts
  import opened FsTypes
  import opened FsSpec
  import opened FsLaws
  import opened FsState
  import opened FsSteps

  // ---- block ownership ----------------------------------------------------------------------------

  /** Slot k of a file's inode i points to block b. */
  predicate Points(d: Disk, i: nat, k: nat, b: nat)
    requires Shape(d)
  {
    IsFile(d, i) && k < DIRECT && d.inodes[i].blocks[k] == b
  }

  /** A data block is marked used exactly when some slot points to it, and then exactly one does. */
  lemma OneOwner(d: Disk, o: Owners, fs: Fs, b: nat)
    requires Inv(d, o, fs) && DATA_START <= b < NUM_BLOCKS
    ensures d.blockUsed[b] <==> exists i: nat, k: nat :: Points(d, i, k, b)
    ensures forall i: nat, k: nat, j: nat, l: nat | Points(d, i, k, b) && Points(d, j, l, b) :: i == j && k == l
  {
    hide DirOk, FilesOk, FdsOk, WF;
    if d.blockUsed[b] {
      assert Points(d, o.block[b].0, o.block[b].1, b);
    }
    forall i: nat, k: nat | Points(d, i, k, b)
      ensures b in o.block && o.block[b] == (i, k)
    {
    }
  }

  /** All the (inode, slot) pairs of files that hold a block. */
  function OwnedSlots(d: Disk): set<(nat, nat)>
    requires Shape(d)
  {
    set i: nat, k: nat | i < MAX_INODES && k < DIRECT && IsFile(d, i) && d.inodes[i].blocks[k] != 0 :: (i, k)
  }

  function SetBits(used: seq<bool>, from: nat): (r: set<nat>)
    requires from <= |used|
    ensures forall b: nat :: b in r <==> from <= b < |used| && used[b]
    ensures |r| + CountClear(used, from) == |used| - from
    decreases |used| - from
  {
    if from == |used| then {}
    else (if used[from] then {from} else {}) + SetBits(used, from + 1)
  }

  /** The pairs that the blocks in keys belong to. */
  function Pairs(owner: map<nat, (nat, nat)>, keys: set<nat>): set<(nat, nat)>
    requires keys <= owner.Keys
  {
    set b | b in keys :: owner[b]
  }

  lemma {:induction false} PairsCard(owner: map<nat, (nat, nat)>, keys: set<nat>)
    requires keys <= owner.Keys
    requires forall a, b | a in owner && b in owner && a != b :: owner[a] != owner[b]
    ensures |Pairs(owner, keys)| == |keys|
    decreases |keys|
  {
    if keys == {} {
      assert Pairs(owner, keys) == {};
    } else {
      var a :| a in keys;
      PairsCard(owner, keys - {a});
      assert Pairs(owner, keys) == Pairs(owner, keys - {a}) + {owner[a]};
      assert owner[a] !in Pairs(owner, keys - {a});
    }
  }

  lemma OwnerInjective(d: Disk, owner: map<nat, (nat, nat)>)
    requires Shape(d) && BlocksOk(d, owner)
    ensures forall a, b | a in owner && b in owner && a != b :: owner[a] != owner[b]
  {
  }

  lemma OwnersAreUsed(d: Disk, owner: map<nat, (nat, nat)>)
    requires Shape(d) && BlocksOk(d, owner)
    ensures owner.Keys == SetBits(d.blockUsed, DATA_START)
  {
    hide SetBits;
  }

  lemma OwnersAreSlots(d: Disk, owner: map<nat, (nat, nat)>)
    requires Shape(d) && InodesOk(d) && BlocksOk(d, owner)
    ensures Pairs(owner, owner.Keys) == OwnedSlots(d)
  {
    forall v | v in OwnedSlots(d)
      ensures v in Pairs(owner, owner.Keys)
    {
      var b := d.inodes[v.0].blocks[v.1];
      assert b in owner && owner[b] == v;
    }
    forall v | v in Pairs(owner, owner.Keys)
      ensures v in OwnedSlots(d)
    {
      var b :| b in owner && owner[b] == v;
      assert IsFile(d, v.0);
    }
  }

  /** Conservation: free blocks and owned blocks always add up to the 251 data blocks. */
  lemma BlocksConserved(d: Disk, o: Owners, fs: Fs)
    requires Inv(d, o, fs)
    ensures CountClear(d.blockUsed, DATA_START) + |OwnedSlots(d)| == DATA_BLOCKS
    ensures |OwnedSlots(d)| == UsedBlocks(fs.files)
  {
    hide DirOk, FilesOk, FdsOk, WF;
    OwnersAreSlots(d, o.block);
    OwnersAreUsed(d, o.block);
    OwnerInjective(d, o.block);
    hide BlocksOk, InodesOk, OwnedSlots, Pairs;
    PairsCard(o.block, o.block.Keys);
  }

  // ---- directory and inode table -----------------------------------------------------------------------

  predicate Names(d: Disk, s: nat, i: nat)
    requires Shape(d)
  {
    s < DIR_ENTRIES && d.dir[s].used && d.dir[s].inode == i
  }

  /** Used directory entries and used inodes 1..63 correspond one to one and agree on the name. */
  lemma DirectoryBijection(d: Disk, o: Owners, fs: Fs)
    requires Inv(d, o, fs)
    ensures forall s: nat | s < DIR_ENTRIES && d.dir[s].used ::
              IsFile(d, d.dir[s].inode) && d.inodeUsed[d.dir[s].inode]
                  && CStr(d.dir[s].name) == CStr(d.inodes[d.dir[s].inode].name)
    ensures forall i: nat | IsFile(d, i) :: exists s: nat :: Names(d, s, i)
    ensures forall i: nat, s: nat, t: nat | Names(d, s, i) && Names(d, t, i) :: s == t
    ensures forall i: nat | 1 <= i < MAX_INODES :: d.inodeUsed[i] <==> IsFile(d, i)
  {
    hide BlocksOk, FilesOk, FdsOk, WF;
    forall i: nat | IsFile(d, i)
      ensures exists s: nat :: Names(d, s, i)
    {
      assert Names(d, o.slot[i], i);
    }
  }

  /** Names in the directory are valid, distinct, and exactly those of the files. */
  lemma DirectoryNames(d: Disk, o: Owners, fs: Fs)
    requires Inv(d, o, fs)
    ensures forall s: nat | s < DIR_ENTRIES && d.dir[s].used ::
        ValidName(CStr(d.dir[s].name)) && CStr(d.dir[s].name) in fs.files
    ensures forall s: nat, t: nat | s < t < DIR_ENTRIES && d.dir[s].used && d.dir[t].used ::
        CStr(d.dir[s].name) != CStr(d.dir[t].name)
    ensures forall n | n in fs.files :: exists s: nat | s < DIR_ENTRIES :: d.dir[s].used && CStr(d.dir[s].name) == n
  {
    NamesTerminated(d, o, fs);
    hide Inv, Shape, ValidName, CStr;
    forall s: nat | s < DIR_ENTRIES && d.dir[s].used
      ensures ValidName(CStr(d.dir[s].name)) && CStr(d.dir[s].name) in fs.files
    {
      EntryOf(d, o, fs, s);
      LookUpSlot(d, o, fs, s);
    }
    forall s: nat, t: nat | s < t < DIR_ENTRIES && d.dir[s].used && d.dir[t].used
      ensures CStr(d.dir[s].name) != CStr(d.dir[t].name)
    {
      EntryOf(d, o, fs, s);
      EntryOf(d, o, fs, t);
      LookUpSlot(d, o, fs, s);
      LookUpSlot(d, o, fs, t);
    }
    forall n | n in fs.files
      ensures exists s: nat | s < DIR_ENTRIES :: d.dir[s].used && CStr(d.dir[s].name) == n
    {
      HasEntry(d, o, fs, n);
    }
  }

  lemma LookUpSlot(d: Disk, o: Owners, fs: Fs, s: nat)
    requires Inv(d, o, fs) && s < DIR_ENTRIES && d.dir[s].used
    ensures |o.slot| == MAX_INODES && d.dir[s].inode < MAX_INODES && o.slot[d.dir[s].inode] == s
    ensures ValidName(CStr(d.dir[s].name))
  {
    hide BlocksOk, FdsOk;
    assert IsFile(d, d.dir[s].inode);
  }

  // ---- contents -------------------------------------------------------------------------------------

  /**
   * No holes: an open descriptor stands within its file, whose slots are taken exactly up to its size and are zero
   * past it.
   */
  lemma NoHoles(d: Disk, o: Owners, fs: Fs, fd: nat)
    requires Inv(d, o, fs) && fd < MAX_FDS && d.fds[fd].used
    ensures var i := d.fds[fd].inode;
            && IsFile(d, i) && d.inodes[i].kind == FS_FILE && d.fds[fd].offset <= d.inodes[i].size <= MAX_BYTES
            && (forall k: nat | k < DIRECT :: d.inodes[i].blocks[k] != 0 <==> k * BLOCK_SIZE < d.inodes[i].size)
            && (forall k: nat, q: nat | k < DIRECT && q < BLOCK_SIZE && d.inodes[i].size <= k * BLOCK_SIZE + q ::
                Cell(d, i, k, q) == 0)
  {
    hide BlocksOk, DirOk, FilesOk, InodesOk;
    FdUsed(d, fs);
    hide FdsOk, WF;
    OpenFd(d, o, fs, fd);
    assert forall k: nat, q: nat | k < DIRECT && q < BLOCK_SIZE ::
        Cell(d, d.fds[fd].inode, k, q) == ByteOr0(fs.files[fs.handles[fd].value.name].data, k * BLOCK_SIZE + q);
  }

  /**
   * Of every file, open or not: slots are taken exactly up to the size, and bytes of its blocks past the size are
   * zero.
   */
  lemma FileShape(d: Disk, o: Owners, fs: Fs, i: nat)
    requires Inv(d, o, fs) && IsFile(d, i)
    ensures d.inodes[i].kind == FS_FILE && d.inodes[i].size <= MAX_BYTES
    ensures forall k: nat | k < DIRECT :: d.inodes[i].blocks[k] != 0 <==> k * BLOCK_SIZE < d.inodes[i].size
    ensures forall k: nat, q: nat | k < DIRECT && q < BLOCK_SIZE && d.inodes[i].size <= k * BLOCK_SIZE + q ::
        Cell(d, i, k, q) == 0
  {
    hide BlocksOk, DirOk, FdsOk, WF;
    var data := fs.files[CStr(d.inodes[i].name)].data;
    assert Stores(d, i, data);
    hide InodesOk, FilesOk;
    assert forall k: nat, q: nat | k < DIRECT && q < BLOCK_SIZE ::
        Cell(d, i, k, q) == ByteOr0(data, k * BLOCK_SIZE + q);
  }
}
