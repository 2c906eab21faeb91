/** What reads and writes do to files, and why it does not matter how a caller splits them. */
module FsChunking {
  import opened Wrappers
  import opened CStrings
  import opened FsTypes
  import opened FsSpec
  import opened FsLaws

  // ---- one write ------------------------------------------------------------------------------------

  /** The data and offset behind an open descriptor. */
  function DataOf(fs: Fs, fd: int): seq<byte> requires Placed(fs, fd) { fs.files[fs.handles[fd].value.name].data }
  function OffsetOf(fs: Fs, fd: int): nat requires Placed(fs, fd) { fs.handles[fd].value.offset }

  /** Byte by byte, a write puts its first ret bytes at the offset and touches nothing else. */
  lemma WriteEffect(fs: Fs, fd: int, buf: seq<byte>)
    requires WF(fs) && IsOpen(fs, fd)
    ensures var r := Write(fs, fd, Some(buf));
            var name := fs.handles[fd].value.name;
            && 0 <= r.ret <= |buf| && Placed(r.fs, fd)
            && OffsetOf(r.fs, fd) == OffsetOf(fs, fd) + r.ret
            && |DataOf(r.fs, fd)| == Max(|DataOf(fs, fd)|, OffsetOf(fs, fd) + r.ret)
            && (forall p | 0 <= p < |DataOf(r.fs, fd)| ::
                  DataOf(r.fs, fd)[p] ==
                  if OffsetOf(fs, fd) <= p < OffsetOf(fs, fd) + r.ret then buf[p - OffsetOf(fs, fd)]
                  else DataOf(fs, fd)[p])
            && r.fs.files.Keys == fs.files.Keys && r.fs.files[name].ino == fs.files[name].ino
            && (forall n | n in fs.files && n != name :: r.fs.files[n] == fs.files[n])
            && (forall f | 0 <= f < MAX_FDS && f != fd :: r.fs.handles[f] == fs.handles[f])
  {
    RoomPositive(fs, fd);
  }

  /** A write's length and state in terms of the room there is. */
  lemma WriteIs(fs: Fs, fd: int, buf: seq<byte>)
    requires WF(fs) && IsOpen(fs, fd)
    ensures Placed(fs, fd) && Room(fs, fd) >= 0
    ensures var n := Min(|buf|, Room(fs, fd)); Write(fs, fd, Some(buf)) == Returns(Splice(fs, fd, buf[..n]), n)
  {
    RoomPositive(fs, fd);
  }

  /** A write stops short only when the file is at its size limit or the disk is full up to its last block. */
  lemma WriteShort(fs: Fs, fd: int, buf: seq<byte>)
    requires WF(fs) && IsOpen(fs, fd)
    ensures var r := Write(fs, fd, Some(buf));
            && WF(r.fs) && Placed(r.fs, fd)
            && (r.ret < |buf| ==>
                  || OffsetOf(r.fs, fd) == MAX_BYTES
                  || (FreeBlocks(r.fs.files) == 0 && OffsetOf(r.fs, fd) == BlocksFor(|DataOf(r.fs, fd)|) * BLOCK_SIZE))
  {
    var r := Write(fs, fd, Some(buf));
    WriteIs(fs, fd, buf);
    SpliceWF(fs, fd, buf[..r.ret]);
    assert Placed(r.fs, fd);
    if r.ret < |buf| && OffsetOf(r.fs, fd) != MAX_BYTES {
      FullAtBoundary(r.fs, fd);
    }
  }

  /** The blocks a write takes are those by which its file grows. */
  lemma WriteTakes(fs: Fs, fd: int, buf: seq<byte>)
    requires WF(fs) && IsOpen(fs, fd)
    ensures var r := Write(fs, fd, Some(buf));
            && Placed(fs, fd) && Placed(r.fs, fd)
            && FreeBlocks(fs.files) - FreeBlocks(r.fs.files) ==
                BlocksFor(|DataOf(r.fs, fd)|) - BlocksFor(|DataOf(fs, fd)|)
  {
    var r := Write(fs, fd, Some(buf));
    var h := fs.handles[fd].value;
    RoomPositive(fs, fd);
    UsedRemove(fs.files, h.name);
    UsedUpdate(fs.files, h.name, r.fs.files[h.name]);
  }

  lemma FullAtBoundary(fs: Fs, fd: int)
    requires WF(fs) && Placed(fs, fd) && Room(fs, fd) == 0 && OffsetOf(fs, fd) != MAX_BYTES
    ensures FreeBlocks(fs.files) == 0 && OffsetOf(fs, fd) == BlocksFor(|DataOf(fs, fd)|) * BLOCK_SIZE
  {
  }

  // ---- many writes ----------------------------------------------------------------------------------

  lemma SpliceOpen(fs: Fs, fd: int, bytes: seq<byte>)
    requires IsOpen(fs, fd)
    ensures IsOpen(Splice(fs, fd, bytes), fd)
  {
  }

  /** Two writes are one write of the concatenation, even when the disk fills up in between. */
  lemma WriteTwice(fs: Fs, fd: int, x: seq<byte>, y: seq<byte>)
    requires WF(fs) && IsOpen(fs, fd)
    ensures var first := Write(fs, fd, Some(x));
            var second := Write(first.fs, fd, Some(y));
            var both := Write(fs, fd, Some(x + y));
            WF(first.fs) && IsOpen(first.fs, fd) && second.fs == both.fs && first.ret + second.ret == both.ret
  {
    var n := Min(|x|, Room(fs, fd));
    WriteIs(fs, fd, x);
    WriteIs(fs, fd, x + y);
    SpliceWF(fs, fd, x[..n]);
    SpliceOpen(fs, fd, x[..n]);
    hide WF, Splice, Room, Write, WriteLen;
    WriteIs(Splice(fs, fd, x[..n]), fd, y);
    var m := Min(|y|, Room(fs, fd) - n);
    assert x[..n] + y[..m] == (x + y)[..n + m];
    SpliceTwice(fs, fd, x[..n], y[..m]);
  }

  function Concat(bufs: seq<seq<byte>>): seq<byte> {
    if bufs == [] then [] else bufs[0] + Concat(bufs[1..])
  }

  /** A list of writes on one descriptor; the return value is the sum of theirs. */
  ghost function WriteAll(fs: Fs, fd: int, bufs: seq<seq<byte>>): Outcome
    decreases |bufs|
  {
    if bufs == [] then Returns(fs, 0)
    else
      var first := Write(fs, fd, Some(bufs[0]));
      var rest := WriteAll(first.fs, fd, bufs[1..]);
      Returns(rest.fs, first.ret + rest.ret)
  }

  /** Chunking is invisible: any list of writes leaves what one write of their concatenation leaves. */
  lemma {:induction false} WriteAllIsOneWrite(fs: Fs, fd: int, bufs: seq<seq<byte>>)
    requires WF(fs) && IsOpen(fs, fd)
    ensures WriteAll(fs, fd, bufs) == Write(fs, fd, Some(Concat(bufs)))
    decreases |bufs|
  {
    hide WF, Write, Room;
    if bufs == [] {
      WriteNothing(fs, fd);
    } else {
      WriteTwice(fs, fd, bufs[0], Concat(bufs[1..]));
      WriteAllIsOneWrite(Write(fs, fd, Some(bufs[0])).fs, fd, bufs[1..]);
      WriteNoBytes(fs, fd, Concat(bufs));
    }
  }

  lemma WriteNoBytes(fs: Fs, fd: int, buf: seq<byte>)
    ensures Write(fs, fd, Some(buf)).bytes == []
  {
  }

  lemma WriteNothing(fs: Fs, fd: int)
    requires WF(fs) && IsOpen(fs, fd)
    ensures Write(fs, fd, Some([])) == Returns(fs, 0)
  {
    RoomPositive(fs, fd);
    var h := fs.handles[fd].value;
    var f := fs.files[h.name];
    assert SpliceData(f.data, h.offset, []) == f.data;
    assert fs.files[h.name := f] == fs.files;
    assert fs.handles[fd := Some(h)] == fs.handles;
  }

  // ---- many reads -----------------------------------------------------------------------------------

  /** Reading some sizes one after the other, and the bytes delivered in all. */
  function ReadAll(fs: Fs, fd: int, counts: seq<nat>): Outcome
    decreases |counts|
  {
    if counts == [] then Returns(fs, 0)
    else
      var first := Read(fs, fd, false, counts[0]);
      var rest := ReadAll(first.fs, fd, counts[1..]);
      Outcome(rest.fs, first.ret + rest.ret, first.bytes + rest.bytes)
  }

  function Sum(counts: seq<nat>): nat {
    if counts == [] then 0 else counts[0] + Sum(counts[1..])
  }

  lemma ReadTwice(fs: Fs, fd: int, n: nat, m: nat)
    requires WF(fs) && IsOpen(fs, fd)
    ensures var first := Read(fs, fd, false, n);
            var second := Read(first.fs, fd, false, m);
            && WF(first.fs) && IsOpen(first.fs, fd)
            && Read(fs, fd, false, n + m) == Outcome(second.fs, first.ret + second.ret, first.bytes + second.bytes)
  {
    var first := Read(fs, fd, false, n);
    var second := Read(first.fs, fd, false, m);
    ReadWF(fs, fd, false, n);
    assert Read(fs, fd, false, n + m).fs.handles == second.fs.handles;
    assert Read(fs, fd, false, n + m).bytes == first.bytes + second.bytes;
  }

  /** Any sizes of reads deliver what one read of their sum delivers. */
  lemma {:induction false} ReadAllIsOneRead(fs: Fs, fd: int, counts: seq<nat>)
    requires WF(fs) && IsOpen(fs, fd)
    ensures ReadAll(fs, fd, counts) == Read(fs, fd, false, Sum(counts))
    decreases |counts|
  {
    if counts == [] {
      var h := fs.handles[fd].value;
      assert fs.handles[fd := Some(h.(offset := h.offset + 0))] == fs.handles;
    } else {
      hide WF, Read;
      ReadTwice(fs, fd, counts[0], Sum(counts[1..]));
      ReadAllIsOneRead(Read(fs, fd, false, counts[0]).fs, fd, counts[1..]);
    }
  }

  /** A read of a positive size delivers nothing only at the end, and otherwise brings the end strictly nearer. */
  lemma ReadProgress(fs: Fs, fd: int, count: nat)
    requires WF(fs) && IsOpen(fs, fd) && count > 0
    ensures var r := Read(fs, fd, false, count);
            && WF(r.fs) && IsOpen(r.fs, fd) && Placed(fs, fd) && Placed(r.fs, fd) && DataOf(r.fs, fd) == DataOf(fs, fd)
            && (r.ret == 0 <==> OffsetOf(fs, fd) == |DataOf(fs, fd)|)
            && (r.ret != 0 ==> |DataOf(r.fs, fd)| - OffsetOf(r.fs, fd) < |DataOf(fs, fd)| - OffsetOf(fs, fd))
  {
    ReadWF(fs, fd, false, count);
  }

  // ---- round trip -----------------------------------------------------------------------------------

  /** What was written whole through one descriptor is what a fresh descriptor on the file reads back. */
  lemma WriteThenReadBack(fs: Fs, fd: int, name: Name, buf: seq<byte>, fd2: int)
    requires WF(fs) && IsOpen(fs, fd) && fs.handles[fd].value == Handle(name, 0)
    requires Write(fs, fd, Some(buf)).ret == |buf| && fs.files[name].data == []
    requires fd2 == Open(Write(fs, fd, Some(buf)).fs, name).ret >= 0
    ensures var after := Open(Write(fs, fd, Some(buf)).fs, name).fs;
            Read(after, fd2, false, |buf|).bytes == buf
  {
    RoomPositive(fs, fd);
    assert SpliceData([], 0, buf[..|buf|]) == buf;
    var written := Write(fs, fd, Some(buf)).fs;
    assert written.files[name].data == buf;
    WriteWF(fs, fd, Some(buf));
  }
}
