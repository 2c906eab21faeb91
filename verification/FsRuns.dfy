/** Whole runs: every sequence of calls from fs_init refines the specification. */
module FsRuns {
  import opened Wrappers
  import opened CStrings
  import opened FsTypes
  import Spec = FsSpec
  import opened FsLaws
  import opened FsState
  import opened FsSteps
  import opened FileSystems

  datatype Call =
    | Create(name: Option<seq<byte>>)
    | Open(file: seq<byte>)
    | Read(fd: int, nullBuf: bool, count: nat)
    | Write(fd: int, buf: Option<seq<byte>>)
    | Close(fd: int)
    | Unlink(file: seq<byte>)
    | Size(fd: int)

  /** What a caller sees of a call: its return value and the bytes it delivered. */
  datatype Seen = Seen(ret: int, bytes: seq<byte>)

  /** C strings end in a NUL. */
  predicate WellFormed(c: Call) {
    match c
    case Create(name) => name.Some? ==> 0 in name.value
    case Open(file) => 0 in file
    case Unlink(file) => 0 in file
    case _ => true
  }

  ghost function Step(fs: Spec.Fs, c: Call): Spec.Outcome {
    match c
    case Create(name) => Spec.Create(fs, if name.None? then None else Some(CStr(name.value)))
    case Open(file) => Spec.Open(fs, CStr(file))
    case Read(fd, nullBuf, count) => Spec.Read(fs, fd, nullBuf, count)
    case Write(fd, buf) => Spec.Write(fs, fd, buf)
    case Close(fd) => Spec.Close(fs, fd)
    case Unlink(file) => Spec.Unlink(fs, CStr(file))
    case Size(fd) => Spec.Returns(fs, Spec.Size(fs, fd))
  }

  lemma StepWF(fs: Spec.Fs, c: Call)
    requires Spec.WF(fs)
    ensures Spec.WF(Step(fs, c).fs)
  {
    hide Spec.WF, Spec.Create, Spec.Open, Spec.Read, Spec.Write, Spec.Close, Spec.Unlink;
    match c
    case Create(name) => CreateWF(fs, if name.None? then None else Some(CStr(name.value)));
    case Open(file) => OpenWF(fs, CStr(file));
    case Read(fd, nullBuf, count) => ReadWF(fs, fd, nullBuf, count);
    case Write(fd, buf) => WriteWF(fs, fd, buf);
    case Close(fd) => CloseWF(fs, fd);
    case Unlink(file) => UnlinkWF(fs, CStr(file));
    case Size(fd) =>
  }

  /** The specification's state after some calls, and what the caller saw of each. */
  datatype Trace = Trace(fs: Spec.Fs, seen: seq<Seen>)

  ghost function Extend(t: Trace, o: Spec.Outcome): Trace {
    Trace(o.fs, t.seen + [Seen(o.ret, o.bytes)])
  }

  ghost function Run(calls: seq<Call>): Trace {
    if calls == [] then Trace(Spec.Empty(), [])
    else
      Extend(Run(calls[..|calls| - 1]), Step(Run(calls[..|calls| - 1]).fs, calls[|calls| - 1]))
  }

  lemma {:induction false} RunWF(calls: seq<Call>)
    ensures Spec.WF(Run(calls).fs) && |Run(calls).seen| == |calls|
  {
    hide Spec.WF, Step;
    if calls == [] {
      EmptyWF();
    } else {
      RunWF(calls[..|calls| - 1]);
      StepWF(Run(calls[..|calls| - 1]).fs, calls[|calls| - 1]);
    }
  }

  lemma ReadShape(fs: Spec.Fs, fd: int, nullBuf: bool, count: nat)
    ensures var o := Spec.Read(fs, fd, nullBuf, count);
            && |o.bytes| <= count && o.ret <= count
            && (nullBuf ==> o.ret < 0) && (if o.ret < 0 then o.bytes == [] else o.ret == |o.bytes|)
  {
  }

  /** One call on the running file system is one step of the specification. */
  method Perform(fs: FileSystem, c: Call) returns (seen: Seen)
    requires fs.Valid() && WellFormed(c)
    modifies fs.Repr()
    ensures fs.Valid()
    ensures var o := Step(old(fs.model), c); fs.model == o.fs && seen == Seen(o.ret, o.bytes)
  {
    hide Inv, Spec.WF, Spec.WriteLen, Spec.ReadLen, Spec.Splice, Spec.Seek;
    InvWF(fs.View(), fs.owners, fs.model);
    match c
    case Create(name) => var r := fs.Create(name); seen := Seen(r, []);
    case Open(file) => var r := fs.Open(file); seen := Seen(r, []);
    case Read(fd, nullBuf, count) =>
      var buf: array?<byte> := null;
      if !nullBuf {
        buf := new byte[count](_ => 0);
      }
      ghost var o := Spec.Read(fs.model, fd, nullBuf, count);
      ReadShape(fs.model, fd, nullBuf, count);
      var r := fs.Read(fd, buf, count);
      if r > 0 {
        assert buf[..r] == o.bytes;
        seen := Seen(r, buf[..r]);
      } else {
        seen := Seen(r, []);
      }
    case Write(fd, buf) =>
      var r := fs.Write(fd, buf, if buf.None? then 0 else |buf.value|);
      assert buf.Some? ==> buf.value[..|buf.value|] == buf.value;
      seen := Seen(r, []);
    case Close(fd) => var r := fs.Close(fd); seen := Seen(r, []);
    case Unlink(file) => var r := fs.Unlink(file); seen := Seen(r, []);
    case Size(fd) => var r := fs.Size(fd); seen := Seen(r, []);
  }

  /** Refinement over runs: from fs_init, any calls see exactly what the specification shows and leave its state. */
  method Replay(found: Found, calls: seq<Call>) returns (fs: FileSystem, seen: seq<Seen>)
    requires forall c | c in calls :: WellFormed(c)
    ensures fs.Valid()
    ensures fs.model == Run(calls).fs && seen == Run(calls).seen
  {
    hide Inv, Spec.WF, Step;
    fs := new FileSystem(found);
    seen := [];
    var i := 0;
    while i < |calls|
      invariant 0 <= i <= |calls|
      invariant fs.Valid() && fresh(fs.Repr())
      invariant fs.model == Run(calls[..i]).fs && seen == Run(calls[..i]).seen
    {
      assert calls[..i + 1][..i] == calls[..i];
      var s := Perform(fs, calls[i]);
      seen := seen + [s];
      i := i + 1;
    }
    assert calls[..i] == calls;
  }
}
