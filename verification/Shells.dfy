/** The shell's touch, cat, write and rm commands as they run (kernel/kernel.c). */
module Shells {
  import opened Wrappers
  import opened CStrings
  import opened FsTypes
  import Spec = FsSpec
  import FsLaws
  import FsSteps
  import opened FsState
  import opened FileSystems
  import opened ShellSpec

  /** An argument of a command: a C string, or NULL. */
  function Arg(s: Option<seq<byte>>): Option<seq<byte>> {
    if s.None? then None else Some(CStr(s.value))
  }

  class Shell {
    const fs: FileSystem
    var console: seq<Event>

    constructor (fs: FileSystem)
      ensures this.fs == fs && console == []
    {
      this.fs := fs;
      console := [];
    }

    ghost predicate Valid()
      reads this, fs.Repr()
    {
      fs.Valid() && this as object !in fs.Repr()
    }

    /** The command's effect on the files and what it printed are the specification's. */
    twostate predicate Did(after: After)
      reads this, fs
    {
      fs.model == after.fs && console == old(console) + after.shown
    }

    method Touch(name: Option<seq<byte>>)
      requires Valid() && (name.Some? ==> 0 in name.value)
      modifies this, fs.Repr()
      ensures Valid() && Did(ShellSpec.Touch(old(fs.model), Arg(name)))
    {
      hide Inv, Spec.Create;
      if name.None? || name.value[0] == 0 {
        console := console + [Message("  Usage: touch <name>\n")];
        return;
      }
      var r := fs.Create(name);
      if r == -2 {
        console := console + [Message("  File already exists.\n")];
      } else if r < 0 {
        console := console + [Message("  Could not create file.\n")];
      } else {
        console := console + [Message("  File created.\n")];
      }
    }

    method Rm(name: Option<seq<byte>>)
      requires Valid() && (name.Some? ==> 0 in name.value)
      modifies this, fs.Repr()
      ensures Valid() && Did(ShellSpec.Rm(old(fs.model), Arg(name)))
    {
      hide Inv, Spec.Unlink;
      if name.None? || name.value[0] == 0 {
        console := console + [Message("  Usage: rm <name>\n")];
        return;
      }
      var r := fs.Unlink(name.value);
      if r == 0 {
        console := console + [Message("  File removed.\n")];
      } else {
        console := console + [Message("  File not found or still open.\n")];
      }
    }

    method Cat(name: Option<seq<byte>>)
      requires Valid() && (name.Some? ==> 0 in name.value)
      modifies this, fs.Repr()
      ensures Valid() && Did(ShellSpec.Cat(old(fs.model), Arg(name)))
    {
      hide Inv, CatEvents, Spec.WF;
      if name.None? || name.value[0] == 0 {
        console := console + [Message("  Usage: cat <name>\n")];
        return;
      }
      ghost var before, key, printed := fs.model, CStr(name.value), console;
      FsSteps.InvWF(fs.View(), fs.owners, fs.model);
      var fd := fs.Open(name.value);
      if fd < 0 {
        console := console + [Message("  File not found.\n")];
        return;
      }
      ghost var data := before.files[key].data;
      console := console + [Message("  ")];
      CatLoop(fd, key, data);
      console := console + [Message("\n")];
      var r := fs.Close(fd);
      OpenThenClose(before, key, |data|);
    }

    /** The read in cat's loop condition. */
    method CatRead(fd: int, buf: array<byte>, ghost start: Spec.Fs, ghost pos: nat, ghost data: seq<byte>)
        returns (n: int)
      requires fs.Valid() && buf.Length == CAT_BYTES + 1 && buf !in fs.Repr()
      requires Spec.IsOpen(start, fd) && start.handles[fd].value.name in start.files
      requires start.files[start.handles[fd].value.name].data == data && pos <= |data|
      requires fs.model == Spec.Seek(start, fd, pos)
      modifies fs.Repr(), buf
      ensures fs.Valid() && n == Min(CAT_BYTES, |data| - pos)
      ensures fs.model == Spec.Seek(start, fd, pos + n) && buf[..n] == data[pos..pos + n]
    {
      hide Inv, Spec.Read, Spec.Seek;
      ReadAt(start, fd, pos, data);
      n := fs.Read(fd, buf, CAT_BYTES);
      assert buf[..n] == data[pos..pos + n];
    }

    /** cat's loop (kernel/kernel.c:478-489); the bytes left to read strictly decrease. */
    method CatLoop(fd: int, ghost name: Name, ghost data: seq<byte>)
      requires Valid() && Spec.IsOpen(fs.model, fd) && fs.model.handles[fd].value == Spec.Handle(name, 0)
      requires name in fs.model.files && fs.model.files[name].data == data
      modifies this, fs.Repr()
      ensures Valid() && fs.model == Spec.Seek(old(fs.model), fd, |data|)
      ensures console == old(console) + CatEvents(data)
    {
      hide Inv, Spec.WF, Spec.Read, Spec.Seek, CatEvents;
      ghost var start, printed, pos := fs.model, console, 0;
      var buf := new byte[CAT_BYTES + 1](_ => 0);
      SeekBack(start, fd);
      var n := CatRead(fd, buf, start, 0, data);
      while n > 0
        invariant Valid() && buf.Length == CAT_BYTES + 1 && fresh(buf)
        invariant 0 <= pos <= |data| && n == Min(CAT_BYTES, |data| - pos)
        invariant fs.model == Spec.Seek(start, fd, pos + n)
        invariant buf[..n] == data[pos..pos + n]
        invariant console + CatEvents(data[pos..]) == printed + CatEvents(data)
        decreases |data| - pos
      {
        buf[n] := 0;
        CStrCut(buf[..], n);
        ghost var line, rest := Text(CStr(buf[..])), CatEvents(data[pos + n..]);
        CatNext(data, pos);
        assert console + ([line] + rest) == console + [line] + rest;
        console := console + [Text(CStr(buf[..]))];
        pos := pos + n;
        n := CatRead(fd, buf, start, pos, data);
      }
      NoEvents(data, pos);
    }

    method SkipBlanks(args: seq<byte>, from: nat) returns (p: nat)
      requires 0 in args && from <= |CStr(args)|
      ensures p == SkipSpaces(CStr(args), from)
    {
      p := from;
      while args[p] == SPACE
        invariant p <= |CStr(args)| && SkipSpaces(CStr(args), p) == SkipSpaces(CStr(args), from)
        decreases |args| - p
      {
        p := p + 1;
      }
    }

    /** Copies the name, at most 23 bytes of it (kernel/kernel.c:542-554). */
    method CopyName(args: seq<byte>, from: nat, name: array<byte>) returns (p: nat)
      requires 0 in args && from <= |CStr(args)| && name.Length == MAX_NAME
      modifies name
      ensures p == WordEnd(CStr(args), from, from + MAX_NAME - 1)
      ensures 0 in name[..] && CStr(name[..]) == CStr(args)[from..p]
    {
      ghost var a := CStr(args);
      p := from;
      var n := 0;
      while args[p] != 0 && args[p] != SPACE && n + 1 < MAX_NAME
        invariant p == from + n <= |a| && n < MAX_NAME
        invariant WordEnd(a, p, from + MAX_NAME - 1) == WordEnd(a, from, from + MAX_NAME - 1)
        invariant forall k | 0 <= k < n :: name[k] == a[from + k]
        decreases |args| - p
      {
        name[n] := args[p];
        n := n + 1;
        p := p + 1;
      }
      name[n] := 0;
      assert name[..][..n] == a[from..p];
      WordIs(name[..], a, from, n);
    }

    /** The word loops of the write command: the name, and where the text starts. */
    method ParseArgs(args: seq<byte>) returns (name: array<byte>, p: nat)
      requires 0 in args
      ensures fresh(name) && name.Length == MAX_NAME && 0 in name[..] && p <= |CStr(args)|
      ensures ParseWrite(CStr(args)) == WriteArgs(CStr(name[..]), CStr(args)[p..])
    {
      name := new byte[MAX_NAME](_ => 0);
      p := SkipBlanks(args, 0);
      p := CopyName(args, p, name);
      p := SkipBlanks(args, p);
    }

    method WriteFile(args: Option<seq<byte>>)
      requires Valid() && (args.Some? ==> 0 in args.value)
      modifies this, fs.Repr()
      ensures Valid() && Did(ShellSpec.WriteFile(old(fs.model), Arg(args)))
    {
      hide Inv, ParseWrite, Store;
      if args.None? || args.value[0] == 0 {
        console := console + [Message("  Usage: write <name> <text>\n")];
        return;
      }
      var name, p := ParseArgs(args.value);
      TextAt(args.value, p);
      if name[0] == 0 || args.value[p] == 0 {
        console := console + [Message("  Usage: write <name> <text>\n")];
        return;
      }
      StoreText(name[..], args.value[p..]);
    }

    /** The file calls of the write command (kernel/kernel.c:584-661). */
    method StoreText(name: seq<byte>, text: seq<byte>)
      requires Valid() && 0 in name && 0 in text
      modifies this, fs.Repr()
      ensures Valid() && Did(Store(old(fs.model), CStr(name), CStr(text)))
    {
      hide Inv, Spec.Create, Spec.Unlink, Spec.Write, Spec.WF;
      ghost var m := fs.model;
      FsSteps.InvWF(fs.View(), fs.owners, fs.model);
      var testfd := fs.Open(name);
      if testfd >= 0 {
        OpenThenClose(m, CStr(name), 0);
        var c := fs.Close(testfd);
        var u := fs.Unlink(name);
      }
      assert fs.model == Replaced(m, CStr(name));
      var made := fs.Create(Some(name));
      if made < 0 {
        console := console + [Message("  Could not create file.\n")];
        return;
      }
      var fd := fs.Open(name);
      if fd < 0 {
        console := console + [Message("  Could not open file.\n")];
        return;
      }
      var len := StrLen(text);
      var written := fs.Write(fd, Some(text), len);
      assert text[..len] == CStr(text);
      var r := fs.Close(fd);
      if written < 0 {
        console := console + [Message("  Write failed.\n")];
      } else {
        console := console + [Wrote(written)];
      }
    }
  }

  lemma WordIs(buf: seq<byte>, a: seq<byte>, start: nat, n: nat)
    requires n < |buf| && buf[n] == 0 && start + n <= |a| && 0 !in a && buf[..n] == a[start..start + n]
    ensures 0 in buf && CStr(buf) == a[start..start + n]
  {
    forall k | 0 <= k < n
      ensures buf[k] != 0
    {
      assert buf[k] == buf[..n][k] == a[start + k];
    }
    CStrAt(buf, n);
  }

  /** The rest of a C string is a C string. */
  lemma TextAt(s: seq<byte>, p: nat)
    requires 0 in s && p <= |CStr(s)|
    ensures 0 in s[p..] && CStr(s[p..]) == CStr(s)[p..]
    ensures s[p] == 0 <==> CStr(s)[p..] == []
  {
    var n := |CStr(s)|;
    assert s[p..][n - p] == 0;
    CStrAt(s[p..], n - p);
  }

  /** Writing a NUL at n cuts a buffer's string there. */
  lemma CStrCut(s: seq<byte>, n: nat)
    requires n < |s| && s[n] == 0
    ensures CStr(s) == CStr(s[..n])
  {
    var c := CStr(s[..n]);
    if |c| < n {
      CStrAt(s, |c|);
    } else {
      CStrAt(s, n);
    }
  }

  lemma CatNext(data: seq<byte>, pos: nat)
    requires pos < |data|
    ensures var n := Min(CAT_BYTES, |data| - pos);
            CatEvents(data[pos..]) == [Text(CStr(data[pos..pos + n]))] + CatEvents(data[pos + n..])
  {
    var rest, n := data[pos..], Min(CAT_BYTES, |data| - pos);
    assert rest[n..] == data[pos + n..];
    assert rest[..n] == data[pos..pos + n];
    if |rest| <= CAT_BYTES {
      assert rest[..n] == rest;
    }
  }

  lemma NoEvents(data: seq<byte>, pos: nat)
    requires pos == |data|
    ensures CatEvents(data[pos..]) == [] && data[0..] == data
  {
  }

  /** One read of cat's loop. */
  lemma ReadAt(fs: Spec.Fs, fd: int, pos: nat, data: seq<byte>)
    requires Spec.IsOpen(fs, fd) && fs.handles[fd].value.name in fs.files
        && fs.files[fs.handles[fd].value.name].data == data
    requires pos <= |data|
    ensures var n := Min(CAT_BYTES, |data| - pos);
            Spec.Read(Spec.Seek(fs, fd, pos), fd, false, CAT_BYTES) ==
                Spec.Outcome(Spec.Seek(fs, fd, pos + n), n, data[pos..pos + n])
  {
  }

  lemma SeekBack(fs: Spec.Fs, fd: int)
    requires Spec.IsOpen(fs, fd)
    ensures Spec.Seek(fs, fd, fs.handles[fd].value.offset) == fs
  {
  }

  /** Opening, moving and closing a descriptor leaves the state as it was. */
  lemma OpenThenClose(fs: Spec.Fs, name: Name, offset: nat)
    requires Spec.Open(fs, name).ret >= 0
    ensures var o := Spec.Open(fs, name);
            && Spec.IsOpen(o.fs, o.ret) && Spec.Close(o.fs, o.ret).fs == fs
            && Spec.Close(Spec.Seek(o.fs, o.ret, offset), o.ret).fs == fs
  {
  }
}
