/** Properties of the shell's file commands over any file system state. */
module ShellLaws {
  import opened Wrappers
  import opened CStrings
  import opened FsTypes
  import Spec = FsSpec
  import opened FsLaws
  import opened FsChunking
  import opened ShellSpec

  /** No descriptor is open: the state between two shell commands. */
  predicate AllClosed(fs: Spec.Fs) {
    forall fd | 0 <= fd < |fs.handles| :: fs.handles[fd].None?
  }

  // ---- cat --------------------------------------------------------------------------------------------

  lemma {:induction false} PrintedConcat(a: seq<Event>, b: seq<Event>)
    ensures Printed(a + b) == Printed(a) + Printed(b)
    decreases |a|
  {
    if a == [] {
      assert a + b == b;
    } else {
      PrintedConcat(a[1..], b);
      var c := a + b;
      assert c[0] == a[0] && c[1..] == a[1..] + b;
      var first := if a[0].Text? then a[0].bytes else [];
      assert Printed(c) == first + Printed(c[1..]);
      assert first + (Printed(a[1..]) + Printed(b)) == (first + Printed(a[1..])) + Printed(b);
    }
  }

  /** A chunk prints in full exactly when it holds no NUL. */
  lemma CStrWhole(s: seq<byte>)
    ensures |CStr(s)| <= |s| && (CStr(s) == s <==> |CStr(s)| == |s|) && (CStr(s) == s <==> 0 !in s)
  {
    if |CStr(s)| < |s| { assert s[|CStr(s)|] == 0; }
  }

  /** cat prints a file exactly when the file holds no NUL; otherwise it prints less. */
  lemma {:induction false} CatPrints(data: seq<byte>)
    ensures |Printed(CatEvents(data))| <= |data|
    ensures |Printed(CatEvents(data))| == |data| <==> 0 !in data
    ensures 0 !in data ==> Printed(CatEvents(data)) == data
    decreases |data|
  {
    if data == [] {
    } else if |data| <= CAT_BYTES {
      CStrWhole(data);
      assert Printed([Text(CStr(data))]) == CStr(data) + Printed([]);
    } else {
      var head, rest := data[..CAT_BYTES], data[CAT_BYTES..];
      CStrWhole(head);
      CatPrints(rest);
      assert CatEvents(data) == [Text(CStr(head))] + CatEvents(rest);
      PrintedConcat([Text(CStr(head))], CatEvents(rest));
      assert Printed([Text(CStr(head))]) == CStr(head) + Printed([]);
      assert data == head + rest;
    }
  }

  /** cat of a file between commands finds a descriptor, prints the file, and leaves the state as it was. */
  lemma CatShows(fs: Spec.Fs, name: Name)
    requires Spec.WF(fs) && AllClosed(fs) && name in fs.files
    ensures Cat(fs, Some(name)).fs == fs
    ensures 0 !in fs.files[name].data ==> Printed(Cat(fs, Some(name)).shown) == fs.files[name].data
  {
    var data := fs.files[name].data;
    CatPrints(data);
    PrintedConcat([Message("  ")], CatEvents(data));
    PrintedConcat([Message("  ")] + CatEvents(data), [Message("\n")]);
    assert Printed([Message("  ")]) == [] && Printed([Message("\n")]) == [];
    assert Spec.LowestFd(fs.handles, 0) == 0;
  }

  // ---- write ------------------------------------------------------------------------------------------

  /** Blocks a name's file holds, none when there is no such file. */
  function OldBlocks(fs: Spec.Fs, name: Name): nat {
    if name in fs.files then Spec.BlocksFor(|fs.files[name].data|) else 0
  }

  lemma ReplacedIs(fs: Spec.Fs, name: Name)
    requires Spec.WF(fs) && AllClosed(fs)
    ensures Replaced(fs, name) == fs.(files := fs.files - {name})
    ensures Spec.WF(Replaced(fs, name)) && AllClosed(Replaced(fs, name))
    ensures Spec.FreeBlocks(Replaced(fs, name).files) == Spec.FreeBlocks(fs.files) + OldBlocks(fs, name)
    ensures |Replaced(fs, name).files| == |fs.files| - (if name in fs.files then 1 else 0)
  {
    assert Spec.LowestFd(fs.handles, 0) == 0;
    if name in fs.files {
      assert !Spec.NameIsOpen(fs, name);
      UnlinkWF(fs, name);
      hide Spec.WF, Spec.LowestFd, Spec.NameIsOpen, Spec.FreeBlocks;
      assert fs.files.Keys == (fs.files - {name}).Keys + {name};
    } else {
      assert fs.files - {name} == fs.files;
    }
  }

  /** The new file with some data. */
  ghost function Stored(fs: Spec.Fs, name: Name, data: seq<byte>): Spec.Fs {
    fs.(files := (fs.files - {name})[name := Spec.File(Spec.LowestIno(Spec.Inos(fs.files - {name}), 1), data)])
  }

  /** How much the write command can store under a name: what is free once the old file is gone. */
  ghost function Available(fs: Spec.Fs, name: Name): int {
    Min(MAX_BYTES, (Spec.FreeBlocks(fs.files) + OldBlocks(fs, name)) * BLOCK_SIZE)
  }

  /** A whole write session on a fresh file: open it, write, close it. */
  lemma Session(fs: Spec.Fs, name: Name, text: seq<byte>)
    requires Spec.WF(fs) && AllClosed(fs) && name in fs.files && fs.files[name].data == []
    ensures var o := Spec.Open(fs, name);
            var w := Spec.Write(o.fs, 0, Some(text));
            var n := Min(|text|, Min(MAX_BYTES, Spec.FreeBlocks(fs.files) * BLOCK_SIZE));
            && o.ret == 0 && w.ret == n >= 0
            && Spec.Close(w.fs, 0).fs == fs.(files := fs.files[name := fs.files[name].(data := text[..n])])
  {
    assert Spec.LowestFd(fs.handles, 0) == 0;
    var o := Spec.Open(fs, name);
    OpenWF(fs, name);
    WriteIs(o.fs, 0, text);
    FreshRoom(o.fs, name);
    hide Spec.WF, Spec.Write, Spec.Room, Spec.FreeBlocks, Spec.LowestFd, AllClosed;
    var n := Min(|text|, Spec.Room(o.fs, 0));
    Spliced(fs, name, text[..n]);
    hide Spec.Splice, Spec.Open, Spec.Close;
  }

  /** The room at the start of an empty file. */
  lemma FreshRoom(fs: Spec.Fs, name: Name)
    requires Spec.WF(fs) && Spec.IsOpen(fs, 0) && fs.handles[0].value == Spec.Handle(name, 0)
    requires name in fs.files && fs.files[name].data == []
    ensures Spec.Room(fs, 0) == Min(MAX_BYTES, Spec.FreeBlocks(fs.files) * BLOCK_SIZE)
  {
    hide Spec.WF, Spec.FreeBlocks;
  }

  /** Opening an empty file, filling it and closing it: only its data changes. */
  lemma Spliced(fs: Spec.Fs, name: Name, bytes: seq<byte>)
    requires |fs.handles| > 0 && fs.handles[0].None? && name in fs.files && fs.files[name].data == []
    ensures var held := fs.(handles := fs.handles[0 := Some(Spec.Handle(name, 0))]);
            Spec.Close(Spec.Splice(held, 0, bytes), 0).fs ==
                fs.(files := fs.files[name := fs.files[name].(data := bytes)])
  {
    var held := fs.(handles := fs.handles[0 := Some(Spec.Handle(name, 0))]);
    assert Spec.SpliceData([], 0, bytes) == bytes;
    assert Spec.Close(Spec.Splice(held, 0, bytes), 0).fs.handles == fs.handles;
  }

  /** The write command cannot make its file exactly when the name is new and 63 files exist. */
  lemma MakesFile(fs: Spec.Fs, name: Name)
    requires Spec.WF(fs) && AllClosed(fs) && ValidName(name)
    ensures Replaced(fs, name) == fs.(files := fs.files - {name})
    ensures var made := Spec.Create(Replaced(fs, name), Some(name));
            if name !in fs.files && |fs.files| == MAX_INODES - 1 then made == Spec.Returns(fs, -3)
            else
              && made.ret >= 0 && Spec.WF(made.fs) && AllClosed(made.fs)
              && made.fs == Stored(fs, name, [])
              && Spec.FreeBlocks(made.fs.files) == Spec.FreeBlocks(fs.files) + OldBlocks(fs, name)
  {
    ReplacedIs(fs, name);
    var base := Replaced(fs, name);
    hide Spec.WF, Replaced;
    InosFull(fs);
    CreateWF(base, Some(name));
    if name !in fs.files { assert base == fs by { assert fs.files - {name} == fs.files; } }
  }

  /** Exactly what the write command does between commands, for every name, text and state. */
  lemma StoreExact(fs: Spec.Fs, name: Name, text: seq<byte>)
    requires Spec.WF(fs) && AllClosed(fs) && ValidName(name)
    ensures var r := Store(fs, name, text);
            if name !in fs.files && |fs.files| == MAX_INODES - 1 then
              r == After(fs, [Message("  Could not create file.\n")])
            else
              var n := Min(|text|, Available(fs, name));
              n >= 0 && r == After(Stored(fs, name, text[..n]), [Wrote(n)])
  {
    MakesFile(fs, name);
    hide Spec.WF, AllClosed, Spec.Create, Replaced, Spec.FreeBlocks, Spec.LowestIno, Spec.Inos, OldBlocks;
    var made := Spec.Create(Replaced(fs, name), Some(name));
    if made.ret >= 0 {
      StoredData(fs, name, text);
      Session(made.fs, name, text);
      hide Spec.Open, Spec.Write, Spec.Close, Stored;
    }
  }

  lemma StoredData(fs: Spec.Fs, name: Name, data: seq<byte>)
    ensures var made := Stored(fs, name, []);
            && name in made.files && made.files[name].data == []
            && forall n | 0 <= n <= |data| ::
                 made.(files := made.files[name := made.files[name].(data := data[..n])]) == Stored(fs, name, data[..n])
  {
    var made := Stored(fs, name, []);
    forall n | 0 <= n <= |data|
      ensures made.(files := made.files[name := made.files[name].(data := data[..n])]) == Stored(fs, name, data[..n])
    {
      assert made.files[name := made.files[name].(data := data[..n])] == Stored(fs, name, data[..n]).files;
    }
  }

  lemma FreeNotNegative(fs: Spec.Fs)
    requires Spec.WF(fs)
    ensures Spec.FreeBlocks(fs.files) >= 0
  {
  }

  lemma EnoughRoom(fs: Spec.Fs, name: Name)
    requires Spec.WF(fs) && name in fs.files && fs.files[name].data != []
    ensures Available(fs, name) >= CAT_BYTES
  {
    FreeNotNegative(fs);
    hide Spec.WF, Spec.FreeBlocks;
  }

  /** Replacing a non-empty file with a short text always stores all of it, however full the disk and the tables are. */
  lemma ReplaceStoresAll(fs: Spec.Fs, name: Name, text: seq<byte>)
    requires Spec.WF(fs) && AllClosed(fs) && ValidName(name)
    requires name in fs.files && fs.files[name].data != [] && 0 < |text| <= CAT_BYTES
    ensures Store(fs, name, text) == After(Stored(fs, name, text), [Wrote(|text|)])
  {
    EnoughRoom(fs, name);
    hide Spec.WF, Store, Stored, AllClosed, Available;
    StoreExact(fs, name, text);
    assert text[..|text|] == text;
  }

  // ---- between commands -----------------------------------------------------------------------------------

  lemma StoreKeeps(fs: Spec.Fs, name: Name, text: seq<byte>)
    requires Spec.WF(fs) && AllClosed(fs) && ValidName(name)
    ensures Spec.WF(Store(fs, name, text).fs) && AllClosed(Store(fs, name, text).fs)
  {
    MakesFile(fs, name);
    hide Spec.WF, AllClosed, Spec.Create, Replaced;
    var made := Spec.Create(Replaced(fs, name), Some(name));
    if made.ret >= 0 {
      Session(made.fs, name, text);
      var o := Spec.Open(made.fs, name);
      var w := Spec.Write(o.fs, o.ret, Some(text));
      OpenWF(made.fs, name);
      WriteWF(o.fs, o.ret, Some(text));
      CloseWF(w.fs, o.ret);
      SameHandles(made.fs, Spec.Close(w.fs, o.ret).fs);
    }
  }

  lemma SameHandles(fs: Spec.Fs, fs2: Spec.Fs)
    requires fs2.handles == fs.handles && AllClosed(fs)
    ensures AllClosed(fs2)
  {
  }

  /** A name the write command parses is one fs_create accepts. */
  lemma ParsedName(a: seq<byte>)
    requires 0 !in a
    ensures var p := ParseWrite(a); |p.name| < MAX_NAME && 0 !in p.name && 0 !in p.text
  {
  }

  datatype Command =
    | TouchCmd(name: Option<seq<byte>>)
    | CatCmd(name: Option<seq<byte>>)
    | WriteCmd(args: Option<seq<byte>>)
    | RmCmd(name: Option<seq<byte>>)

  /** The strings in a command hold no NUL. */
  predicate NulFree(c: Command) {
    match c
    case TouchCmd(name) => name.Some? ==> 0 !in name.value
    case CatCmd(name) => name.Some? ==> 0 !in name.value
    case WriteCmd(args) => args.Some? ==> 0 !in args.value
    case RmCmd(name) => name.Some? ==> 0 !in name.value
  }

  ghost function Execute(fs: Spec.Fs, c: Command): After {
    match c
    case TouchCmd(name) => Touch(fs, name)
    case CatCmd(name) => Cat(fs, name)
    case WriteCmd(args) => WriteFile(fs, args)
    case RmCmd(name) => Rm(fs, name)
  }

  /** No command leaves a descriptor open, whatever its argument. */
  lemma NoneLeftOpen(fs: Spec.Fs, c: Command)
    requires Spec.WF(fs) && AllClosed(fs)
    requires NulFree(c)
    ensures Spec.WF(Execute(fs, c).fs) && AllClosed(Execute(fs, c).fs)
  {
    hide Spec.WF, Store, ParseWrite;
    match c
    case TouchCmd(name) => CreateWF(fs, name);
    case CatCmd(name) =>
    case WriteCmd(args) =>
      if args.Some? && args.value != [] {
        var p := ParseWrite(args.value);
        ParsedName(args.value);
        if p.name != [] { StoreKeeps(fs, p.name, p.text); }
      }
    case RmCmd(name) => if name.Some? { UnlinkWF(fs, name.value); }
  }

  ghost function ExecuteAll(fs: Spec.Fs, cs: seq<Command>): After
    decreases |cs|
  {
    if cs == [] then After(fs, [])
    else
      var first := Execute(fs, cs[0]);
      var rest := ExecuteAll(first.fs, cs[1..]);
      After(rest.fs, first.shown + rest.shown)
  }

  /** Over whole shell sessions: every state between commands has all descriptors closed. */
  lemma {:induction false} SessionsClose(fs: Spec.Fs, cs: seq<Command>)
    requires Spec.WF(fs) && AllClosed(fs)
    requires forall c | c in cs :: NulFree(c)
    ensures Spec.WF(ExecuteAll(fs, cs).fs) && AllClosed(ExecuteAll(fs, cs).fs)
    decreases |cs|
  {
    hide Spec.WF, Execute, NulFree, AllClosed;
    if cs != [] {
      NoneLeftOpen(fs, cs[0]);
      SessionsClose(Execute(fs, cs[0]).fs, cs[1..]);
    }
  }

  // ---- the command line -----------------------------------------------------------------------------------

  /** "name text" parses to the name and the text. */
  lemma ParseLine(name: Name, text: seq<byte>)
    requires 0 < |name| < MAX_NAME && SPACE !in name && text != [] && text[0] != SPACE
    ensures ParseWrite(name + [SPACE] + text) == WriteArgs(name, text)
  {
    var a := name + [SPACE] + text;
    assert a[0] == name[0] && a[|name|] == SPACE && a[|name| + 1] == text[0];
    assert SkipSpaces(a, 0) == 0;
    assert forall k | 0 <= k < |name| :: a[k] == name[k];
    var j := WordEnd(a, 0, MAX_NAME - 1);
    assert j == |name|;
    assert SkipSpaces(a, |name| + 1) == |name| + 1;
    assert SkipSpaces(a, |name|) == |name| + 1;
    assert a[..|name|] == name && a[|name| + 1..] == text;
  }

  /** write over a non-empty file, then cat: the whole text is stored and printed, and nothing is left open. */
  lemma WriteThenCat(fs: Spec.Fs, name: Name, text: seq<byte>)
    requires Spec.WF(fs) && AllClosed(fs) && ValidName(name) && SPACE !in name
    requires name in fs.files && fs.files[name].data != []
    requires 0 < |text| <= CAT_BYTES && text[0] != SPACE && 0 !in text
    ensures var line := name + [SPACE] + text;
            var s := ExecuteAll(fs, [WriteCmd(Some(line)), CatCmd(Some(name))]);
            && Printed(s.shown) == text && Wrote(|text|) in s.shown
            && AllClosed(s.fs) && name in s.fs.files && s.fs.files[name].data == text
  {
    hide Spec.WF, Store, Stored, AllClosed, ParseWrite, CatEvents, Printed;
    var line := name + [SPACE] + text;
    ParseLine(name, text);
    ReplaceStoresAll(fs, name, text);
    StoreKeeps(fs, name, text);
    var w := WriteFile(fs, Some(line));
    assert w == After(Stored(fs, name, text), [Wrote(|text|)]);
    StoredHas(fs, name, text);
    CatShows(w.fs, name);
    var c := Cat(w.fs, Some(name));
    TwoCommands(fs, WriteCmd(Some(line)), CatCmd(Some(name)));
    PrintedConcat(w.shown, c.shown);
    PrintedWrote(|text|);
    assert (w.shown + c.shown)[0] == Wrote(|text|);
  }

  lemma StoredHas(fs: Spec.Fs, name: Name, data: seq<byte>)
    ensures var s := Stored(fs, name, data); name in s.files && s.files[name].data == data
  {
  }

  lemma PrintedWrote(n: int)
    ensures Printed([Wrote(n)]) == []
  {
  }

  lemma TwoCommands(fs: Spec.Fs, c: Command, d: Command)
    ensures var first := Execute(fs, c);
            var second := Execute(first.fs, d);
            ExecuteAll(fs, [c, d]) == After(second.fs, first.shown + second.shown)
  {
    hide Execute;
    var first := Execute(fs, c);
    var second := Execute(first.fs, d);
    assert [c, d][1..] == [d] && [d][1..] == [];
    assert ExecuteAll(first.fs, [d]) == After(second.fs, second.shown + []);
    assert second.shown + [] == second.shown;
  }
}
