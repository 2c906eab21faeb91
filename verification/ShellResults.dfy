/** What each file command of the shell shows and changes, said without its own definition (kernel/kernel.c). */
module ShellResults {
  import opened Wrappers
  import opened CStrings
  import opened FsTypes
  import Spec = FsSpec
  import opened FsLaws
  import opened FsResults
  import opened ShellSpec
  import opened ShellLaws

  // ---- touch --------------------------------------------------------------------------------------------------

  /** touch: the usage, a refusal that tells an existing name from any other reason, or a new empty file. */
  lemma TouchResult(fs: Spec.Fs, name: Option<seq<byte>>)
    requires Spec.WF(fs)
    ensures var r := Touch(fs, name);
            if name.None? || |name.value| == 0 then r == After(fs, [Message("  Usage: touch <name>\n")])
            else if |name.value| < 24 && name.value in fs.files
                then r == After(fs, [Message("  File already exists.\n")])
            else if |name.value| >= 24 || |fs.files| == 63 then r == After(fs, [Message("  Could not create file.\n")])
            else
              && r.shown == [Message("  File created.\n")]
              && name.value in r.fs.files && r.fs.files[name.value].data == [] && OthersKept(fs, r.fs, name.value)
  {
    hide Spec.WF, Spec.Create, OthersKept;
    CreateResult(fs, name);
  }

  // ---- rm -----------------------------------------------------------------------------------------------------

  /** rm between commands: an existing file and its blocks are gone and it says so, any other name changes nothing. */
  lemma RmResult(fs: Spec.Fs, name: Option<seq<byte>>)
    requires Spec.WF(fs) && AllClosed(fs)
    ensures var r := Rm(fs, name);
            if name.None? || |name.value| == 0 then r == After(fs, [Message("  Usage: rm <name>\n")])
            else if name.value !in fs.files then r == After(fs, [Message("  File not found or still open.\n")])
            else
              && r.shown == [Message("  File removed.\n")]
              && name.value !in r.fs.files && OthersKept(fs, r.fs, name.value)
              && Spec.FreeBlocks(r.fs.files) == Spec.FreeBlocks(fs.files) + (|fs.files[name.value].data| + 4095) / 4096
  {
    hide Spec.WF, Spec.Unlink, OthersKept, Spec.FreeBlocks;
    if name.Some? {
      UnlinkResult(fs, name.value);
      assert !HeldOpen(fs, name.value);
    }
  }

  /** With a descriptor on it, the file stays and rm says so. */
  lemma RmHeld(fs: Spec.Fs, name: Name)
    requires Spec.WF(fs) && name != [] && name in fs.files && HeldOpen(fs, name)
    ensures Rm(fs, Some(name)) == After(fs, [Message("  File not found or still open.\n")])
  {
    hide Spec.WF, Spec.Unlink, HeldOpen;
    UnlinkResult(fs, name);
  }

  // ---- cat ----------------------------------------------------------------------------------------------------

  /** t is s up to its first NUL. */
  predicate UpToNul(s: seq<byte>, t: seq<byte>) { t <= s && 0 !in t && (t == s || s[|t|] == 0) }

  /** How many stretches of 255 bytes a file begins, and the one that starts at 255 * i. */
  function PieceCount(data: seq<byte>): nat { (|data| + 254) / 255 }

  function Piece(data: seq<byte>, i: nat): seq<byte>
    requires i < PieceCount(data)
  {
    data[255 * i..Min(255 * i + 255, |data|)]
  }

  lemma FirstPiece(data: seq<byte>)
    requires data != []
    ensures PieceCount(data) > 0 && Piece(data, 0) == data[..Min(255, |data|)]
  {
  }

  lemma LaterPiece(data: seq<byte>, i: nat)
    requires |data| > 255
    ensures PieceCount(data) == PieceCount(data[255..]) + 1
    ensures i < PieceCount(data[255..]) ==> Piece(data[255..], i) == Piece(data, i + 1)
  {
    var rest := data[255..];
    if i < PieceCount(rest) {
      assert |rest| == |data| - 255;
      var lo, hi := 255 * i, Min(255 * i + 255, |rest|);
      assert rest[lo..hi] == data[255 + lo..255 + hi];
    }
  }

  /** cat prints one text per piece, each up to the first NUL of the piece. */
  lemma {:induction false} CatPieces(data: seq<byte>)
    ensures |CatEvents(data)| == PieceCount(data)
    ensures forall i: nat | i < PieceCount(data) ::
              CatEvents(data)[i].Text? && UpToNul(Piece(data, i), CatEvents(data)[i].bytes)
    decreases |data|
  {
    hide UpToNul, CStr, Piece;
    if data != [] {
      FirstPiece(data);
      FirstNul(data[..Min(255, |data|)]);
      if |data| <= 255 {
        assert data[..|data|] == data;
      } else {
        var rest := data[255..];
        hide PieceCount;
        CatPieces(rest);
        LaterPiece(data, 0);
        forall i: nat | i < PieceCount(data)
          ensures CatEvents(data)[i].Text? && UpToNul(Piece(data, i), CatEvents(data)[i].bytes)
        {
          if i > 0 { LaterPiece(data, i - 1); }
        }
      }
    }
  }

  lemma FirstNul(s: seq<byte>)
    ensures UpToNul(s, CStr(s))
  {
  }

  /** cat between commands: the usage, the refusal, or the pieces of the file framed by an indent and a line end. */
  lemma CatResult(fs: Spec.Fs, name: Option<seq<byte>>)
    requires Spec.WF(fs) && AllClosed(fs)
    ensures var r := Cat(fs, name);
            && r.fs == fs
            && r.shown == (if name.None? || |name.value| == 0 then [Message("  Usage: cat <name>\n")]
                           else if name.value !in fs.files then [Message("  File not found.\n")]
                           else [Message("  ")] + CatEvents(fs.files[name.value].data) + [Message("\n")])
  {
    hide Spec.WF, Spec.Open, CatEvents;
    if name.Some? {
      OpenResult(fs, name.value);
      assert fs.handles[0].None? by { Closed(fs); }
    }
  }

  lemma Closed(fs: Spec.Fs)
    requires Spec.WF(fs) && AllClosed(fs)
    ensures |fs.handles| == 32 && fs.handles[0].None?
  {
  }

  // ---- write --------------------------------------------------------------------------------------------------

  function Blanks(n: nat): (s: seq<byte>) { seq(n, _ => 0x20) }

  /**
   * A command line of blanks, a name of at most 23 bytes without blanks, more blanks and a text that starts with none
   * parses to that name and that text. The blanks between may be missing only after a name of 23 bytes, the cut.
   */
  lemma ParseLineAny(i: nat, name: Name, k: nat, text: seq<byte>)
    requires 0x20 !in name && |name| <= 23 && (name == [] ==> k == 0 && text == [])
    requires text != [] ==> text[0] != 0x20 && (k > 0 || |name| == 23)
    ensures ParseWrite(Blanks(i) + name + Blanks(k) + text) == WriteArgs(name, text)
  {
    hide SkipSpaces, WordEnd, Blanks;
    var a := Blanks(i) + name + Blanks(k) + text;
    LineAt(a, i, name, k, text);
    SkipIs(a, 0, i);
    WordIs(a, i, i + |name|);
    SkipIs(a, i + |name|, i + |name| + k);
  }

  /** Where the parts of a line are. */
  lemma LineAt(a: seq<byte>, i: nat, name: Name, k: nat, text: seq<byte>)
    requires a == Blanks(i) + name + Blanks(k) + text
    ensures |a| == i + |name| + k + |text|
    ensures forall q | 0 <= q < i || i + |name| <= q < i + |name| + k :: a[q] == 0x20
    ensures a[i..i + |name|] == name && (forall q | i <= q < i + |name| :: a[q] == name[q - i])
    ensures a[i + |name| + k..] == text && (text != [] ==> a[i + |name| + k] == text[0])
  {
  }

  lemma SkipIs(a: seq<byte>, from: nat, to: nat)
    requires from <= to <= |a| && (forall q | from <= q < to :: a[q] == 0x20) && (to < |a| ==> a[to] != 0x20)
    ensures SkipSpaces(a, from) == to
  {
  }

  lemma WordIs(a: seq<byte>, from: nat, to: nat)
    requires from <= to <= |a| && to <= from + 23 && (forall q | from <= q < to :: a[q] != 0x20)
    requires to == |a| || a[to] == 0x20 || to == from + 23
    ensures WordEnd(a, from, from + 23) == to
  {
  }

  /** And every command line is of that form, so parsing is determined for all of them. */
  lemma EveryLine(a: seq<byte>) returns (i: nat, name: Name, k: nat, text: seq<byte>)
    ensures a == Blanks(i) + name + Blanks(k) + text
    ensures 0x20 !in name && |name| <= 23 && (name == [] ==> k == 0 && text == [])
    ensures text != [] ==> text[0] != 0x20 && (k > 0 || |name| == 23)
  {
    i := SkipSpaces(a, 0);
    var j := WordEnd(a, i, i + 23);
    var t := SkipSpaces(a, j);
    name, k, text := a[i..j], t - j, a[t..];
    assert a == a[..i] + a[i..j] + a[j..t] + a[t..];
    assert a[..i] == Blanks(i) && a[j..t] == Blanks(k);
  }

  /** write between commands: the usage without a name or a text, a refusal for want of an inode, or the stored text. */
  lemma WriteCommand(fs: Spec.Fs, args: Option<seq<byte>>)
    requires Spec.WF(fs) && AllClosed(fs) && (args.Some? ==> 0 !in args.value)
    ensures var r := WriteFile(fs, args);
            if args.None? || ParseWrite(args.value).name == [] || ParseWrite(args.value).text == [] then
              r == After(fs, [Message("  Usage: write <name> <text>\n")])
            else
              var p := ParseWrite(args.value);
              if p.name !in fs.files && |fs.files| == 63 then r == After(fs, [Message("  Could not create file.\n")])
              else
                var n := Min(|p.text|, Available(fs, p.name));
                && n >= 0 && r.shown == [Wrote(n)]
                && p.name in r.fs.files && r.fs.files[p.name].data == p.text[..n] && OthersKept(fs, r.fs, p.name)
  {
    if args.Some? && ParseWrite(args.value).name != [] {
      var p := ParseWrite(args.value);
      ParsedName(args.value);
      StoreExact(fs, p.name, p.text);
      hide Spec.WF, Store, ParseWrite, Available, AllClosed;
      var n := Min(|p.text|, Available(fs, p.name));
      if !(p.name !in fs.files && |fs.files| == 63) { StoredKeeps(fs, p.name, p.text[..n]); }
    }
  }

  lemma StoredKeeps(fs: Spec.Fs, name: Name, data: seq<byte>)
    ensures var s := Stored(fs, name, data); name in s.files && s.files[name].data == data && OthersKept(fs, s, name)
  {
    var s := Stored(fs, name, data);
    assert s.files - {name} == fs.files - {name};
  }

  // ---- runs -----------------------------------------------------------------------------------------------------

  /** The command neither touches nor writes the name. */
  predicate Leaves(c: Command, name: Name) {
    match c
    case TouchCmd(n) => n != Some(name)
    case WriteCmd(args) => args.Some? ==> ParseWrite(args.value).name != name
    case _ => true
  }

  lemma StaysAway(fs: Spec.Fs, c: Command, name: Name)
    requires Spec.WF(fs) && AllClosed(fs) && NulFree(c) && name !in fs.files && Leaves(c, name)
    ensures name !in Execute(fs, c).fs.files
  {
    hide Spec.WF, AllClosed, Touch, Rm, Cat, WriteFile, ParseWrite;
    match c
    case TouchCmd(n) =>
      TouchResult(fs, n);
      if n.Some? { Unless(fs, Touch(fs, n).fs, n.value, name); }
    case CatCmd(n) => CatResult(fs, n);
    case WriteCmd(args) =>
      WriteCommand(fs, args);
      if args.Some? { Unless(fs, WriteFile(fs, args).fs, ParseWrite(args.value).name, name); }
    case RmCmd(n) =>
      RmResult(fs, n);
      if n.Some? { Unless(fs, Rm(fs, n).fs, n.value, name); }
  }

  lemma Unless(fs: Spec.Fs, after: Spec.Fs, other: Name, name: Name)
    requires name !in fs.files
    ensures OthersKept(fs, after, other) && (other != name || name !in after.files) ==> name !in after.files
  {
    if OthersKept(fs, after, other) && other != name {
      assert name !in fs.files - {other};
      assert name in after.files ==> name in after.files - {other};
    }
  }

  /** Over a session: after rm, and until a command touches or writes the name again, the file is not there. */
  lemma {:induction false} GoneForSession(fs: Spec.Fs, cs: seq<Command>, name: Name)
    requires Spec.WF(fs) && AllClosed(fs) && name !in fs.files
    requires forall c | c in cs :: NulFree(c) && Leaves(c, name)
    ensures name !in ExecuteAll(fs, cs).fs.files
    decreases |cs|
  {
    hide Spec.WF, AllClosed, Execute, NulFree, Leaves;
    if cs != [] {
      StaysAway(fs, cs[0], name);
      NoneLeftOpen(fs, cs[0]);
      GoneForSession(Execute(fs, cs[0]).fs, cs[1..], name);
    }
  }

  /**
   * rm of an existing file, any such session, then cat: it says the file was removed, and in the end that it is not
   * found.
   */
  lemma RmThenCat(fs: Spec.Fs, name: Name, cs: seq<Command>)
    requires Spec.WF(fs) && AllClosed(fs) && name != [] && 0 !in name && name in fs.files
    requires forall c | c in cs :: NulFree(c) && Leaves(c, name)
    ensures var removed := Execute(fs, RmCmd(Some(name)));
            var later := ExecuteAll(removed.fs, cs);
            && removed.shown == [Message("  File removed.\n")]
            && Execute(later.fs, CatCmd(Some(name))) == After(later.fs, [Message("  File not found.\n")])
  {
    hide Spec.WF, AllClosed, Rm, Cat, NulFree, Leaves, ExecuteAll;
    RmResult(fs, Some(name));
    NulFreeName(name);
    NoneLeftOpen(fs, RmCmd(Some(name)));
    var removed := Execute(fs, RmCmd(Some(name)));
    GoneForSession(removed.fs, cs, name);
    SessionsClose(removed.fs, cs);
    CatResult(ExecuteAll(removed.fs, cs).fs, Some(name));
  }

  lemma NulFreeName(name: Name)
    requires 0 !in name
    ensures NulFree(RmCmd(Some(name)))
  {
  }
}
