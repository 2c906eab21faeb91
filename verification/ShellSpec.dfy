/** What the shell's file commands do (kernel/kernel.c), over the file system's specification. */
module ShellSpec {
  import opened Wrappers
  import opened CStrings
  import opened FsTypes
  import Spec = FsSpec

  /** One call that prints: fixed wording, a buffer's text, or a byte count. */
  datatype Event = Message(words: string) | Text(bytes: seq<byte>) | Wrote(count: int)

  datatype After = After(fs: Spec.Fs, shown: seq<Event>)

  const SPACE: byte := 0x20
  const CAT_BYTES: nat := 255

  /** Everything the Text events printed, in order. */
  function Printed(shown: seq<Event>): seq<byte> {
    if shown == [] then []
    else (if shown[0].Text? then shown[0].bytes else []) + Printed(shown[1..])
  }

  function Touch(fs: Spec.Fs, name: Option<seq<byte>>): After {
    if name.None? || name.value == [] then After(fs, [Message("  Usage: touch <name>\n")])
    else
      var r := Spec.Create(fs, name);
      After(r.fs, [Message(if r.ret == -2 then "  File already exists.\n"
                           else if r.ret < 0 then "  Could not create file.\n"
                           else "  File created.\n")])
  }

  /** cat prints 255 bytes at a time, each chunk as a C string: up to its first NUL. */
  function CatEvents(data: seq<byte>): seq<Event>
    decreases |data|
  {
    if data == [] then []
    else if |data| <= CAT_BYTES then [Text(CStr(data))]
    else [Text(CStr(data[..CAT_BYTES]))] + CatEvents(data[CAT_BYTES..])
  }

  function Cat(fs: Spec.Fs, name: Option<seq<byte>>): After {
    if name.None? || name.value == [] then After(fs, [Message("  Usage: cat <name>\n")])
    else if Spec.Open(fs, name.value).ret < 0 || name.value !in fs.files then
      After(fs, [Message("  File not found.\n")])
    else After(fs, [Message("  ")] + CatEvents(fs.files[name.value].data) + [Message("\n")])
  }

  function Rm(fs: Spec.Fs, name: Option<seq<byte>>): After {
    if name.None? || name.value == [] then After(fs, [Message("  Usage: rm <name>\n")])
    else
      var r := Spec.Unlink(fs, name.value);
      After(r.fs, [Message(if r.ret == 0 then "  File removed.\n" else "  File not found or still open.\n")])
  }

  // ---- the write command ----------------------------------------------------------------------------

  function SkipSpaces(a: seq<byte>, i: nat): (j: nat)
    requires i <= |a|
    ensures i <= j <= |a| && (j < |a| ==> a[j] != SPACE) && forall k | i <= k < j :: a[k] == SPACE
    decreases |a| - i
  {
    if i < |a| && a[i] == SPACE then SkipSpaces(a, i + 1) else i
  }

  /** The end of a word that starts at i and is cut at limit. */
  function WordEnd(a: seq<byte>, i: nat, limit: nat): (j: nat)
    requires i <= |a|
    ensures i <= j <= |a| && (i <= limit ==> j <= limit) && forall k | i <= k < j :: a[k] != SPACE
    ensures j < |a| && j < limit ==> a[j] == SPACE
    decreases |a| - i
  {
    if i < |a| && a[i] != SPACE && i < limit then WordEnd(a, i + 1, limit) else i
  }

  datatype WriteArgs = WriteArgs(name: Name, text: seq<byte>)

  function ParseWrite(a: seq<byte>): WriteArgs {
    var i := SkipSpaces(a, 0);
    var j := WordEnd(a, i, i + MAX_NAME - 1);
    WriteArgs(a[i..j], a[SkipSpaces(a, j)..])
  }

  /** Removing the old file: only when it can be opened, and only when nobody else has it open. */
  function Replaced(fs: Spec.Fs, name: Name): Spec.Fs {
    if Spec.Open(fs, name).ret >= 0 then Spec.Unlink(fs, name).fs else fs
  }

  ghost function Store(fs: Spec.Fs, name: Name, text: seq<byte>): After {
    var made := Spec.Create(Replaced(fs, name), Some(name));
    if made.ret < 0 then After(made.fs, [Message("  Could not create file.\n")])
    else
      var found := Spec.Open(made.fs, name);
      if found.ret < 0 then After(found.fs, [Message("  Could not open file.\n")])
      else
        var w := Spec.Write(found.fs, found.ret, Some(text));
        After(Spec.Close(w.fs, found.ret).fs, [if w.ret < 0 then Message("  Write failed.\n") else Wrote(w.ret)])
  }

  ghost function WriteFile(fs: Spec.Fs, args: Option<seq<byte>>): After {
    if args.None? || args.value == [] then After(fs, [Message("  Usage: write <name> <text>\n")])
    else
      var p := ParseWrite(args.value);
      if p.name == [] || p.text == [] then After(fs, [Message("  Usage: write <name> <text>\n")])
      else Store(fs, p.name, p.text)
  }
}
