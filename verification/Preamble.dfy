/** Building the preamble of a log line: fields are printed one after another into a fixed buffer,
    each with `snprintf`, which truncates but reports the length it would have needed. */
module Preamble {

  const NUL: char := '\0'

  /** `snprintf(buffer + pos, size - pos, "%s", text)`: writes at most the room that is left, always
      terminates, and returns the full length. */
  method Snprintf(buffer: array<char>, pos: nat, text: string) returns (needed: nat)
    requires pos < buffer.Length
    modifies buffer
    ensures needed == |text|
    ensures var room := buffer.Length - pos - 1;
            var fits := if |text| <= room then text else text[..room];
            buffer[..] == old(buffer[..pos]) + fits + [NUL] + old(buffer[pos + |fits| + 1..])
  {
    needed := |text|;
    var room := buffer.Length - pos - 1;
    var n := if |text| <= room then |text| else room;
    for i := 0 to n
      invariant forall k | 0 <= k < pos :: buffer[k] == old(buffer[k])
      invariant forall k | 0 <= k < i :: buffer[pos + k] == text[k]
      invariant forall k | pos + i <= k < buffer.Length :: buffer[k] == old(buffer[k])
    {
      buffer[pos + i] := text[i];
    }
    buffer[pos + n] := NUL;
  }

  /** A buffer holds a text cut to its size less one, and terminated. */
  ghost predicate Holds(buffer: seq<char>, text: string) {
    && buffer != []
    && var n := if |text| < |buffer| then |text| else |buffer| - 1;
       n <= |text| && buffer[..n] == text[..n] && buffer[n] == NUL
  }

  /** `pos` is the length of the text so far, until that has outgrown the buffer. */
  predicate Tracks(pos: nat, text: string, size: nat) {
    pos == |text| || (pos >= size && |text| >= size)
  }

  datatype Field = Field(enabled: bool, text: string) {
    function Shown(): string {
      if enabled then text else ""
    }
  }

  /** `if (enabled && pos < size) pos += snprintf(...)`; `text` is what was asked for so far. */
  method AppendField(buffer: array<char>, pos0: nat, field: Field, ghost text: string) returns (pos: nat)
    requires Tracks(pos0, text, buffer.Length) && Holds(buffer[..], text)
    modifies buffer
    ensures Tracks(pos, text + field.Shown(), buffer.Length) && Holds(buffer[..], text + field.Shown())
  {
    pos := pos0;
    if field.enabled && pos < buffer.Length {
      var n := Snprintf(buffer, pos, field.text);
      pos := pos + n;
    }
  }

  /** The fields of a preamble, in order. */
  datatype Fields = Fields(
    date: Field, time: Field, uptime: Field, thread: Field, file: Field, level: Field, pipe: Field)
  {
    function Shown(): string {
      date.Shown() + time.Shown() + uptime.Shown() + thread.Shown() + file.Shown() + level.Shown() + pipe.Shown()
    }
  }

  /** For any fields and any buffer, the buffer ends up with the enabled fields run together, cut to
      its size less one, and terminated.  Nothing is written to a buffer of size zero. */
  method PrintFields(buffer: array<char>, enabled: bool, f: Fields)
    modifies buffer
    ensures buffer.Length > 0 ==>
              Holds(buffer[..],
                    if !enabled then ""
                    else
                      (if f.date.enabled then f.date.text else "") + (if f.time.enabled then f.time.text else "")
                      + (if f.uptime.enabled then f.uptime.text else "")
                      + (if f.thread.enabled then f.thread.text else "")
                      + (if f.file.enabled then f.file.text else "")
                      + (if f.level.enabled then f.level.text else "")
                      + if f.pipe.enabled then f.pipe.text else "")
  {
    hide Tracks, Holds, Field.Shown;
    if buffer.Length == 0 {
      return;
    }
    buffer[0] := NUL;
    StartsEmpty(buffer[..]);
    if !enabled {
      return;
    }
    var pos := AppendField(buffer, 0, f.date, "");
    ghost var text := "" + f.date.Shown();
    pos := AppendField(buffer, pos, f.time, text);
    text := text + f.time.Shown();
    pos := AppendField(buffer, pos, f.uptime, text);
    text := text + f.uptime.Shown();
    pos := AppendField(buffer, pos, f.thread, text);
    text := text + f.thread.Shown();
    pos := AppendField(buffer, pos, f.file, text);
    text := text + f.file.Shown();
    pos := AppendField(buffer, pos, f.level, text);
    text := text + f.level.Shown();
    pos := AppendField(buffer, pos, f.pipe, text);
    text := text + f.pipe.Shown();
    assert "" + f.date.Shown() == f.date.Shown();
    assert text == f.Shown();
    ShownInOrder(f);
  }

  lemma ShownInOrder(f: Fields)
    ensures f.Shown() ==
            (if f.date.enabled then f.date.text else "") + (if f.time.enabled then f.time.text else "")
            + (if f.uptime.enabled then f.uptime.text else "")
            + (if f.thread.enabled then f.thread.text else "")
            + (if f.file.enabled then f.file.text else "")
            + (if f.level.enabled then f.level.text else "")
            + if f.pipe.enabled then f.pipe.text else ""
  {}

  lemma StartsEmpty(buffer: seq<char>)
    requires buffer != [] && buffer[0] == NUL
    ensures Holds(buffer, "") && Tracks(0, "", |buffer|)
  {}

  // ---------- reading the buffer back ----------

  /** The C string at the start of a buffer. */
  function CString(buffer: seq<char>): string {
    if buffer == [] || buffer[0] == NUL then "" else [buffer[0]] + CString(buffer[1..])
  }

  lemma {:induction false} CStringStopsAtNul(buffer: seq<char>, n: nat)
    requires n < |buffer| && buffer[n] == NUL && forall i | 0 <= i < n :: buffer[i] != NUL
    ensures CString(buffer) == buffer[..n]
    decreases n
  {
    if n > 0 {
      CStringStopsAtNul(buffer[1..], n - 1);
      assert buffer[..n] == [buffer[0]] + buffer[1..][..n - 1];
    }
  }

  /** A reader sees the longest prefix of the text that leaves room for the terminator. */
  lemma {:induction false} ReaderSeesPrefix(buffer: seq<char>, text: string)
    requires Holds(buffer, text) && forall i | 0 <= i < |text| :: text[i] != NUL
    ensures CString(buffer) == if |text| < |buffer| then text else text[..|buffer| - 1]
  {
    var n := if |text| < |buffer| then |text| else |buffer| - 1;
    assert forall i | 0 <= i < n :: buffer[i] == buffer[..n][i] == text[..n][i];
    CStringStopsAtNul(buffer, n);
    assert |text| < |buffer| ==> text[..n] == text;
  }

  // ---------- the header ----------

  const THREADNAME_WIDTH: nat := 16
  const FILENAME_WIDTH: nat := 23
  const PREAMBLE_WIDTH: nat := 53 + THREADNAME_WIDTH + FILENAME_WIDTH

  /** `%*s` */
  function PadLeft(width: nat, s: string): string {
    if |s| >= width then s else seq(width - |s|, i => ' ') + s
  }

  /** `%-*s` */
  function PadRight(width: nat, s: string): string {
    if |s| >= width then s else s + seq(width - |s|, i => ' ')
  }

  /** The headings, over the same switches as the fields. */
  function Headings(date: bool, time: bool, uptime: bool, thread: bool, file: bool, level: bool, pipe: bool): Fields {
    Fields(
      Field(date, "date       "),
      Field(time, "time         "),
      Field(uptime, "( uptime  ) "),
      Field(thread, "[" + PadRight(THREADNAME_WIDTH, " thread name/id") + "]"),
      Field(file, PadLeft(FILENAME_WIDTH, "file") + ":line  "),
      Field(level, "   v"),
      Field(pipe, "| "))
  }

  /** At most `n` characters, none of them the terminator. */
  predicate Within(s: string, n: nat) {
    |s| <= n && forall i | 0 <= i < |s| :: s[i] != NUL
  }

  lemma Append(s: string, n: nat, t: string, m: nat)
    requires Within(s, n) && Within(t, m)
    ensures Within(s + t, n + m)
  {}

  lemma ThreadHeading()
    ensures Within("[" + PadRight(THREADNAME_WIDTH, " thread name/id") + "]", 18)
  {
    var padded := PadRight(THREADNAME_WIDTH, " thread name/id");
    assert Within(padded, 16);
    Append("[", 1, padded, 16);
    Append("[" + padded, 17, "]", 1);
  }

  lemma FileHeading()
    ensures Within(PadLeft(FILENAME_WIDTH, "file") + ":line  ", 30)
  {
    var padded := PadLeft(FILENAME_WIDTH, "file");
    assert Within(padded, 23);
    Append(padded, 23, ":line  ", 7);
  }

  lemma FieldsWithin(f: Fields)
    requires Within(f.date.text, 11) && Within(f.time.text, 13) && Within(f.uptime.text, 12)
    requires Within(f.thread.text, 18) && Within(f.file.text, 30) && Within(f.level.text, 4) && Within(f.pipe.text, 2)
    ensures Within(f.Shown(), 90)
  {
    ShownWithin(f.date, 11);
    ShownWithin(f.time, 13);
    ShownWithin(f.uptime, 12);
    ShownWithin(f.thread, 18);
    ShownWithin(f.file, 30);
    ShownWithin(f.level, 4);
    ShownWithin(f.pipe, 2);
    hide Within, Field.Shown;
    var text := f.date.Shown();
    Append(text, 11, f.time.Shown(), 13);
    text := text + f.time.Shown();
    Append(text, 24, f.uptime.Shown(), 12);
    text := text + f.uptime.Shown();
    Append(text, 36, f.thread.Shown(), 18);
    text := text + f.thread.Shown();
    Append(text, 54, f.file.Shown(), 30);
    text := text + f.file.Shown();
    Append(text, 84, f.level.Shown(), 4);
    text := text + f.level.Shown();
    Append(text, 88, f.pipe.Shown(), 2);
  }

  lemma ShownWithin(field: Field, n: nat)
    requires Within(field.text, n)
    ensures Within(field.Shown(), n)
  {}

  /** Whatever is switched on, the header fits the buffer that `init` prints it into, whole. */
  lemma HeaderFits(buffer: seq<char>, date: bool, time: bool, uptime: bool, thread: bool,
                   file: bool, level: bool, pipe: bool)
    requires |buffer| == PREAMBLE_WIDTH
    requires Holds(buffer, Headings(date, time, uptime, thread, file, level, pipe).Shown())
    ensures CString(buffer) == Headings(date, time, uptime, thread, file, level, pipe).Shown()
  {
    hide PadLeft, PadRight, Fields.Shown, Holds;
    var f := Headings(date, time, uptime, thread, file, level, pipe);
    ThreadHeading();
    FileHeading();
    FieldsWithin(f);
    ReaderSeesPrefix(buffer, f.Shown());
  }

  /** The header with everything switched on. */
  lemma FullHeader()
    ensures Headings(true, true, true, true, true, true, true).Shown()
         == "date       " + "time         " + "( uptime  ) " + "[ thread name/id ]"
            + "                   file:line  " + "   v" + "| "
    ensures PREAMBLE_WIDTH == 92
  {
    PaddedHeadings();
    hide PadLeft, PadRight;
  }

  lemma PaddedHeadings()
    ensures "[" + PadRight(THREADNAME_WIDTH, " thread name/id") + "]" == "[ thread name/id ]"
    ensures PadLeft(FILENAME_WIDTH, "file") + ":line  " == "                   file:line  "
  {
    assert seq(1, i => ' ') == " ";
    assert seq(19, i => ' ') == "                   ";
  }
}
