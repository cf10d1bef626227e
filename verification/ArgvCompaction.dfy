/** The logger takes its verbosity flag out of argv: the arguments it keeps are moved down in place. */
module ArgvCompaction {
  import opened Outcomes

  /** A `char*` in argv. */
  datatype Arg = Null | Str(text: string)

  /** `alpha` is `isalpha` in the user's locale, and `level` reads a verbosity (a level name, or an
      integer up to the end of the text).  Both are foreign and may be anything. */
  datatype Reader = Reader(flag: string, alpha: char -> bool, level: string -> Option<int>)

  /** The flag, not followed by a letter. */
  predicate IsFlag(r: Reader, cmd: string) {
    r.flag <= cmd && (|cmd| == |r.flag| || !r.alpha(cmd[|r.flag|]))
  }

  function WithoutEquals(value: string): string {
    if value != "" && value[0] == '=' then value[1..] else value
  }

  /** The arguments that are kept, and the verbosity afterwards; nothing if a check aborts, because a
      value is missing or is no verbosity. */
  function Compacted(r: Reader, args: seq<string>, verbosity: int): Option<(seq<string>, int)>
    decreases |args|
  {
    if args == [] then Some(([], verbosity))
    else if !IsFlag(r, args[0]) then
      var rest := Compacted(r, args[1..], verbosity);
      if rest.None? then None else Some(([args[0]] + rest.value.0, rest.value.1))
    else if |args[0]| > |r.flag| then
      var level := r.level(WithoutEquals(args[0][|r.flag|..]));
      if level.None? then None else Compacted(r, args[1..], level.value)
    else if |args| == 1 then None
    else
      var level := r.level(WithoutEquals(args[1]));
      if level.None? then None else Compacted(r, args[2..], level.value)
  }

  function Texts(args: seq<Arg>): seq<string>
    requires forall i | 0 <= i < |args| :: args[i].Str?
  {
    seq(|args|, i requires 0 <= i < |args| => args[i].text)
  }

  function Strs(texts: seq<string>): seq<Arg> {
    seq(|texts|, i requires 0 <= i < |texts| => Str(texts[i]))
  }

  /** Reading has come to `args[i]`, having kept `kept`. */
  ghost predicate ReadUpTo(r: Reader, args: seq<string>, v0: int, i: nat, kept: seq<string>, v: int) {
    && i <= |args|
    && var whole, rest := Compacted(r, args, v0), Compacted(r, args[i..], v);
       && (whole.None? <==> rest.None?)
       && (whole.Some? ==> whole.value == (kept + rest.value.0, rest.value.1))
  }

  lemma ReadNothing(r: Reader, args: seq<string>, v0: int)
    ensures ReadUpTo(r, args, v0, 0, [], v0)
  {
    assert args[0..] == args;
    var c := Compacted(r, args, v0);
    assert c.Some? ==> [] + c.value.0 == c.value.0;
  }

  lemma ReadAll(r: Reader, args: seq<string>, v0: int, kept: seq<string>, v: int)
    requires ReadUpTo(r, args, v0, |args|, kept, v)
    ensures Compacted(r, args, v0) == Some((kept, v))
  {
    assert args[|args|..] == [] && kept + [] == kept;
  }

  lemma ReadKept(r: Reader, args: seq<string>, v0: int, i: nat, kept: seq<string>, v: int)
    requires ReadUpTo(r, args, v0, i, kept, v) && i < |args| && !IsFlag(r, args[i])
    ensures ReadUpTo(r, args, v0, i + 1, kept + [args[i]], v)
  {
    hide IsFlag;
    assert args[i..][0] == args[i] && args[i..][1..] == args[i + 1..];
    var rest := Compacted(r, args[i + 1..], v);
    if rest.Some? {
      assert kept + ([args[i]] + rest.value.0) == (kept + [args[i]]) + rest.value.0;
    }
  }

  /** A flag whose text is in the same argument, or in the next one. */
  lemma ReadFlag(r: Reader, args: seq<string>, v0: int, i: nat, kept: seq<string>, v: int)
    requires ReadUpTo(r, args, v0, i, kept, v) && i < |args| && IsFlag(r, args[i])
    ensures var inside := |args[i]| > |r.flag|;
            if !inside && i + 1 == |args| then Compacted(r, args, v0).None?
            else
              var value := if inside then args[i][|r.flag|..] else args[i + 1];
              var level := r.level(WithoutEquals(value));
              if level.None? then Compacted(r, args, v0).None?
              else ReadUpTo(r, args, v0, if inside then i + 1 else i + 2, kept, level.value)
  {
    hide WithoutEquals;
    assert args[i..][0] == args[i] && args[i..][1..] == args[i + 1..];
    if i + 1 < |args| {
      assert args[i..][1] == args[i + 1] && args[i..][2..] == args[i + 2..];
    }
  }

  lemma FlagIsPrefix(r: Reader, cmd: string)
    requires IsFlag(r, cmd)
    ensures |cmd| >= |r.flag|
  {}

  /** argv[0] and the kept arguments come first, in order, then a null, then what was there before. */
  function Compaction(argv: seq<Arg>, kept: seq<string>): seq<Arg>
    requires 2 + |kept| <= |argv|
  {
    argv[..1] + Strs(kept) + [Null] + argv[2 + |kept|..]
  }

  lemma LayoutIsCompaction(before: seq<Arg>, after: seq<Arg>, kept: seq<string>)
    requires 2 + |kept| <= |before| == |after|
    requires after[0] == before[0] && after[1 + |kept|] == Null
    requires forall i | 1 <= i < 1 + |kept| :: after[i] == Str(kept[i - 1])
    requires forall i | 2 + |kept| <= i < |after| :: after[i] == before[i]
    ensures after == Compaction(before, kept)
  {}

  /** What stands where after the compaction. */
  lemma CompactionIs(argv: seq<Arg>, kept: seq<string>, i: nat)
    requires 2 + |kept| <= |argv| && i < |argv|
    ensures |Compaction(argv, kept)| == |argv|
    ensures Compaction(argv, kept)[i]
         == if 1 <= i <= |kept| then Str(kept[i - 1]) else if i == |kept| + 1 then Null else argv[i]
  {}

  /** Rewrites argv in place; the write index `dest` never passes the read index `it`. */
  method ParseArgs(r: Reader, argv: array<Arg>, argc: nat, verbosity0: int)
    returns (aborted: bool, newArgc: nat, verbosity: int)
    requires 1 <= argc < argv.Length && argv[argc] == Null
    requires forall i | 0 <= i < argc :: argv[i].Str?
    modifies argv
    ensures var c := Compacted(r, Texts(old(argv[..])[1..argc]), verbosity0);
            && (aborted <==> c.None?)
            && (!aborted ==>
                  && newArgc == 1 + |c.value.0| <= argc && verbosity == c.value.1
                  && argv[..] == Compaction(old(argv[..]), c.value.0))
  {
    hide Compacted, ReadUpTo, WithoutEquals, IsFlag, Compaction;
    ghost var before := argv[..];
    ghost var args := Texts(before[1..argc]);
    ghost var kept: seq<string> := [];
    newArgc, verbosity, aborted := argc, verbosity0, true;
    var it, dest := 1, 1;
    ReadNothing(r, args, verbosity0);
    while it < argc
      invariant 1 <= dest <= it <= argc && newArgc == argc - (it - dest)
      invariant |kept| == dest - 1
      invariant argv[0] == before[0]
      invariant forall i | 1 <= i < dest :: argv[i] == Str(kept[i - 1])
      invariant forall i | dest <= i < argv.Length :: argv[i] == before[i]
      invariant ReadUpTo(r, args, verbosity0, it - 1, kept, verbosity)
    {
      var cmd := argv[it].text;
      assert cmd == args[it - 1];
      if IsFlag(r, cmd) {
        ReadFlag(r, args, verbosity0, it - 1, kept, verbosity);
        newArgc := newArgc - 1;
        FlagIsPrefix(r, cmd);
        var value := cmd[|r.flag|..];
        if value == "" {
          it := it + 1;
          if it >= argc {
            return;
          }
          value := argv[it].text;
          newArgc := newArgc - 1;
        }
        var level := r.level(WithoutEquals(value));
        if level.None? {
          return;
        }
        verbosity := level.value;
      } else {
        ReadKept(r, args, verbosity0, it - 1, kept, verbosity);
        argv[dest] := argv[it];
        dest := dest + 1;
        kept := kept + [cmd];
      }
      it := it + 1;
    }
    ReadAll(r, args, verbosity0, kept, verbosity);
    argv[newArgc] := Null;
    aborted := false;
    LayoutIsCompaction(before, argv[..], kept);
  }

  lemma {:induction false} NoFlagIsKept(r: Reader, args: seq<string>, verbosity: int)
    requires Compacted(r, args, verbosity).Some?
    ensures forall i | 0 <= i < |Compacted(r, args, verbosity).value.0| ::
              !IsFlag(r, Compacted(r, args, verbosity).value.0[i])
    decreases |args|
  {
    if args != [] {
      if !IsFlag(r, args[0]) {
        NoFlagIsKept(r, args[1..], verbosity);
      } else if |args[0]| > |r.flag| {
        NoFlagIsKept(r, args[1..], r.level(WithoutEquals(args[0][|r.flag|..])).value);
      } else {
        NoFlagIsKept(r, args[2..], r.level(WithoutEquals(args[1])).value);
      }
    }
  }

  lemma {:induction false} FlaglessIsUnchanged(r: Reader, args: seq<string>, verbosity: int)
    requires forall i | 0 <= i < |args| :: !IsFlag(r, args[i])
    ensures Compacted(r, args, verbosity) == Some((args, verbosity))
    decreases |args|
  {
    if args != [] {
      FlaglessIsUnchanged(r, args[1..], verbosity);
      assert args == [args[0]] + args[1..];
    }
  }

  /** A second run keeps everything, and leaves the verbosity alone. */
  lemma {:induction false} SecondRunChangesNothing(r: Reader, args: seq<string>, verbosity: int)
    requires Compacted(r, args, verbosity).Some?
    ensures var c := Compacted(r, args, verbosity).value; Compacted(r, c.0, c.1) == Some(c)
  {
    NoFlagIsKept(r, args, verbosity);
    FlaglessIsUnchanged(r, Compacted(r, args, verbosity).value.0, Compacted(r, args, verbosity).value.1);
  }

  // ---------- the spellings of the flag ----------

  /** A verbosity text was read, and `rest` is still to come. */
  function AfterLevel(r: Reader, text: string, rest: seq<string>): Option<(seq<string>, int)> {
    var level := r.level(text);
    if level.None? then None else Compacted(r, rest, level.value)
  }

  /** The flag with its text attached, if that does not start with a letter; one `=` is dropped. */
  lemma AttachedTextIsRead(r: Reader, text: string, rest: seq<string>, verbosity: int)
    requires text != "" && !r.alpha(text[0])
    ensures Compacted(r, [r.flag + text] + rest, verbosity)
         == AfterLevel(r, if text[0] == '=' then text[1..] else text, rest)
  {
    var arg := r.flag + text;
    assert arg[|r.flag|] == text[0] && arg[|r.flag|..] == text;
    assert ([arg] + rest)[1..] == rest;
  }

  /** The flag alone takes the next argument whatever it is, and aborts if there is none. */
  lemma NextArgumentIsRead(r: Reader, text: string, rest: seq<string>, verbosity: int)
    ensures Compacted(r, [r.flag, text] + rest, verbosity)
         == AfterLevel(r, if "=" <= text then text[1..] else text, rest)
    ensures Compacted(r, [r.flag], verbosity) == None
  {
    assert ([r.flag, text] + rest)[2..] == rest;
  }

  /** Any other argument is kept: one that does not start with the flag, or goes on with a letter. */
  lemma OtherArgumentIsKept(r: Reader, arg: string, rest: seq<string>, verbosity: int)
    requires forall text | arg == r.flag + text :: text != "" && r.alpha(text[0])
    ensures Compacted(r, [arg] + rest, verbosity)
         == var c := Compacted(r, rest, verbosity);
            if c.None? then None else Some(([arg] + c.value.0, c.value.1))
  {
    assert ([arg] + rest)[1..] == rest;
    if r.flag <= arg {
      assert arg == r.flag + arg[|r.flag|..];
    }
  }
}
