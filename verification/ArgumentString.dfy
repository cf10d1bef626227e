/** The escaped, printable form in which the logger keeps the program's arguments, and its decoder. */
module ArgumentString {
  import opened Outcomes

  function HexDigit(n: nat): char
    requires n < 16
  {
    if n < 10 then ('0' as int + n) as char else ('A' as int + n - 10) as char
  }

  /** The escapes with a letter of their own, as (character, letter). */
  const LETTERS: map<char, char> := map[
    7 as char := 'a', 8 as char := 'b', 12 as char := 'f', '\n' := 'n', '\r' := 'r', '\t' := 't',
    11 as char := 'v', '\\' := '\\', '\'' := '\'', '\"' := '\"', ' ' := ' ']

  function EscapeChar(c: char): string {
    if c in LETTERS then ['\\', LETTERS[c]]
    else if c as int < 0x20 then ['\\', 'x', HexDigit(c as int / 16), HexDigit(c as int % 16)]
    else [c]
  }

  function Escape(s: string): string {
    if s == "" then "" else Escape(s[..|s| - 1]) + EscapeChar(s[|s| - 1])
  }

  /** The escaped arguments, with one space between. */
  function Joined(args: seq<string>): string
    requires args != []
  {
    if |args| == 1 then Escape(args[0])
    else Joined(args[..|args| - 1]) + " " + Escape(args[|args| - 1])
  }

  method EscapeInto(out0: string, s: string) returns (out: string)
    ensures out == out0 + Escape(s)
  {
    hide EscapeChar;
    out := out0;
    for i := 0 to |s|
      invariant out == out0 + Escape(s[..i])
    {
      assert s[..i + 1][..i] == s[..i];
      out := AppendEscaped(out, s[i]);
    }
    assert s[..|s|] == s;
  }

  /** One turn of the loop. */
  method AppendEscaped(out0: string, c: char) returns (out: string)
    ensures out == out0 + EscapeChar(c)
  {
    hide HexDigit;
    out := out0;
    if c as int == 7 { out := out + "\\a"; }
    else if c as int == 8 { out := out + "\\b"; }
    else if c as int == 12 { out := out + "\\f"; }
    else if c == '\n' { out := out + "\\n"; }
    else if c == '\r' { out := out + "\\r"; }
    else if c == '\t' { out := out + "\\t"; }
    else if c as int == 11 { out := out + "\\v"; }
    else if c == '\\' { out := out + "\\\\"; }
    else if c == '\'' { out := out + "\\\'"; }
    else if c == '\"' { out := out + "\\\""; }
    else if c == ' ' { out := out + "\\ "; }
    else if c as int < 0x20 {
      out := out + "\\x";
      out := out + [HexDigit(c as int / 16)];
      out := out + [HexDigit(c as int % 16)];
    } else {
      out := out + [c];
    }
  }

  /** The loop of `init` over argv. */
  method BuildArguments(argv: seq<string>) returns (arguments: string)
    requires argv != []
    ensures arguments == Joined(argv)
  {
    arguments := "";
    for i := 0 to |argv|
      invariant i == 0 ==> arguments == ""
      invariant 0 < i ==> arguments == Joined(argv[..i]) + if i < |argv| then " " else ""
    {
      assert argv[..i + 1][..i] == argv[..i];
      arguments := EscapeInto(arguments, argv[i]);
      if i + 1 < |argv| {
        arguments := arguments + " ";
      }
    }
    assert argv[..|argv|] == argv;
  }

  // ---------- the decoder ----------

  function HexValue(c: char): (n: Option<nat>)
    ensures n.Some? ==> n.value < 16
  {
    if '0' <= c <= '9' then Some(c as int - '0' as int)
    else if 'A' <= c <= 'F' then Some(c as int - 'A' as int + 10)
    else None
  }

  /** The character that an escape letter stands for. */
  function Unletter(c: char): Option<char> {
    match c
    case 'a' => Some(7 as char)
    case 'b' => Some(8 as char)
    case 'f' => Some(12 as char)
    case 'n' => Some('\n')
    case 'r' => Some('\r')
    case 't' => Some('\t')
    case 'v' => Some(11 as char)
    case _ => if c == '\\' || c == '\'' || c == '\"' || c == ' ' then Some(c) else None
  }

  /** A character in front of the first argument. */
  function Prepend(c: char, args: Option<seq<string>>): (r: Option<seq<string>>)
    requires args.Some? ==> args.value != []
    ensures r.Some? ==> r.value != []
  {
    if args.None? then None else Some([[c] + args.value[0]] + args.value[1..])
  }

  /** The arguments that a text lists, if it is well formed. */
  function Decode(text: string): (args: Option<seq<string>>)
    ensures args.Some? ==> args.value != []
    decreases |text|
  {
    if text == "" then Some([""])
    else if text[0] == ' ' then
      var rest := Decode(text[1..]);
      if rest.None? then None else Some([""] + rest.value)
    else if text[0] != '\\' then Prepend(text[0], Decode(text[1..]))
    else if |text| >= 4 && text[1] == 'x' && HexValue(text[2]).Some? && HexValue(text[3]).Some? then
      Prepend((16 * HexValue(text[2]).value + HexValue(text[3]).value) as char, Decode(text[4..]))
    else if |text| >= 2 && Unletter(text[1]).Some? then
      Prepend(Unletter(text[1]).value, Decode(text[2..]))
    else None
  }

  lemma HexRoundTrip(n: nat)
    requires n < 16
    ensures HexValue(HexDigit(n)) == Some(n) && HexDigit(n) as int >= 0x20
  {}

  lemma LetterRoundTrip(c: char)
    requires c in LETTERS
    ensures Unletter(LETTERS[c]) == Some(c) && LETTERS[c] != 'x' && LETTERS[c] as int >= 0x20
  {}

  lemma DecodeCharacter(c: char, text: string)
    ensures Decode(EscapeChar(c) + text) == Prepend(c, Decode(text))
  {
    var escaped := EscapeChar(c) + text;
    if c in LETTERS {
      LetterRoundTrip(c);
      assert escaped[0] == '\\' && escaped[1] == LETTERS[c] && escaped[2..] == text;
    } else if c as int < 0x20 {
      HexRoundTrip(c as int / 16);
      HexRoundTrip(c as int % 16);
      assert escaped[0] == '\\' && escaped[1] == 'x';
      assert escaped[2] == HexDigit(c as int / 16) && escaped[3] == HexDigit(c as int % 16);
      assert escaped[4..] == text;
    } else {
      assert c != ' ' && c != '\\' && escaped[0] == c && escaped[1..] == text;
    }
  }

  lemma {:induction false} DecodeEscaped(s: string, text: string)
    requires Decode(text).Some?
    ensures var rest := Decode(text).value;
            Decode(Escape(s) + text) == Some([s + rest[0]] + rest[1..])
    decreases |s|
  {
    hide EscapeChar, Decode;
    var rest := Decode(text).value;
    if s == "" {
      assert Escape(s) + text == text && s + rest[0] == rest[0] && [rest[0]] + rest[1..] == rest;
    } else {
      var init, last := s[..|s| - 1], s[|s| - 1];
      DecodeCharacter(last, text);
      var more := EscapeChar(last) + text;
      DecodeEscaped(init, more);
      assert Escape(s) + text == Escape(init) + more;
      assert init + ([last] + rest[0]) == s + rest[0];
    }
  }

  lemma {:induction false} DecodeJoined(args: seq<string>, text: string)
    requires args != [] && Decode(text).Some?
    ensures var rest := Decode(text).value;
            Decode(Joined(args) + text) == Some(args[..|args| - 1] + [args[|args| - 1] + rest[0]] + rest[1..])
    decreases |args|
  {
    hide Escape, Decode;
    var rest := Decode(text).value;
    var init, last := args[..|args| - 1], args[|args| - 1];
    DecodeEscaped(last, text);
    if |args| > 1 {
      var more := " " + (Escape(last) + text);
      DecodeSpace(Escape(last) + text);
      DecodeJoined(init, more);
      assert Joined(args) + text == Joined(init) + more;
      assert Decode(more).value == [""] + ([last + rest[0]] + rest[1..]);
      var end := init[|init| - 1];
      assert end + "" == end && init[..|init| - 1] + [end] == init;
      assert Decode(more).value[1..] == [last + rest[0]] + rest[1..];
      assert init + ([last + rest[0]] + rest[1..]) == init + [last + rest[0]] + rest[1..];
    } else {
      assert init == [] && Joined(args) == Escape(last);
      assert init + [last + rest[0]] + rest[1..] == [last + rest[0]] + rest[1..];
    }
  }

  lemma DecodeSpace(text: string)
    requires Decode(text).Some?
    ensures Decode(" " + text) == Some([""] + Decode(text).value)
  {
    assert (" " + text)[1..] == text;
  }

  /** The argument string decodes to the arguments, empty ones included. */
  lemma DecodeUndoesJoined(args: seq<string>)
    requires args != []
    ensures Decode(Joined(args)) == Some(args)
  {
    assert Decode("") == Some([""]);
    hide Joined, Decode;
    DecodeJoined(args, "");
    assert Joined(args) + "" == Joined(args);
    LastIsWhole(args);
  }

  lemma LastIsWhole(args: seq<string>)
    requires args != []
    ensures args[..|args| - 1] + [args[|args| - 1] + [""][0]] + [""][1..] == args
  {
    var last := args[|args| - 1];
    assert last + "" == last;
  }

  /** So no two command lines have the same argument string. */
  lemma JoinedIsInjective(args: seq<string>, args': seq<string>)
    requires args != [] && args' != [] && Joined(args) == Joined(args')
    ensures args == args'
  {
    DecodeUndoesJoined(args);
    DecodeUndoesJoined(args');
  }

  predicate Printable(s: string) {
    forall i | 0 <= i < |s| :: s[i] as int >= 0x20
  }

  lemma {:induction false} EscapedIsPrintable(s: string)
    ensures Printable(Escape(s))
  {
    if s != "" {
      EscapedIsPrintable(s[..|s| - 1]);
      var c := s[|s| - 1];
      assert Printable(EscapeChar(c)) by {
        if c in LETTERS {
          LetterRoundTrip(c);
        } else if c as int < 0x20 {
          HexRoundTrip(c as int / 16);
          HexRoundTrip(c as int % 16);
        }
      }
    }
  }

  /** The argument string has no raw control character. */
  lemma {:induction false} JoinedIsPrintable(args: seq<string>)
    requires args != []
    ensures Printable(Joined(args))
    decreases |args|
  {
    EscapedIsPrintable(args[|args| - 1]);
    if |args| > 1 {
      JoinedIsPrintable(args[..|args| - 1]);
    }
  }

  // ---------- what stands without a backslash ----------

  /** The spaces that no backslash stands before; nothing if some quote or control character has none, or
      a backslash comes last. */
  function BareSpaces(s: string): Option<nat>
    decreases |s|
  {
    if s == "" then Some(0)
    else if s[0] == '\\' then
      if |s| == 1 then None else BareSpaces(s[2..])
    else
      var rest := BareSpaces(s[1..]);
      if rest.None? || s[0] == '\'' || s[0] == '\"' || s[0] as int < 0x20 then None
      else Some(rest.value + if s[0] == ' ' then 1 else 0)
  }

  lemma {:induction false} BareSpacesAdd(a: string, b: string)
    requires BareSpaces(a).Some?
    ensures BareSpaces(a + b)
         == var rest := BareSpaces(b);
            if rest.None? then None else Some(BareSpaces(a).value + rest.value)
    decreases |a|
  {
    if a == "" {
      assert a + b == b;
    } else if a[0] == '\\' {
      assert (a + b)[2..] == a[2..] + b;
      BareSpacesAdd(a[2..], b);
    } else {
      assert (a + b)[1..] == a[1..] + b;
      BareSpacesAdd(a[1..], b);
    }
  }

  lemma HexDigitIsPlain(n: nat)
    requires n < 16
    ensures var c := HexDigit(n); '0' <= c <= '9' || 'A' <= c <= 'F'
  {}

  lemma EscapedCharacterIsCovered(c: char)
    ensures BareSpaces(EscapeChar(c)) == Some(0)
  {
    var e := EscapeChar(c);
    assert BareSpaces("") == Some(0);
    if c in LETTERS {
      assert e[2..] == "";
    } else if c as int < 0x20 {
      var high, low := HexDigit(c as int / 16), HexDigit(c as int % 16);
      assert e[2..] == [high, low] && [high, low][1..] == [low] && [low][1..] == "";
      HexDigitIsPlain(c as int / 16);
      HexDigitIsPlain(c as int % 16);
      assert BareSpaces([low]) == Some(0);
      assert BareSpaces([high, low]) == Some(0);
    } else {
      assert e[1..] == "";
    }
  }

  lemma {:induction false} EscapedIsCovered(s: string)
    ensures BareSpaces(Escape(s)) == Some(0)
  {
    hide EscapeChar;
    if s != "" {
      EscapedIsCovered(s[..|s| - 1]);
      EscapedCharacterIsCovered(s[|s| - 1]);
      BareSpacesAdd(Escape(s[..|s| - 1]), EscapeChar(s[|s| - 1]));
    }
  }

  /** Every quote, blank and control character of the arguments has its backslash: the only bare spaces
      are the ones between the arguments. */
  lemma {:induction false} OnlySeparatorsAreBare(args: seq<string>)
    requires args != []
    ensures BareSpaces(Joined(args)) == Some(|args| - 1)
    decreases |args|
  {
    hide Escape;
    var last := Escape(args[|args| - 1]);
    EscapedIsCovered(args[|args| - 1]);
    if |args| > 1 {
      var init := Joined(args[..|args| - 1]);
      OnlySeparatorsAreBare(args[..|args| - 1]);
      assert BareSpaces(" ") == Some(1) by { OneSpace(); }
      BareSpacesAdd(init, " ");
      BareSpacesAdd(init + " ", last);
    }
  }

  lemma OneSpace()
    ensures BareSpaces(" ") == Some(1)
  {
    assert " "[1..] == "";
  }

  lemma EscapeOne(c: char)
    ensures Escape([c]) == EscapeChar(c)
  {
    assert [c][..0] == "";
  }

  /** The escapes are those of C. */
  lemma EscapesOfC()
    ensures Escape(['\n']) == ['\\', 'n'] && Escape(['\r']) == ['\\', 'r'] && Escape(['\t']) == ['\\', 't']
    ensures Escape([7 as char]) == ['\\', 'a'] && Escape([8 as char]) == ['\\', 'b']
    ensures Escape([12 as char]) == ['\\', 'f'] && Escape([11 as char]) == ['\\', 'v']
    ensures forall c | c == '\\' || c == '\'' || c == '\"' || c == ' ' :: Escape([c]) == ['\\', c]
    ensures Escape([27 as char]) == ['\\', 'x', '1', 'B']
  {
    hide Escape;
    forall c: char ensures Escape([c]) == EscapeChar(c) {
      EscapeOne(c);
    }
  }
}
