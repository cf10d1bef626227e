/** The fixed token grammars of the command-line parser: which argv tokens are flags, and which
    strings name an option when it is registered.  The two regular expressions are recognised by
    hand; the lemmas state that the recognisers accept exactly the languages of the expressions. */
module OptionSyntax {
  import opened Outcomes

  /** `[[:alnum:]]` in the C locale. */
  predicate IsAlnum(c: char) {
    '0' <= c <= '9' || 'a' <= c <= 'z' || 'A' <= c <= 'Z'
  }

  /** `[-_[:alnum:]]` */
  predicate IsNameChar(c: char) {
    IsAlnum(c) || c == '-' || c == '_'
  }

  /** `[[:alnum:]][-_[:alnum:]]+` */
  predicate IsLongName(s: string) {
    |s| >= 2 && IsAlnum(s[0]) && forall i | 1 <= i < |s| :: IsNameChar(s[i])
  }

  /** `[[:alnum:]]+` */
  predicate IsCluster(s: string) {
    s != [] && forall i | 0 <= i < |s| :: IsAlnum(s[i])
  }

  /** `.*`: in the ECMAScript grammar a dot matches no line terminator. */
  predicate IsText(s: string) {
    forall i | 0 <= i < |s| :: s[i] != '\n' && s[i] != '\r'
  }

  const DIGITS := "0123456789"
  const LOWER_CASE := "abcdefghijklmnopqrstuvwxyz"
  const UPPER_CASE := "ABCDEFGHIJKLMNOPQRSTUVWXYZ"

  /** The character classes, by their members. */
  lemma ClassesAreThese(c: char)
    ensures IsAlnum(c) <==> c in DIGITS || c in LOWER_CASE || c in UPPER_CASE
    ensures IsNameChar(c) <==> c in DIGITS || c in LOWER_CASE || c in UPPER_CASE || c in "-_"
  {
    DigitsAre(c);
    LowerCaseIs(c);
    UpperCaseIs(c);
    assert "-_"[0] == '-' && "-_"[1] == '_';
  }

  lemma DigitsAre(c: char)
    ensures c in DIGITS <==> '0' <= c <= '9'
  {
    if '0' <= c <= '9' {
      assert DIGITS[c as int - '0' as int] == c;
    }
  }

  lemma LowerCaseIs(c: char)
    ensures c in LOWER_CASE <==> 'a' <= c <= 'z'
  {
    if 'a' <= c <= 'z' {
      assert LOWER_CASE[c as int - 'a' as int] == c;
    }
  }

  lemma UpperCaseIs(c: char)
    ensures c in UPPER_CASE <==> 'A' <= c <= 'Z'
  {
    if 'A' <= c <= 'Z' {
      assert UPPER_CASE[c as int - 'A' as int] == c;
    }
  }

  /** The groups of the expressions, by their characters. */
  lemma GroupsAreThese(s: string)
    ensures IsText(s) <==> '\n' !in s && '\r' !in s
    ensures IsCluster(s) <==> s != "" && forall c | c in s :: IsAlnum(c)
    ensures IsLongName(s) <==> |s| > 1 && IsAlnum(s[0]) && forall c | c in s[1..] :: IsNameChar(c)
  {
    hide IsAlnum, IsNameChar;
    if |s| > 1 {
      assert forall i | 1 <= i < |s| :: s[i] == s[1..][i - 1];
    }
  }

  /** What the main loop of the parser distinguishes. */
  datatype Token =
    | DoubleDash
    | Cluster(letters: string)
    | Long(name: string)
    | LongWithValue(name: string, text: string)
    | Plain

  /** The index of the first `c` in `s`, or the length of `s`. */
  function IndexOf(s: string, c: char): (i: nat)
    ensures i <= |s|
    ensures forall j | 0 <= j < i :: s[j] != c
    ensures i < |s| ==> s[i] == c
  {
    if s == [] || s[0] == c then 0 else 1 + IndexOf(s[1..], c)
  }

  function Classify(token: string): Token {
    if token == "--" then
      DoubleDash
    else if "--" <= token then
      var body := token[2..];
      var i := IndexOf(body, '=');
      if !IsLongName(body[..i]) then Plain
      else if i == |body| then Long(body)
      else if IsText(body[i + 1..]) then LongWithValue(body[..i], body[i + 1..])
      else Plain
    else if "-" <= token && IsCluster(token[1..]) then
      Cluster(token[1..])
    else
      Plain
  }

  /** The tokens, rebuilt. */
  function Unclassify(token: Token): string
    requires !token.Plain?
  {
    match token
    case DoubleDash => "--"
    case Cluster(letters) => "-" + letters
    case Long(name) => "--" + name
    case LongWithValue(name, text) => "--" + name + "=" + text
  }

  /** The side conditions that the expression puts on its groups. */
  predicate InGrammar(token: Token) {
    match token
    case DoubleDash => true
    case Cluster(letters) => IsCluster(letters)
    case Long(name) => IsLongName(name)
    case LongWithValue(name, text) => IsLongName(name) && IsText(text)
    case Plain => true
  }

  lemma IndexOfFirst(before: string, c: char, after: string)
    requires forall i | 0 <= i < |before| :: before[i] != c
    ensures IndexOf(before + [c] + after, c) == |before|
  {
    var s := before + [c] + after;
    assert s[|before|] == c;
    assert forall i | 0 <= i < |before| :: s[i] == before[i];
  }

  lemma IndexOfAbsent(s: string, c: char)
    requires forall i | 0 <= i < |s| :: s[i] != c
    ensures IndexOf(s, c) == |s|
  {}

  lemma NameHasNoEquals(name: string)
    requires IsLongName(name)
    ensures forall i | 0 <= i < |name| :: name[i] != '='
  {
    forall i | 0 <= i < |name| ensures name[i] != '=' {
      assert i == 0 || IsNameChar(name[i]);
    }
  }

  lemma LongIsRecognised(name: string)
    requires IsLongName(name)
    ensures Classify("--" + name) == Long(name)
  {
    NameHasNoEquals(name);
    IndexOfAbsent(name, '=');
    assert ("--" + name)[2..] == name && "--" <= "--" + name;
  }

  lemma LongWithValueIsRecognised(name: string, text: string)
    requires IsLongName(name) && IsText(text)
    ensures Classify("--" + name + "=" + text) == LongWithValue(name, text)
  {
    NameHasNoEquals(name);
    IndexOfFirst(name, '=', text);
    var token := "--" + name + "=" + text;
    assert token[2..] == name + ['='] + text;
    assert "--" <= token && |token| > 2;
    assert token[2..][..|name|] == name && token[2..][|name| + 1..] == text;
  }

  lemma ClusterIsRecognised(letters: string)
    requires IsCluster(letters)
    ensures Classify("-" + letters) == Cluster(letters)
  {
    var token := "-" + letters;
    assert token[1] == letters[0] && IsAlnum(token[1]);
    assert token[1..] == letters && "-" <= token;
  }

  lemma ClassifiedTokenIsInGrammar(token: string)
    ensures InGrammar(Classify(token))
    ensures !Classify(token).Plain? ==> token == Unclassify(Classify(token))
  {
    if token == "--" {
    } else if "--" <= token {
      var body := token[2..];
      var i := IndexOf(body, '=');
      assert body[..|body|] == body;
      assert token == "--" + body;
      if i < |body| {
        assert body == body[..i] + "=" + body[i + 1..];
        assert token == "--" + body[..i] + "=" + body[i + 1..];
      }
    } else if "-" <= token {
      assert token == "-" + token[1..];
    }
  }

  /** The recogniser decides the expression: a token reads as a flag form exactly when it is that
      form's text with groups of the required shape. */
  lemma ClassifyDecidesGrammar(token: string, form: Token)
    requires !form.Plain?
    ensures Classify(token) == form <==> InGrammar(form) && token == Unclassify(form)
  {
    if InGrammar(form) && token == Unclassify(form) {
      match form
      case DoubleDash =>
      case Cluster(letters) => ClusterIsRecognised(letters);
      case Long(name) => LongIsRecognised(name);
      case LongWithValue(name, text) => LongWithValueIsRecognised(name, text);
    }
    if Classify(token) == form {
      ClassifiedTokenIsInGrammar(token);
    }
  }

  // ---------- option specifiers ----------

  /** How many blanks `s` starts with. */
  function LeadingBlanks(s: string): (n: nat)
    ensures n <= |s|
    ensures forall i | 0 <= i < n :: s[i] == ' '
    ensures n < |s| ==> s[n] != ' '
  {
    if s == [] || s[0] != ' ' then 0 else 1 + LeadingBlanks(s[1..])
  }

  /** A registered short name: absent, or one letter or digit. */
  predicate IsShort(s: string) {
    s == "" || (|s| == 1 && IsAlnum(s[0]))
  }

  /** A registered long name: absent, or a name that the flag grammar can spell. */
  predicate IsLong(s: string) {
    s == "" || IsLongName(s)
  }

  predicate IsBlank(s: string) {
    forall i | 0 <= i < |s| :: s[i] == ' '
  }

  /** Two names as a specifier, with blanks after the comma. */
  function Specifier(shortName: string, blanks: string, longName: string): string {
    (if shortName == "" then "" else shortName + ",") + blanks + longName
  }

  lemma Rejoin(spec: string, rest: string, n: nat)
    requires n <= |rest|
    ensures "" + rest[..n] + rest[n..] == rest
    ensures |spec| >= 2 && spec[1] == ',' && rest == spec[2..] ==> spec[..1] + "," + rest[..n] + rest[n..] == spec
  {}

  /** The groups of the specifier expression: the name before a comma, blanks, and what is left. */
  function SpecifierGroups(spec: string): (g: (string, string, string))
    ensures IsShort(g.0) && IsBlank(g.1) && spec == Specifier(g.0, g.1, g.2)
  {
    var hasShort := |spec| >= 2 && IsAlnum(spec[0]) && spec[1] == ',';
    var rest := if hasShort then spec[2..] else spec;
    var n := LeadingBlanks(rest);
    Rejoin(spec, rest, n);
    (if hasShort then spec[..1] else "", rest[..n], rest[n..])
  }

  /** The names that `OptionAdder` reads off a specifier such as `c,config`, as (short, long). */
  function SplitSpecifier(spec: string): (r: Option<(string, string)>)
    ensures r.Some? ==> IsShort(r.value.0) && IsLong(r.value.1) && r.value != ("", "")
  {
    var (shortName, _, longName) := SpecifierGroups(spec);
    if longName == "" then
      if shortName != "" then Some((shortName, "")) else None
    else if |longName| == 1 then
      if shortName != "" || !IsAlnum(longName[0]) then None else Some((longName, ""))
    else if IsLongName(longName) then
      Some((shortName, longName))
    else
      None
  }

  lemma LeadingBlanksOf(blanks: string, rest: string)
    requires IsBlank(blanks) && (rest != "" ==> rest[0] != ' ')
    ensures LeadingBlanks(blanks + rest) == |blanks|
  {
    var s := blanks + rest;
    assert forall i | 0 <= i < |blanks| :: s[i] == blanks[i];
    assert rest != "" ==> s[|blanks|] == rest[0];
  }

  lemma StartsBlank(blanks: string)
    requires IsBlank(blanks)
    ensures blanks != "" ==> blanks[0] == ' '
  {}

  lemma GroupsOf(shortName: string, blanks: string, rest: string)
    requires IsShort(shortName) && IsBlank(blanks) && (rest != "" ==> rest[0] != ' ')
    requires shortName == "" && blanks == "" && |rest| >= 2 ==> rest[1] != ','
    ensures SpecifierGroups(Specifier(shortName, blanks, rest)) == (shortName, blanks, rest)
  {
    hide LeadingBlanks, IsBlank;
    var spec, tail := Specifier(shortName, blanks, rest), blanks + rest;
    LeadingBlanksOf(blanks, rest);
    assert tail[..|blanks|] == blanks && tail[|blanks|..] == rest;
    if shortName == "" {
      assert spec == tail;
      assert blanks != "" ==> spec[0] == ' ' by {
        assert blanks != "" ==> spec[0] == blanks[0];
        StartsBlank(blanks);
      }
    } else {
      assert spec == shortName + "," + tail;
      assert spec[0] == shortName[0] && spec[1] == ',' && spec[..1] == shortName && spec[2..] == tail;
    }
  }

  /** Writing a pair of names as a specifier, with any blanks after the comma, and registering it
      gives the same names back. */
  lemma SpecifierRoundTrip(shortName: string, longName: string, blanks: string)
    requires IsShort(shortName) && IsLong(longName) && (shortName, longName) != ("", "") && IsBlank(blanks)
    ensures SplitSpecifier(Specifier(shortName, blanks, longName)) == Some((shortName, longName))
  {
    hide SpecifierGroups;
    assert longName != "" ==> IsNameChar(longName[1]);
    GroupsOf(shortName, blanks, longName);
  }

  /** The specifiers of two names, and no others: the names with some blanks between them, or before a
      short name that stands alone. */
  ghost predicate IsSpecifierOf(spec: string, shortName: string, longName: string) {
    && IsShort(shortName) && IsLong(longName) && (shortName, longName) != ("", "")
    && exists blanks: string | IsBlank(blanks) ::
         || spec == Specifier(shortName, blanks, longName)
         || (longName == "" && spec == blanks + shortName)
  }

  /** The recogniser decides the specifier expression and reads the names off it. */
  lemma SplitDecidesSpecifier(spec: string, shortName: string, longName: string)
    ensures SplitSpecifier(spec) == Some((shortName, longName)) <==> IsSpecifierOf(spec, shortName, longName)
  {
    hide SpecifierGroups;
    if IsSpecifierOf(spec, shortName, longName) {
      var blanks: string :| IsBlank(blanks) &&
        (spec == Specifier(shortName, blanks, longName) || (longName == "" && spec == blanks + shortName));
      if spec == Specifier(shortName, blanks, longName) {
        SpecifierRoundTrip(shortName, longName, blanks);
      } else {
        GroupsOf("", blanks, shortName);
        assert spec == Specifier("", blanks, shortName);
      }
    }
    var g := SpecifierGroups(spec);
    if SplitSpecifier(spec) == Some((shortName, longName)) {
      assert spec == Specifier(g.0, g.1, g.2);
    }
  }
}
