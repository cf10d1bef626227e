/** Two spellings of a flag mean the same: `--name=text` and `--name text`, `-abc` and `-a -b -c`,
    wherever the main loop reads them as flags and whatever stands around them. */
module ArgvRewriting {
  import opened Outcomes
  import opened OptionSyntax
  import opened OptionValues
  import opened OptionParsing
  import ArgvRoles

  /** The state in which the main loop reads `tokens[i]`, if it ever stands there. */
  ghost function StateAt(cfg: Config, st: State, tokens: seq<string>, i: nat): Option<State>
    requires i <= |tokens|
    decreases i
  {
    if i == 0 then Some(st)
    else if tokens[0] == "--" then None
    else
      var m := Step(cfg, st, tokens);
      if m.Failure? || m.value.width > i then None
      else StateAt(cfg, m.value.state, tokens[m.value.width..], i - m.value.width)
  }

  // ---------- the loop before a position does not see what stands after it ----------

  /** A flag looks at no token after the next one, and at that one only if it takes it. */
  lemma {:induction false} ClusterIsLocal(
    cfg: Config, store: Store, letters: string, rest: seq<string>, rest': seq<string>)
    requires rest != [] && rest' != []
    ensures var r, r' := ParseCluster(cfg, store, letters, rest), ParseCluster(cfg, store, letters, rest');
            && (rest[0] == rest'[0] ==> r == r')
            && (r.Success? && r.value.used == 0 ==> r == r')
    decreases |letters|
  {
    hide StoreOption;
    if letters != "" {
      var name := letters[..1];
      if name !in cfg.options {
        ClusterIsLocal(cfg, store, letters[1..], rest, rest');
      } else if |letters| > 1 && cfg.options[name].hasImplicit {
        var s := StoreOption(store, cfg.options[name], cfg.options[name].implicitText);
        if s.Success? {
          ClusterIsLocal(cfg, s.value, letters[1..], rest, rest');
        }
      }
    }
  }

  lemma StepIsLocal(
    cfg: Config, st: State, before: seq<string>, after: seq<string>, after': seq<string>)
    requires before != [] && before[0] != "--" && after != [] && after' != []
    ensures var m, m' := Step(cfg, st, before + after), Step(cfg, st, before + after');
            m.Success? && m.value.width <= |before| ==> m == m'
  {
    hide StoreOption, ParseCluster, ConsumePositional, Classify;
    var rest, rest' := (before + after)[1..], (before + after')[1..];
    assert |before| > 1 ==> rest[0] == before[1] == rest'[0];
    assert (before + after)[0] == before[0] == (before + after')[0];
    if Classify(before[0]).Cluster? {
      ClusterIsLocal(cfg, st.store, Classify(before[0]).letters, rest, rest');
    }
  }

  lemma {:induction false} PrefixDecidesState(
    cfg: Config, st: State, before: seq<string>, after: seq<string>, after': seq<string>)
    requires after != [] && after' != []
    ensures StateAt(cfg, st, before + after, |before|) == StateAt(cfg, st, before + after', |before|)
    decreases |before|
  {
    hide Step;
    if before != [] && before[0] != "--" {
      StepIsLocal(cfg, st, before, after, after');
      StepIsLocal(cfg, st, before, after', after);
      var m := Step(cfg, st, before + after);
      if m.Success? && m.value.width <= |before| {
        var w := m.value.width;
        assert (before + after)[w..] == before[w..] + after;
        assert (before + after')[w..] == before[w..] + after';
        PrefixDecidesState(cfg, m.value.state, before[w..], after, after');
      }
    }
  }

  lemma {:induction false} LoopFromPosition(cfg: Config, st: State, before: seq<string>, after: seq<string>)
    requires StateAt(cfg, st, before + after, |before|).Some?
    ensures Loop(cfg, st, before + after)
         == Loop(cfg, StateAt(cfg, st, before + after, |before|).value, after)
    decreases |before|
  {
    hide Step;
    if before == [] {
      assert before + after == after;
    } else {
      var m := Step(cfg, st, before + after).value;
      assert (before + after)[m.width..] == before[m.width..] + after;
      LoopFromPosition(cfg, m.state, before[m.width..], after);
    }
  }

  /** Tokens that the loop cannot tell apart in any state may replace each other anywhere. */
  lemma ReplaceInContext(
    cfg: Config, order: seq<string>, before: seq<string>, one: seq<string>, other: seq<string>)
    requires AllRegistered(cfg, order) && one != [] && other != []
    requires StateAt(cfg, START, before + one, |before|).Some?
    requires forall st :: Loop(cfg, st, one) == Loop(cfg, st, other)
    ensures Parse(cfg, order, before + one) == Parse(cfg, order, before + other)
  {
    hide Loop, ApplyDefaults, TakeRest, StateAt;
    PrefixDecidesState(cfg, START, before, one, other);
    LoopFromPosition(cfg, START, before, one);
    LoopFromPosition(cfg, START, before, other);
  }

  // ---------- --name=text ----------

  /** `--name=text` and `--name text` are interchangeable for an option that has no implicit value,
      and, in strict mode, for an unknown one. */
  predicate TakesNextToken(cfg: Config, name: string) {
    if name in cfg.options then !cfg.options[name].hasImplicit else !cfg.lenient
  }

  lemma EqualsLoop(cfg: Config, st: State, name: string, text: string, after: seq<string>)
    requires IsLongName(name) && IsText(text) && TakesNextToken(cfg, name)
    ensures Loop(cfg, st, ["--" + name + "=" + text] + after) == Loop(cfg, st, ["--" + name, text] + after)
  {
    hide StoreOption, Classify;
    LongWithValueIsRecognised(name, text);
    LongIsRecognised(name);
    var one, two := ["--" + name + "=" + text] + after, ["--" + name, text] + after;
    assert one[0] == "--" + name + "=" + text && one[1..] == after;
    assert two[0] == "--" + name && two[1..] == [text] + after && two[2..] == after;
    assert |one[0]| > 2 && |two[0]| > 2;
  }

  lemma {:induction false} EqualsIsSeparateValue(
    cfg: Config, order: seq<string>, before: seq<string>, name: string, text: string, after: seq<string>)
    requires AllRegistered(cfg, order)
    requires IsLongName(name) && IsText(text) && TakesNextToken(cfg, name)
    requires StateAt(cfg, START, before + (["--" + name + "=" + text] + after), |before|).Some?
    ensures Parse(cfg, order, before + (["--" + name + "=" + text] + after))
         == Parse(cfg, order, before + (["--" + name, text] + after))
  {
    var one, two := ["--" + name + "=" + text] + after, ["--" + name, text] + after;
    forall st ensures Loop(cfg, st, one) == Loop(cfg, st, two) {
      EqualsLoop(cfg, st, name, text, after);
    }
    ReplaceInContext(cfg, order, before, one, two);
  }

  /** The loop moves past one token, which changed nothing but the store. */
  function MoveOn(st: State, store: Result<Store, Error>): Result<Move, Error> {
    if store.Success? then Success(Move(st.(store := store.value), 1)) else Failure(store.error)
  }

  /** The condition is needed: an option with an implicit value takes the attached text, but leaves
      the next token alone and takes its implicit value instead. */
  lemma ImplicitValueLeavesNextToken(
    cfg: Config, st: State, name: string, text: string, after: seq<string>)
    requires IsLongName(name) && IsText(text) && name in cfg.options && cfg.options[name].hasImplicit
    ensures var d := cfg.options[name];
            && Step(cfg, st, ["--" + name + "=" + text] + after) == MoveOn(st, StoreOption(st.store, d, text))
            && Step(cfg, st, ["--" + name] + ([text] + after))
               == MoveOn(st, StoreOption(st.store, d, d.implicitText))
  {
    hide Classify, StoreOption;
    LongWithValueIsRecognised(name, text);
    LongIsRecognised(name);
    assert |"--" + name + "=" + text| > 2 && |"--" + name| > 2;
  }

  // ---------- -abc ----------

  function Singles(letters: string): seq<string> {
    if letters == "" then [] else ["-" + letters[..1]] + Singles(letters[1..])
  }

  /** All letters but the last carry their value with them, or are not registered. */
  predicate OnlyLastTakesValue(cfg: Config, letters: string) {
    forall i | 0 <= i < |letters| - 1 ::
      [letters[i]] in cfg.options ==> cfg.options[[letters[i]]].hasImplicit
  }

  lemma OneLetter(cfg: Config, store: Store, name: string, rest: seq<string>)
    requires |name| == 1
    ensures ParseCluster(cfg, store, name, rest)
         == if name in cfg.options then CheckedParseArg(store, cfg.options[name], name, rest)
            else if cfg.lenient then Success(Advance(store, 0))
            else Failure(OptionNotExists(name))
  {
    hide StoreOption, CheckedParseArg;
    assert name[..1] == name && name[1..] == "";
  }

  /** A cluster is its first letter, which takes no token, and then the other letters. */
  lemma FirstLetter(
    cfg: Config, store: Store, letters: string, rest: seq<string>, after: seq<string>)
    requires |letters| > 1 && OnlyLastTakesValue(cfg, letters)
    ensures var first := ParseCluster(cfg, store, letters[..1], rest);
            && (first.Success? ==> first.value.used == 0)
            && ParseCluster(cfg, store, letters, after)
               == if first.Success? then ParseCluster(cfg, first.value.store, letters[1..], after)
                  else Failure(first.error)
  {
    hide StoreOption, ParseCluster;
    assert letters[..1] == [letters[0]];
    OneLetter(cfg, store, letters[..1], rest);
    UnfoldCluster(cfg, store, letters, after);
  }

  lemma UnfoldCluster(cfg: Config, store: Store, letters: string, after: seq<string>)
    requires |letters| > 1 && OnlyLastTakesValue(cfg, letters)
    ensures var name := letters[..1];
            ParseCluster(cfg, store, letters, after)
            == if name !in cfg.options then
                 if cfg.lenient then ParseCluster(cfg, store, letters[1..], after)
                 else Failure(OptionNotExists(name))
               else
                 var s := StoreOption(store, cfg.options[name], cfg.options[name].implicitText);
                 if s.Success? then ParseCluster(cfg, s.value, letters[1..], after)
                 else Failure(s.error)
  {
    hide StoreOption, CheckedParseArg;
    assert letters[..1] == [letters[0]];
  }

  /** A step of the loop at a cluster token. */
  lemma ClusterStep(cfg: Config, st: State, letters: string, after: seq<string>)
    requires IsCluster(letters)
    ensures "-" + letters != "--"
    ensures var a := ParseCluster(cfg, st.store, letters, after);
            Step(cfg, st, ["-" + letters] + after)
            == if a.Success? then Success(Move(st.(store := a.value.store), 1 + a.value.used))
               else Failure(a.error)
  {
    hide ParseCluster, Classify;
    ClusterIsRecognised(letters);
    assert ("-" + letters)[1] == letters[0];
    assert (["-" + letters] + after)[1..] == after;
  }

  lemma {:induction false} ClusterLoop(cfg: Config, st: State, letters: string, after: seq<string>)
    requires IsCluster(letters) && OnlyLastTakesValue(cfg, letters)
    ensures Loop(cfg, st, ["-" + letters] + after) == Loop(cfg, st, Singles(letters) + after)
    decreases |letters|
  {
    hide Step, ParseCluster, Loop;
    if |letters| == 1 {
      assert letters[..1] == letters && letters[1..] == "";
      assert Singles(letters) == ["-" + letters];
    } else {
      var others := letters[1..];
      assert IsCluster(others) && OnlyLastTakesValue(cfg, others);
      SplitFirstLetter(cfg, st, letters, after, ["-" + others] + after);
      SplitFirstLetter(cfg, st, letters, after, Singles(others) + after);
      var first := ParseCluster(cfg, st.store, letters[..1], after);
      assert Singles(letters) + after == ["-" + letters[..1]] + (Singles(others) + after);
      UnfoldLoopAtCluster(cfg, st, letters, after);
      if first.Success? {
        var st' := st.(store := first.value.store);
        ClusterLoop(cfg, st', others, after);
        FirstLetter(cfg, st.store, letters, after, after);
        UnfoldLoopAtCluster(cfg, st', others, after);
      } else {
        FirstLetter(cfg, st.store, letters, after, after);
      }
    }
  }

  lemma UnfoldLoopAtCluster(cfg: Config, st: State, letters: string, after: seq<string>)
    requires IsCluster(letters)
    ensures var a := ParseCluster(cfg, st.store, letters, after);
            Loop(cfg, st, ["-" + letters] + after)
            == if a.Success? then Loop(cfg, st.(store := a.value.store), after[a.value.used..])
               else Failure(a.error)
  {
    hide Step, ParseCluster;
    var tokens := ["-" + letters] + after;
    ClusterStep(cfg, st, letters, after);
    var a := ParseCluster(cfg, st.store, letters, after);
    if a.Success? {
      assert tokens[1 + a.value.used..] == after[a.value.used..];
    }
  }

  /** The loop at the first letter alone moves on to whatever follows. */
  lemma SplitFirstLetter(
    cfg: Config, st: State, letters: string, after: seq<string>, rest: seq<string>)
    requires IsCluster(letters) && |letters| > 1 && OnlyLastTakesValue(cfg, letters)
    ensures var first := ParseCluster(cfg, st.store, letters[..1], after);
            Loop(cfg, st, ["-" + letters[..1]] + rest)
            == if first.Success? then Loop(cfg, st.(store := first.value.store), rest)
               else Failure(first.error)
  {
    hide Step, ParseCluster, Loop;
    assert letters[..1] == [letters[0]];
    UnfoldLoopAtCluster(cfg, st, letters[..1], rest);
    OneLetter(cfg, st.store, letters[..1], after);
    OneLetter(cfg, st.store, letters[..1], rest);
    assert rest[0..] == rest;
  }

  lemma {:induction false} ClusterIsSingles(
    cfg: Config, order: seq<string>, before: seq<string>, letters: string, after: seq<string>)
    requires AllRegistered(cfg, order)
    requires IsCluster(letters) && OnlyLastTakesValue(cfg, letters)
    requires StateAt(cfg, START, before + (["-" + letters] + after), |before|).Some?
    ensures Parse(cfg, order, before + (["-" + letters] + after))
         == Parse(cfg, order, before + (Singles(letters) + after))
  {
    forall st ensures Loop(cfg, st, ["-" + letters] + after) == Loop(cfg, st, Singles(letters) + after) {
      ClusterLoop(cfg, st, letters, after);
    }
    ReplaceInContext(cfg, order, before, ["-" + letters] + after, Singles(letters) + after);
  }

  /** The condition is exact for the cluster itself: with a letter before the last one that wants a
      text, the cluster is refused in every state. */
  lemma RefusedCluster(cfg: Config, st: State, letters: string, after: seq<string>)
    requires IsCluster(letters) && !OnlyLastTakesValue(cfg, letters)
    ensures Loop(cfg, st, ["-" + letters] + after).Failure?
  {
    hide Loop, ParseCluster, ArgvRoles.LettersFit;
    UnfoldLoopAtCluster(cfg, st, letters, after);
    if ParseCluster(cfg, st.store, letters, after).Success? {
      ArgvRoles.ClusterFits(cfg, st.store, letters, after);
      FittingLettersTakeNoValue(cfg, letters);
    }
  }

  lemma {:induction false} FittingLettersTakeNoValue(cfg: Config, letters: string)
    requires ArgvRoles.LettersFit(cfg, letters)
    ensures OnlyLastTakesValue(cfg, letters)
    decreases |letters|
  {
    if letters != "" {
      var others := letters[1..];
      FittingLettersTakeNoValue(cfg, others);
      assert letters[..1] == [letters[0]];
      assert forall i | 1 <= i < |letters| :: letters[i] == others[i - 1];
    }
  }

  /** A cluster never means anything else than its flags: when the parse with it succeeds, the parse
      with the flags gives the same, whatever its letters are. */
  lemma {:induction false} AcceptedClusterIsSingles(
    cfg: Config, order: seq<string>, before: seq<string>, letters: string, after: seq<string>)
    requires AllRegistered(cfg, order) && IsCluster(letters)
    requires StateAt(cfg, START, before + (["-" + letters] + after), |before|).Some?
    requires Parse(cfg, order, before + (["-" + letters] + after)).Success?
    ensures OnlyLastTakesValue(cfg, letters)
    ensures Parse(cfg, order, before + (["-" + letters] + after))
         == Parse(cfg, order, before + (Singles(letters) + after))
  {
    hide Loop, ApplyDefaults, TakeRest, StateAt, OnlyLastTakesValue, IsCluster;
    var one := ["-" + letters] + after;
    LoopFromPosition(cfg, START, before, one);
    if !OnlyLastTakesValue(cfg, letters) {
      RefusedCluster(cfg, StateAt(cfg, START, before + one, |before|).value, letters, after);
    }
    ClusterIsSingles(cfg, order, before, letters, after);
  }

  /** The other way round the condition is needed: when the first letter wants a text, the cluster is
      refused, while its flag parses and takes the second flag as its value. */
  lemma ClusterNeedsImplicitValues(cfg: Config, st: State, letters: string, after: seq<string>)
    requires IsCluster(letters) && |letters| >= 2 && letters[..1] in cfg.options
    requires !cfg.options[letters[..1]].hasImplicit
    requires StoreOption(st.store, cfg.options[letters[..1]], "-" + letters[1..2]).Success?
    ensures Loop(cfg, st, ["-" + letters] + after) == Failure(RequiresArgument(letters[..1]))
    ensures var store := StoreOption(st.store, cfg.options[letters[..1]], "-" + letters[1..2]).value;
            Loop(cfg, st, Singles(letters) + after)
            == Loop(cfg, st.(store := store), Singles(letters[2..]) + after)
  {
    hide Step, Loop, StoreOption;
    var a, b, others := letters[..1], letters[1..2], letters[2..];
    assert a == [letters[0]];
    UnfoldLoopAtCluster(cfg, st, letters, after);
    var rest := ["-" + b] + (Singles(others) + after);
    assert letters[1..][..1] == b && letters[1..][1..] == others;
    assert Singles(letters) + after == ["-" + a] + rest;
    OneLetter(cfg, st.store, a, rest);
    UnfoldLoopAtCluster(cfg, st, a, rest);
    assert rest[1..] == Singles(others) + after;
  }
}
