/** Why a command line is refused: the error names the first fault, and everything before it suits. */
module ArgvFaults {
  import opened Outcomes
  import opened OptionSyntax
  import opened OptionValues
  import opened OptionParsing
  import opened ArgvRoles
  import opened ParsedState
  import opened ArgvAcceptance

  // ---------- faults ----------

  /** The text is no value of the type; the error names it, or its first bad piece. */
  ghost predicate BadText(kind: Kind, text: string, e: Error) {
    match kind
    case Scalar(of) => ScalarOf(of, text).Failure? && e == IncorrectType(text)
    case Vector(of) =>
      exists i | 0 <= i < |Pieces(text)| ::
        && ScalarOf(of, Pieces(text)[i]).Failure? && e == IncorrectType(Pieces(text)[i])
        && forall k | 0 <= k < i :: ScalarOf(of, Pieces(text)[k]).Success?
  }

  /** A flag without an attached text, registered as `name`, before `rest`. */
  ghost predicate FlagFault(cfg: Config, name: string, rest: seq<string>, e: Error)
    requires name in cfg.options
  {
    var d := cfg.options[name];
    if d.hasImplicit then BadText(d.kind, d.implicitText, e)
    else if rest == [] then e == MissingArgument(name)
    else BadText(d.kind, rest[0], e)
  }

  /** A letter that is let through, or has a good implicit value. */
  ghost predicate GoodLetter(cfg: Config, name: string) {
    if name in cfg.options then
      cfg.options[name].hasImplicit && Parses(cfg.options[name].kind, cfg.options[name].implicitText)
    else cfg.lenient
  }

  /** The letter at `i` is the first bad one of a cluster. */
  ghost predicate LetterFault(cfg: Config, letters: string, i: nat, rest: seq<string>, e: Error) {
    && i < |letters|
    && (forall k | 0 <= k < i :: GoodLetter(cfg, [letters[k]]))
    && var name := [letters[i]];
       if name !in cfg.options then !cfg.lenient && e == OptionNotExists(name)
       else if i == |letters| - 1 then FlagFault(cfg, name, rest, e)
       else if cfg.options[name].hasImplicit then
         BadText(cfg.options[name].kind, cfg.options[name].implicitText, e)
       else e == RequiresArgument(name)
  }

  /** A token offered to the positional options. */
  ghost predicate OfferFault(cfg: Config, given: seq<Giving>, lo: nat, token: string, e: Error) {
    exists p | 0 <= p < |cfg.positional| ::
      && NextSlot(cfg, given, lo, p)
      && var name := cfg.positional[p];
         if name in cfg.options then BadText(cfg.options[name].kind, token, e) else e == OptionNotExists(name)
  }

  /** The first token, before the others, is what the main loop cannot deal with. */
  ghost predicate Fault(cfg: Config, given: seq<Giving>, lo: nat, tokens: seq<string>, e: Error) {
    && tokens != [] && tokens[0] != "--"
    && match Classify(tokens[0])
       case Cluster(letters) => exists i | 0 <= i < |letters| :: LetterFault(cfg, letters, i, tokens[1..], e)
       case LongWithValue(name, text) =>
         if name in cfg.options then BadText(cfg.options[name].kind, text, e)
         else !cfg.lenient && e == OptionNotExists(name)
       case Long(name) =>
         if name in cfg.options then FlagFault(cfg, name, tokens[1..], e)
         else !cfg.lenient && e == OptionNotExists(name)
       case _ =>
         if "-" <= tokens[0] && tokens[0] != "-" && !cfg.lenient then e == OptionSyntaxError(tokens[0])
         else OfferFault(cfg, given, lo, tokens[0], e)
  }

  // ---------- every failure is a fault ----------

  lemma ParseFault(kind: Kind, text: string, store: Stored)
    requires ParseInto(kind, text, store).Failure?
    ensures BadText(kind, text, ParseInto(kind, text, store).error)
  {
    hide ScalarOf, ScalarsOf, Pieces;
    if kind.Vector? {
      var pieces, e := Pieces(text), ScalarsOf(kind.of, Pieces(text)).error;
      VectorIsRead(kind.of, pieces);
      var i :| 0 <= i < |pieces| && ScalarOf(kind.of, pieces[i]) == Failure(e)
               && forall k | 0 <= k < i :: ScalarOf(kind.of, pieces[k]).Success?;
      ScalarIsRead(kind.of, pieces[i]);
    } else {
      ScalarIsRead(kind.of, text);
    }
  }

  lemma StoreFault(cfg: Config, store: Store, given: seq<Giving>, name: string, text: string)
    requires StoreHolds(cfg, store, given) && name in cfg.options
    requires StoreOption(store, cfg.options[name], text).Failure?
    ensures BadText(cfg.options[name].kind, text, StoreOption(store, cfg.options[name], text).error)
  {
    hide ParseInto, Initial, BadText, StoreHolds;
    var d := cfg.options[name];
    var slot := Slot(store.parsed, d.Key());
    HoldsIsOwned(cfg, store, given, name);
    ParseFault(d.kind, text, EnsureValue(slot, d).value);
  }

  lemma CheckedFault(cfg: Config, store: Store, given: seq<Giving>, name: string, rest: seq<string>)
    requires StoreHolds(cfg, store, given) && name in cfg.options
    requires CheckedParseArg(store, cfg.options[name], name, rest).Failure?
    ensures FlagFault(cfg, name, rest, CheckedParseArg(store, cfg.options[name], name, rest).error)
  {
    hide StoreOption, StoreHolds, BadText;
    var d := cfg.options[name];
    if d.hasImplicit || rest != [] {
      StoreFault(cfg, store, given, name, if d.hasImplicit then d.implicitText else rest[0]);
    }
  }

  lemma {:induction false} ClusterFault(
    cfg: Config, store: Store, given: seq<Giving>, letters: string, rest: seq<string>) returns (i: nat)
    requires DistinctKeys(cfg) && StoreHolds(cfg, store, given)
    requires ParseCluster(cfg, store, letters, rest).Failure?
    ensures LetterFault(cfg, letters, i, rest, ParseCluster(cfg, store, letters, rest).error)
    decreases |letters|
  {
    hide StoreOption, CheckedParseArg, StoreHolds, BadText, Parses, DistinctKeys, FlagFault;
    var name, others := letters[..1], letters[1..];
    assert name == [letters[0]];
    i := 0;
    if name !in cfg.options {
      if cfg.lenient {
        var j := ClusterFault(cfg, store, given, others, rest);
        LaterLetter(cfg, letters, j, rest, ParseCluster(cfg, store, letters, rest).error);
        i := j + 1;
      }
    } else if |letters| == 1 {
      CheckedFault(cfg, store, given, name, rest);
    } else if cfg.options[name].hasImplicit {
      var d := cfg.options[name];
      var s := StoreOption(store, d, d.implicitText);
      StoreWorks(cfg, store, given, name, d.implicitText);
      if s.Failure? {
        StoreFault(cfg, store, given, name, d.implicitText);
      } else {
        var j := ClusterFault(cfg, s.value, given + [Giving(d, d.implicitText)], others, rest);
        LaterLetter(cfg, letters, j, rest, ParseCluster(cfg, store, letters, rest).error);
        i := j + 1;
      }
    }
  }

  lemma LaterLetter(cfg: Config, letters: string, j: nat, rest: seq<string>, e: Error)
    requires letters != "" && LetterFault(cfg, letters[1..], j, rest, e) && GoodLetter(cfg, [letters[0]])
    ensures LetterFault(cfg, letters, j + 1, rest, e)
  {
    hide GoodLetter, FlagFault, BadText;
    forall k | 0 <= k < j + 1 ensures GoodLetter(cfg, [letters[k]]) {
      assert k > 0 ==> letters[k] == letters[1..][k - 1];
    }
  }

  lemma ConsumeFault(cfg: Config, store: Store, given: seq<Giving>, next: nat, token: string)
    requires StoreHolds(cfg, store, given) && next <= |cfg.positional|
    requires ConsumePositional(cfg, store, next, token).Failure?
    ensures OfferFault(cfg, given, next, token, ConsumePositional(cfg, store, next, token).error)
  {
    FreeSlotIsNext(cfg, store, given, next);
    ConsumeAtFreeSlot(cfg, store, next, token);
    hide StoreOption, StoreHolds, BadText, NextSlot, FreeSlot, ConsumePositional;
    var p := FreeSlot(cfg, store, next);
    if cfg.positional[p] in cfg.options {
      StoreFault(cfg, store, given, cfg.positional[p], token);
    }
  }

  lemma StepFault(cfg: Config, st: State, given: seq<Giving>, tokens: seq<string>)
    requires DistinctKeys(cfg) && StoreHolds(cfg, st.store, given) && st.next <= |cfg.positional|
    requires tokens != [] && tokens[0] != "--" && Step(cfg, st, tokens).Failure?
    ensures Fault(cfg, given, st.next, tokens, Step(cfg, st, tokens).error)
  {
    hide StoreOption, CheckedParseArg, ParseCluster, ConsumePositional, StoreHolds, BadText, DistinctKeys, Classify,
      FlagFault, LetterFault, OfferFault;
    match Classify(tokens[0])
    case Cluster(letters) =>
      var i := ClusterFault(cfg, st.store, given, letters, tokens[1..]);
      InLetters(cfg, letters, i, tokens[1..], ParseCluster(cfg, st.store, letters, tokens[1..]).error);
    case LongWithValue(name, text) =>
      if name in cfg.options {
        StoreFault(cfg, st.store, given, name, text);
      }
    case Long(name) =>
      if name in cfg.options {
        CheckedFault(cfg, st.store, given, name, tokens[1..]);
      }
    case _ =>
      if !("-" <= tokens[0] && tokens[0] != "-" && !cfg.lenient) {
        ConsumeFault(cfg, st.store, given, st.next, tokens[0]);
      }
  }

  lemma InLetters(cfg: Config, letters: string, i: nat, rest: seq<string>, e: Error)
    requires LetterFault(cfg, letters, i, rest, e)
    ensures i < |letters|
  {}

  /** The loop fails at the first faulty token, with its error; the tokens before it suit their roles. */
  lemma {:induction false} LoopFault(cfg: Config, st: State, ts: seq<string>, rs: seq<Role>, tokens: seq<string>)
    returns (k: nat, more: seq<Role>)
    requires DistinctKeys(cfg) && |ts| == |rs| && Matches(cfg, st, ts, rs) && st.next <= |cfg.positional|
    requires Loop(cfg, st, tokens).Failure?
    ensures k == |more| < |tokens|
    ensures MoreSuits(cfg, ts, rs, tokens[..k], more)
    ensures forall i | 0 <= i < k :: RoleFits(cfg, tokens[..k], more, i)
    ensures Fault(cfg, Given(cfg, ts + tokens[..k], rs + more), CursorAfter(cfg, rs + more), tokens[k..],
                  Loop(cfg, st, tokens).error)
    ensures (more != [] ==> !more[0].FlagValue?) && forall i | 0 <= i < k :: !more[i].Separator?
    decreases |tokens|
  {
    hide Step, StepRoles, Matches, MoreSuits, OfferSuits, AllParse, Given, OneTurn, DistinctKeys, CursorAfter, Fault,
      RoleFits;
    var m := Step(cfg, st, tokens);
    if m.Failure? {
      k, more := 0, [];
      HoldsSoFar(cfg, st, ts, rs);
      StepFault(cfg, st, Given(cfg, ts, rs), tokens);
      NothingMore(cfg, ts, rs);
      assert tokens[..0] == [] && ts + [] == ts && rs + [] == rs && tokens[0..] == tokens;
    } else {
      var first, w := StepRoles(cfg, st, tokens), m.value.width;
      var used, rest := tokens[..w], tokens[w..];
      TurnSuits(cfg, st, ts, rs, tokens);
      TurnRolesFit(cfg, st, tokens);
      TurnHasNoSeparator(cfg, used, first);
      OneTurnMore(cfg, ts, rs, used, first);
      var j, others := LoopFault(cfg, m.value.state, ts + used, rs + first, rest);
      k, more := w + j, first + others;
      MoreThenMore(cfg, ts, rs, used, first, rest[..j], others);
      SplitTurn(tokens, first, others);
      FitsConcat(cfg, used, first, rest[..j], others);
      Associative(ts, used, rest[..j]);
      Associative(rs, first, others);
    }
  }

  lemma TurnHasNoSeparator(cfg: Config, used: seq<string>, roles: seq<Role>)
    requires OneTurn(cfg, used, roles)
    ensures |used| == |roles| > 0 && !roles[0].FlagValue? && forall i | 0 <= i < |roles| :: !roles[i].Separator?
  {}

  // ---------- defaults and the tokens after the separator ----------

  /** The default of an option that was not given is no value of its type. */
  ghost predicate DefaultFault(cfg: Config, given: seq<Giving>, name: string, e: Error) {
    && name in cfg.options
    && var d := cfg.options[name];
       d.hasDefault && Times(given, d.Key()) == 0 && BadText(d.kind, d.defaultText, e)
  }

  lemma {:induction false} DefaultsFail(cfg: Config, store: Store, names: seq<string>) returns (i: nat)
    requires DistinctKeys(cfg) && AllRegistered(cfg, names) && ApplyDefaults(cfg, store, names).Failure?
    ensures i < |names|
    ensures var d := cfg.options[names[i]];
            DefaultedSlot(d, Slot(store.parsed, d.Key())) == Failure(ApplyDefaults(cfg, store, names).error)
    decreases |names|
  {
    hide ApplyDefault, DefaultedSlot;
    var d := cfg.options[names[0]];
    ApplyDefaultIsPointwise(store, d);
    SecondVisitChangesNothing(d, Slot(store.parsed, d.Key()));
    var first := ApplyDefault(store, d);
    if first.Failure? {
      i := 0;
    } else {
      var j := DefaultsFail(cfg, first.value, names[1..]);
      i := j + 1;
    }
  }

  lemma SlotFault(d: Details, slot: OptionValue)
    requires Owned(slot, d) && DefaultedSlot(d, slot).Failure?
    ensures d.hasDefault && slot.count == 0 && BadText(d.kind, d.defaultText, DefaultedSlot(d, slot).error)
  {
    hide ParseInto, Initial, BadText;
    ParseFault(d.kind, d.defaultText, EnsureValue(slot, d).value);
  }

  lemma DefaultsFault(cfg: Config, order: seq<string>, store: Store, given: seq<Giving>) returns (name: string)
    requires DistinctKeys(cfg) && IsOrder(cfg, order) && StoreHolds(cfg, store, given)
    requires ApplyDefaults(cfg, store, order).Failure?
    ensures DefaultFault(cfg, given, name, ApplyDefaults(cfg, store, order).error)
  {
    hide ApplyDefaults, DefaultedSlot, BadText, Times, TextsFor, Logged, Owned, SlotReplays;
    var i := DefaultsFail(cfg, store, order);
    name := order[i];
    HoldsIsOwned(cfg, store, given, name);
    SlotFault(cfg.options[name], Slot(store.parsed, cfg.options[name].Key()));
  }

  lemma {:induction false} RestFault(cfg: Config, st: State, ts: seq<string>, rs: seq<Role>, tokens: seq<string>)
    returns (k: nat, more: seq<Role>)
    requires DistinctKeys(cfg) && |ts| == |rs| && Matches(cfg, st, ts, rs) && st.next <= |cfg.positional|
    requires TakeRest(cfg, st, tokens).Failure?
    ensures k == |more| < |tokens|
    ensures MoreSuits(cfg, ts, rs, tokens[..k], more) && forall i | 0 <= i < k :: more[i].Positional?
    ensures OfferFault(cfg, Given(cfg, ts + tokens[..k], rs + more), CursorAfter(cfg, rs + more), tokens[k],
                       TakeRest(cfg, st, tokens).error)
    decreases |tokens|
  {
    hide ConsumePositional, Matches, MoreSuits, OfferSuits, AllParse, Given, DistinctKeys, CursorAfter, OfferedRole,
      OfferFault;
    var token, others := tokens[0], tokens[1..];
    HoldsSoFar(cfg, st, ts, rs);
    var r := ConsumePositional(cfg, st.store, st.next, token);
    if r.Failure? {
      k, more := 0, [];
      ConsumeFault(cfg, st.store, Given(cfg, ts, rs), st.next, token);
      NothingMore(cfg, ts, rs);
      assert tokens[..0] == [] && ts + [] == ts && rs + [] == rs;
    } else {
      var t, role := r.value, OfferedRole(cfg, st.store, st.next);
      OfferMovesCursor(cfg, st.store, st.next, token);
      CursorInRange(cfg, [role], st.next, t.next);
      OfferedRoleSuits(cfg, st.store, Given(cfg, ts, rs), st.next, token);
      OfferTurn(cfg, st, ts, rs, token, role);
      OneTurnMore(cfg, ts, rs, [token], [role]);
      var j, others' := RestFault(cfg, State(t.store, t.next, st.unmatched), ts + [token], rs + [role], others);
      k, more := 1 + j, [role] + others';
      MoreThenMore(cfg, ts, rs, [token], [role], others[..j], others');
      HeadAndTail(tokens, j);
      Associative(ts, [token], others[..j]);
      Associative(rs, [role], others');
    }
  }

  lemma HeadAndTail(tokens: seq<string>, j: nat)
    requires j + 1 < |tokens|
    ensures tokens[..1 + j] == [tokens[0]] + tokens[1..][..j] && tokens[1 + j] == tokens[1..][j]
  {}

  // ---------- causes ----------

  /** Some first tokens of a command line, with roles that suit them. */
  ghost predicate GoodStart(cfg: Config, args: seq<string>, rs: seq<Role>) {
    && |rs| <= |args|
    && MoreSuits(cfg, [], [], args[..|rs|], rs)
    && var n := LoopLength(rs);
       && (forall i | 0 <= i < n :: RoleFits(cfg, args[..n], rs[..n], i))
       && (forall i | n <= i < |rs| :: rs[i].Positional?)
       && (n < |rs| ==> MissingDefaultsParse(cfg, Given(cfg, args[..n], rs[..n])))
  }

  /** A token that the main loop cannot deal with, behind a good start without a separator. */
  ghost predicate LoopCause(cfg: Config, args: seq<string>, rs: seq<Role>, e: Error) {
    && GoodStart(cfg, args, rs) && (forall i | 0 <= i < |rs| :: !rs[i].Separator?)
    && Fault(cfg, Given(cfg, args[..|rs|], rs), CursorAfter(cfg, rs), args[|rs|..], e)
  }

  /** A missing default that is no value, once the main loop has run to its end or to the separator. */
  ghost predicate DefaultCause(cfg: Config, args: seq<string>, rs: seq<Role>, e: Error) {
    && GoodStart(cfg, args, rs) && LoopLength(rs) == |rs|
    && (|rs| < |args| ==> rs != [] && rs[|rs| - 1].Separator?)
    && exists name :: DefaultFault(cfg, Given(cfg, args[..|rs|], rs), name, e)
  }

  /** A token behind the separator that the positional options cannot take. */
  ghost predicate RestCause(cfg: Config, args: seq<string>, rs: seq<Role>, e: Error) {
    && GoodStart(cfg, args, rs) && |rs| < |args|
    && (exists i | 0 <= i < |rs| :: rs[i].Separator?)
    && OfferFault(cfg, Given(cfg, args[..|rs|], rs), CursorAfter(cfg, rs), args[|rs|], e)
  }

  lemma {:induction false} NoSeparatorInLoop(rs: seq<Role>)
    requires forall i | 0 <= i < |rs| :: !rs[i].Separator?
    ensures LoopLength(rs) == |rs|
  {
    if rs != [] {
      NoSeparatorInLoop(rs[1..]);
    }
  }

  lemma LoopHasCause(cfg: Config, args: seq<string>) returns (rs: seq<Role>)
    requires DistinctKeys(cfg) && Loop(cfg, START, args).Failure?
    ensures LoopCause(cfg, args, rs, Loop(cfg, START, args).error)
  {
    hide Loop, Matches, MoreSuits, Given, RoleFits, Fault, CursorAfter, DistinctKeys, LoopLength, MissingDefaultsParse;
    NothingMatches(cfg);
    var k, more := LoopFault(cfg, START, [], [], args);
    rs := more;
    assert [] + args[..k] == args[..k] && [] + rs == rs && rs[..k] == rs;
    NoSeparatorInLoop(rs);
  }

  /** The main loop has run, and its tokens are a good start. */
  lemma LoopIsGoodStart(cfg: Config, args: seq<string>)
    requires DistinctKeys(cfg) && Loop(cfg, START, args).Success?
    ensures var a, ended := LoopRoles(cfg, START, args), Loop(cfg, START, args).value;
            && GoodStart(cfg, args, a) && LoopLength(a) == |a|
            && (if ended.rest.None? then |a| == |args|
                else a != [] && a[|a| - 1].Separator? && ended.rest.value == args[|a|..])
            && Matches(cfg, ended.state, args[..|a|], a) && ended.state.next <= |cfg.positional|
  {
    hide Loop, Matches, MoreSuits, Given, RoleFits, CursorAfter, DistinctKeys, LoopLength, MissingDefaultsParse,
      Ledger, Leftover, CursorMoves, LoopRoles;
    var a := LoopRoles(cfg, START, args);
    LoopAccounts(cfg, START, args);
    LastIsOnlySeparator(cfg, args[..|a|], a);
    NothingMatches(cfg);
    LoopRolesSuit(cfg, START, [], [], args);
    LoopLengthIs(a, []);
    assert a + [] == a && [] + args[..|a|] == args[..|a|] && [] + a == a && a[..|a|] == a;
  }

  lemma RestHasCause(cfg: Config, args: seq<string>, st: State, a: seq<Role>) returns (rs: seq<Role>)
    requires DistinctKeys(cfg) && GoodStart(cfg, args, a) && LoopLength(a) == |a|
    requires a != [] && a[|a| - 1].Separator? && Matches(cfg, st, args[..|a|], a) && st.next <= |cfg.positional|
    requires MissingDefaultsParse(cfg, Given(cfg, args[..|a|], a))
    requires TakeRest(cfg, st, args[|a|..]).Failure?
    ensures RestCause(cfg, args, rs, TakeRest(cfg, st, args[|a|..]).error)
  {
    hide TakeRest, Matches, MoreSuits, Given, RoleFits, CursorAfter, DistinctKeys, LoopLength, MissingDefaultsParse,
      OfferFault;
    var used, rest := args[..|a|], args[|a|..];
    var k, more := RestFault(cfg, st, used, a, rest);
    rs := a + more;
    LoopLengthMeans(a);
    LoopLengthIs(a, more);
    assert [] + used == used && [] + a == a && a[..|a|] == a;
    MoreThenMore(cfg, [], [], used, a, rest[..k], more);
    assert args[..|rs|] == used + rest[..k] && args[|rs|] == rest[k];
    assert rs[..|a|] == a && args[..|a|] == used && a[..|a|] == a;
    assert rs[|a| - 1].Separator?;
  }

  /** Whatever is refused has a cause, and the error names it: the first token that the main loop cannot
      deal with, or else a missing default that is no value, or else the first token behind the separator
      that the positional options cannot take. */
  lemma EveryRefusalHasACause(cfg: Config, order: seq<string>, args: seq<string>) returns (rs: seq<Role>)
    requires DistinctKeys(cfg) && IsOrder(cfg, order) && Parse(cfg, order, args).Failure?
    ensures var e := Parse(cfg, order, args).error;
            LoopCause(cfg, args, rs, e) || DefaultCause(cfg, args, rs, e) || RestCause(cfg, args, rs, e)
  {
    hide Loop, ApplyDefaults, TakeRest, Matches, Given, CursorAfter, DistinctKeys, LoopLength, MissingDefaultsParse,
      GoodStart, Fault, OfferFault, DefaultFault, LoopRoles, StoreHolds, Aliases, EmplaceAll;
    var loop := Loop(cfg, START, args);
    if loop.Failure? {
      rs := LoopHasCause(cfg, args);
    } else {
      var a, ended := LoopRoles(cfg, START, args), loop.value;
      LoopIsGoodStart(cfg, args);
      var given := Given(cfg, args[..|a|], a);
      HoldsSoFar(cfg, ended.state, args[..|a|], a);
      var store := ApplyDefaults(cfg, ended.state.store, order);
      if store.Failure? {
        rs := a;
        var name := DefaultsFault(cfg, order, ended.state.store, given);
      } else {
        forall key ensures !Slot(ended.state.store.parsed, key).isDefault {
          LoopKeepsDefaultMark(cfg, START, args, key);
        }
        DefaultsHold(cfg, order, ended.state.store, given);
        var st := ended.state.(store := store.value);
        DefaultsMatch(cfg, ended.state, st, args[..|a|], a);
        rs := RestHasCause(cfg, args, st, a);
      }
    }
  }
}
