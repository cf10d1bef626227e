/** Which command lines are accepted: exactly those whose tokens have suiting roles, with texts and
    defaults that parse.  The log and the unmatched tokens are then those that the roles tell. */
module ArgvAcceptance {
  import opened Outcomes
  import opened OptionSyntax
  import opened OptionValues
  import opened OptionParsing
  import opened ArgvRoles
  import opened ParsedState

  // ---------- what makes a command line acceptable ----------

  /** How often an option was given. */
  function Times(given: seq<Giving>, key: string): nat {
    if given == [] then 0
    else Times(given[..|given| - 1], key) + if given[|given| - 1].option.Key() == key then 1 else 0
  }

  /** The text is a value of the option's type. */
  ghost predicate Parses(kind: Kind, text: string) {
    match kind
    case Scalar(of) => ScalarOf(of, text).Success?
    case Vector(of) => forall p | p in Pieces(text) :: ScalarOf(of, p).Success?
  }

  ghost predicate AllParse(given: seq<Giving>) {
    forall i | 0 <= i < |given| :: Parses(given[i].option.kind, given[i].text)
  }

  /** The positional slot to which the next positional token is offered. */
  function CursorAfter(cfg: Config, roles: seq<Role>): nat {
    if roles == [] then 0
    else
      match roles[|roles| - 1]
      case Positional(p) => if IsContainer(cfg, p) then p else p + 1
      case Refused => |cfg.positional|
      case _ => CursorAfter(cfg, roles[..|roles| - 1])
  }

  /** A positional token passes a slot by when its option is a scalar that has its value. */
  predicate Passed(cfg: Config, given: seq<Giving>, p: nat)
    requires p < |cfg.positional|
  {
    && cfg.positional[p] in cfg.options
    && !cfg.options[cfg.positional[p]].kind.Vector?
    && Times(given, cfg.options[cfg.positional[p]].Key()) > 0
  }

  /** `p` is the first slot from `lo` on that is not passed by, or the end. */
  predicate NextSlot(cfg: Config, given: seq<Giving>, lo: nat, p: nat) {
    && lo <= p <= |cfg.positional|
    && (forall q | lo <= q < p :: Passed(cfg, given, q))
    && (p < |cfg.positional| ==> !Passed(cfg, given, p))
  }

  /** A positional token goes to the next slot, which names an option; it is refused when there is none. */
  predicate OfferSuits(cfg: Config, given: seq<Giving>, lo: nat, role: Role) {
    match role
    case Positional(p) => p < |cfg.positional| && NextSlot(cfg, given, lo, p) && cfg.positional[p] in cfg.options
    case Refused => NextSlot(cfg, given, lo, |cfg.positional|)
    case _ => true
  }

  predicate SlotSuits(cfg: Config, args: seq<string>, roles: seq<Role>, i: nat)
    requires i < |args| == |roles|
  {
    OfferSuits(cfg, Given(cfg, args[..i], roles[..i]), CursorAfter(cfg, roles[..i]), roles[i])
  }

  /** The default of every option that was not given parses. */
  ghost predicate MissingDefaultsParse(cfg: Config, given: seq<Giving>) {
    forall n | n in cfg.options && cfg.options[n].hasDefault && Times(given, cfg.options[n].Key()) == 0 ::
      Parses(cfg.options[n].kind, cfg.options[n].defaultText)
  }

  ghost predicate Suits(cfg: Config, args: seq<string>, roles: seq<Role>) {
    && |roles| == |args|
    && (forall i | 0 <= i < |args| :: SlotSuits(cfg, args, roles, i))
    && AllParse(Given(cfg, args, roles))
    && var n := LoopLength(roles);
       && (forall i | 0 <= i < n :: RoleFits(cfg, args[..n], roles[..n], i))
       && (forall i | n <= i < |roles| :: roles[i].Positional? || roles[i].Refused?)
       && MissingDefaultsParse(cfg, Given(cfg, args[..n], roles[..n]))
  }

  // ---------- the store holds what was given ----------

  /** The texts that an option was given, in order. */
  function TextsFor(given: seq<Giving>, key: string): seq<string> {
    if given == [] then []
    else
      var last := given[|given| - 1];
      TextsFor(given[..|given| - 1], key) + if last.option.Key() == key then [last.text] else []
  }

  /** The log lists what was given, each option was counted as often, and its slot is what its texts
      leave. */
  ghost predicate StoreHolds(cfg: Config, store: Store, given: seq<Giving>) {
    && store.log == Logged(given)
    && (forall key :: Slot(store.parsed, key).count == Times(given, key))
    && (forall n | n in cfg.options ::
          var d := cfg.options[n];
          SlotReplays(Slot(store.parsed, d.Key()), d, TextsFor(given, d.Key())))
  }

  lemma HoldsIsOwned(cfg: Config, store: Store, given: seq<Giving>, name: string)
    requires StoreHolds(cfg, store, given) && name in cfg.options
    ensures Owned(Slot(store.parsed, cfg.options[name].Key()), cfg.options[name])
  {
    hide Times, TextsFor, Logged, Replay, Base;
    var d := cfg.options[name];
    assert SlotReplays(Slot(store.parsed, d.Key()), d, TextsFor(given, d.Key()));
  }

  lemma TimesAppend(given: seq<Giving>, g: Giving, key: string)
    ensures Times(given + [g], key) == Times(given, key) + if g.option.Key() == key then 1 else 0
    ensures TextsFor(given + [g], key) == TextsFor(given, key) + if g.option.Key() == key then [g.text] else []
  {
    assert (given + [g])[..|given|] == given;
  }

  lemma ParsesAnywhere(kind: Kind, text: string, store: Stored)
    ensures ParseInto(kind, text, store).Success? <==> Parses(kind, text)
    ensures ParseInto(kind, text, store).Failure? && ParseInto(kind, text, Initial(kind)).Failure? ==>
              ParseInto(kind, text, store).error == ParseInto(kind, text, Initial(kind)).error
  {
    hide ScalarOf, ScalarsOf, Pieces;
    if kind.Vector? {
      var pieces, r := Pieces(text), ScalarsOf(kind.of, Pieces(text));
      VectorIsRead(kind.of, pieces);
      if r.Success? {
        forall p | p in pieces ensures ScalarOf(kind.of, p).Success? {
          var i :| 0 <= i < |pieces| && pieces[i] == p;
          assert ScalarOf(kind.of, pieces[i]) == Success(r.value[i]);
        }
      } else {
        var i :| 0 <= i < |pieces| && ScalarOf(kind.of, pieces[i]) == Failure(r.error);
        assert pieces[i] in pieces;
      }
    }
  }

  /** Giving an option a text succeeds exactly if the text parses. */
  lemma StoreWorks(cfg: Config, store: Store, given: seq<Giving>, name: string, text: string)
    requires DistinctKeys(cfg) && StoreHolds(cfg, store, given) && name in cfg.options
    ensures var d := cfg.options[name]; var s := StoreOption(store, d, text);
            && (s.Success? <==> Parses(d.kind, text))
            && (s.Success? ==> StoreHolds(cfg, s.value, given + [Giving(d, text)]))
  {
    hide ParseInto, Initial, Parses, Times, TextsFor, Logged, SlotReplays;
    var d := cfg.options[name];
    var slot := Slot(store.parsed, d.Key());
    HoldsIsOwned(cfg, store, given, name);
    ParsesAnywhere(d.kind, text, EnsureValue(slot, d).value);
    var s := StoreOption(store, d, text);
    if s.Success? {
      var g := Giving(d, text);
      LoggedConcat(given, [g]);
      assert Logged([g]) == [KeyValue(d.longName, text)] by { LoggedOne(g); }
      forall key ensures Slot(s.value.parsed, key).count == Times(given + [g], key) {
        TimesAppend(given, g, key);
      }
      forall n | n in cfg.options
        ensures var d' := cfg.options[n];
                SlotReplays(Slot(s.value.parsed, d'.Key()), d', TextsFor(given + [g], d'.Key()))
      {
        var d' := cfg.options[n];
        assert SlotReplays(Slot(store.parsed, d'.Key()), d', TextsFor(given, d'.Key()));
        TimesAppend(given, g, d'.Key());
        if d' == d {
          StoredReplays(store, d, text, TextsFor(given, d.Key()));
        } else {
          assert TextsFor(given, d'.Key()) + [] == TextsFor(given, d'.Key());
        }
      }
    }
  }

  lemma LoggedOne(g: Giving)
    ensures Logged([g]) == [KeyValue(g.option.longName, g.text)]
  {}

  // ---------- flags ----------

  lemma AllParseConcat(a: seq<Giving>, b: seq<Giving>)
    ensures AllParse(a + b) <==> AllParse(a) && AllParse(b)
  {
    hide Parses;
    if AllParse(a + b) {
      assert forall i | 0 <= i < |a| :: a[i] == (a + b)[i];
      assert forall i | 0 <= i < |b| :: b[i] == (a + b)[|a| + i];
    }
  }

  lemma AllParseOne(g: Giving)
    ensures AllParse([g]) <==> Parses(g.option.kind, g.text)
  {
    hide Parses;
    if AllParse([g]) {
      assert [g][0] == g;
    }
  }

  /** The value that a flag takes off the tokens after it. */
  function ValueFor(needed: bool, rest: seq<string>): Option<string> {
    if needed && rest != [] then Some(rest[0]) else None
  }

  /** A flag without an attached text: it needs the next token exactly if it has no implicit value. */
  lemma CheckedOutcome(cfg: Config, store: Store, given: seq<Giving>, name: string, rest: seq<string>)
    requires DistinctKeys(cfg) && StoreHolds(cfg, store, given) && name in cfg.options
    ensures var d := cfg.options[name]; var a := CheckedParseArg(store, d, name, rest);
            var value := ValueFor(!d.hasImplicit, rest);
            var g := Giving(d, if value.Some? then value.value else d.implicitText);
            && (a.Success? <==> (d.hasImplicit || rest != []) && AllParse([g]))
            && (a.Success? ==>
                  && a.value.used == (if d.hasImplicit then 0 else 1)
                  && StoreHolds(cfg, a.value.store, given + [g]))
  {
    hide StoreOption, StoreHolds, AllParse, Parses, DistinctKeys;
    var d := cfg.options[name];
    var text := if d.hasImplicit then d.implicitText else if rest != [] then rest[0] else "";
    StoreWorks(cfg, store, given, name, text);
    AllParseOne(Giving(d, text));
  }

  /** A cluster is accepted exactly if its letters fit, it gets the value it needs, and all its texts
      parse. */
  lemma {:induction false} ClusterOutcome(
    cfg: Config, store: Store, given: seq<Giving>, letters: string, rest: seq<string>)
    requires DistinctKeys(cfg) && StoreHolds(cfg, store, given) && letters != ""
    ensures var needed := NeedsValue(cfg, letters[|letters| - 1..]);
            var entries := LetterEntries(cfg, letters, ValueFor(needed, rest));
            var a := ParseCluster(cfg, store, letters, rest);
            && (a.Success? <==> LettersFit(cfg, letters) && (needed ==> rest != []) && AllParse(entries))
            && (a.Success? ==>
                  && a.value.used == (if needed then 1 else 0)
                  && StoreHolds(cfg, a.value.store, given + entries))
    decreases |letters|
  {
    hide StoreOption, CheckedParseArg, StoreHolds, AllParse, DistinctKeys;
    var name, others := letters[..1], letters[1..];
    var value := ValueFor(NeedsValue(cfg, letters[|letters| - 1..]), rest);
    NothingGiven(cfg, given, value);
    if others == "" {
      assert letters[|letters| - 1..] == name;
      if name in cfg.options {
        CheckedOutcome(cfg, store, given, name, rest);
      }
    } else {
      assert letters[|letters| - 1..] == others[|others| - 1..];
      if name !in cfg.options {
        ClusterOutcome(cfg, store, given, others, rest);
      } else {
        var d := cfg.options[name];
        var g := Giving(d, d.implicitText);
        StoreWorks(cfg, store, given, name, d.implicitText);
        AllParseOne(g);
        AllParseConcat([g], LetterEntries(cfg, others, value));
        var s := StoreOption(store, d, d.implicitText);
        if s.Success? {
          ClusterOutcome(cfg, s.value, given + [g], others, rest);
          assert given + [g] + LetterEntries(cfg, others, value) == given + ([g] + LetterEntries(cfg, others, value));
        }
      }
    }
  }

  lemma NothingGiven(cfg: Config, given: seq<Giving>, value: Option<string>)
    ensures LetterEntries(cfg, "", value) == [] && AllParse([]) && given + [] == given && LettersFit(cfg, "")
    ensures forall g: Giving {:trigger [g]} :: [g] + [] == [g]
  {}

  /** One turn of the loop at a registered flag. */
  lemma FlagOutcome(cfg: Config, st: State, given: seq<Giving>, tokens: seq<string>)
    requires DistinctKeys(cfg) && StoreHolds(cfg, st.store, given)
    requires tokens != [] && tokens[0] != "--" && NamesFlag(cfg, tokens[0])
    ensures var needed := TakesNext(cfg, tokens[0]);
            var entries := FlagEntries(cfg, tokens[0], ValueFor(needed, tokens[1..]));
            var m := Step(cfg, st, tokens);
            && (m.Success? <==>
                  && (Classify(tokens[0]).Cluster? ==> LettersFit(cfg, Classify(tokens[0]).letters))
                  && (needed ==> |tokens| > 1) && AllParse(entries))
            && (m.Success? ==>
                  && m.value.width == (if needed then 2 else 1)
                  && m.value.state.next == st.next && m.value.state.unmatched == st.unmatched
                  && StoreHolds(cfg, m.value.state.store, given + entries))
  {
    hide StoreOption, CheckedParseArg, ParseCluster, StoreHolds, AllParse, Parses, DistinctKeys, Classify, LettersFit,
      LetterEntries;
    ClassifiedTokenIsInGrammar(tokens[0]);
    match Classify(tokens[0])
    case Cluster(letters) => ClusterOutcome(cfg, st.store, given, letters, tokens[1..]);
    case LongWithValue(name, text) =>
      StoreWorks(cfg, st.store, given, name, text);
      AllParseOne(Giving(cfg.options[name], text));
    case Long(name) => CheckedOutcome(cfg, st.store, given, name, tokens[1..]);
  }

  // ---------- positional tokens ----------

  lemma {:induction false} FreeSlotIsNext(cfg: Config, store: Store, given: seq<Giving>, next: nat)
    requires StoreHolds(cfg, store, given) && next <= |cfg.positional|
    ensures NextSlot(cfg, given, next, FreeSlot(cfg, store, next))
    decreases |cfg.positional| - next
  {
    hide Times, TextsFor, Logged, SlotReplays;
    if FreeSlot(cfg, store, next) != next {
      FreeSlotIsNext(cfg, store, given, next + 1);
    }
  }

  lemma NextSlotIsOne(cfg: Config, given: seq<Giving>, lo: nat, p: nat, p': nat)
    requires NextSlot(cfg, given, lo, p) && NextSlot(cfg, given, lo, p')
    ensures p == p'
  {
    hide Passed;
  }

  /** A token offered to the positional options goes to the next slot, if that names an option and the
      token is a value of its type. */
  lemma OfferOutcome(cfg: Config, store: Store, given: seq<Giving>, next: nat, p: nat, token: string)
    requires DistinctKeys(cfg) && StoreHolds(cfg, store, given) && NextSlot(cfg, given, next, p)
    ensures var t := ConsumePositional(cfg, store, next, token);
            if p == |cfg.positional| then t == Success(Taken(store, p, false))
            else
              && (t.Success? <==>
                    && cfg.positional[p] in cfg.options
                    && Parses(cfg.options[cfg.positional[p]].kind, token))
              && (t.Success? ==>
                    && t.value.accepted && t.value.next == (if IsContainer(cfg, p) then p else p + 1)
                    && StoreHolds(cfg, t.value.store, given + [Giving(cfg.options[cfg.positional[p]], token)]))
  {
    FreeSlotIsNext(cfg, store, given, next);
    NextSlotIsOne(cfg, given, next, p, FreeSlot(cfg, store, next));
    ConsumeAtFreeSlot(cfg, store, next, token);
    hide StoreOption, StoreHolds, Parses, DistinctKeys, NextSlot, FreeSlot, ConsumePositional;
    if p < |cfg.positional| && cfg.positional[p] in cfg.options {
      StoreWorks(cfg, store, given, cfg.positional[p], token);
    }
  }

  // ---------- tokens so far ----------

  /** The state is what the tokens so far have made of it, by their roles. */
  ghost predicate Matches(cfg: Config, st: State, ts: seq<string>, rs: seq<Role>)
    requires |ts| == |rs|
  {
    && StoreHolds(cfg, st.store, Given(cfg, ts, rs))
    && st.next == CursorAfter(cfg, rs) && st.unmatched == Leftover(ts, rs)
  }

  lemma NothingMatches(cfg: Config)
    ensures Matches(cfg, START, [], [])
  {}

  /** The roles of one turn of the loop: a flag, with its value if it needs one, or one other token. */
  predicate OneTurn(cfg: Config, used: seq<string>, roles: seq<Role>) {
    && |used| == |roles|
    && (|used| == 1 || (|used| == 2 && roles == [Flag, FlagValue]))
    && !roles[0].FlagValue? && !roles[0].Separator?
  }

  /** A turn at a flag with a suiting value. */
  lemma FlagTurn(cfg: Config, st: State, ts: seq<string>, rs: seq<Role>, used: seq<string>, roles: seq<Role>,
                 rest: seq<string>)
    requires DistinctKeys(cfg) && |ts| == |rs| && Matches(cfg, st, ts, rs)
    requires OneTurn(cfg, used, roles) && roles[0].Flag? && used[0] != "--" && NamesFlag(cfg, used[0])
    requires |used| == if TakesNext(cfg, used[0]) then 2 else 1
    ensures var m := Step(cfg, st, used + rest);
            && (m.Success? <==>
                  && (Classify(used[0]).Cluster? ==> LettersFit(cfg, Classify(used[0]).letters))
                  && AllParse(Given(cfg, used, roles)))
            && (m.Success? ==> m.value.width == |used| && Matches(cfg, m.value.state, ts + used, rs + roles))
  {
    hide StoreOption, Step, StoreHolds, AllParse, DistinctKeys, Classify, LettersFit, TakesNext, NamesFlag, Given,
      Leftover, FlagEntries;
    var tokens := used + rest;
    assert tokens[0] == used[0] && (|used| == 2 ==> tokens[1..][0] == used[1]);
    FlagOutcome(cfg, st, Given(cfg, ts, rs), tokens);
    StepLedger(cfg, used, roles);
    GivenConcat(cfg, ts, rs, used, roles);
    LeftoverConcat(ts, rs, used, roles);
    assert Leftover(ts, rs) + [] == Leftover(ts, rs);
    CursorUnmoved(cfg, rs, roles);
  }

  lemma CursorUnmoved(cfg: Config, rs: seq<Role>, roles: seq<Role>)
    requires |roles| <= 2 && forall i | 0 <= i < |roles| :: !roles[i].Positional? && !roles[i].Refused?
    ensures CursorAfter(cfg, rs + roles) == CursorAfter(cfg, rs)
  {
    if |roles| == 0 {
      assert rs + roles == rs;
    } else if |roles| == 1 {
      assert (rs + roles)[..|rs|] == rs;
    } else {
      assert (rs + roles)[..|rs| + 1] == rs + [roles[0]];
      assert (rs + [roles[0]])[..|rs|] == rs;
    }
  }

  lemma CursorMoved(cfg: Config, rs: seq<Role>, role: Role)
    ensures role.Positional? ==>
              CursorAfter(cfg, rs + [role]) == if IsContainer(cfg, role.slot) then role.slot else role.slot + 1
    ensures role.Refused? ==> CursorAfter(cfg, rs + [role]) == |cfg.positional|
  {}

  /** A turn at an unknown long flag, which is let through only in lenient mode. */
  lemma UnknownTurn(cfg: Config, st: State, ts: seq<string>, rs: seq<Role>, token: string, rest: seq<string>)
    requires |ts| == |rs| && Matches(cfg, st, ts, rs) && token != "--" && NamesUnknownLong(cfg, token)
    ensures var m := Step(cfg, st, [token] + rest);
            && (m.Success? <==> cfg.lenient)
            && (m.Success? ==> m.value.width == 1 && Matches(cfg, m.value.state, ts + [token], rs + [Unknown]))
  {
    hide StoreHolds, Classify, Given, Leftover, ParseCluster, ConsumePositional, StoreOption;
    StepLedger(cfg, [token], [Unknown]);
    GivenConcat(cfg, ts, rs, [token], [Unknown]);
    LeftoverConcat(ts, rs, [token], [Unknown]);
    assert Given(cfg, ts, rs) + [] == Given(cfg, ts, rs);
    CursorUnmoved(cfg, rs, [Unknown]);
  }

  /** What a positional token in some slot, or a refused one, gives. */
  lemma OfferedGives(cfg: Config, ts: seq<string>, rs: seq<Role>, token: string, role: Role)
    requires |ts| == |rs| && (role.Refused? || role.Positional?)
    requires role.Positional? ==> role.slot < |cfg.positional| && cfg.positional[role.slot] in cfg.options
    ensures Given(cfg, [token], [role])
         == if role.Refused? then [] else [Giving(cfg.options[cfg.positional[role.slot]], token)]
    ensures Given(cfg, ts + [token], rs + [role]) == Given(cfg, ts, rs) + Given(cfg, [token], [role])
    ensures Leftover(ts + [token], rs + [role]) == Leftover(ts, rs) + if role.Refused? then [token] else []
  {
    GivenConcat(cfg, ts, rs, [token], [role]);
    LeftoverConcat(ts, rs, [token], [role]);
    assert [token][1..] == [] && [role][1..] == [];
    NothingLeft(cfg);
  }

  /** A token that is offered to the positional options. */
  lemma OfferTurn(cfg: Config, st: State, ts: seq<string>, rs: seq<Role>, token: string, role: Role)
    requires DistinctKeys(cfg) && |ts| == |rs| && Matches(cfg, st, ts, rs)
    requires role.Positional? || role.Refused?
    requires OfferSuits(cfg, Given(cfg, ts, rs), st.next, role)
    ensures var t := ConsumePositional(cfg, st.store, st.next, token);
            && (t.Success? <==> AllParse(Given(cfg, [token], [role])))
            && (t.Success? ==>
                  && (t.value.accepted <==> role.Positional?)
                  && (!t.value.accepted ==> t.value.store == st.store && t.value.next == |cfg.positional|)
                  && Matches(cfg, State(t.value.store, t.value.next,
                                        if t.value.accepted then st.unmatched else st.unmatched + [token]),
                             ts + [token], rs + [role]))
  {
    hide StoreHolds, AllParse, Parses, DistinctKeys, NextSlot, Given, Leftover, CursorAfter, ConsumePositional;
    var p := if role.Refused? then |cfg.positional| else role.slot;
    OfferOutcome(cfg, st.store, Given(cfg, ts, rs), st.next, p, token);
    OfferedGives(cfg, ts, rs, token, role);
    CursorMoved(cfg, rs, role);
    if role.Positional? {
      AllParseOne(Giving(cfg.options[cfg.positional[p]], token));
      assert Leftover(ts, rs) + [] == Leftover(ts, rs);
    } else {
      assert AllParse([]) by { NothingGiven(cfg, [], None); }
      assert Given(cfg, ts, rs) + [] == Given(cfg, ts, rs);
    }
  }

  /** A turn with suiting roles succeeds exactly if its texts parse. */
  lemma TurnOutcome(cfg: Config, st: State, ts: seq<string>, rs: seq<Role>, used: seq<string>, roles: seq<Role>,
                    rest: seq<string>)
    requires DistinctKeys(cfg) && |ts| == |rs| && Matches(cfg, st, ts, rs)
    requires OneTurn(cfg, used, roles) && used[0] != "--"
    requires forall i | 0 <= i < |used| :: RoleFits(cfg, used, roles, i)
    requires OfferSuits(cfg, Given(cfg, ts, rs), CursorAfter(cfg, rs), roles[0])
    ensures var m := Step(cfg, st, used + rest);
            && (m.Success? <==> AllParse(Given(cfg, used, roles)))
            && (m.Success? ==> m.value.width == |used| && Matches(cfg, m.value.state, ts + used, rs + roles))
  {
    hide StoreHolds, AllParse, DistinctKeys, OfferSuits, Given, Leftover, CursorAfter, LettersFit, TakesNext, Classify,
      ConsumePositional, ParseCluster, StoreOption, CheckedParseArg;
    assert RoleFits(cfg, used, roles, 0);
    if roles[0].Flag? {
      assert |used| == 2 ==> RoleFits(cfg, used, roles, 1);
      hide Step, Matches;
      FlagTurn(cfg, st, ts, rs, used, roles, rest);
    } else {
      var token := used[0];
      assert used == [token] && roles == [roles[0]];
      assert (used + rest)[0] == token;
      if roles[0].Unknown? {
        UnknownTurn(cfg, st, ts, rs, token, rest);
        assert Given(cfg, used, roles) == [] by { StepLedger(cfg, used, roles); }
        assert AllParse([]) by { NothingGiven(cfg, [], None); }
      } else {
        OfferTurn(cfg, st, ts, rs, token, roles[0]);
      }
    }
  }

  // ---------- suiting roles are enough ----------

  lemma GivenSplit(cfg: Config, ts: seq<string>, rs: seq<Role>, j: nat)
    requires |ts| == |rs| && j <= |ts| && (j < |rs| ==> !rs[j].FlagValue?)
    ensures Given(cfg, ts, rs) == Given(cfg, ts[..j], rs[..j]) + Given(cfg, ts[j..], rs[j..])
  {
    assert ts == ts[..j] + ts[j..] && rs == rs[..j] + rs[j..];
    GivenConcat(cfg, ts[..j], rs[..j], ts[j..], rs[j..]);
  }

  /** The separator, if there is one, is the last token of the main loop. */
  lemma {:induction false} LoopLengthMeans(roles: seq<Role>)
    ensures var n := LoopLength(roles);
            && (forall i | 0 <= i < n - 1 :: !roles[i].Separator?)
            && (n < |roles| ==> n > 0 && roles[n - 1].Separator?)
  {
    if roles != [] && !roles[0].Separator? {
      LoopLengthMeans(roles[1..]);
      assert forall i | 1 <= i < |roles| :: roles[i] == roles[1..][i - 1];
    }
  }

  /** How many tokens the turn at `k` takes. */
  function TurnWidth(cfg: Config, args: seq<string>, roles: seq<Role>, k: nat): nat
    requires k < |args| == |roles|
  {
    if roles[k].Flag? && TakesNext(cfg, args[k]) then 2 else 1
  }

  /** What suiting roles say of the turn at `k`. */
  lemma TurnFits(cfg: Config, args: seq<string>, roles: seq<Role>, k: nat)
    requires Suits(cfg, args, roles) && k < LoopLength(roles) && !roles[k].FlagValue? && !roles[k].Separator?
    ensures var w := TurnWidth(cfg, args, roles, k);
            && args[k] != "--" && k + w <= LoopLength(roles)
            && (k + w < |roles| ==> !roles[k + w].FlagValue?)
            && var used, rs := args[k..k + w], roles[k..k + w];
               && OneTurn(cfg, used, rs)
               && forall i | 0 <= i < |used| :: RoleFits(cfg, used, rs, i)
  {
    hide SlotSuits, AllParse, MissingDefaultsParse, Given, Classify, LettersFit, TakesNext, NamesFlag, NamesUnknownLong,
      LoopLength;
    var n := LoopLength(roles);
    var w := TurnWidth(cfg, args, roles, k);
    assert RoleFits(cfg, args[..n], roles[..n], k);
    if k + 1 < n {
      assert RoleFits(cfg, args[..n], roles[..n], k + 1);
    }
    if k + w < n {
      assert RoleFits(cfg, args[..n], roles[..n], k + w);
    }
    var used, rs := args[k..k + w], roles[k..k + w];
    assert used[0] == args[k] && rs[0] == roles[k];
    if w == 2 {
      assert used[1] == args[k + 1] && rs[1] == roles[k + 1];
      assert rs == [Flag, FlagValue];
    }
  }

  /** The texts of a part parse, if all do. */
  lemma PartParses(cfg: Config, args: seq<string>, roles: seq<Role>, k: nat, w: nat)
    requires |args| == |roles| && k + w <= |args| && AllParse(Given(cfg, args, roles))
    requires k < |roles| ==> !roles[k].FlagValue?
    requires k + w < |roles| ==> !roles[k + w].FlagValue?
    ensures AllParse(Given(cfg, args[k..k + w], roles[k..k + w]))
  {
    hide AllParse, Given;
    GivenSplit(cfg, args, roles, k);
    AllParseConcat(Given(cfg, args[..k], roles[..k]), Given(cfg, args[k..], roles[k..]));
    GivenSplit(cfg, args[k..], roles[k..], w);
    assert args[k..][..w] == args[k..k + w] && roles[k..][..w] == roles[k..k + w];
    AllParseConcat(Given(cfg, args[k..k + w], roles[k..k + w]), Given(cfg, args[k..][w..], roles[k..][w..]));
  }

  /** The main loop runs through the tokens whose roles suit. */
  lemma {:induction false} LoopRuns(cfg: Config, args: seq<string>, roles: seq<Role>, k: nat, st: State)
    requires DistinctKeys(cfg) && Suits(cfg, args, roles) && k <= LoopLength(roles)
    requires k == LoopLength(roles) ==> k == |args|
    requires k < |roles| ==> !roles[k].FlagValue?
    requires Matches(cfg, st, args[..k], roles[..k])
    ensures var n := LoopLength(roles); var e := Loop(cfg, st, args[k..]);
            && e.Success?
            && Matches(cfg, e.value.state, args[..n], roles[..n])
            && (if e.value.rest.None? then n == |args| else e.value.rest == Some(args[n..]))
    decreases |args| - k
  {
    hide Step, Matches, AllParse, MissingDefaultsParse, Given, RoleFits, LoopLength, OneTurn, SlotSuits, DistinctKeys,
      TurnWidth;
    var n := LoopLength(roles);
    LoopLengthMeans(roles);
    if k < n {
      assert SlotSuits(cfg, args, roles, k);
      if roles[k].Separator? {
        SeparatorEnds(cfg, args, roles, k, st);
      } else {
        TurnFits(cfg, args, roles, k);
        var w := TurnWidth(cfg, args, roles, k);
        WidthIsPositive(cfg, args, roles, k);
        var used, rs, rest := args[k..k + w], roles[k..k + w], args[k + w..];
        assert args[k..] == used + rest && used[0] == args[k] && rs[0] == roles[k];
        PartParses(cfg, args, roles, k, w);
        SlotAt(cfg, args, roles, k);
        TurnOutcome(cfg, st, args[..k], roles[..k], used, rs, rest);
        var m := Step(cfg, st, args[k..]).value;
        assert args[..k] + used == args[..k + w] && roles[..k] + rs == roles[..k + w];
        assert args[k..][w..] == args[k + w..];
        if k + w == n && n < |args| {
          assert roles[n - 1].Separator?;
          LastOfTurn(cfg, args, roles, k);
        }
        LoopRuns(cfg, args, roles, k + w, m.state);
      }
    }
  }

  lemma WidthIsPositive(cfg: Config, args: seq<string>, roles: seq<Role>, k: nat)
    requires k < |args| == |roles|
    ensures 1 <= TurnWidth(cfg, args, roles, k) <= 2
  {}

  lemma SlotAt(cfg: Config, args: seq<string>, roles: seq<Role>, k: nat)
    requires k < |args| == |roles| && SlotSuits(cfg, args, roles, k)
    ensures OfferSuits(cfg, Given(cfg, args[..k], roles[..k]), CursorAfter(cfg, roles[..k]), roles[k])
  {}

  /** The last token of a turn is no separator. */
  lemma LastOfTurn(cfg: Config, args: seq<string>, roles: seq<Role>, k: nat)
    requires k < |args| == |roles| && k + TurnWidth(cfg, args, roles, k) <= |args|
    requires OneTurn(cfg, args[k..k + TurnWidth(cfg, args, roles, k)], roles[k..k + TurnWidth(cfg, args, roles, k)])
    ensures !roles[k + TurnWidth(cfg, args, roles, k) - 1].Separator?
  {
    hide TakesNext;
    var w := TurnWidth(cfg, args, roles, k);
    assert roles[k + w - 1] == roles[k..k + w][w - 1];
  }

  lemma SeparatorEnds(cfg: Config, args: seq<string>, roles: seq<Role>, k: nat, st: State)
    requires Suits(cfg, args, roles) && k < LoopLength(roles) && roles[k].Separator?
    requires Matches(cfg, st, args[..k], roles[..k])
    ensures k + 1 == LoopLength(roles) && Loop(cfg, st, args[k..]) == Success(Ended(st, Some(args[k + 1..])))
    ensures Matches(cfg, st, args[..k + 1], roles[..k + 1])
  {
    hide Step, StoreHolds, AllParse, MissingDefaultsParse, Given, SlotSuits, LoopLength, Leftover, CursorAfter,
      NamesFlag, NamesUnknownLong, LettersFit, TakesNext, Classify;
    var n := LoopLength(roles);
    assert RoleFits(cfg, args[..n], roles[..n], k);
    assert args[k..][1..] == args[k + 1..];
    assert args[..k + 1] == args[..k] + [args[k]] && roles[..k + 1] == roles[..k] + [Separator];
    GivenConcat(cfg, args[..k], roles[..k], [args[k]], [Separator]);
    LeftoverConcat(args[..k], roles[..k], [args[k]], [Separator]);
    SeparatorGivesNothing(cfg, args[k]);
    assert Given(cfg, args[..k], roles[..k]) + [] == Given(cfg, args[..k], roles[..k]);
    assert Leftover(args[..k], roles[..k]) + [] == Leftover(args[..k], roles[..k]);
    CursorUnmoved(cfg, roles[..k], [Separator]);
  }

  lemma SeparatorGivesNothing(cfg: Config, token: string)
    ensures Given(cfg, [token], [Separator]) == [] && Leftover([token], [Separator]) == []
  {
    assert [token][1..] == [] && [Separator][1..] == [];
    NothingLeft(cfg);
  }

  // ---------- the defaults ----------

  lemma DefaultOutcome(d: Details, slot: OptionValue)
    requires Owned(slot, d) && !slot.isDefault
    ensures DefaultedSlot(d, slot).Success? <==> !d.hasDefault || slot.count != 0 || Parses(d.kind, d.defaultText)
    ensures DefaultedSlot(d, slot).Success? ==>
              var after := DefaultedSlot(d, slot).value; after.count == slot.count && Owned(after, d)
  {
    hide ParseInto, Initial, Parses;
    ParsesAnywhere(d.kind, d.defaultText, Initial(d.kind));
  }

  /** The defaults are applied exactly if those that are missing parse, and nothing that was given
      changes. */
  lemma DefaultsHold(cfg: Config, order: seq<string>, store: Store, given: seq<Giving>)
    requires DistinctKeys(cfg) && IsOrder(cfg, order) && StoreHolds(cfg, store, given)
    requires forall key :: !Slot(store.parsed, key).isDefault
    ensures ApplyDefaults(cfg, store, order).Success? <==> MissingDefaultsParse(cfg, given)
    ensures ApplyDefaults(cfg, store, order).Success? ==>
              StoreHolds(cfg, ApplyDefaults(cfg, store, order).value, given)
  {
    hide ApplyDefaults, DefaultedSlot, Parses, Times, TextsFor, Logged, Owned, SlotReplays;
    DefaultsArePointwise(cfg, store, order);
    forall n | n in cfg.options
      ensures var d := cfg.options[n];
              DefaultedSlot(d, Slot(store.parsed, d.Key())).Success? <==>
              !d.hasDefault || Times(given, d.Key()) != 0 || Parses(d.kind, d.defaultText)
    {
      HoldsIsOwned(cfg, store, given, n);
      DefaultOutcome(cfg.options[n], Slot(store.parsed, cfg.options[n].Key()));
    }
    if MissingDefaultsParse(cfg, given) {
      forall i | 0 <= i < |order|
        ensures DefaultedSlot(cfg.options[order[i]], Slot(store.parsed, cfg.options[order[i]].Key())).Success?
      {}
    }
    if ApplyDefaults(cfg, store, order).Success? {
      forall n | n in cfg.options && cfg.options[n].hasDefault && Times(given, cfg.options[n].Key()) == 0
        ensures Parses(cfg.options[n].kind, cfg.options[n].defaultText)
      {
        var i := PlaceInOrder(cfg, order, n);
        assert DefaultedSlot(cfg.options[order[i]], Slot(store.parsed, cfg.options[order[i]].Key())).Success?;
      }
      DefaultsKeepHolding(cfg, order, store, given);
    }
  }

  lemma PlaceInOrder(cfg: Config, order: seq<string>, n: string) returns (i: nat)
    requires IsOrder(cfg, order) && n in cfg.options
    ensures i < |order| && order[i] == n
  {
    assert n in order;
    i :| 0 <= i < |order| && order[i] == n;
  }

  lemma DefaultsKeepHolding(cfg: Config, order: seq<string>, store: Store, given: seq<Giving>)
    requires DistinctKeys(cfg) && IsOrder(cfg, order) && StoreHolds(cfg, store, given)
    requires forall key :: !Slot(store.parsed, key).isDefault
    requires ApplyDefaults(cfg, store, order).Success?
    ensures StoreHolds(cfg, ApplyDefaults(cfg, store, order).value, given)
  {
    hide ApplyDefaults, DefaultedSlot, Parses, Times, TextsFor, Logged, Owned, SlotReplays, Visited;
    DefaultsArePointwise(cfg, store, order);
    var after := ApplyDefaults(cfg, store, order).value;
    forall key ensures Slot(after.parsed, key).count == Times(given, key) {
      if Visited(cfg, order, key) {
        var i := WhereVisited(cfg, order, key);
        HoldsIsOwned(cfg, store, given, order[i]);
        DefaultOutcome(cfg.options[order[i]], Slot(store.parsed, key));
      }
    }
    forall n | n in cfg.options
      ensures var d := cfg.options[n]; SlotReplays(Slot(after.parsed, d.Key()), d, TextsFor(given, d.Key()))
    {
      var i := PlaceInOrder(cfg, order, n);
      var d := cfg.options[n];
      assert SlotReplays(Slot(store.parsed, d.Key()), d, TextsFor(given, d.Key()));
      DefaultedReplays(d, Slot(store.parsed, d.Key()), TextsFor(given, d.Key()));
    }
  }

  // ---------- the tokens after the separator ----------

  /** After a refusal, only refusals suit. */
  lemma {:induction false} OnlyRefusals(cfg: Config, args: seq<string>, roles: seq<Role>, k: nat)
    requires Suits(cfg, args, roles) && LoopLength(roles) <= k <= |args|
    requires CursorAfter(cfg, roles[..k]) == |cfg.positional|
    ensures roles[k..] == seq(|roles| - k, i => Refused)
    decreases |args| - k
  {
    hide AllParse, MissingDefaultsParse, Given, LoopLength;
    if k < |args| {
      assert SlotSuits(cfg, args, roles, k);
      assert roles[..k + 1] == roles[..k] + [roles[k]];
      CursorMoved(cfg, roles[..k], roles[k]);
      OnlyRefusals(cfg, args, roles, k + 1);
      assert roles[k..] == [roles[k]] + roles[k + 1..];
    }
  }

  lemma RefusedTail(cfg: Config, ts: seq<string>, rs: seq<Role>, more: seq<string>)
    requires |ts| == |rs|
    ensures var roles := seq(|more|, i => Refused);
            && Given(cfg, ts + more, rs + roles) == Given(cfg, ts, rs)
            && Leftover(ts + more, rs + roles) == Leftover(ts, rs) + more
            && (more != [] ==> CursorAfter(cfg, rs + roles) == |cfg.positional|)
  {
    var roles := seq(|more|, i => Refused);
    AllRefused(cfg, more);
    GivenConcat(cfg, ts, rs, more, roles);
    LeftoverConcat(ts, rs, more, roles);
    NothingLogged(Given(cfg, more, roles));
    assert Given(cfg, ts, rs) + [] == Given(cfg, ts, rs);
  }

  lemma NothingLogged(list: seq<Giving>)
    requires Logged(list) == []
    ensures list == []
  {
    assert |Logged(list)| == |list|;
  }

  lemma {:induction false} RestRuns(cfg: Config, args: seq<string>, roles: seq<Role>, k: nat, st: State)
    requires DistinctKeys(cfg) && Suits(cfg, args, roles) && LoopLength(roles) <= k <= |args|
    requires Matches(cfg, st, args[..k], roles[..k])
    ensures var e := TakeRest(cfg, st, args[k..]);
            e.Success? && Matches(cfg, e.value, args, roles)
    decreases |args| - k
  {
    hide Matches, AllParse, MissingDefaultsParse, Given, RoleFits, LoopLength, SlotSuits, DistinctKeys,
      ConsumePositional, OfferSuits, CursorAfter;
    if k == |args| {
      assert args[..k] == args && roles[..k] == roles;
    } else {
      var token, role := args[k], roles[k];
      assert args[k..][0] == token && args[k..][1..] == args[k + 1..];
      assert SlotSuits(cfg, args, roles, k);
      SlotAt(cfg, args, roles, k);
      CursorIs(cfg, st, args[..k], roles[..k]);
      OfferTurn(cfg, st, args[..k], roles[..k], token, role);
      assert [token] == args[k..k + 1] && [role] == roles[k..k + 1];
      PartParses(cfg, args, roles, k, 1);
      assert args[..k + 1] == args[..k] + [token] && roles[..k + 1] == roles[..k] + [role];
      var t := ConsumePositional(cfg, st.store, st.next, token).value;
      if role.Positional? {
        RestRuns(cfg, args, roles, k + 1, State(t.store, t.next, st.unmatched));
      } else {
        CursorMoved(cfg, roles[..k], role);
        OnlyRefusals(cfg, args, roles, k + 1);
        assert roles[k..] == [role] + roles[k + 1..];
        StopMatches(cfg, st, t, args, roles, k);
      }
    }
  }

  lemma CursorIs(cfg: Config, st: State, ts: seq<string>, rs: seq<Role>)
    requires |ts| == |rs| && Matches(cfg, st, ts, rs)
    ensures st.next == CursorAfter(cfg, rs)
  {}

  lemma StopMatches(cfg: Config, st: State, t: Taken, args: seq<string>, roles: seq<Role>, k: nat)
    requires |args| == |roles| && k < |args| && Matches(cfg, st, args[..k], roles[..k])
    requires roles[k..] == [Refused] + seq(|roles| - k - 1, i => Refused)
    requires t.store == st.store && t.next == |cfg.positional|
    ensures Matches(cfg, State(t.store, t.next, st.unmatched + args[k..]), args, roles)
  {
    hide StoreHolds, Given, Leftover;
    assert args == args[..k] + args[k..] && roles == roles[..k] + roles[k..];
    assert roles[k..] == seq(|args[k..]|, i => Refused);
    RefusedTail(cfg, args[..k], roles[..k], args[k..]);
  }

  // ---------- acceptance ----------

  /** If some roles suit a command line, all its tokens are dealt with as the roles say. */
  lemma SuitingRolesAreConsumed(cfg: Config, order: seq<string>, args: seq<string>, roles: seq<Role>)
    requires DistinctKeys(cfg) && IsOrder(cfg, order) && Suits(cfg, args, roles)
    ensures Consume(cfg, order, args).Success? && Matches(cfg, Consume(cfg, order, args).value, args, roles)
  {
    hide Loop, ApplyDefaults, TakeRest, StoreHolds, Suits, Given, Leftover, LoopLength, DistinctKeys;
    assert args[0..] == args && args[..0] == [] && roles[..0] == [];
    StartSuits(cfg, args, roles);
    NothingMatches(cfg);
    LoopRuns(cfg, args, roles, 0, START);
    var n, ended := LoopLength(roles), Loop(cfg, START, args).value;
    forall key ensures !Slot(ended.state.store.parsed, key).isDefault {
      LoopKeepsDefaultMark(cfg, START, args, key);
    }
    DefaultsHold(cfg, order, ended.state.store, Given(cfg, args[..n], roles[..n]));
    var st := ended.state.(store := ApplyDefaults(cfg, ended.state.store, order).value);
    if ended.rest.None? {
      assert args[..n] == args && roles[..n] == roles;
    } else {
      RestRuns(cfg, args, roles, n, st);
    }
  }

  /** If some roles suit a command line, it is accepted, with the log and the unmatched tokens that the
      roles tell. */
  lemma SuitingRolesAreAccepted(cfg: Config, order: seq<string>, args: seq<string>, roles: seq<Role>)
    requires DistinctKeys(cfg) && IsOrder(cfg, order) && Suits(cfg, args, roles)
    ensures var r := Parse(cfg, order, args);
            && r.Success?
            && r.value.arguments == Ledger(cfg, args, roles)
            && r.value.unmatched == Leftover(args, roles)
  {
    hide Consume, StoreHolds, Suits, Given, Leftover, DistinctKeys, Aliases, EmplaceAll;
    StartSuits(cfg, args, roles);
    SuitingRolesAreConsumed(cfg, order, args, roles);
    LogIsLedger(cfg, Consume(cfg, order, args).value, args, roles);
  }

  lemma LogIsLedger(cfg: Config, st: State, ts: seq<string>, rs: seq<Role>)
    requires |ts| == |rs| && Matches(cfg, st, ts, rs)
    ensures st.store.log == Ledger(cfg, ts, rs) && st.unmatched == Leftover(ts, rs)
  {}

  /** Every option then has been counted once for each text that the tokens give it, and its value is what
      those texts leave when they are parsed, in order, into fresh storage or into its default. */
  lemma GivenTextsMakeValues(
    cfg: Config, order: seq<string>, args: seq<string>, roles: seq<Role>, name: string)
    requires DistinctKeys(cfg) && WellNamed(cfg) && IsOrder(cfg, order) && Suits(cfg, args, roles)
    requires name in cfg.options
    ensures Parse(cfg, order, args).Success?
    ensures var r := Parse(cfg, order, args).value;
            var texts := TextsFor(Given(cfg, args, roles), cfg.options[name].Key());
            && r.Lookup(name).Some? && r.Count(name) == |texts|
            && SlotReplays(r.Lookup(name).value, cfg.options[name], texts)
  {
    hide Consume, Suits, Given, Leftover, DistinctKeys, Aliases, EmplaceAll, Times, TextsFor, Logged, Replay, Base;
    StartSuits(cfg, args, roles);
    SuitingRolesAreConsumed(cfg, order, args, roles);
    var store := Consume(cfg, order, args).value.store;
    NamesResolve(cfg, order, store.parsed, name);
    var d := cfg.options[name];
    assert SlotReplays(Slot(store.parsed, d.Key()), d, TextsFor(Given(cfg, args, roles), d.Key()));
  }

  lemma StartSuits(cfg: Config, args: seq<string>, roles: seq<Role>)
    requires Suits(cfg, args, roles)
    ensures |args| == |roles| && (roles != [] ==> !roles[0].FlagValue?)
    ensures LoopLength(roles) == 0 ==> args == []
    ensures MissingDefaultsParse(cfg, Given(cfg, args[..LoopLength(roles)], roles[..LoopLength(roles)]))
  {
    hide SlotSuits, AllParse, MissingDefaultsParse, Given;
    if roles != [] {
      assert LoopLength(roles) > 0;
      assert RoleFits(cfg, args[..LoopLength(roles)], roles[..LoopLength(roles)], 0);
    }
  }

  // ---------- what is accepted has suiting roles ----------

  /** A positional token that was dealt with had a suiting slot. */
  lemma OfferedRoleSuits(cfg: Config, store: Store, given: seq<Giving>, next: nat, token: string)
    requires StoreHolds(cfg, store, given) && next <= |cfg.positional|
    requires ConsumePositional(cfg, store, next, token).Success?
    ensures OfferSuits(cfg, given, next, OfferedRole(cfg, store, next))
  {
    hide StoreHolds, NextSlot, StoreOption;
    FreeSlotIsNext(cfg, store, given, next);
    ConsumeAtFreeSlot(cfg, store, next, token);
    hide FreeSlot, ConsumePositional;
  }

  /** The roles of a turn that succeeds suit it. */
  lemma TurnSuits(cfg: Config, st: State, ts: seq<string>, rs: seq<Role>, tokens: seq<string>)
    requires DistinctKeys(cfg) && |ts| == |rs| && Matches(cfg, st, ts, rs) && st.next <= |cfg.positional|
    requires tokens != [] && tokens[0] != "--" && Step(cfg, st, tokens).Success?
    ensures var m, roles := Step(cfg, st, tokens).value, StepRoles(cfg, st, tokens);
            var used := tokens[..m.width];
            && OneTurn(cfg, used, roles)
            && OfferSuits(cfg, Given(cfg, ts, rs), CursorAfter(cfg, rs), roles[0])
            && AllParse(Given(cfg, used, roles))
            && Matches(cfg, m.state, ts + used, rs + roles)
            && m.state.next <= |cfg.positional|
  {
    hide Step, StepRoles, Matches, AllParse, OfferSuits, Given, RoleFits, OneTurn, DistinctKeys, CursorAfter;
    var m, roles := Step(cfg, st, tokens).value, StepRoles(cfg, st, tokens);
    var used := tokens[..m.width];
    TurnRolesFit(cfg, st, tokens);
    HoldsSoFar(cfg, st, ts, rs);
    RoleOfTurn(cfg, st, Given(cfg, ts, rs), tokens);
    assert tokens == used + tokens[m.width..];
    TurnOutcome(cfg, st, ts, rs, used, roles, tokens[m.width..]);
  }

  lemma HoldsSoFar(cfg: Config, st: State, ts: seq<string>, rs: seq<Role>)
    requires |ts| == |rs| && Matches(cfg, st, ts, rs)
    ensures StoreHolds(cfg, st.store, Given(cfg, ts, rs)) && st.next == CursorAfter(cfg, rs)
  {}

  lemma TurnRolesFit(cfg: Config, st: State, tokens: seq<string>)
    requires tokens != [] && tokens[0] != "--" && Step(cfg, st, tokens).Success? && st.next <= |cfg.positional|
    ensures var m, roles := Step(cfg, st, tokens).value, StepRoles(cfg, st, tokens);
            var used := tokens[..m.width];
            && OneTurn(cfg, used, roles)
            && (forall i | 0 <= i < |used| :: RoleFits(cfg, used, roles, i))
            && m.state.next <= |cfg.positional|
  {
    hide Step, CursorMoves, RoleFits, Ledger, Leftover, OfferedRole, NamesFlag, NamesUnknownLong;
    StepAccounts(cfg, st, tokens);
    StepHasNoSeparator(cfg, st, tokens);
    CursorInRange(cfg, StepRoles(cfg, st, tokens), st.next, Step(cfg, st, tokens).value.state.next);
  }

  lemma RoleOfTurn(cfg: Config, st: State, given: seq<Giving>, tokens: seq<string>)
    requires StoreHolds(cfg, st.store, given) && st.next <= |cfg.positional|
    requires tokens != [] && tokens[0] != "--" && Step(cfg, st, tokens).Success?
    ensures OfferSuits(cfg, given, st.next, StepRoles(cfg, st, tokens)[0])
    ensures |StepRoles(cfg, st, tokens)| == 2 ==> StepRoles(cfg, st, tokens) == [Flag, FlagValue]
  {
    hide StoreHolds, ConsumePositional, ParseCluster, CheckedParseArg, StoreOption, Classify, OfferedRole, NextSlot;
    ClassifiedTokenIsInGrammar(tokens[0]);
    if !NamesFlag(cfg, tokens[0]) && !NamesUnknownLong(cfg, tokens[0]) {
      OfferedRoleSuits(cfg, st.store, given, st.next, tokens[0]);
    }
  }

  /** The tokens from `|ts|` on suit their roles, and their texts parse. */
  ghost predicate MoreSuits(cfg: Config, ts: seq<string>, rs: seq<Role>, used: seq<string>, more: seq<Role>)
    requires |ts| == |rs|
  {
    && |used| == |more|
    && AllParse(Given(cfg, used, more))
    && forall i | |ts| <= i < |ts| + |used| :: SlotSuits(cfg, ts + used, rs + more, i)
  }

  lemma NothingMore(cfg: Config, ts: seq<string>, rs: seq<Role>)
    requires |ts| == |rs|
    ensures MoreSuits(cfg, ts, rs, [], [])
  {}

  lemma OneTurnMore(cfg: Config, ts: seq<string>, rs: seq<Role>, used: seq<string>, roles: seq<Role>)
    requires |ts| == |rs| && (OneTurn(cfg, used, roles) || (|used| == 1 && roles == [Separator]))
    requires AllParse(Given(cfg, used, roles))
    requires OfferSuits(cfg, Given(cfg, ts, rs), CursorAfter(cfg, rs), roles[0])
    ensures MoreSuits(cfg, ts, rs, used, roles)
  {
    hide AllParse, Given, CursorAfter;
    assert (ts + used)[..|ts|] == ts && (rs + roles)[..|rs|] == rs;
  }

  lemma MoreThenMore(
    cfg: Config, ts: seq<string>, rs: seq<Role>, a: seq<string>, ra: seq<Role>, b: seq<string>, rb: seq<Role>)
    requires |ts| == |rs| && MoreSuits(cfg, ts, rs, a, ra) && MoreSuits(cfg, ts + a, rs + ra, b, rb)
    requires rb != [] ==> !rb[0].FlagValue?
    ensures MoreSuits(cfg, ts, rs, a + b, ra + rb)
  {
    hide AllParse, Given, CursorAfter, OfferSuits;
    GivenConcat(cfg, a, ra, b, rb);
    AllParseConcat(Given(cfg, a, ra), Given(cfg, b, rb));
    var all, roles := ts + (a + b), rs + (ra + rb);
    assert all == ts + a + b && roles == rs + ra + rb;
    forall i | |ts| <= i < |ts| + |a + b| ensures SlotSuits(cfg, all, roles, i) {
      if i < |ts + a| {
        assert SlotSuits(cfg, ts + a, rs + ra, i);
        assert all[..i] == (ts + a)[..i] && roles[..i] == (rs + ra)[..i];
      } else {
        assert SlotSuits(cfg, ts + a + b, rs + ra + rb, i);
      }
    }
  }

  lemma {:induction false} LoopRolesSuit(cfg: Config, st: State, ts: seq<string>, rs: seq<Role>, tokens: seq<string>)
    requires DistinctKeys(cfg) && |ts| == |rs| && Matches(cfg, st, ts, rs) && st.next <= |cfg.positional|
    requires Loop(cfg, st, tokens).Success?
    ensures var more, e := LoopRoles(cfg, st, tokens), Loop(cfg, st, tokens).value;
            var used := tokens[..|more|];
            && MoreSuits(cfg, ts, rs, used, more)
            && Matches(cfg, e.state, ts + used, rs + more)
            && e.state.next <= |cfg.positional|
    decreases |tokens|
  {
    hide Step, StepRoles, Matches, MoreSuits, OfferSuits, AllParse, Given, OneTurn, DistinctKeys, CursorAfter;
    if tokens == [] {
      NothingMore(cfg, ts, rs);
      assert ts + [] == ts && rs + [] == rs;
    } else if tokens[0] == "--" {
      SeparatorSuits(cfg, st, ts, rs, tokens[0]);
      assert tokens[..1] == [tokens[0]];
    } else {
      TurnSuits(cfg, st, ts, rs, tokens);
      var m, first := Step(cfg, st, tokens).value, StepRoles(cfg, st, tokens);
      var used, rest := tokens[..m.width], tokens[m.width..];
      OneTurnMore(cfg, ts, rs, used, first);
      LoopRolesSuit(cfg, m.state, ts + used, rs + first, rest);
      var more := LoopRoles(cfg, m.state, rest);
      MoreThenMore(cfg, ts, rs, used, first, rest[..|more|], more);
      assert LoopRoles(cfg, st, tokens) == first + more;
      SplitTurn(tokens, first, more);
      Associative(ts, used, rest[..|more|]);
      Associative(rs, first, more);
    }
  }

  lemma SeparatorSuits(cfg: Config, st: State, ts: seq<string>, rs: seq<Role>, token: string)
    requires |ts| == |rs| && Matches(cfg, st, ts, rs)
    ensures MoreSuits(cfg, ts, rs, [token], [Separator])
    ensures Matches(cfg, st, ts + [token], rs + [Separator])
  {
    hide StoreHolds, Given, Leftover, CursorAfter, AllParse;
    SeparatorGivesNothing(cfg, token);
    NothingGiven(cfg, [], None);
    OneTurnMore(cfg, ts, rs, [token], [Separator]);
    GivenConcat(cfg, ts, rs, [token], [Separator]);
    LeftoverConcat(ts, rs, [token], [Separator]);
    CursorUnmoved(cfg, rs, [Separator]);
    assert Given(cfg, ts, rs) + [] == Given(cfg, ts, rs) && Leftover(ts, rs) + [] == Leftover(ts, rs);
  }

  lemma RefusalsSuit(cfg: Config, ts: seq<string>, rs: seq<Role>, more: seq<string>)
    requires |ts| == |rs| && CursorAfter(cfg, rs) == |cfg.positional|
    ensures MoreSuits(cfg, ts, rs, more, seq(|more|, i => Refused))
  {
    hide Given, Passed;
    var roles := seq(|more|, i => Refused);
    AllRefused(cfg, more);
    NothingLogged(Given(cfg, more, roles));
    forall i | |ts| <= i < |ts| + |more| ensures SlotSuits(cfg, ts + more, rs + roles, i) {
      var n := i - |ts|;
      assert (ts + more)[..i] == ts + more[..n] && (rs + roles)[..i] == rs + seq(n, i => Refused);
      RefusedTail(cfg, ts, rs, more[..n]);
      assert n == 0 ==> rs + seq(n, i => Refused) == rs;
    }
  }

  lemma {:induction false} RestRolesSuit(cfg: Config, st: State, ts: seq<string>, rs: seq<Role>, tokens: seq<string>)
    requires DistinctKeys(cfg) && |ts| == |rs| && Matches(cfg, st, ts, rs) && st.next <= |cfg.positional|
    requires TakeRest(cfg, st, tokens).Success?
    ensures MoreSuits(cfg, ts, rs, tokens, RestRoles(cfg, st, tokens))
    decreases |tokens|
  {
    hide ConsumePositional, Matches, MoreSuits, OfferSuits, AllParse, Given, DistinctKeys, CursorAfter, OfferedRole;
    if tokens == [] {
      NothingMore(cfg, ts, rs);
    } else {
      var token, others, role := tokens[0], tokens[1..], OfferedRole(cfg, st.store, st.next);
      var t := ConsumePositional(cfg, st.store, st.next, token).value;
      OfferMovesCursor(cfg, st.store, st.next, token);
      CursorInRange(cfg, [role], st.next, t.next);
      HoldsSoFar(cfg, st, ts, rs);
      OfferedRoleSuits(cfg, st.store, Given(cfg, ts, rs), st.next, token);
      OfferTurn(cfg, st, ts, rs, token, role);
      OneTurnMore(cfg, ts, rs, [token], [role]);
      assert tokens == [token] + others;
      if t.accepted {
        var st' := State(t.store, t.next, st.unmatched);
        RestRolesSuit(cfg, st', ts + [token], rs + [role], others);
        MoreThenMore(cfg, ts, rs, [token], [role], others, RestRoles(cfg, st', others));
      } else {
        CursorMoved(cfg, rs, role);
        RefusalsSuit(cfg, ts + [token], rs + [role], others);
        MoreThenMore(cfg, ts, rs, [token], [role], others, seq(|others|, i => Refused));
      }
    }
  }

  /** The roles of the main loop end where the loop ended. */
  lemma LoopLengthOfRoles(cfg: Config, order: seq<string>, args: seq<string>)
    requires IsOrder(cfg, order) && Parse(cfg, order, args).Success?
    ensures var n := LoopLength(Roles(cfg, order, args));
            var a, ended := LoopRoles(cfg, START, args), Loop(cfg, START, args).value;
            && n == |a| <= |args| && Roles(cfg, order, args)[..n] == a
            && (ended.rest.None? ==> |a| == |args|)
            && (ended.rest.Some? ==> ended.rest.value == args[|a|..])
  {
    hide Loop, ApplyDefaults, TakeRest, Ledger, Leftover, CursorMoves, RoleFits, LoopLength, LoopRoles, Aliases,
      EmplaceAll;
    var a := LoopRoles(cfg, START, args);
    LoopAccounts(cfg, START, args);
    LastIsOnlySeparator(cfg, args[..|a|], a);
    LoopLengthIs(a, Roles(cfg, order, args)[|a|..]);
    assert Roles(cfg, order, args) == a + Roles(cfg, order, args)[|a|..];
  }

  lemma AllMoreIsSuits(cfg: Config, args: seq<string>, roles: seq<Role>)
    requires MoreSuits(cfg, [], [], args, roles)
    ensures |roles| == |args| && AllParse(Given(cfg, args, roles))
    ensures forall i | 0 <= i < |args| :: SlotSuits(cfg, args, roles, i)
  {
    hide AllParse, Given, SlotSuits;
    assert [] + args == args && [] + roles == roles;
  }

  /** An accepted command line has suiting roles. */
  lemma AcceptedRolesSuit(cfg: Config, order: seq<string>, args: seq<string>)
    requires DistinctKeys(cfg) && IsOrder(cfg, order) && Parse(cfg, order, args).Success?
    ensures Suits(cfg, args, Roles(cfg, order, args))
  {
    hide Loop, ApplyDefaults, TakeRest, Matches, MoreSuits, AllParse, MissingDefaultsParse, Given, RoleFits, Ledger,
      Leftover, CursorMoves, LoopLength, SlotSuits, DistinctKeys, Aliases, EmplaceAll, LoopRoles, RestRoles;
    EveryTokenHasARole(cfg, order, args);
    LoopLengthOfRoles(cfg, order, args);
    NothingMatches(cfg);
    LoopRolesSuit(cfg, START, [], [], args);
    var a, ended := LoopRoles(cfg, START, args), Loop(cfg, START, args).value;
    var used, rest := args[..|a|], args[|a|..];
    assert [] + used == used && [] + a == a && args == used + rest;
    HoldsSoFar(cfg, ended.state, used, a);
    forall key ensures !Slot(ended.state.store.parsed, key).isDefault {
      LoopKeepsDefaultMark(cfg, START, args, key);
    }
    DefaultsHold(cfg, order, ended.state.store, Given(cfg, used, a));
    if ended.rest.Some? {
      var st := ended.state.(store := ApplyDefaults(cfg, ended.state.store, order).value);
      var b := RestRoles(cfg, st, rest);
      DefaultsMatch(cfg, ended.state, st, used, a);
      RestRolesSuit(cfg, st, used, a, rest);
      MoreThenMore(cfg, [], [], used, a, rest, b);
      assert Roles(cfg, order, args) == a + b;
    } else {
      assert used == args && Roles(cfg, order, args) == a + [] == a;
    }
    AllMoreIsSuits(cfg, args, Roles(cfg, order, args));
  }

  lemma DefaultsMatch(cfg: Config, st: State, after: State, ts: seq<string>, rs: seq<Role>)
    requires |ts| == |rs| && Matches(cfg, st, ts, rs) && StoreHolds(cfg, after.store, Given(cfg, ts, rs))
    requires after.next == st.next && after.unmatched == st.unmatched
    ensures Matches(cfg, after, ts, rs)
  {}

  /** A command line is accepted if and only if some roles suit it. */
  lemma AcceptedExactlyIfRolesSuit(cfg: Config, order: seq<string>, args: seq<string>)
    requires DistinctKeys(cfg) && IsOrder(cfg, order)
    ensures Parse(cfg, order, args).Success? <==> exists roles :: Suits(cfg, args, roles)
  {
    hide Parse, Suits, IsOrder, DistinctKeys;
    OrderIsRegistered(cfg, order);
    if Parse(cfg, order, args).Success? {
      var roles := SuitingRoles(cfg, order, args);
    }
    if exists roles :: Suits(cfg, args, roles) {
      var roles :| Suits(cfg, args, roles);
      SuitingRolesAreAccepted(cfg, order, args, roles);
    }
  }

  lemma SuitingRoles(cfg: Config, order: seq<string>, args: seq<string>) returns (roles: seq<Role>)
    requires DistinctKeys(cfg) && IsOrder(cfg, order) && Parse(cfg, order, args).Success?
    ensures Suits(cfg, args, roles)
  {
    AcceptedRolesSuit(cfg, order, args);
    roles := Roles(cfg, order, args);
  }
}
